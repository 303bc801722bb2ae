/** The upload side of one image: the content type `upload_to_s3` infers
    from the key, the `put_object` request it issues, and `process_image`,
    which downloads, uploads and answers with the pair (source URL, public
    URL) or with `(None, None)`. Whether `put_object` raises is a parameter. */
module Store {
  import opened Wrappers
  import opened Text
  import Urls
  import Keys
  import Fetch

  const JpegType: string := "image/jpeg"
  const PngType: string := "image/png"
  const WebpType: string := "image/webp"
  const CacheControl: string := "public, max-age=31536000"

  /** The content type chosen from the key's suffix, `.png` checked first. */
  function ContentType(key: string): (t: string)
    ensures t == PngType <==> EndsWith(key, ".png")
    ensures t == WebpType <==> EndsWith(key, ".webp")
    ensures t == JpegType <==> !EndsWith(key, ".png") && !EndsWith(key, ".webp")
  {
    if EndsWith(key, ".png") then
      assert key[|key| - 1] == 'g';
      PngType
    else if EndsWith(key, ".webp") then
      assert key[|key| - 1] == 'p';
      WebpType
    else JpegType
  }

  /** The `put_object` call `upload_to_s3` makes. */
  datatype PutObject = PutObject(bucket: string, key: string, body: Fetch.Bytes, contentType: string, cacheControl: string)

  function UploadRequest(bucket: string, key: string, data: Fetch.Bytes): PutObject {
    PutObject(bucket, key, data, ContentType(key), CacheControl)
  }

  /** The S3 URL of an uploaded key. */
  function PublicUrlPrefix(bucket: string, region: string): string {
    "https://" + bucket + ".s3." + region + ".amazonaws.com/"
  }

  function PublicUrl(bucket: string, region: string, key: string): (u: string)
    ensures StartsWith(u, PublicUrlPrefix(bucket, region))
    ensures u[|PublicUrlPrefix(bucket, region)|..] == key
  {
    PublicUrlPrefix(bucket, region) + key
  }

  /** What `process_image` hands back: the pair of URLs, or `(None, None)`. */
  datatype TaskResult = Migrated(oldUrl: string, newUrl: string) | NotMigrated

  /** The result of one `process_image` call together with the upload it
      issued, if any. */
  datatype Processed = Processed(result: TaskResult, upload: Option<PutObject>)

  /** `if not image_data`: `None` and an empty body are both falsy. */
  predicate Truthy(data: Option<Fetch.Bytes>) {
    data.Some? && data.value != []
  }

  /** `process_image((url, s3_client, bucket, key, region))`, where the
      download meets `outcomes` and `putSucceeds` says whether `put_object`
      returns normally. */
  function ProcessImage(url: string, bucket: string, key: string, region: string,
                        outcomes: seq<Fetch.Outcome>, policy: Fetch.ReportPolicy, putSucceeds: bool): (p: Processed)
    // An upload is attempted exactly when the download produced a non-empty body, and it carries that body.
    ensures p.upload.Some? <==> Truthy(Fetch.Download(outcomes, policy).body)
    ensures p.upload.Some? ==>
      p.upload.value.body == Fetch.Download(outcomes, policy).body.value
      && p.upload.value.bucket == bucket && p.upload.value.key == key
      && p.upload.value.contentType == ContentType(key) && p.upload.value.cacheControl == CacheControl
    // A pair comes back only after a truthy download and a successful upload.
    ensures p.result.Migrated? <==> Truthy(Fetch.Download(outcomes, policy).body) && putSucceeds
    ensures p.result.Migrated? ==> p.result.oldUrl == url && p.result.newUrl == PublicUrl(bucket, region, key)
  {
    var data := Fetch.Download(outcomes, policy).body;
    if !Truthy(data) then Processed(NotMigrated, None)
    else
      var put := UploadRequest(bucket, key, data.value);
      if putSucceeds then Processed(Migrated(url, PublicUrl(bucket, region, key)), Some(put))
      else Processed(NotMigrated, Some(put))
  }

  // ----- Properties -----

  lemma JpgContentType(stem: string)
    ensures ContentType(stem + ".jpg") == JpegType
  {
    var key := stem + ".jpg";
    assert key[|key| - 4..] == ".jpg";
    assert key[|key| - 4] == '.' && key[|key| - 1] == 'g';
  }

  lemma JpegContentType(stem: string)
    ensures ContentType(stem + ".jpeg") == JpegType
  {
    var key := stem + ".jpeg";
    assert key[|key| - 5..] == ".jpeg";
    assert key[|key| - 4] == 'j' && key[|key| - 1] == 'g';
  }

  lemma PngContentType(stem: string)
    ensures ContentType(stem + ".png") == PngType
  {
    var key := stem + ".png";
    assert key[|key| - 4..] == ".png";
  }

  lemma WebpContentType(stem: string)
    ensures ContentType(stem + ".webp") == WebpType
  {
    var key := stem + ".webp";
    assert key[|key| - 5..] == ".webp";
    assert key[|key| - 1] == 'p';
  }

  /** For a derived key the content type follows the normalised extension:
      PNG for `.png`, WebP for `.webp`, JPEG for `.jpg` and `.jpeg`. */
  lemma ContentTypeOfExtension(model: string, postId: string, index: nat, ext: string)
    requires ext in Urls.AllowedExtensions
    ensures ContentType(Keys.KeyFor(model, postId, index, ext)) ==
      (if ext == ".png" then PngType else if ext == ".webp" then WebpType else JpegType)
  {
    var stem := model + Keys.PostsSegment + postId + Keys.ImageStem + ZeroPadded(index, Keys.IndexWidth);
    assert Keys.KeyFor(model, postId, index, ext) == stem + ext;
    if ext == ".jpg" {
      JpgContentType(stem);
    } else if ext == ".jpeg" {
      JpegContentType(stem);
    } else if ext == ".png" {
      PngContentType(stem);
    } else {
      WebpContentType(stem);
    }
  }

  /** The key can be read back from the public URL, so distinct keys in one
      bucket and region get distinct public URLs. */
  lemma PublicUrlInjective(bucket: string, region: string, k1: string, k2: string)
    ensures PublicUrl(bucket, region, k1) == PublicUrl(bucket, region, k2) <==> k1 == k2
  {
  }

  /** An empty 200 body is a failure: no upload, no pair. */
  lemma EmptyBodyIsFailure(url: string, bucket: string, key: string, region: string, policy: Fetch.ReportPolicy, putSucceeds: bool)
    ensures ProcessImage(url, bucket, key, region, [Fetch.Response(Fetch.StatusOk, [])], policy, putSucceeds) == Processed(NotMigrated, None)
  {
    Fetch.FirstAttemptOk([Fetch.Response(Fetch.StatusOk, [])], policy);
  }
}
