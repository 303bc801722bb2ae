/** The key deriver `generate_image_key`: the object-store key of one image,
    `{model}/posts/{post_id}/image_{index:03d}{ext}`, with the extension
    chosen by `get_image_extension`. `:03d` pads to AT LEAST three digits:
    index 1000 simply gives four. */
module Keys {
  import opened Wrappers
  import opened Text
  import Urls

  const PostsSegment: string := "/posts/"
  const ImageStem: string := "/image_"
  const IndexWidth: nat := 3

  /** The key layout for an already-chosen extension. */
  function KeyFor(model: string, postId: string, index: nat, ext: string): string {
    model + PostsSegment + postId + ImageStem + ZeroPadded(index, IndexWidth) + ext
  }

  /** `generate_image_key(url, model_name, post_id, image_index)`. */
  function GenerateImageKey(url: string, model: string, postId: string, index: nat): (key: string)
    ensures StartsWith(key, model + PostsSegment + postId + ImageStem)
    ensures EndsWith(key, Urls.ImageExtension(url))
  {
    var ext := Urls.ImageExtension(url);
    var key := KeyFor(model, postId, index, ext);
    assert key == (model + PostsSegment + postId + ImageStem) + (ZeroPadded(index, IndexWidth) + ext);
    assert key == (model + PostsSegment + postId + ImageStem + ZeroPadded(index, IndexWidth)) + ext;
    key
  }

  /** What a key records: the post id, the image index and the extension. */
  datatype KeyParts = KeyParts(postId: string, index: nat, ext: string)

  /** The index and extension from `{digits}.{ext}`: at least three digits
      before the last `.`. */
  function ParseNumbered(numbered: string): Option<(nat, string)> {
    match SplitLast(numbered, '.')
    case None => None
    case Some((digits, ext)) =>
      if |digits| < IndexWidth || !AllDigits(digits) then None
      else Some((DecimalValue(digits), "." + ext))
  }

  /** The parts from `{post_id}/image_{digits}{ext}`: the post id is what
      precedes `/image` before the last `_`. */
  function ParseTail(tail: string): Option<KeyParts> {
    match SplitLast(tail, '_')
    case None => None
    case Some((head, numbered)) =>
      if !EndsWith(head, "/image") then None
      else
        match ParseNumbered(numbered)
        case None => None
        case Some((index, ext)) => Some(KeyParts(head[..|head| - 6], index, ext))
  }

  /** The inverse of the key layout, for keys under `model`: the extension is
      what follows the last `.`, the index the digits between the last `_`
      and that dot, and the post id what sits between `{model}/posts/` and
      `/image_`. */
  function ParseKey(model: string, key: string): Option<KeyParts> {
    var prefix := model + PostsSegment;
    if !StartsWith(key, prefix) then None
    else ParseTail(key[|prefix|..])
  }

  /** The four accepted extensions start with their only dot and have no `_`. */
  lemma AllowedExtensionShape(ext: string)
    requires ext in Urls.AllowedExtensions
    ensures |ext| > 0 && ext[0] == '.' && '.' !in ext[1..] && '_' !in ext
  {
    if ext == ".jpg" {
      assert ext[1..] == "jpg";
    } else if ext == ".jpeg" {
      assert ext[1..] == "jpeg";
    } else if ext == ".png" {
      assert ext[1..] == "png";
    } else {
      assert ext[1..] == "webp";
    }
  }

  /** The numbered part `{digits}{ext}` splits at the extension's dot. */
  lemma NumberedSplit(digits: string, ext: string)
    requires AllDigits(digits)
    requires ext in Urls.AllowedExtensions
    ensures SplitLast(digits + ext, '.') == Some((digits, ext[1..]))
    ensures '_' !in digits + ext
  {
    AllowedExtensionShape(ext);
    assert digits + ext == digits + ['.'] + ext[1..];
    SplitLastAround(digits, '.', ext[1..]);
    assert '_' !in digits by {
      forall i | 0 <= i < |digits|
        ensures IsDigit(digits[i])
      {
      }
    }
  }

  /** The part after `{model}/posts/` splits at the `_` of `image_`. */
  lemma TailSplit(postId: string, numbered: string)
    requires '_' !in numbered
    ensures SplitLast(postId + ImageStem + numbered, '_') == Some((postId + "/image", numbered))
    ensures EndsWith(postId + "/image", "/image")
    ensures (postId + "/image")[..|postId|] == postId
  {
    assert postId + ImageStem + numbered == (postId + "/image") + ['_'] + numbered;
    SplitLastAround(postId + "/image", '_', numbered);
  }

  lemma ParseNumberedRoundTrip(index: nat, ext: string)
    requires ext in Urls.AllowedExtensions
    ensures ParseNumbered(ZeroPadded(index, IndexWidth) + ext) == Some((index, ext))
  {
    var digits := ZeroPadded(index, IndexWidth);
    ZeroPaddedValue(index, IndexWidth);
    NumberedSplit(digits, ext);
    AllowedExtensionShape(ext);
    assert "." + ext[1..] == ext;
  }

  lemma ParseTailRoundTrip(postId: string, index: nat, ext: string)
    requires ext in Urls.AllowedExtensions
    ensures ParseTail(postId + ImageStem + ZeroPadded(index, IndexWidth) + ext) == Some(KeyParts(postId, index, ext))
  {
    var digits := ZeroPadded(index, IndexWidth);
    ZeroPaddedValue(index, IndexWidth);
    var numbered := digits + ext;
    NumberedSplit(digits, ext);
    TailSplit(postId, numbered);
    ParseNumberedRoundTrip(index, ext);
    assert postId + ImageStem + digits + ext == postId + ImageStem + numbered;
  }

  /** Decoding a derived key gives back exactly the post id, index and
      extension it was built from. */
  lemma KeyRoundTrip(model: string, postId: string, index: nat, ext: string)
    requires ext in Urls.AllowedExtensions
    ensures ParseKey(model, KeyFor(model, postId, index, ext)) == Some(KeyParts(postId, index, ext))
  {
    var prefix := model + PostsSegment;
    var tail := postId + ImageStem + ZeroPadded(index, IndexWidth) + ext;
    var key := KeyFor(model, postId, index, ext);
    assert key == prefix + tail;
    assert key[|prefix|..] == tail;
    ParseTailRoundTrip(postId, index, ext);
  }

  /** Keys under one model are injective: equal keys come from the same post
      id, index and extension, and conversely. */
  lemma KeyInjective(model: string, p1: string, i1: nat, e1: string, p2: string, i2: nat, e2: string)
    requires e1 in Urls.AllowedExtensions && e2 in Urls.AllowedExtensions
    ensures KeyFor(model, p1, i1, e1) == KeyFor(model, p2, i2, e2) <==> (p1 == p2 && i1 == i2 && e1 == e2)
  {
    KeyRoundTrip(model, p1, i1, e1);
    KeyRoundTrip(model, p2, i2, e2);
  }

  /** For a fixed model and extension, `(post_id, index)` determines the key
      and the key determines `(post_id, index)`. */
  lemma GeneratedKeyInjective(model: string, u1: string, p1: string, i1: nat, u2: string, p2: string, i2: nat)
    requires Urls.ImageExtension(u1) == Urls.ImageExtension(u2)
    ensures GenerateImageKey(u1, model, p1, i1) == GenerateImageKey(u2, model, p2, i2) <==> (p1 == p2 && i1 == i2)
  {
    KeyInjective(model, p1, i1, Urls.ImageExtension(u1), p2, i2, Urls.ImageExtension(u2));
  }

  /** Two images of the same post at the same index (the `displayUrl` and
      `images[0]`, both index 0) share a key exactly when their URLs
      normalise to the same extension. */
  lemma SameSlotSharesKeyIffSameExtension(model: string, postId: string, index: nat, u1: string, u2: string)
    ensures GenerateImageKey(u1, model, postId, index) == GenerateImageKey(u2, model, postId, index)
        <==> Urls.ImageExtension(u1) == Urls.ImageExtension(u2)
  {
    KeyInjective(model, postId, index, Urls.ImageExtension(u1), postId, index, Urls.ImageExtension(u2));
  }

  /** Images of posts with different ids never share a key, even when their
      source URLs are identical. */
  lemma DistinctPostsDistinctKeys(model: string, u1: string, p1: string, i1: nat, u2: string, p2: string, i2: nat)
    requires p1 != p2
    ensures GenerateImageKey(u1, model, p1, i1) != GenerateImageKey(u2, model, p2, i2)
  {
    KeyInjective(model, p1, i1, Urls.ImageExtension(u1), p2, i2, Urls.ImageExtension(u2));
  }

  /** The index field has exactly three digits below 1000 and widens beyond
      that instead of failing or wrapping; it always reads back as the index. */
  lemma IndexFieldWidth(index: nat)
    ensures index < 1000 ==> |ZeroPadded(index, IndexWidth)| == 3
    ensures index >= 1000 ==> ZeroPadded(index, IndexWidth) == DecimalDigits(index) && |DecimalDigits(index)| > 3
    ensures DecimalValue(ZeroPadded(index, IndexWidth)) == index
  {
    DecimalDigitsShort(index);
    ZeroPaddedValue(index, IndexWidth);
  }
}
