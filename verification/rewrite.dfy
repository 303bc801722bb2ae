/** The record rewriter that runs after the uploads: a `displayUrl` that is
    a key of the URL mapping is replaced by its new URL, and a truthy
    `images` list becomes `[url_mapping.get(u, u) for u in images]`. */
module Rewrite {
  import opened Wrappers
  import opened Tasks

  /** `mapping.get(u, u)`. */
  function MapGet(mapping: map<string, string>, u: string): string {
    if u in mapping then mapping[u] else u
  }

  function RewriteImages(images: seq<string>, mapping: map<string, string>): (r: seq<string>)
    ensures |r| == |images|
    ensures forall i :: 0 <= i < |images| ==> r[i] == MapGet(mapping, images[i])
  {
    seq(|images|, i requires 0 <= i < |images| => MapGet(mapping, images[i]))
  }

  function RewritePost(p: Post, mapping: map<string, string>): (q: Post)
    // The id is kept, and the `images` field keeps its presence and its length.
    ensures q.id == p.id
    ensures q.images.Some? == p.images.Some? && |Images(q)| == |Images(p)|
    // Each image is replaced by its new URL when it has one and kept otherwise.
    ensures forall i :: 0 <= i < |Images(p)| ==>
      Images(q)[i] == (if Images(p)[i] in mapping then mapping[Images(p)[i]] else Images(p)[i])
    // The `displayUrl` changes only when it is a mapping key, and then to its new URL.
    ensures q.displayUrl != p.displayUrl ==> p.displayUrl.Some? && p.displayUrl.value in mapping
    ensures p.displayUrl.Some? && p.displayUrl.value in mapping ==> q.displayUrl == Some(mapping[p.displayUrl.value])
  {
    var display :=
      if p.displayUrl.Some? && p.displayUrl.value in mapping then Some(mapping[p.displayUrl.value])
      else p.displayUrl;
    var images := if |Images(p)| > 0 then Some(RewriteImages(Images(p), mapping)) else p.images;
    Post(p.id, display, images)
  }

  /** The loop `for post in posts`. */
  function RewritePosts(posts: seq<Post>, mapping: map<string, string>): (r: seq<Post>)
    ensures |r| == |posts|
    ensures forall k :: 0 <= k < |posts| ==> r[k] == RewritePost(posts[k], mapping)
  {
    seq(|posts|, k requires 0 <= k < |posts| => RewritePost(posts[k], mapping))
  }

  // ----- Properties -----

  /** No new URL is itself a source URL with a different new URL. */
  predicate FixedValues(mapping: map<string, string>) {
    forall k :: k in mapping && mapping[k] in mapping ==> mapping[mapping[k]] == mapping[k]
  }

  /** None of the post's URLs is a mapping key. */
  predicate Unmapped(p: Post, mapping: map<string, string>) {
    (p.displayUrl.None? || p.displayUrl.value !in mapping)
    && forall i :: 0 <= i < |Images(p)| ==> Images(p)[i] !in mapping
  }

  /** The post count, the order (ids in place) and every `images` length are
      preserved, and a post none of whose URLs is a mapping key comes out
      unchanged. */
  lemma RewritePreservesShape(posts: seq<Post>, mapping: map<string, string>)
    ensures var out := RewritePosts(posts, mapping);
      |out| == |posts|
      && (forall k :: 0 <= k < |posts| ==> out[k].id == posts[k].id && |Images(out[k])| == |Images(posts[k])|)
      && (forall k :: 0 <= k < |posts| && Unmapped(posts[k], mapping) ==> out[k] == posts[k])
  {
    var out := RewritePosts(posts, mapping);
    forall k | 0 <= k < |posts| && Unmapped(posts[k], mapping)
      ensures out[k] == posts[k]
    {
      var p := posts[k];
      if |Images(p)| > 0 {
        assert RewriteImages(Images(p), mapping) == Images(p);
      }
    }
  }

  lemma RewriteImagesIdempotent(images: seq<string>, mapping: map<string, string>)
    requires FixedValues(mapping)
    ensures RewriteImages(RewriteImages(images, mapping), mapping) == RewriteImages(images, mapping)
  {
  }

  /** Rewriting twice is rewriting once, provided no new URL is a source
      URL mapped elsewhere (true when S3 URLs never appear as sources). */
  lemma RewriteIdempotent(posts: seq<Post>, mapping: map<string, string>)
    requires FixedValues(mapping)
    ensures RewritePosts(RewritePosts(posts, mapping), mapping) == RewritePosts(posts, mapping)
  {
    var once := RewritePosts(posts, mapping);
    forall k | 0 <= k < |posts|
      ensures RewritePost(once[k], mapping) == once[k]
    {
      var p := posts[k];
      if |Images(p)| > 0 {
        RewriteImagesIdempotent(Images(p), mapping);
      }
    }
  }

  /** Without that proviso a second pass can rewrite again: with `a -> b`
      and `b -> c`, a `displayUrl` of `a` becomes `b`, then `c`. */
  lemma RewriteTwiceCanDiffer()
    ensures var mapping := map["a" := "b", "b" := "c"];
      var p := Post(None, Some("a"), None);
      RewritePost(p, mapping).displayUrl == Some("b")
      && RewritePost(RewritePost(p, mapping), mapping).displayUrl == Some("c")
  {
  }
}
