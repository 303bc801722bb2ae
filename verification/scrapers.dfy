/** The pure flattening steps of the scrapers.

    - `extract_image_urls` (scripts/scrape_instagram_async.py) and
      `extract_product_images` (scripts/scrape_instagram.py) turn each
      scraped post into one flat record whose `images` list is the truthy
      `displayUrl` followed by the truthy `displayUrl` of each child post.
      They differ in their fields and defaults.
    - `extract_products` (scripts/scrape_isme_full_website.py) keeps the
      crawled pages whose `url` contains `/products/`.

    Posts and pages are JSON objects. A malformed field that makes Python
    raise is a `Failure` naming the position of the post or page. */
module Scrapers {
  import opened Wrappers
  import opened Text
  import opened Json

  type Dict = map<string, Value>

  const DisplayUrlKey: string := "displayUrl"
  const ChildPostsKey: string := "childPosts"

  // ----- The image list -----

  datatype PostError = MalformedChildPosts(postIndex: nat)

  /** The iteration `for child in post['childPosts']` with `child.get(...)`
      when `childPosts` is truthy: it succeeds only on a list of dicts.
      Iterating a non-empty string or dict yields strings, which have no
      `get`; a number or `True` is not iterable. */
  function ChildPosts(post: Dict): Option<seq<Dict>> {
    var v := Get(post, ChildPostsKey);
    if !Truthy(v) then Some([])
    else if v.Array? && forall i :: 0 <= i < |v.items| ==> v.items[i].Object? then
      Some(seq(|v.items|, i requires 0 <= i < |v.items| => v.items[i].fields))
    else None
  }

  /** The inner loop: the truthy `displayUrl` of each child, in child order. */
  function ChildDisplays(children: seq<Dict>): (r: seq<Value>)
    ensures |r| <= |children|
    ensures forall j :: 0 <= j < |r| ==> Truthy(r[j])
  {
    if |children| == 0 then []
    else
      var d := Get(children[0], DisplayUrlKey);
      (if Truthy(d) then [d] else []) + ChildDisplays(children[1..])
  }

  /** The `images` list of one post whose children are known. */
  function PostImages(post: Dict, children: seq<Dict>): (r: seq<Value>)
    ensures |r| <= 1 + |children|
    ensures forall j :: 0 <= j < |r| ==> Truthy(r[j])
  {
    var d := Get(post, DisplayUrlKey);
    (if Truthy(d) then [d] else []) + ChildDisplays(children)
  }

  /** Reference definition: the `displayUrl` of the post and then of each
      child, missing ones as `None`, ... */
  function Candidates(post: Dict, children: seq<Dict>): (r: seq<Value>)
    ensures |r| == 1 + |children|
  {
    [Get(post, DisplayUrlKey)] + seq(|children|, i requires 0 <= i < |children| => Get(children[i], DisplayUrlKey))
  }

  /** ... of which the truthy ones are kept, in order. */
  function TruthyOnly(vs: seq<Value>): (r: seq<Value>)
    decreases |vs|
  {
    if |vs| == 0 then []
    else if Truthy(vs[|vs| - 1]) then TruthyOnly(vs[..|vs| - 1]) + [vs[|vs| - 1]]
    else TruthyOnly(vs[..|vs| - 1])
  }

  // ----- extract_image_urls and extract_product_images -----

  /** The record `extract_image_urls` builds; `videoUrl` is `None` when the
      `video_url` key is not added. */
  datatype SimplifiedPost = SimplifiedPost(
    postId: Value, url: Value, caption: Value, kind: Value, timestamp: Value,
    likes: Value, comments: Value, images: seq<Value>, videoUrl: Option<Value>)

  /** The record `extract_product_images` builds. */
  datatype ProductImages = ProductImages(
    id: Value, shortcode: Value, url: Value, caption: Value, timestamp: Value,
    likes: Value, comments: Value, images: seq<Value>)

  const VideoType: Value := Str("Video")

  function SimplifyPost(post: Dict, postIdx: nat): (r: Result<SimplifiedPost, PostError>)
    ensures r.Success? <==> ChildPosts(post).Some?
    ensures r.Failure? ==> r.error == MalformedChildPosts(postIdx)
    ensures r.Success? ==> r.value.images == PostImages(post, ChildPosts(post).value)
    // Missing counts become 0 and a missing caption the empty string.
    ensures r.Success? ==>
      r.value.postId == Get(post, "id")
      && r.value.likes == GetOr(post, "likesCount", Num(0))
      && r.value.comments == GetOr(post, "commentsCount", Num(0))
      && r.value.caption == GetOr(post, "caption", Str(""))
    // `video_url` is added for a video with a truthy `displayUrl`, possibly as `None`.
    ensures r.Success? ==>
      (r.value.videoUrl.Some? <==> Get(post, "type") == VideoType && Truthy(Get(post, DisplayUrlKey)))
      && (r.value.videoUrl.Some? ==> r.value.videoUrl.value == Get(post, "videoUrl"))
  {
    match ChildPosts(post)
    case None => Failure(MalformedChildPosts(postIdx))
    case Some(children) =>
      var video :=
        if Get(post, "type") == VideoType && Truthy(Get(post, DisplayUrlKey)) then Some(Get(post, "videoUrl"))
        else None;
      Success(SimplifiedPost(
        Get(post, "id"), Get(post, "url"), GetOr(post, "caption", Str("")), Get(post, "type"),
        Get(post, "timestamp"), GetOr(post, "likesCount", Num(0)), GetOr(post, "commentsCount", Num(0)),
        PostImages(post, children), video))
  }

  function ProductImagesOf(post: Dict, postIdx: nat): (r: Result<ProductImages, PostError>)
    ensures r.Success? <==> ChildPosts(post).Some?
    ensures r.Failure? ==> r.error == MalformedChildPosts(postIdx)
    ensures r.Success? ==> r.value.images == PostImages(post, ChildPosts(post).value)
    // Missing counts stay `None`; a missing caption becomes the empty string.
    ensures r.Success? ==>
      r.value.id == Get(post, "id") && r.value.shortcode == Get(post, "shortCode")
      && r.value.likes == Get(post, "likesCount") && r.value.comments == Get(post, "commentsCount")
      && r.value.caption == GetOr(post, "caption", Str(""))
  {
    match ChildPosts(post)
    case None => Failure(MalformedChildPosts(postIdx))
    case Some(children) =>
      Success(ProductImages(
        Get(post, "id"), Get(post, "shortCode"), Get(post, "url"), GetOr(post, "caption", Str("")),
        Get(post, "timestamp"), Get(post, "likesCount"), Get(post, "commentsCount"),
        PostImages(post, children)))
  }

  /** The loop `for post in data`, appending one record per post; the first
      post that raises stops it. */
  function MapPosts<T>(data: seq<Dict>, f: (Dict, nat) -> Result<T, PostError>): (r: Result<seq<T>, PostError>)
    ensures r.Success? ==> |r.value| == |data|
    ensures r.Success? ==> forall k :: 0 <= k < |data| ==> f(data[k], k) == Success(r.value[k])
    ensures r.Success? <==> forall k :: 0 <= k < |data| ==> f(data[k], k).Success?
    ensures r.Failure? ==> exists k :: (0 <= k < |data| && f(data[k], k) == Failure(r.error)
      && forall j :: 0 <= j < k ==> f(data[j], j).Success?)
    decreases |data|
  {
    if |data| == 0 then Success([])
    else
      var n := |data| - 1;
      assert forall k :: 0 <= k < n ==> data[..n][k] == data[k];
      match MapPosts(data[..n], f)
      case Failure(e) => Failure(e)
      case Success(prev) =>
        match f(data[n], n)
        case Failure(e) => Failure(e)
        case Success(x) => Success(prev + [x])
  }

  /** `extract_image_urls(data)`. */
  function ExtractImageUrls(data: seq<Dict>): (r: Result<seq<SimplifiedPost>, PostError>)
    ensures r.Success? ==> |r.value| == |data|
  {
    MapPosts(data, SimplifyPost)
  }

  /** `extract_product_images(data)`. */
  function ExtractProductImages(data: seq<Dict>): (r: Result<seq<ProductImages>, PostError>)
    ensures r.Success? ==> |r.value| == |data|
  {
    MapPosts(data, ProductImagesOf)
  }

  // ----- extract_products -----

  datatype PageError = UrlNotSearchable(pageIndex: nat) | NotADict(pageIndex: nat, field: string)

  const ProductsMarker: string := "/products/"

  /** `'/products/' in url`: a substring test on a string, membership in a
      list or among a dict's keys, and a `TypeError` (here `None`) for
      anything else, `None` included. */
  function MentionsProducts(url: Value): (r: Option<bool>)
    // Only strings, lists and dicts support `in`.
    ensures r.None? <==> !(url.Str? || url.Array? || url.Object?)
    // On a string it is a substring test: the marker occurs at some position.
    ensures url.Str? ==> (r == Some(true) <==> Occurs(url.s, ProductsMarker))
    // On a list it is element equality, on a dict a key lookup.
    ensures url.Array? ==> (r == Some(true) <==> exists i :: 0 <= i < |url.items| && url.items[i] == Str(ProductsMarker))
    ensures url.Object? ==> (r == Some(true) <==> ProductsMarker in url.fields.Keys)
  {
    match url
    case Str(s) => ContainsIffOccurs(s, ProductsMarker); Some(Contains(s, ProductsMarker))
    case Array(items) => Some(Str(ProductsMarker) in items)
    case Object(fields) => Some(ProductsMarker in fields)
    case _ => None
  }

  /** `page.get(field, {}).get(key, '')`: `None` when the field holds
      something other than a dict, which has no `get`. */
  function Nested(page: Dict, field: string, key: string): (r: Option<Value>)
    ensures field !in page ==> r == Some(Str(""))
    // A dict field gives the key's value, or `''` when the key is absent.
    ensures field in page && page[field].Object? ==>
      r == Some(if key in page[field].fields then page[field].fields[key] else Str(""))
    // Any other value in the field raises `AttributeError`.
    ensures field in page && !page[field].Object? ==> r.None?
  {
    match GetOr(page, field, Object(map[]))
    case Object(inner) => Some(GetOr(inner, key, Str("")))
    case _ => None
  }

  datatype Product = Product(url: Value, title: Value, description: Value, text: Value,
                             markdown: Value, crawledAt: Value)

  /** The record of one product page, its fields read in the order Python
      evaluates them. */
  function ProductOf(page: Dict, pageIdx: nat): (r: Result<Product, PageError>)
    ensures r.Success? <==> Nested(page, "metadata", "title").Some? && Nested(page, "crawl", "loadedTime").Some?
    ensures r.Success? ==>
      r.value.url == GetOr(page, "url", Str(""))
      && r.value.text == GetOr(page, "text", Str("")) && r.value.markdown == GetOr(page, "markdown", Str(""))
    // Missing metadata gives empty title and description; a missing crawl an empty time.
    ensures r.Success? && "metadata" !in page ==> r.value.title == Str("") && r.value.description == Str("")
    ensures r.Success? && "crawl" !in page ==> r.value.crawledAt == Str("")
    // Otherwise they are the page's `metadata.title`, `metadata.description`
    // and `crawl.loadedTime`, each `''` when its key is absent.
    ensures r.Success? ==>
      r.value.title == Nested(page, "metadata", "title").value
      && r.value.description == Nested(page, "metadata", "description").value
      && r.value.crawledAt == Nested(page, "crawl", "loadedTime").value
    ensures r.Success? && "metadata" in page && page["metadata"].Object? && "title" in page["metadata"].fields ==>
      r.value.title == page["metadata"].fields["title"]
    ensures r.Success? && "crawl" in page && page["crawl"].Object? && "loadedTime" in page["crawl"].fields ==>
      r.value.crawledAt == page["crawl"].fields["loadedTime"]
  {
    var url := GetOr(page, "url", Str(""));
    match Nested(page, "metadata", "title")
    case None => Failure(NotADict(pageIdx, "metadata"))
    case Some(title) =>
      var description := Nested(page, "metadata", "description").value;
      match Nested(page, "crawl", "loadedTime")
      case None => Failure(NotADict(pageIdx, "crawl"))
      case Some(crawledAt) =>
        Success(Product(url, title, description, GetOr(page, "text", Str("")), GetOr(page, "markdown", Str("")), crawledAt))
  }

  /** A page `extract_products` keeps. */
  predicate IsProductPage(page: Dict) {
    MentionsProducts(GetOr(page, "url", Str(""))) == Some(true)
  }

  /** What one page contributes: its record if it is a product page,
      nothing otherwise. */
  function PageProducts(page: Dict, pageIdx: nat): (r: Result<seq<Product>, PageError>)
    ensures r.Success? ==> (|r.value| == 0 <==> !IsProductPage(page)) && |r.value| <= 1
    ensures r.Success? && IsProductPage(page) ==>
      ProductOf(page, pageIdx).Success? && r.value == [ProductOf(page, pageIdx).value]
    ensures r.Success? ==> forall j :: 0 <= j < |r.value| ==> MentionsProducts(r.value[j].url) == Some(true)
    // A `url` that is no string, list or dict raises `TypeError`, even on a page that would be dropped.
    ensures MentionsProducts(GetOr(page, "url", Str(""))).None? ==> r == Failure(UrlNotSearchable(pageIdx))
  {
    match MentionsProducts(GetOr(page, "url", Str("")))
    case None => Failure(UrlNotSearchable(pageIdx))
    case Some(false) => Success([])
    case Some(true) =>
      match ProductOf(page, pageIdx)
      case Failure(e) => Failure(e)
      case Success(product) => Success([product])
  }

  /** `extract_products(data)`, over the pages from the front; `offset` is the
      position of `pages[0]` in the whole list. */
  function ProductsFrom(pages: seq<Dict>, offset: nat): (r: Result<seq<Product>, PageError>)
    ensures r.Success? ==> |r.value| <= |pages|
    ensures r.Success? ==> forall j :: 0 <= j < |r.value| ==> MentionsProducts(r.value[j].url) == Some(true)
    decreases |pages|
  {
    if |pages| == 0 then Success([])
    else Chain(PageProducts(pages[0], offset), ProductsFrom(pages[1..], offset + 1))
  }

  /** One page's records in front of the rest; the first error stops the loop. */
  function Chain(first: Result<seq<Product>, PageError>, rest: Result<seq<Product>, PageError>): (r: Result<seq<Product>, PageError>)
    ensures r.Success? <==> first.Success? && rest.Success?
    ensures r.Success? ==> r.value == first.value + rest.value
    ensures first.Failure? ==> r == first
  {
    match first
    case Failure(e) => Failure(e)
    case Success(mine) =>
      match rest
      case Failure(e) => Failure(e)
      case Success(more) => Success(mine + more)
  }

  function ExtractProducts(pages: seq<Dict>): (r: Result<seq<Product>, PageError>)
    ensures r.Success? ==> |r.value| <= |pages|
    // Every record kept is one whose `url` mentions `/products/`.
    ensures r.Success? ==> forall j :: 0 <= j < |r.value| ==> MentionsProducts(r.value[j].url) == Some(true)
  {
    ProductsFrom(pages, 0)
  }

  /** The number of product pages, counted from the back. */
  function ProductPageCount(pages: seq<Dict>): nat {
    if |pages| == 0 then 0
    else ProductPageCount(pages[..|pages| - 1]) + (if IsProductPage(pages[|pages| - 1]) then 1 else 0)
  }

  // ----- Properties of the image lists -----

  lemma {:induction false} TruthyOnlyAppend(a: seq<Value>, b: seq<Value>)
    ensures TruthyOnly(a + b) == TruthyOnly(a) + TruthyOnly(b)
    decreases |b|
  {
    if |b| == 0 {
      assert a + b == a;
    } else {
      var n := |b| - 1;
      assert (a + b)[..|a + b| - 1] == a + b[..n];
      assert (a + b)[|a + b| - 1] == b[n];
      TruthyOnlyAppend(a, b[..n]);
    }
  }

  lemma {:induction false} ChildDisplaysAreTruthyCandidates(children: seq<Dict>)
    ensures ChildDisplays(children)
      == TruthyOnly(seq(|children|, i requires 0 <= i < |children| => Get(children[i], DisplayUrlKey)))
    decreases |children|
  {
    var all := seq(|children|, i requires 0 <= i < |children| => Get(children[i], DisplayUrlKey));
    if |children| > 0 {
      var rest := children[1..];
      var tail := seq(|rest|, i requires 0 <= i < |rest| => Get(rest[i], DisplayUrlKey));
      assert all == [all[0]] + tail;
      ChildDisplaysAreTruthyCandidates(rest);
      TruthyOnlyAppend([all[0]], tail);
      assert TruthyOnly([all[0]]) == (if Truthy(all[0]) then [all[0]] else []) by {
        assert [all[0]][..0] == [];
      }
    }
  }

  /** `images` is exactly the truthy `displayUrl`s among the post and its
      children, post first, children in order. */
  lemma ImagesAreTruthyCandidates(post: Dict, children: seq<Dict>)
    ensures PostImages(post, children) == TruthyOnly(Candidates(post, children))
  {
    var d := Get(post, DisplayUrlKey);
    var tail := seq(|children|, i requires 0 <= i < |children| => Get(children[i], DisplayUrlKey));
    ChildDisplaysAreTruthyCandidates(children);
    TruthyOnlyAppend([d], tail);
    assert TruthyOnly([d]) == (if Truthy(d) then [d] else []) by {
      assert [d][..0] == [];
    }
  }

  /** A child without a truthy `displayUrl` adds nothing. */
  lemma SkippedChild(post: Dict, children: seq<Dict>, child: Dict)
    requires !Truthy(Get(child, DisplayUrlKey))
    ensures PostImages(post, children + [child]) == PostImages(post, children)
  {
    ImagesAreTruthyCandidates(post, children);
    ImagesAreTruthyCandidates(post, children + [child]);
    var c := Candidates(post, children + [child]);
    assert c[..|c| - 1] == Candidates(post, children);
  }

  /** The flattened records split along the input: extracting a concatenation
      succeeds exactly when both halves do, and gives the concatenation. */
  lemma {:induction false} MapPostsAppend<T>(a: seq<Dict>, b: seq<Dict>, f: (Dict, nat) -> Result<T, PostError>)
    requires forall post, i, j :: f(post, i).Success? == f(post, j).Success?
    requires forall post, i, j :: f(post, i).Success? ==> f(post, i).value == f(post, j).value
    ensures MapPosts(a + b, f).Success? <==> MapPosts(a, f).Success? && MapPosts(b, f).Success?
    ensures MapPosts(a + b, f).Success? ==> MapPosts(a + b, f).value == MapPosts(a, f).value + MapPosts(b, f).value
  {
    var ab := a + b;
    assert forall k :: 0 <= k < |a| ==> ab[k] == a[k];
    assert forall k :: 0 <= k < |b| ==> ab[|a| + k] == b[k];
    if MapPosts(a, f).Success? && MapPosts(b, f).Success? {
      assert forall k :: 0 <= k < |ab| ==> f(ab[k], k).Success? by {
        forall k | 0 <= k < |ab|
          ensures f(ab[k], k).Success?
        {
          if k < |a| {
            assert f(a[k], k).Success?;
          } else {
            assert f(b[k - |a|], k - |a|).Success?;
          }
        }
      }
      var x := MapPosts(ab, f).value;
      var y := MapPosts(a, f).value + MapPosts(b, f).value;
      forall k | 0 <= k < |ab|
        ensures x[k] == y[k]
      {
        if k < |a| {
          assert f(a[k], k) == Success(y[k]);
        } else {
          assert f(b[k - |a|], k - |a|) == Success(y[k]);
          assert f(ab[k], k) == Success(x[k]);
        }
      }
    } else if MapPosts(a, f).Failure? {
      var k :| 0 <= k < |a| && f(a[k], k).Failure?;
      assert f(ab[k], k).Failure?;
    } else {
      var k :| 0 <= k < |b| && f(b[k], k).Failure?;
      assert f(ab[|a| + k], |a| + k).Failure?;
    }
  }

  /** `SimplifyPost` and `ProductImagesOf` use the position only to label the error. */
  lemma PositionOnlyLabelsErrors()
    ensures forall post, i, j :: SimplifyPost(post, i).Success? == SimplifyPost(post, j).Success?
    ensures forall post, i, j :: SimplifyPost(post, i).Success? ==> SimplifyPost(post, i).value == SimplifyPost(post, j).value
    ensures forall post, i, j :: ProductImagesOf(post, i).Success? == ProductImagesOf(post, j).Success?
    ensures forall post, i, j :: ProductImagesOf(post, i).Success? ==> ProductImagesOf(post, i).value == ProductImagesOf(post, j).value
  {
  }

  /** `extract_image_urls` over a concatenation is the concatenation. */
  lemma ImageUrlsAppend(a: seq<Dict>, b: seq<Dict>)
    ensures ExtractImageUrls(a + b).Success? <==> ExtractImageUrls(a).Success? && ExtractImageUrls(b).Success?
    ensures ExtractImageUrls(a + b).Success? ==>
      ExtractImageUrls(a + b).value == ExtractImageUrls(a).value + ExtractImageUrls(b).value
  {
    PositionOnlyLabelsErrors();
    MapPostsAppend(a, b, SimplifyPost);
  }

  /** `extract_product_images` over a concatenation is the concatenation. */
  lemma ProductImagesAppend(a: seq<Dict>, b: seq<Dict>)
    ensures ExtractProductImages(a + b).Success? <==> ExtractProductImages(a).Success? && ExtractProductImages(b).Success?
    ensures ExtractProductImages(a + b).Success? ==>
      ExtractProductImages(a + b).value == ExtractProductImages(a).value + ExtractProductImages(b).value
  {
    PositionOnlyLabelsErrors();
    MapPostsAppend(a, b, ProductImagesOf);
  }

  /** The two extractors build the same `images` list for every post. */
  lemma SameImageLists(data: seq<Dict>)
    ensures ExtractImageUrls(data).Success? <==> ExtractProductImages(data).Success?
    ensures ExtractImageUrls(data).Success? ==>
      forall k :: 0 <= k < |data| ==> ExtractImageUrls(data).value[k].images == ExtractProductImages(data).value[k].images
  {
    if ExtractImageUrls(data).Success? {
      forall k | 0 <= k < |data|
        ensures ExtractImageUrls(data).value[k].images == ExtractProductImages(data).value[k].images
      {
        assert SimplifyPost(data[k], k) == Success(ExtractImageUrls(data).value[k]);
        assert ProductImagesOf(data[k], k) == Success(ExtractProductImages(data).value[k]);
      }
    }
  }

  // ----- Properties of the product filter -----

  /** The page filter splits along the input, the positions in errors shifted. */
  lemma {:induction false} ProductsAppend(a: seq<Dict>, b: seq<Dict>, offset: nat)
    ensures ProductsFrom(a + b, offset).Success? <==>
      ProductsFrom(a, offset).Success? && ProductsFrom(b, offset + |a|).Success?
    ensures ProductsFrom(a + b, offset).Success? ==>
      ProductsFrom(a + b, offset).value == ProductsFrom(a, offset).value + ProductsFrom(b, offset + |a|).value
    decreases |a|
  {
    if |a| == 0 {
      assert a + b == b;
    } else {
      assert (a + b)[0] == a[0];
      assert (a + b)[1..] == a[1..] + b;
      ProductsAppend(a[1..], b, offset + 1);
      var first := PageProducts(a[0], offset);
      assert offset + 1 + |a[1..]| == offset + |a|;
      ChainAppend(first, ProductsFrom(a[1..], offset + 1), ProductsFrom(b, offset + |a|),
                  ProductsFrom(a[1..] + b, offset + 1));
    }
  }

  /** The step of `ProductsAppend`: putting one page's records in front
      commutes with appending the second half. */
  lemma ChainAppend(first: Result<seq<Product>, PageError>, rest: Result<seq<Product>, PageError>,
                    tail: Result<seq<Product>, PageError>, whole: Result<seq<Product>, PageError>)
    requires whole.Success? <==> rest.Success? && tail.Success?
    requires whole.Success? ==> whole.value == rest.value + tail.value
    ensures Chain(first, whole).Success? <==> Chain(first, rest).Success? && tail.Success?
    ensures Chain(first, whole).Success? ==> Chain(first, whole).value == Chain(first, rest).value + tail.value
  {
    if Chain(first, whole).Success? {
      assert first.value + (rest.value + tail.value) == (first.value + rest.value) + tail.value;
    }
  }

  lemma SinglePage(page: Dict, offset: nat)
    ensures ProductsFrom([page], offset) == PageProducts(page, offset)
  {
    assert [page][1..] == [];
    assert ProductsFrom([], offset + 1) == Success([]);
    if PageProducts(page, offset).Success? {
      assert PageProducts(page, offset).value + [] == PageProducts(page, offset).value;
    }
  }

  /** A successful run keeps one record per product page. */
  lemma {:induction false} ProductCount(pages: seq<Dict>)
    ensures ExtractProducts(pages).Success? ==> |ExtractProducts(pages).value| == ProductPageCount(pages)
    decreases |pages|
  {
    if |pages| > 0 {
      var n := |pages| - 1;
      var page := pages[n];
      assert pages == pages[..n] + [page];
      ProductsAppend(pages[..n], [page], 0);
      ProductCount(pages[..n]);
      SinglePage(page, n);
    }
  }

  /** A page without a `url` is read as `''` and dropped. */
  lemma MissingUrlDropped(page: Dict, offset: nat)
    requires "url" !in page
    ensures ProductsFrom([page], offset) == Success([])
  {
    assert !Contains("", ProductsMarker);
    SinglePage(page, offset);
  }

  /** A `url` that is JSON `null` stops the filter with a `TypeError`. */
  lemma NullUrlRaises(page: Dict, offset: nat)
    requires "url" in page && page["url"] == Null
    ensures ProductsFrom([page], offset) == Failure(UrlNotSearchable(offset))
  {
    SinglePage(page, offset);
  }
}
