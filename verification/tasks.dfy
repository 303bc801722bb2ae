/** The task list the migration builds before any download: posts in order,
    for each a truthy `displayUrl` at index 0, then every entry of a truthy
    `images` list at its own index, counted from 0 again. Each task pairs the
    source URL with its derived key.

    The copies differ in the post id: `scripts/migrate_to_s3.py` reads
    `post['id']` and stops with a `KeyError` at the first post that needs a
    key and has none; the other two use `post.get('id', f'post_{post_idx}')`. */
module Tasks {
  import opened Wrappers
  import opened Text
  import Urls
  import Keys

  /** The fields of a scraped post that the migration reads. A field that is
      absent is `None`; the URL fields are strings. */
  datatype Post = Post(id: Option<string>, displayUrl: Option<string>, images: Option<seq<string>>)

  /** `'displayUrl' in post and post['displayUrl']`. */
  predicate HasDisplay(p: Post) {
    p.displayUrl.Some? && p.displayUrl.value != ""
  }

  /** The `images` list, empty when absent; it is truthy exactly when non-empty. */
  function Images(p: Post): seq<string> {
    if p.images.Some? then p.images.value else []
  }

  /** How many tasks a post contributes. */
  function TaskCountOf(p: Post): nat {
    (if HasDisplay(p) then 1 else 0) + |Images(p)|
  }

  /** The total over a list of posts, summed from the front. */
  function TotalTasks(posts: seq<Post>): nat {
    if |posts| == 0 then 0 else TaskCountOf(posts[0]) + TotalTasks(posts[1..])
  }

  datatype IdPolicy = IdRequired | IdFallback

  /** `f'post_{post_idx}'`. */
  function FallbackId(postIdx: nat): string {
    "post_" + DecimalDigits(postIdx)
  }

  function PostId(p: Post, postIdx: nat, policy: IdPolicy): Option<string> {
    match policy
    case IdRequired => p.id
    case IdFallback => Some(p.id.GetOr(FallbackId(postIdx)))
  }

  /** One entry of `image_tasks`: the source URL and what its S3 key is
      derived from. */
  datatype ImageTask = ImageTask(url: string, model: string, postId: string, index: nat) {
    function Key(): string {
      Keys.GenerateImageKey(url, model, postId, index)
    }
  }

  /** The tasks of one post whose id is known. */
  function PostTasks(p: Post, model: string, postId: string): (ts: seq<ImageTask>)
    ensures |ts| == TaskCountOf(p)
  {
    var imgs := Images(p);
    (if HasDisplay(p) then [ImageTask(p.displayUrl.value, model, postId, 0)] else [])
    + seq(|imgs|, i requires 0 <= i < |imgs| => ImageTask(imgs[i], model, postId, i))
  }

  datatype EnumError = MissingId(postIndex: nat)

  /** The post id is read only when the post yields a task. */
  predicate NeedsMissingId(p: Post) {
    TaskCountOf(p) > 0 && p.id.None?
  }

  function TasksForPost(p: Post, postIdx: nat, model: string, policy: IdPolicy): Result<seq<ImageTask>, EnumError> {
    if TaskCountOf(p) == 0 then Success([])
    else
      match PostId(p, postIdx, policy)
      case None => Failure(MissingId(postIdx))
      case Some(postId) => Success(PostTasks(p, model, postId))
  }

  /** The enumeration loop over `enumerate(posts)`. */
  function EnumerateTasks(posts: seq<Post>, model: string, policy: IdPolicy): (r: Result<seq<ImageTask>, EnumError>)
    // Only `post['id']` can fail, and only at a post that needs its id and has none.
    ensures r.Failure? ==> policy == IdRequired && r.error.postIndex < |posts| && NeedsMissingId(posts[r.error.postIndex])
  {
    if |posts| == 0 then Success([])
    else
      var n := |posts| - 1;
      match EnumerateTasks(posts[..n], model, policy)
      case Failure(e) => Failure(e)
      case Success(prev) =>
        match TasksForPost(posts[n], n, model, policy)
        case Failure(e) => Failure(e)
        case Success(ts) => Success(prev + ts)
  }

  // ----- Properties -----

  lemma {:induction false} TotalTasksAppend(posts: seq<Post>, p: Post)
    ensures TotalTasks(posts + [p]) == TotalTasks(posts) + TaskCountOf(p)
    decreases |posts|
  {
    if |posts| == 0 {
      assert posts + [p] == [p];
      assert [p][1..] == [];
    } else {
      assert (posts + [p])[1..] == posts[1..] + [p];
      TotalTasksAppend(posts[1..], p);
    }
  }

  /** The number of tasks is the sum over the posts of one for a truthy
      `displayUrl` plus the length of a truthy `images`. */
  lemma {:induction false} TaskCount(posts: seq<Post>, model: string, policy: IdPolicy)
    ensures EnumerateTasks(posts, model, policy).Success? ==> |EnumerateTasks(posts, model, policy).value| == TotalTasks(posts)
    decreases |posts|
  {
    if |posts| > 0 {
      var n := |posts| - 1;
      TaskCount(posts[..n], model, policy);
      assert posts == posts[..n] + [posts[n]];
      TotalTasksAppend(posts[..n], posts[n]);
    }
  }

  /** With the `post_{idx}` fallback the enumeration never fails. */
  lemma {:induction false} FallbackNeverFails(posts: seq<Post>, model: string)
    ensures EnumerateTasks(posts, model, IdFallback).Success?
    decreases |posts|
  {
    if |posts| > 0 {
      FallbackNeverFails(posts[..|posts| - 1], model);
    }
  }

  /** With `post['id']` the enumeration fails exactly when some post needs
      an id it does not have, and it reports the first such post. */
  lemma {:induction false} RequiredIdFailure(posts: seq<Post>, model: string)
    ensures EnumerateTasks(posts, model, IdRequired).Failure? <==> exists k :: 0 <= k < |posts| && NeedsMissingId(posts[k])
    ensures EnumerateTasks(posts, model, IdRequired).Failure? ==>
      var k := EnumerateTasks(posts, model, IdRequired).error.postIndex;
      k < |posts| && NeedsMissingId(posts[k]) && forall j :: 0 <= j < k ==> !NeedsMissingId(posts[j])
    decreases |posts|
  {
    if |posts| > 0 {
      var n := |posts| - 1;
      var prefix := posts[..n];
      RequiredIdFailure(prefix, model);
      assert forall k :: 0 <= k < n ==> prefix[k] == posts[k];
      if EnumerateTasks(prefix, model, IdRequired).Failure? {
        var k :| 0 <= k < n && NeedsMissingId(prefix[k]);
        assert NeedsMissingId(posts[k]);
      }
    }
  }

  /** Enumerating a prefix of the posts gives a prefix of the tasks. */
  lemma {:induction false} EnumeratePrefix(posts: seq<Post>, m: nat, model: string, policy: IdPolicy)
    requires m <= |posts|
    requires EnumerateTasks(posts, model, policy).Success?
    ensures EnumerateTasks(posts[..m], model, policy).Success?
    ensures EnumerateTasks(posts[..m], model, policy).value <= EnumerateTasks(posts, model, policy).value
    decreases |posts|
  {
    if m < |posts| {
      var n := |posts| - 1;
      assert posts[..n][..m] == posts[..m];
      EnumeratePrefix(posts[..n], m, model, policy);
    } else {
      assert posts[..m] == posts;
    }
  }

  /** The `displayUrl` task of post `k` sits at offset
      `TotalTasks(posts[..k])`, with index 0 and that post's id. */
  lemma DisplayTaskPosition(posts: seq<Post>, k: nat, model: string, policy: IdPolicy)
    requires k < |posts| && HasDisplay(posts[k])
    requires EnumerateTasks(posts, model, policy).Success?
    ensures PostId(posts[k], k, policy).Some?
    ensures TotalTasks(posts[..k]) < |EnumerateTasks(posts, model, policy).value|
    ensures EnumerateTasks(posts, model, policy).value[TotalTasks(posts[..k])]
      == ImageTask(posts[k].displayUrl.value, model, PostId(posts[k], k, policy).value, 0)
  {
    PostTasksInPlace(posts, k, model, policy);
    var mine := PostTasks(posts[k], model, PostId(posts[k], k, policy).value);
    assert EnumerateTasks(posts, model, policy).value[TotalTasks(posts[..k]) + 0] == mine[0];
  }

  /** Then `images[i]` sits `i` places further on (one more after a
      `displayUrl` task), with index `i`: the image indices restart at 0. */
  lemma ImageTaskPosition(posts: seq<Post>, k: nat, i: nat, model: string, policy: IdPolicy)
    requires k < |posts| && i < |Images(posts[k])|
    requires EnumerateTasks(posts, model, policy).Success?
    ensures PostId(posts[k], k, policy).Some?
    ensures var at := TotalTasks(posts[..k]) + (if HasDisplay(posts[k]) then 1 else 0) + i;
      at < |EnumerateTasks(posts, model, policy).value|
      && EnumerateTasks(posts, model, policy).value[at]
         == ImageTask(Images(posts[k])[i], model, PostId(posts[k], k, policy).value, i)
  {
    PostTasksInPlace(posts, k, model, policy);
    var display := if HasDisplay(posts[k]) then 1 else 0;
    var mine := PostTasks(posts[k], model, PostId(posts[k], k, policy).value);
    assert EnumerateTasks(posts, model, policy).value[TotalTasks(posts[..k]) + (display + i)] == mine[display + i];
  }

  /** The tasks of post `k` appear whole at offset `TotalTasks(posts[..k])`. */
  lemma PostTasksInPlace(posts: seq<Post>, k: nat, model: string, policy: IdPolicy)
    requires k < |posts|
    requires EnumerateTasks(posts, model, policy).Success?
    ensures PostId(posts[k], k, policy).Some? || TaskCountOf(posts[k]) == 0
    ensures TotalTasks(posts[..k]) + TaskCountOf(posts[k]) <= |EnumerateTasks(posts, model, policy).value|
    ensures TaskCountOf(posts[k]) > 0 ==>
      var mine := PostTasks(posts[k], model, PostId(posts[k], k, policy).value);
      forall j :: 0 <= j < |mine| ==> EnumerateTasks(posts, model, policy).value[TotalTasks(posts[..k]) + j] == mine[j]
  {
    EnumeratePrefix(posts, k + 1, model, policy);
    var upto := posts[..k + 1];
    assert upto[..k] == posts[..k];
    assert upto[k] == posts[k];
    TaskCount(posts[..k], model, policy);
    var p := posts[k];
    if TaskCountOf(p) > 0 {
      var before := EnumerateTasks(posts[..k], model, policy).value;
      var mine := PostTasks(p, model, PostId(p, k, policy).value);
      assert EnumerateTasks(upto, model, policy).value == before + mine;
    }
  }

  /** `displayUrl` and `images[0]` of one post share index 0, so their keys
      coincide exactly when their URLs normalise to the same extension. */
  lemma DisplayAndFirstImageKeys(posts: seq<Post>, k: nat, model: string, policy: IdPolicy)
    requires k < |posts| && HasDisplay(posts[k]) && |Images(posts[k])| > 0
    requires EnumerateTasks(posts, model, policy).Success?
    ensures var tasks := EnumerateTasks(posts, model, policy).value;
      var off := TotalTasks(posts[..k]);
      off + 1 < |tasks|
      && (tasks[off].Key() == tasks[off + 1].Key()
          <==> Urls.ImageExtension(posts[k].displayUrl.value) == Urls.ImageExtension(Images(posts[k])[0]))
  {
    DisplayTaskPosition(posts, k, model, policy);
    ImageTaskPosition(posts, k, 0, model, policy);
    var postId := PostId(posts[k], k, policy).value;
    Keys.SameSlotSharesKeyIffSameExtension(model, postId, 0, posts[k].displayUrl.value, Images(posts[k])[0]);
  }

  /** The `post_{idx}` fallback can coincide with a real id: when post `j`
      has the id `post_k` and post `k` has none, their `displayUrl` tasks get
      the same key whenever the extensions agree. */
  lemma FallbackIdsCanClash(posts: seq<Post>, j: nat, k: nat, model: string)
    requires j < |posts| && k < |posts|
    requires posts[j].id == Some(FallbackId(k)) && posts[k].id.None?
    requires HasDisplay(posts[j]) && HasDisplay(posts[k])
    requires Urls.ImageExtension(posts[j].displayUrl.value) == Urls.ImageExtension(posts[k].displayUrl.value)
    ensures EnumerateTasks(posts, model, IdFallback).Success?
    ensures var tasks := EnumerateTasks(posts, model, IdFallback).value;
      var oj := TotalTasks(posts[..j]);
      var ok := TotalTasks(posts[..k]);
      oj < |tasks| && ok < |tasks| && tasks[oj].Key() == tasks[ok].Key()
  {
    FallbackNeverFails(posts, model);
    DisplayTaskPosition(posts, j, model, IdFallback);
    DisplayTaskPosition(posts, k, model, IdFallback);
    Keys.GeneratedKeyInjective(model, posts[j].displayUrl.value, FallbackId(k), 0,
                               posts[k].displayUrl.value, FallbackId(k), 0);
  }
}
