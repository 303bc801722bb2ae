/** The three copies of the migration, composed from the parts: enumerate
    the tasks, run each (download, upload), collect the results in
    completion order, rewrite the posts.

    - `migrate_instagram_to_s3` (scripts/migrate_to_s3.py) returns nothing
      but writes the rewritten posts; here it returns them.
    - `scrape_and_migrate` (scripts/scrape_and_migrate_to_s3.py) returns the
      rewritten posts with the two counters.
    - `scrape_and_migrate` of the Lambda package stores the posts as JSON
      under `{model}/instagram_data.json` and returns the stats, and
      `lambda_handler` wraps it in a 200 or 500 response.

    The outside world is a parameter: `world(i)` says what the network and
    the bucket do for task `i`, `choices` fixes the completion order, and
    the scraper is a function from its request to the posts (or `None` when
    it raises). */
module Pipeline {
  import opened Wrappers
  import Fetch
  import opened Store
  import opened Tasks
  import opened Aggregate
  import opened Rewrite
  import opened Config

  /** What the network and the bucket do for one task. */
  datatype TaskWorld = TaskWorld(outcomes: seq<Fetch.Outcome>, putSucceeds: bool)

  /** Task `t` succeeds on its own terms: its source URL is non-empty, its
      download brings a non-empty body and its upload returns. Nothing about
      the other tasks enters. */
  predicate TaskSucceeds(t: ImageTask, w: TaskWorld, policy: Fetch.ReportPolicy) {
    t.url != "" && Truthy(Fetch.Download(w.outcomes, policy).body) && w.putSucceeds
  }

  /** `process_image` for one task in its world. */
  function RunTask(t: ImageTask, bucket: string, region: string, w: TaskWorld, policy: Fetch.ReportPolicy): (r: TaskResult)
    ensures r.Migrated? <==> Truthy(Fetch.Download(w.outcomes, policy).body) && w.putSucceeds
    ensures r.Migrated? ==> r.oldUrl == t.url && r.newUrl == PublicUrl(bucket, region, t.Key())
    // The aggregation loop counts it as a success exactly when the task succeeds on its own terms.
    ensures Succeeded(r) <==> TaskSucceeds(t, w, policy)
  {
    ProcessImage(t.url, bucket, t.Key(), region, w.outcomes, policy, w.putSucceeds).result
  }

  /** `process_image` for every task, in task order. */
  function RunTasks(tasks: seq<ImageTask>, bucket: string, region: string,
                    world: nat -> TaskWorld, policy: Fetch.ReportPolicy): (rs: seq<TaskResult>)
    ensures |rs| == |tasks|
    // Result `i` depends on task `i` and its own world only.
    ensures forall i :: 0 <= i < |tasks| ==> rs[i] == RunTask(tasks[i], bucket, region, world(i), policy)
  {
    seq(|tasks|, i requires 0 <= i < |tasks| => RunTask(tasks[i], bucket, region, world(i), policy))
  }

  datatype Migration = Migration(posts: seq<Post>, tasks: seq<ImageTask>, aggregation: Aggregation)

  /** The URL mapping built from the task results in the completion order
      `choices`. */
  function TaskMapping(tasks: seq<ImageTask>, bucket: string, region: string,
                       world: nat -> TaskWorld, policy: Fetch.ReportPolicy, choices: seq<nat>): (m: map<string, string>)
    // Exactly the URLs of the tasks that succeed are mapped, whatever the other tasks do ...
    ensures MapsExactlySucceeding(m, tasks, world, policy)
    // ... each to the public URL of the key of one of its tasks.
    ensures MappingFromTasks(m, tasks, bucket, region)
  {
    MappedIffTaskSucceeds(tasks, bucket, region, world, policy, choices);
    MappingIsFromTasks(tasks, bucket, region, world, policy, choices);
    Collect(Schedule(RunTasks(tasks, bucket, region, world, policy), choices)).mapping
  }

  /** Enumerate, run, collect in the scheduled order, rewrite. */
  function Migrate(posts: seq<Post>, bucket: string, model: string, region: string,
                   idPolicy: IdPolicy, reportPolicy: Fetch.ReportPolicy,
                   world: nat -> TaskWorld, choices: seq<nat>): (r: Result<Migration, EnumError>)
    ensures r.Success? <==> EnumerateTasks(posts, model, idPolicy).Success?
    ensures r.Success? ==>
      var tasks := EnumerateTasks(posts, model, idPolicy).value;
      var mapping := TaskMapping(tasks, bucket, region, world, reportPolicy, choices);
      r.value.tasks == tasks && r.value.aggregation.mapping == mapping
      && r.value.posts == RewritePosts(posts, mapping)
      && r.value.aggregation.successful == SuccessCount(RunTasks(tasks, bucket, region, world, reportPolicy))
      && r.value.aggregation.successful + r.value.aggregation.failed == |tasks|
  {
    var tasks :- EnumerateTasks(posts, model, idPolicy);
    var results := RunTasks(tasks, bucket, region, world, reportPolicy);
    KeysAndCountersOrderFree(results, choices);
    var aggregation := Collect(Schedule(results, choices));
    Success(Migration(RewritePosts(posts, aggregation.mapping), tasks, aggregation))
  }

  /** Every mapped source URL belongs to a task, and its new URL is the public
      URL of one of that URL's keys. */
  predicate MappingFromTasks(mapping: map<string, string>, tasks: seq<ImageTask>, bucket: string, region: string) {
    forall k :: k in mapping ==>
      exists i :: (0 <= i < |tasks| && tasks[i].url == k && mapping[k] == PublicUrl(bucket, region, tasks[i].Key()))
  }

  /** A mapped URL comes from one of the results, whatever the order. */
  lemma MappedFromResult(results: seq<TaskResult>, choices: seq<nat>, k: string)
    requires k in Collect(Schedule(results, choices)).mapping
    ensures exists i :: (0 <= i < |results| && results[i].Migrated? && results[i].oldUrl == k
      && Collect(Schedule(results, choices)).mapping[k] == results[i].newUrl)
  {
    var order := Schedule(results, choices);
    LastWriterWins(order, k);
    var j :| LastSuccessFor(order, k, j) && Collect(order).mapping[k] == order[j].newUrl;
    SchedulePermutes(results, choices);
    assert order[j] in multiset(results);
    var i :| 0 <= i < |results| && results[i] == order[j];
  }

  /** The URL mapping pairs task URLs with the public URLs of their keys. */
  lemma MappingIsFromTasks(tasks: seq<ImageTask>, bucket: string, region: string,
                           world: nat -> TaskWorld, policy: Fetch.ReportPolicy, choices: seq<nat>)
    ensures MappingFromTasks(Collect(Schedule(RunTasks(tasks, bucket, region, world, policy), choices)).mapping,
                             tasks, bucket, region)
  {
    var results := RunTasks(tasks, bucket, region, world, policy);
    var mapping := Collect(Schedule(results, choices)).mapping;
    forall k | k in mapping
      ensures exists i :: (0 <= i < |tasks| && tasks[i].url == k && mapping[k] == PublicUrl(bucket, region, tasks[i].Key()))
    {
      MappedFromResult(results, choices, k);
      var i :| 0 <= i < |results| && results[i].Migrated? && results[i].oldUrl == k && mapping[k] == results[i].newUrl;
      assert results[i] == RunTask(tasks[i], bucket, region, world(i), policy);
    }
  }

  /** The keys of `m` are exactly the URLs of the tasks that succeed. */
  ghost predicate MapsExactlySucceeding(m: map<string, string>, tasks: seq<ImageTask>,
                                  world: nat -> TaskWorld, policy: Fetch.ReportPolicy) {
    forall k :: k in m <==> SomeTaskSucceeds(tasks, k, world, policy)
  }

  /** Some task for the URL `k` succeeds on its own terms. */
  ghost predicate SomeTaskSucceeds(tasks: seq<ImageTask>, k: string, world: nat -> TaskWorld, policy: Fetch.ReportPolicy) {
    exists i :: 0 <= i < |tasks| && tasks[i].url == k && TaskSucceeds(tasks[i], world(i), policy)
  }

  /** A source URL is mapped iff one of its tasks succeeds on its own terms. */
  lemma MappedIffTaskSucceeds(tasks: seq<ImageTask>, bucket: string, region: string,
                              world: nat -> TaskWorld, policy: Fetch.ReportPolicy, choices: seq<nat>)
    ensures MapsExactlySucceeding(Collect(Schedule(RunTasks(tasks, bucket, region, world, policy), choices)).mapping,
                                  tasks, world, policy)
  {
    var results := RunTasks(tasks, bucket, region, world, policy);
    KeysAndCountersOrderFree(results, choices);
    forall k
      ensures k in SuccessfulSources(results) <==> SomeTaskSucceeds(tasks, k, world, policy)
    {
      SourceIffTaskSucceeds(tasks, bucket, region, world, policy, k);
    }
  }

  /** Failure isolation: a task that succeeds in its own world has its
      source URL mapped to the public URL of a task with that source, however
      the other tasks fare and in whatever order they finish. */
  lemma SuccessfulTaskIsMapped(tasks: seq<ImageTask>, bucket: string, region: string,
                               world: nat -> TaskWorld, policy: Fetch.ReportPolicy, choices: seq<nat>, i: nat)
    requires i < |tasks| && TaskSucceeds(tasks[i], world(i), policy)
    ensures var m := TaskMapping(tasks, bucket, region, world, policy, choices);
      tasks[i].url in m
      && exists j :: 0 <= j < |tasks| && tasks[j].url == tasks[i].url
                     && m[tasks[i].url] == PublicUrl(bucket, region, tasks[j].Key())
  {
    var m := TaskMapping(tasks, bucket, region, world, policy, choices);
    assert SomeTaskSucceeds(tasks, tasks[i].url, world, policy);
    assert tasks[i].url in m;
  }

  lemma SourceIffTaskSucceeds(tasks: seq<ImageTask>, bucket: string, region: string,
                              world: nat -> TaskWorld, policy: Fetch.ReportPolicy, k: string)
    ensures k in SuccessfulSources(RunTasks(tasks, bucket, region, world, policy))
        <==> SomeTaskSucceeds(tasks, k, world, policy)
  {
    var results := RunTasks(tasks, bucket, region, world, policy);
    forall i | 0 <= i < |tasks|
      ensures ResultMatchesTask(results[i], tasks[i], world(i), policy)
    {
      assert results[i] == RunTask(tasks[i], bucket, region, world(i), policy);
    }
    SourceIffMatchingTask(tasks, results, world, policy, k);
  }

  /** Result `r` is counted exactly when task `t` succeeds, under the task's
      own source URL. */
  predicate ResultMatchesTask(r: TaskResult, t: ImageTask, w: TaskWorld, policy: Fetch.ReportPolicy) {
    (Succeeded(r) <==> TaskSucceeds(t, w, policy)) && (Succeeded(r) ==> r.oldUrl == t.url)
  }

  lemma SourceIffMatchingTask(tasks: seq<ImageTask>, results: seq<TaskResult>,
                              world: nat -> TaskWorld, policy: Fetch.ReportPolicy, k: string)
    requires |results| == |tasks|
    requires forall i :: 0 <= i < |tasks| ==> ResultMatchesTask(results[i], tasks[i], world(i), policy)
    ensures k in SuccessfulSources(results) <==> SomeTaskSucceeds(tasks, k, world, policy)
  {
    if k in SuccessfulSources(results) {
      var r :| r in results && Succeeded(r) && r.oldUrl == k;
      var i :| 0 <= i < |results| && results[i] == r;
      assert ResultMatchesTask(results[i], tasks[i], world(i), policy);
    }
    if SomeTaskSucceeds(tasks, k, world, policy) {
      var i :| 0 <= i < |tasks| && tasks[i].url == k && TaskSucceeds(tasks[i], world(i), policy);
      assert ResultMatchesTask(results[i], tasks[i], world(i), policy);
      assert results[i] in results;
    }
  }

  /** The facts every copy relies on: the counters add up to the number of
      tasks, which is the per-post sum; posts keep their number and order;
      and every mapped URL is the public URL of one of its tasks' keys. */
  lemma MigrateFacts(posts: seq<Post>, bucket: string, model: string, region: string,
                     idPolicy: IdPolicy, reportPolicy: Fetch.ReportPolicy,
                     world: nat -> TaskWorld, choices: seq<nat>)
    requires Migrate(posts, bucket, model, region, idPolicy, reportPolicy, world, choices).Success?
    ensures var m := Migrate(posts, bucket, model, region, idPolicy, reportPolicy, world, choices).value;
      |m.tasks| == TotalTasks(posts)
      && m.aggregation.successful + m.aggregation.failed == |m.tasks|
      && |m.posts| == |posts|
      && (forall k :: 0 <= k < |posts| ==> m.posts[k].id == posts[k].id)
      && MappingFromTasks(m.aggregation.mapping, m.tasks, bucket, region)
  {
    var tasks := EnumerateTasks(posts, model, idPolicy).value;
    TaskCount(posts, model, idPolicy);
    var results := RunTasks(tasks, bucket, region, world, reportPolicy);
    CountersAddUp(Schedule(results, choices));
    MappingIsFromTasks(tasks, bucket, region, world, reportPolicy, choices);
  }

  // ----- scripts/migrate_to_s3.py -----

  /** `migrate_instagram_to_s3`: the rewritten posts it writes out, or the
      `KeyError` of the first post that needs `post['id']` and lacks it. */
  function MigrateInstagramToS3(posts: seq<Post>, bucket: string, model: string, region: string,
                                world: nat -> TaskWorld, choices: seq<nat>): (r: Result<seq<Post>, EnumError>)
    ensures r.Failure? <==> exists k :: 0 <= k < |posts| && NeedsMissingId(posts[k])
    ensures r.Success? ==> |r.value| == |posts|
    // The posts written out are the input posts rewritten through the mapping of the succeeding tasks.
    ensures r.Success? ==>
      EnumerateTasks(posts, model, IdRequired).Success?
      && r.value == RewritePosts(posts, TaskMapping(EnumerateTasks(posts, model, IdRequired).value,
                                                    bucket, region, world, Fetch.EveryStatusFailure, choices))
  {
    RequiredIdFailure(posts, model);
    match Migrate(posts, bucket, model, region, IdRequired, Fetch.EveryStatusFailure, world, choices)
    case Failure(e) => Failure(e)
    case Success(m) => Success(m.posts)
  }

  // ----- scripts/scrape_and_migrate_to_s3.py -----

  datatype ScrapeOutcome = ScrapeOutcome(posts: seq<Post>, successful: nat, failed: nat)

  /** The tasks under the `post_{idx}` fallback, which never fails. */
  function FallbackTasks(posts: seq<Post>, model: string): (tasks: seq<ImageTask>)
    ensures EnumerateTasks(posts, model, IdFallback) == Success(tasks)
    ensures |tasks| == TotalTasks(posts)
  {
    FallbackNeverFails(posts, model);
    TaskCount(posts, model, IdFallback);
    EnumerateTasks(posts, model, IdFallback).value
  }

  /** `scrape_and_migrate(...)` after the scrape: the rewritten posts and the
      two counters. It cannot fail, thanks to the `post_{idx}` fallback. */
  function ScrapeAndMigrate(posts: seq<Post>, bucket: string, model: string, region: string,
                            world: nat -> TaskWorld, choices: seq<nat>): (r: ScrapeOutcome)
    ensures |r.posts| == |posts|
    ensures r.successful + r.failed == TotalTasks(posts)
    // The posts come back rewritten through the mapping of the succeeding
    // tasks, and `successful` counts the results that are pairs of URLs.
    ensures var tasks := FallbackTasks(posts, model);
      r.posts == RewritePosts(posts, TaskMapping(tasks, bucket, region, world, Fetch.LastAttemptOnly, choices))
      && r.successful == SuccessCount(RunTasks(tasks, bucket, region, world, Fetch.LastAttemptOnly))
  {
    var tasks := FallbackTasks(posts, model);
    MigrateFacts(posts, bucket, model, region, IdFallback, Fetch.LastAttemptOnly, world, choices);
    var m := Migrate(posts, bucket, model, region, IdFallback, Fetch.LastAttemptOnly, world, choices).value;
    ScrapeOutcome(m.posts, m.aggregation.successful, m.aggregation.failed)
  }

  /** The counters do not depend on the order in which the tasks finish. */
  lemma CountersOrderFree(posts: seq<Post>, bucket: string, model: string, region: string,
                          world: nat -> TaskWorld, choices1: seq<nat>, choices2: seq<nat>)
    ensures ScrapeAndMigrate(posts, bucket, model, region, world, choices1).successful
         == ScrapeAndMigrate(posts, bucket, model, region, world, choices2).successful
    ensures ScrapeAndMigrate(posts, bucket, model, region, world, choices1).failed
         == ScrapeAndMigrate(posts, bucket, model, region, world, choices2).failed
  {
    FallbackNeverFails(posts, model);
    var tasks := EnumerateTasks(posts, model, IdFallback).value;
    var results := RunTasks(tasks, bucket, region, world, Fetch.LastAttemptOnly);
    KeysAndCountersOrderFree(results, choices1);
    KeysAndCountersOrderFree(results, choices2);
  }

  /** When no request ever gets a response, every task fails and every post
      comes back unchanged. */
  lemma OfflineChangesNothing(posts: seq<Post>, bucket: string, model: string, region: string,
                              world: nat -> TaskWorld, choices: seq<nat>)
    requires forall i: nat :: |world(i).outcomes| == 0
    ensures ScrapeAndMigrate(posts, bucket, model, region, world, choices) == ScrapeOutcome(posts, 0, TotalTasks(posts))
  {
    var tasks := FallbackTasks(posts, model);
    forall i | 0 <= i < |tasks|
      ensures !TaskSucceeds(tasks[i], world(i), Fetch.LastAttemptOnly)
    {
      OfflineTaskFails(tasks[i], world(i));
    }
    NothingSucceedsNothingMapped(tasks, bucket, region, world, Fetch.LastAttemptOnly, choices);
    EmptyMappingChangesNothing(posts);
  }

  lemma EmptyMappingChangesNothing(posts: seq<Post>)
    ensures RewritePosts(posts, map[]) == posts
  {
    var out := RewritePosts(posts, map[]);
    RewritePreservesShape(posts, map[]);
    forall k | 0 <= k < |posts|
      ensures out[k] == posts[k]
    {
      assert Unmapped(posts[k], map[]);
    }
  }


  /** With no response, a task's download brings no body. */
  lemma OfflineTaskFails(t: ImageTask, w: TaskWorld)
    requires |w.outcomes| == 0
    ensures !TaskSucceeds(t, w, Fetch.LastAttemptOnly)
  {
    assert forall j: nat :: Fetch.OutcomeAt(w.outcomes, j) == Fetch.Raised;
  }

  /** When no task succeeds, nothing is counted and nothing is mapped. */
  lemma NothingSucceedsNothingMapped(tasks: seq<ImageTask>, bucket: string, region: string,
                                     world: nat -> TaskWorld, policy: Fetch.ReportPolicy, choices: seq<nat>)
    requires forall i :: 0 <= i < |tasks| ==> !TaskSucceeds(tasks[i], world(i), policy)
    ensures SuccessCount(RunTasks(tasks, bucket, region, world, policy)) == 0
    ensures TaskMapping(tasks, bucket, region, world, policy, choices) == map[]
  {
    var results := RunTasks(tasks, bucket, region, world, policy);
    forall i | 0 <= i < |results|
      ensures !Succeeded(results[i])
    {
      assert results[i] == RunTask(tasks[i], bucket, region, world(i), policy);
    }
    NoSuccessCountsZero(results);
  }

  // ----- scripts/lambda_package/lambda_function.py -----

  /** The stats dictionary `scrape_and_migrate` returns. */
  datatype Stats = Stats(posts: nat, imagesTotal: nat, imagesSuccessful: nat, imagesFailed: nat)

  const JsonFileName: string := "/instagram_data.json"

  /** The key the rewritten posts are stored under. */
  function JsonKey(model: string): string {
    model + JsonFileName
  }

  /** The JSON `put_object` call: bucket, key and the posts it serialises. */
  datatype JsonUpload = JsonUpload(bucket: string, key: string, posts: seq<Post>)

  datatype LambdaRun = LambdaRun(stats: Stats, upload: JsonUpload)

  datatype HandlerError = BadConfig(error: ConfigError) | ScrapeRaised | JsonUploadRaised

  /** The Lambda's `scrape_and_migrate` after the scrape; `jsonPutSucceeds`
      says whether the JSON `put_object` returns normally. */
  function LambdaScrapeAndMigrate(posts: seq<Post>, bucket: string, model: string, region: string,
                                  world: nat -> TaskWorld, choices: seq<nat>,
                                  jsonPutSucceeds: bool): (r: Result<LambdaRun, HandlerError>)
    ensures r.Success? <==> jsonPutSucceeds
    ensures r.Success? ==>
      var s := r.value.stats;
      s.posts == |posts| && s.imagesTotal == TotalTasks(posts)
      && s.imagesSuccessful + s.imagesFailed == s.imagesTotal
      && r.value.upload.bucket == bucket && r.value.upload.key == JsonKey(model)
      && |r.value.upload.posts| == |posts|
    // The stored posts and the success counter are those of the script's copy.
    ensures r.Success? ==>
      var tasks := FallbackTasks(posts, model);
      r.value.upload.posts == RewritePosts(posts, TaskMapping(tasks, bucket, region, world, Fetch.LastAttemptOnly, choices))
      && r.value.stats.imagesSuccessful == SuccessCount(RunTasks(tasks, bucket, region, world, Fetch.LastAttemptOnly))
  {
    var o := ScrapeAndMigrate(posts, bucket, model, region, world, choices);
    if !jsonPutSucceeds then Failure(JsonUploadRaised)
    else
      var stats := Stats(|posts|, TotalTasks(posts), o.successful, o.failed);
      Success(LambdaRun(stats, JsonUpload(bucket, JsonKey(model), o.posts)))
  }


  /** What the handler asks the scraper for: the token, the profile URL and
      the results limit. */
  datatype ScrapeRequest = ScrapeRequest(apifyToken: string, directUrl: string, resultsLimit: int)

  function ProfileUrl(username: string): string {
    "https://www.instagram.com/" + username + "/"
  }

  const StatusSuccess: int := 200
  const StatusError: int := 500

  datatype Response = Response(statusCode: int, outcome: Result<Stats, HandlerError>)

  /** `lambda_handler(event, context)`: any exception becomes a 500. */
  function LambdaHandler(env: map<string, string>, scrape: ScrapeRequest -> Option<seq<Post>>,
                         world: nat -> TaskWorld, choices: seq<nat>, jsonPutSucceeds: bool): (r: Response)
    ensures r.statusCode == StatusSuccess <==> r.outcome.Success?
    ensures r.statusCode == StatusError <==> r.outcome.Failure?
    // A configuration error is reported as such, before anything is scraped.
    ensures ReadConfig(env).Failure? ==> r == Response(StatusError, Failure(BadConfig(ReadConfig(env).error)))
    // Success needs a valid configuration, a scrape that returns, and a stored JSON file.
    ensures r.statusCode == StatusSuccess <==>
      ReadConfig(env).Success?
      && scrape(ScrapeRequest(ReadConfig(env).value.apifyToken, ProfileUrl(ReadConfig(env).value.username),
                              ReadConfig(env).value.maxPosts)).Some?
      && jsonPutSucceeds
    ensures r.statusCode == StatusSuccess ==>
      var posts := scrape(ScrapeRequest(ReadConfig(env).value.apifyToken, ProfileUrl(ReadConfig(env).value.username),
                                        ReadConfig(env).value.maxPosts)).value;
      r.outcome.value.posts == |posts| && r.outcome.value.imagesTotal == TotalTasks(posts)
      && r.outcome.value.imagesSuccessful + r.outcome.value.imagesFailed == r.outcome.value.imagesTotal
    // The stats are those of the run over the configured bucket, model and region.
    ensures r.statusCode == StatusSuccess ==>
      var cfg := ReadConfig(env).value;
      var posts := scrape(ScrapeRequest(cfg.apifyToken, ProfileUrl(cfg.username), cfg.maxPosts)).value;
      r.outcome.value == LambdaScrapeAndMigrate(posts, cfg.bucket, cfg.model, cfg.region, world, choices, jsonPutSucceeds).value.stats
  {
    match ReadConfig(env)
    case Failure(e) => Response(StatusError, Failure(BadConfig(e)))
    case Success(cfg) =>
      match scrape(ScrapeRequest(cfg.apifyToken, ProfileUrl(cfg.username), cfg.maxPosts))
      case None => Response(StatusError, Failure(ScrapeRaised))
      case Some(posts) =>
        match LambdaScrapeAndMigrate(posts, cfg.bucket, cfg.model, cfg.region, world, choices, jsonPutSucceeds)
        case Failure(e) => Response(StatusError, Failure(e))
        case Success(run) => Response(StatusSuccess, Success(run.stats))
  }

  /** A missing required variable always gives a 500. */
  lemma MissingVariableGives500(env: map<string, string>, scrape: ScrapeRequest -> Option<seq<Post>>,
                                world: nat -> TaskWorld, choices: seq<nat>, jsonPutSucceeds: bool)
    requires ApifyTokenVar !in env || UsernameVar !in env || BucketVar !in env || ModelVar !in env
    ensures LambdaHandler(env, scrape, world, choices, jsonPutSucceeds).statusCode == StatusError
  {
    MissingVariableFails(env);
  }

  /** With only the required variables set, the scraper is asked for 100
      posts and the run, whose stats `LambdaHandler` reports, uses the
      `us-east-2` region. */
  lemma HandlerDefaults(env: map<string, string>, scrape: ScrapeRequest -> Option<seq<Post>>)
    requires ApifyTokenVar in env && UsernameVar in env && BucketVar in env && ModelVar in env
    requires RegionVar !in env && MaxPostsVar !in env
    ensures ReadConfig(env).Success? && ReadConfig(env).value.region == DefaultRegion
    ensures ReadConfig(env).value.maxPosts == 100
  {
    ConfigDefaults(env);
  }
}
