# Instagram image migration, modelled in Dafny

This project models the image-migration pipeline of the repository. The pipeline exists in three near-identical copies:

- `scripts/migrate_to_s3.py` migrates a JSON file of scraped posts.
- `scripts/scrape_and_migrate_to_s3.py` scrapes first and counts successes and failures.
- `scripts/lambda_package/lambda_function.py` wraps the same flow in a Lambda handler that returns a stats dictionary.

The pipeline works in five steps:

1. For every post it derives an S3 key for each image URL, as `{model}/posts/{post_id}/image_{idx:03d}{ext}`. The extension comes from the URL path.
2. It downloads each image with up to three attempts.
3. It uploads each image with a content type taken from the key.
4. It collects the `(old_url, new_url)` pairs in the order the worker threads finish.
5. It rewrites the posts' `displayUrl` and `images` through the resulting URL mapping.

The model also covers three pure flattening functions of the scrapers: `extract_image_urls`, `extract_product_images` and the `/products/` page filter `extract_products`.

Modules, one per file:

| file | module | models |
|---|---|---|
| `wrappers.dfy` | `Wrappers` | `Option` and `Result` (a Python `None` return, a raised exception) |
| `text.dfy` | `Text` | ASCII lower-casing, searching, decimal digits and zero padding (`:03d`) |
| `urls.dfy` | `Urls` | `urlparse(url).path`, POSIX `os.path.splitext`, `get_image_extension` |
| `keys.dfy` | `Keys` | `generate_image_key` and its inverse |
| `fetch.dfy` | `Fetch` | `download_image` over a sequence of attempt outcomes |
| `store.dfy` | `Store` | the content type in `upload_to_s3`, the public URL, `process_image` |
| `tasks.dfy` | `Tasks` | the task enumeration over the posts, for both post-id policies |
| `aggregate.dfy` | `Aggregate` | the `as_completed` loop, as a fold over any completion order |
| `rewrite.dfy` | `Rewrite` | the record rewriter |
| `config.dfy` | `Config` | the environment variables of `lambda_handler` and `int()` |
| `pipeline.dfy` | `Pipeline` | the three entry points and the 200/500 handler |
| `json.dfy` | `Json` | JSON values with Python truthiness and `dict.get` |
| `scrapers.dfy` | `Scrapers` | the three flattening functions of the scrapers |

The outside world is passed in as parameters:

- **HTTP:** each download sees a sequence of outcomes, where each outcome is a status with a body, or an exception. Attempts past the end of the sequence raise.
- **S3:** whether a `put_object` returns normally is a boolean.
- **Apify scraper:** a function from the request (token, profile URL, results limit) to the posts, or `None` when it raises.
- **Thread pool:** the completion order comes from `Aggregate.Schedule(results, choices)`, which produces every permutation of the results (`Aggregate.EveryOrderReachable`).

Three behaviours of the code that are easy to miss:

- **Index 1000 and above.** An index of 1000 or more is not an error: `:03d` just writes more digits (`Keys.IndexFieldWidth`).
- **Keys are not always unique.** The docstring of `generate_image_key` (scripts/migrate_to_s3.py:29) calls the key unique, but it is not. `displayUrl` and `images[0]` of one post share index 0, so they get the same key exactly when their extensions agree (`Tasks.DisplayAndFirstImageKeys`). A real id `post_k` also clashes with the `post_{k}` fallback of post `k` (`Tasks.FallbackIdsCanClash`). In both cases the later upload overwrites the earlier one.
- **Rewriting twice.** A second rewrite is a no-op when no new URL is itself a source URL mapped elsewhere (`Rewrite.RewriteIdempotent`). Without that condition a second rewrite can change the posts again, as a two-step chain shows (`Rewrite.RewriteTwiceCanDiffer`).

## Model

| member | source | states |
|---|---|---|
| Urls.PathExtension | scripts/migrate_to_s3.py:23 | the `splitext` suffix is empty or starts with its only dot, contains no `/`, and ends the path |
| Urls.UrlPath | scripts/migrate_to_s3.py:21-22 | the path never holds a `?` or `#` (query and fragment are split off first) nor a tab, CR or LF, and every character of it comes from the URL |
| Urls.DotsOnlySegmentExtension | scripts/migrate_to_s3.py:23 | a last segment whose text before the last dot is empty or all dots (`/.png`, `/..png`) has no `splitext` suffix |
| Urls.DotsOnlyStemGivesJpg | scripts/migrate_to_s3.py:23-26 | so an `https` URL ending in such a segment gets `.jpg`, whatever its suffix |
| Urls.NormalizeExtension | scripts/migrate_to_s3.py:24-26 | the result is one of `.jpg`/`.jpeg`/`.png`/`.webp`; it is the lower-cased suffix when that is allowed, otherwise `.jpg` |
| Urls.ImageExtension | scripts/migrate_to_s3.py:19-26 | the extension of any URL is one of the four lower-case allowed extensions |
| Urls.NormalizeIsIdempotent | scripts/migrate_to_s3.py:24-26 | normalising twice is normalising once; an allowed extension is kept as is |
| Urls.NormalizeIgnoresCase | scripts/migrate_to_s3.py:24-25 | the suffix's case never changes the result |
| Urls.UpperWebpNormalizes | scripts/migrate_to_s3.py:24-25 | `.WEBP` gives `.webp` |
| Urls.ExtensionIgnoresQuery | scripts/migrate_to_s3.py:21-23 | appending `?...` or `#...` to a URL without either changes neither its path nor its extension |
| Urls.HttpsUrlPath | scripts/migrate_to_s3.py:21-22 | for `https://{host}{path}` with a plain host and path, `urlparse(...).path` is `path` |
| Urls.HttpsImageExtension | scripts/migrate_to_s3.py:19-26 | for such a URL the extension is the normalised `splitext` suffix of `path` |
| Urls.UndottedNameGivesJpg | scripts/migrate_to_s3.py:23-26 | a last path segment without a dot gives `.jpg` |
| Urls.DottedNameExtension | scripts/migrate_to_s3.py:23-26 | a last segment `stem.suffix` (stem not all dots) gives the normalised `.suffix` |
| Keys.GenerateImageKey | scripts/migrate_to_s3.py:28-31 | the key starts with `{model}/posts/{post_id}/image_` and ends with the URL's extension |
| Keys.KeyRoundTrip | scripts/migrate_to_s3.py:31 | parsing a key gives back its post id, index and extension |
| Keys.KeyInjective | scripts/migrate_to_s3.py:28-31 | for one model, two keys are equal iff post id, index and extension are all equal |
| Keys.GeneratedKeyInjective | scripts/migrate_to_s3.py:28-31 | for URLs with the same extension, keys are equal iff `(post_id, index)` are equal |
| Keys.SameSlotSharesKeyIffSameExtension | scripts/migrate_to_s3.py:28-31 | two URLs in the same post and index slot share a key iff their extensions agree |
| Keys.DistinctPostsDistinctKeys | scripts/migrate_to_s3.py:31 | different post ids never give the same key, whatever the URLs |
| Keys.IndexFieldWidth | scripts/migrate_to_s3.py:31 | below 1000 the index field is 3 digits; from 1000 it is the plain decimal, wider than 3; it always reads back as the index |
| Fetch.DownloadFrom | scripts/migrate_to_s3.py:39-50 | a body comes back iff some remaining attempt is a 200; it is that attempt's body; no earlier attempt was a 200; without a body every attempt was made |
| Fetch.Download | scripts/migrate_to_s3.py:33-50 | the result is the body of the first 200 among at most 3 attempts, and `None` when none of the 3 is a 200 |
| Fetch.ReportsAreFailures | scripts/migrate_to_s3.py:44-48 | every printed failure belongs to an attempt that was made and failed |
| Fetch.ReportsInAttemptOrder | scripts/migrate_to_s3.py:39-48 | failures are printed in attempt order, at most one per attempt |
| Fetch.EveryStatusReported | scripts/migrate_to_s3.py:44-45 | in this copy every non-200 status that was received is printed |
| Fetch.LastAttemptReport | scripts/scrape_and_migrate_to_s3.py:40-51 | in the other copies something is printed iff all attempts failed, and then once, for the last attempt |
| Fetch.PolicyOnlyAffectsReports | scripts/scrape_and_migrate_to_s3.py:34-51 | the two printing policies give the same body and the same number of attempts |
| Fetch.DownloadUsesOnlyAttemptsMade | scripts/migrate_to_s3.py:39-43 | nothing after the attempt that returned matters: no request follows a 200 |
| Fetch.FirstAttemptOk | scripts/migrate_to_s3.py:41-43 | a 200 on the first attempt returns its body after one request, with nothing printed |
| Fetch.ThreeFailuresGiveNone | scripts/migrate_to_s3.py:39-50 | three failures give `None` even if a fourth request would have succeeded |
| Store.ContentType | scripts/migrate_to_s3.py:55-59 | `image/png` iff the key ends in `.png`, `image/webp` iff it ends in `.webp`, `image/jpeg` otherwise |
| Store.JpegContentType | scripts/migrate_to_s3.py:55-59 | a `.jpeg` key is uploaded as `image/jpeg` |
| Store.ContentTypeOfExtension | scripts/migrate_to_s3.py:55-59 | the content type of a derived key follows its extension |
| Store.PublicUrl | scripts/migrate_to_s3.py:85 | the URL is `https://{bucket}.s3.{region}.amazonaws.com/` followed by the key |
| Store.PublicUrlInjective | scripts/migrate_to_s3.py:85 | for one bucket and region, distinct keys have distinct URLs |
| Store.ProcessImage | scripts/migrate_to_s3.py:73-88 | an upload of the downloaded body, with the key's content type, happens iff the download is non-empty; a pair comes back iff that upload also succeeds, and it is `(url, public URL of the key)` |
| Store.EmptyBodyIsFailure | scripts/migrate_to_s3.py:78-80 | an empty 200 body uploads nothing and yields no pair |
| Tasks.PostTasks | scripts/migrate_to_s3.py:107-119 | a post contributes one task for a truthy `displayUrl` plus one per entry of `images` |
| Tasks.EnumerateTasks | scripts/migrate_to_s3.py:107-119 | enumeration can fail only when `post['id']` is required, and then only at a post that has a task and no id |
| Tasks.TaskCount | scripts/scrape_and_migrate_to_s3.py:130-144 | the number of tasks is the sum over posts of 1 for a truthy `displayUrl` plus `len(images)` |
| Tasks.FallbackNeverFails | scripts/scrape_and_migrate_to_s3.py:131 | with `post.get('id', f'post_{idx}')` enumeration never fails |
| Tasks.RequiredIdFailure | scripts/migrate_to_s3.py:107-119 | with `post['id']` enumeration fails iff some post with a task lacks an id, and reports the first such post |
| Tasks.EnumeratePrefix | scripts/migrate_to_s3.py:107 | posts are visited in order: the tasks of a prefix of the posts are a prefix of the tasks |
| Tasks.PostTasksInPlace | scripts/migrate_to_s3.py:107-119 | post `k`'s tasks appear whole, right after the tasks of the earlier posts |
| Tasks.DisplayTaskPosition | scripts/migrate_to_s3.py:109-111 | a truthy `displayUrl` is post `k`'s first task, with index 0 and that post's id |
| Tasks.ImageTaskPosition | scripts/migrate_to_s3.py:115-118 | `images[i]` follows, `i` places on, with index `i`: the image indices restart at 0 |
| Tasks.DisplayAndFirstImageKeys | scripts/migrate_to_s3.py:109-117 | `displayUrl` and `images[0]` of one post share a key iff their extensions agree |
| Tasks.FallbackIdsCanClash | scripts/scrape_and_migrate_to_s3.py:131 | a real id `post_k` and the fallback id of post `k` give the same `displayUrl` key when extensions agree |
| Aggregate.Collect | scripts/migrate_to_s3.py:128-131 | every result is counted once, as a success or a failure; the mapping never holds an empty source or target URL |
| Aggregate.Schedule | scripts/migrate_to_s3.py:126-128 | a completion order holds exactly as many results as there are tasks; that it is a permutation is `Aggregate.SchedulePermutes` |
| Aggregate.SchedulePermutes | scripts/migrate_to_s3.py:125-128 | the completion order is a permutation of the task results |
| Aggregate.EveryOrderReachable | scripts/migrate_to_s3.py:125-128 | every permutation of the results is some completion order |
| Aggregate.CountersAddUp | scripts/scrape_and_migrate_to_s3.py:150-163 | `successful` counts the succeeding results and `successful + failed` is the number of tasks |
| Aggregate.SuccessCountPermutation | scripts/scrape_and_migrate_to_s3.py:157-163 | the success count is the same for any order of the results |
| Aggregate.MappingKeys | scripts/scrape_and_migrate_to_s3.py:157-160 | the mapping's keys are exactly the source URLs with at least one success |
| Aggregate.LastWriterWins | scripts/scrape_and_migrate_to_s3.py:159-160 | a mapped URL's value is the new URL of the last success for it in completion order |
| Aggregate.MappingSize | scripts/scrape_and_migrate_to_s3.py:150-163 | the mapping has at most `successful` entries, and exactly that many iff succeeding source URLs are distinct |
| Aggregate.OrderFreeWhenConsistent | scripts/scrape_and_migrate_to_s3.py:154-160 | when all successes for a URL carry the same new URL, the whole result is the same in every order |
| Aggregate.KeysAndCountersOrderFree | scripts/scrape_and_migrate_to_s3.py:154-163 | in every completion order the mapping keys and both counters are the same |
| Aggregate.OrderMattersOtherwise | scripts/scrape_and_migrate_to_s3.py:159-160 | two successes for one URL with different new URLs give a value that depends on the order |
| Rewrite.RewriteImages | scripts/migrate_to_s3.py:139-142 | each entry becomes its mapped URL when it has one and is kept otherwise; the length is kept |
| Rewrite.RewritePost | scripts/migrate_to_s3.py:135-142 | the id and the presence and length of `images` are kept; `displayUrl` changes only when it is a key, and then to its mapped URL |
| Rewrite.RewritePosts | scripts/migrate_to_s3.py:135 | one rewritten post per post, in order |
| Rewrite.RewritePreservesShape | scripts/migrate_to_s3.py:135-142 | post count, order and `images` lengths are kept; a post with no mapped URL is unchanged |
| Rewrite.RewriteImagesIdempotent | scripts/migrate_to_s3.py:140-142 | rewriting an `images` list twice is rewriting it once, when no new URL maps elsewhere |
| Rewrite.RewriteIdempotent | scripts/migrate_to_s3.py:135-142 | rewriting the posts twice is rewriting them once, under the same condition |
| Rewrite.RewriteTwiceCanDiffer | scripts/migrate_to_s3.py:136-137 | with `a -> b` and `b -> c`, a second rewrite changes `displayUrl` again |
| Config.ParseInt | scripts/lambda_package/lambda_function.py:205 | text that `int()` accepts starts, after whitespace, with a sign or a digit, and a negative value needs the `-` |
| Config.ReadConfig | scripts/lambda_package/lambda_function.py:200-205 | on success the settings are the four required variables' values, `AWS_REGION` or `us-east-2`, and the number `int()` reads from `MAX_POSTS` or `'100'`; a rejected `MAX_POSTS` is reported with the text `int()` refused |
| Config.ParseIntRoundTrip | scripts/lambda_package/lambda_function.py:205 | `int(str(n)) == n` for either sign |
| Config.NoDigitsNoInt | scripts/lambda_package/lambda_function.py:205 | text without a digit is a `ValueError` |
| Config.DefaultMaxPostsIs100 | scripts/lambda_package/lambda_function.py:205 | the default `'100'` is the number 100 |
| Config.MissingVariableFails | scripts/lambda_package/lambda_function.py:200-203 | configuration fails with a missing variable iff one of the four required ones is absent, naming the first in reading order |
| Config.ConfigDefaults | scripts/lambda_package/lambda_function.py:204-205 | without `AWS_REGION` and `MAX_POSTS` the region is `us-east-2` and the limit 100 |
| Pipeline.RunTask | scripts/scrape_and_migrate_to_s3.py:74-89 | a task yields a pair iff its download is non-empty and its upload returns; the pair is the task's URL and the public URL of its key; the loop counts it as a success iff the task succeeds on its own (non-empty URL too) |
| Pipeline.RunTasks | scripts/scrape_and_migrate_to_s3.py:154-155 | one result per task, result `i` being task `i` run in its own world, so no result depends on another task |
| Pipeline.TaskMapping | scripts/scrape_and_migrate_to_s3.py:154-160 | in any completion order a URL is mapped iff some task with that URL succeeds, and it maps to the public URL of the key of one of its tasks |
| Pipeline.SuccessfulTaskIsMapped | scripts/scrape_and_migrate_to_s3.py:154-160 | failure isolation: a task that succeeds in its own world has its URL mapped, however the other tasks fare |
| Pipeline.NothingSucceedsNothingMapped | scripts/scrape_and_migrate_to_s3.py:154-163 | when no task succeeds, `successful` is 0 and the mapping is empty |
| Pipeline.EmptyMappingChangesNothing | scripts/scrape_and_migrate_to_s3.py:169-178 | rewriting through an empty mapping returns the posts unchanged |
| Pipeline.FallbackTasks | scripts/scrape_and_migrate_to_s3.py:130-144 | with the `post_{idx}` fallback the task list always exists and has the per-post sum of tasks |
| Pipeline.MappedFromResult | scripts/scrape_and_migrate_to_s3.py:157-160 | every mapped URL is the source URL of some migrated result, mapped to that result's new URL |
| Pipeline.MappingIsFromTasks | scripts/migrate_to_s3.py:124-131 | every mapped URL is some task's URL, mapped to the public URL of that task's key |
| Pipeline.Migrate | scripts/scrape_and_migrate_to_s3.py:126-178 | the run fails iff enumeration does; otherwise the posts are rewritten through the task mapping, `successful` counts the succeeding results and `successful + failed` is the number of tasks |
| Pipeline.MigrateFacts | scripts/scrape_and_migrate_to_s3.py:126-178 | the number of tasks is the per-post sum, the counters add up to it, the posts keep number and order, and the mapping comes from the tasks |
| Pipeline.MigrateInstagramToS3 | scripts/migrate_to_s3.py:90-142 | the run fails iff some post with a task lacks an id; otherwise it returns as many posts as it read, rewritten through the mapping of exactly the succeeding tasks |
| Pipeline.ScrapeAndMigrate | scripts/scrape_and_migrate_to_s3.py:126-192 | it returns the scraped posts rewritten through the mapping of exactly the succeeding tasks, `successful` as the number of succeeding results and `successful + failed` as the number of tasks |
| Pipeline.CountersOrderFree | scripts/scrape_and_migrate_to_s3.py:154-163 | the returned counters do not depend on the completion order |
| Pipeline.OfflineChangesNothing | scripts/scrape_and_migrate_to_s3.py:149-178 | when no request gets a response, every task fails and the posts come back unchanged |
| Pipeline.LambdaScrapeAndMigrate | scripts/lambda_package/lambda_function.py:117-183 | it succeeds iff the JSON upload does; the stats satisfy `posts == len(posts)`, `images_total` = number of tasks, `images_successful + images_failed == images_total`; the JSON goes to `{model}/instagram_data.json`; the stored posts and `images_successful` are those of `scrape_and_migrate` in the script copy |
| Pipeline.LambdaHandler | scripts/lambda_package/lambda_function.py:198-235 | status 200 iff configuration, scrape and JSON upload all succeed, and then the stats are those of the run over the configured bucket, model and region; 500 with the error otherwise |
| Pipeline.MissingVariableGives500 | scripts/lambda_package/lambda_function.py:200-203 | a missing required variable gives status 500 |
| Pipeline.HandlerDefaults | scripts/lambda_package/lambda_function.py:204-205 | with only the required variables set, the region is `us-east-2` and the limit 100 |
| Scrapers.ChildDisplays | scripts/scrape_instagram_async.py:144-147 | at most one image per child, and every one is truthy |
| Scrapers.PostImages | scripts/scrape_instagram_async.py:136-147 | `len(images) <= 1 + len(childPosts)`, and every image is truthy |
| Scrapers.ImagesAreTruthyCandidates | scripts/scrape_instagram_async.py:136-147 | `images` is exactly the truthy `displayUrl`s of the post and then its children, in order |
| Scrapers.SkippedChild | scripts/scrape_instagram_async.py:146-147 | a child without a truthy `displayUrl` adds nothing |
| Scrapers.SimplifyPost | scripts/scrape_instagram_async.py:123-149 | the record has the post's images; `likes` and `comments` default to 0 and `caption` to `''`; `video_url` is present iff the type is `Video` with a truthy `displayUrl`, as `videoUrl` or `None`; a malformed `childPosts` raises |
| Scrapers.ProductImagesOf | scripts/scrape_instagram.py:72-94 | the same images; `likes` and `comments` are `None` when absent and `caption` defaults to `''` |
| Scrapers.MapPosts | scripts/scrape_instagram_async.py:121-151 | one record per post in order, or the error of the first post that raises |
| Scrapers.ExtractImageUrls | scripts/scrape_instagram_async.py:119-151 | one item per input post |
| Scrapers.ExtractProductImages | scripts/scrape_instagram.py:68-96 | one item per input post |
| Scrapers.MapPostsAppend | scripts/scrape_instagram_async.py:121-151 | the loop over a concatenation is the concatenation of the loops |
| Scrapers.ImageUrlsAppend | scripts/scrape_instagram_async.py:121-151 | `extract_image_urls(a + b)` succeeds iff both halves do, and is their concatenation |
| Scrapers.ProductImagesAppend | scripts/scrape_instagram.py:70-96 | the same for `extract_product_images` |
| Scrapers.SameImageLists | scripts/scrape_instagram.py:84-92 | both extractors build the same `images` list for every post |
| Scrapers.Nested | scripts/scrape_isme_full_website.py:111-115 | a missing field reads as an empty dict, giving `''`; a dict field gives the key's value or `''` when the key is absent; any other value in the field raises |
| Scrapers.ProductOf | scripts/scrape_isme_full_website.py:105-116 | the record keeps `url`, defaults `text` and `markdown` to `''`, takes `title` and `description` from `metadata` and `crawled_at` from `crawl.loadedTime`, each `''` when absent, and raises when either field is not a dict |
| Scrapers.MentionsProducts | scripts/scrape_isme_full_website.py:104 | `'/products/' in url` is a substring test on a string, element equality on a list, a key lookup on a dict, and a `TypeError` for anything else |
| Scrapers.PageProducts | scripts/scrape_isme_full_website.py:101-117 | a page yields a record iff its `url` contains `/products/`; a `url` that is not a string, list or dict raises |
| Scrapers.ProductsFrom | scripts/scrape_isme_full_website.py:98-119 | the output is no longer than the input and every kept URL contains `/products/` |
| Scrapers.ExtractProducts | scripts/scrape_isme_full_website.py:96-119 | the output is no longer than the input, and every kept record's `url` contains `/products/` |
| Scrapers.ProductsAppend | scripts/scrape_isme_full_website.py:100-119 | filtering a concatenation succeeds iff both halves do and is their concatenation, so order is kept |
| Scrapers.ProductCount | scripts/scrape_isme_full_website.py:100-117 | one record per product page |
| Scrapers.MissingUrlDropped | scripts/scrape_isme_full_website.py:101-104 | a page without `url` is read as `''` and dropped |
| Scrapers.NullUrlRaises | scripts/scrape_isme_full_website.py:101-104 | a `url` of JSON `null` raises `TypeError` |

## Left out

- HTTP, S3 and Apify calls are not modelled: `requests.get`, `put_object` and `ApifyClient` appear only through their outcomes, which are parameters. The `User-Agent` header and the printed text are not modelled; failure reports are modelled only as attempt numbers.
- The thread pool and `tqdm` are not modelled. The pool's only effect on the result is the completion order, which is a parameter.
- File reading and writing, `load_dotenv`, `sys.argv` handling and the unused `url_to_post_map` are left out, because they do not affect the result.
- The polling loops `wait_for_completion` and the Apify actor calls of the scrapers are left out, because they are wall-clock-driven network plumbing.
- `migrate_instagram_to_s3` returns the rewritten posts instead of writing them to `*_s3.json`. Its final summary prints are left out.
- Urls.UrlPath: the `ValueError`s of `urlsplit`'s network-location checks are not modelled, because image CDN URLs carry neither bracketed nor non-ASCII hosts. Python raises for unbalanced brackets, for a bracketed host that is not a valid IPv6 or IPvFuture address (such as `https://[abc]/x.png`), and for a non-ASCII netloc whose NFKC form gains one of `/?#@:` (such as `https://x／y/a.png`). The model returns a path for these. The `https://{host}` lemmas allow only ASCII hosts without brackets, where neither check applies.
- Config.ParseIntRoundTrip: `int()` is modelled for ASCII digits and ASCII whitespace only. Unicode digits and spaces, which Python also accepts, are not modelled. Python's limit of 4300 digits for string-to-int conversion, above which `int()` raises `ValueError`, is not modelled either: the model reads numbers of any length.
- Tasks.PostTasks: migration posts carry only `id`, `displayUrl` and `images`, all as strings. Other fields pass through the rewrite untouched and are not represented. Non-string values in these fields are not modelled.
- Json.Truthy: JSON numbers are integers. Floats, and the falsy `0.0`, are not modelled.
- Scrapers.MapPosts: every post and page is assumed to be a JSON object. Apify returns a list of dicts, and a non-dict item would raise `AttributeError` at `post.get`.
