# Skycast, modelled in Dafny

Skycast is a bot that reposts new submissions of a subreddit to Bluesky. This
project models the bot's decision and retry core, and proves what that core
promises. It covers two versions of the bot:

- **The current bot** (`src/skycast.py`):
  - the skip policy with its catch-up window;
  - the main loop over the submission stream;
  - the retry engine built on tenacity, with its exception tables, exponential
    backoff and countdown;
  - the cached two-line status display;
  - the link card (`extract_info`, `get_blob`);
  - the post text and its 300-character budget;
  - the post URL and the Reddit URL helpers;
  - the error branch of the startup fetch.
- **The first version** (the root `skycast.py`):
  - its hand-written retry loops around Reddit session requests and HTTP GETs;
  - its own link-card rule and fixed post text;
  - its post-and-save loop.

Every network call is modelled as a sequence of prescribed outcomes, one per
attempt: it either returns a value (`Ok`) or raises a fault (`Raise`). A call
ends in a `CallResult`:

- `Returned` or `Raised`;
- or `Exhausted`, when the prescribed outcomes run out while the call is
  still being retried.

Faults form a datatype of exception classes. `RequestException` carries the
exception it wraps. The predicates in `Faults` give the class hierarchy of the
client libraries, because the bot tests membership with `isinstance` in some
places and looks classes up exactly in others.

The code follows the source's own form:

- **State changed in place** is a class. `Status.StatusReporter` holds the
  module globals `prev_status` and `prev_sub_status`, plus the text on the
  display.
- **Loops** are methods with `while`/`for` loops:
  - `wait` is `Status.Wait`;
  - the retry loop is `Retry.NetworkRetry`;
  - `main` is `Stream.StreamLoop`;
  - `patched_session_request` is `Legacy.PatchedSessionRequest`;
  - `get` is `Legacy.GetResponse`;
  - the first version's `main` is `Legacy.LegacyLoop`.

  Each method is proved against a specification function (`Ticks`, `Run`,
  `Trace`, `Session`, `GetRetry`, `LegacyTrace`). The lemmas then state what
  the source promises about those functions.
- **Decisions** are functions: `verify_submission`, `extract_info`,
  `get_blob`, `build_post_text`, the URL helpers and the backoff schedule.

Modules:

| module | contents |
|---|---|
| `Common`, `Strings` | small helpers |
| `Faults` | faults and call outcomes |
| `Taxonomy` | the exception tables |
| `Status` | the display and the countdown |
| `Retry` | the retry engine |
| `Policy` | the skip policy and the shipped title rule |
| `Pipeline` | one submission turned into a post |
| `Stream` | the current bot's main loop |
| `Legacy` | the first version |

## Model

| member | source | states |
|---|---|---|
| Policy.Catchup | src/skycast.py:408 | The catch-up window is the first `min(len(recent), max(0, CATCHUP_LIMIT))` submissions seen at startup, each at its own index. A limit of zero or less gives an empty window, a limit within the list gives exactly that many, and a limit past its end gives the whole list. |
| Policy.VerifySubmission | src/skycast.py:402-428 | A submission is skipped exactly when it is past catch-up, its title fails the rule, or it is saved. A submission that is not skipped has no reason. A skip with no reason is a past-catch-up skip. "already shared" is only given to a title that passed the rule. |
| Policy.ReasonPriority | src/skycast.py:412-419 | The reasons have a fixed priority. Past catch-up is silent. Otherwise an invalid title gets "title doesn't conform to formatting rule", whatever the saved flag. Otherwise a saved submission gets "already shared". |
| Policy.CatchupIndex | src/skycast.py:408-409 | With distinct ids, the submission at index `i` of the startup list is past catch-up exactly when `i >= max(0, CATCHUP_LIMIT)`. |
| Policy.NegativeLimitIsZero | src/skycast.py:408 | A negative CATCHUP_LIMIT behaves like 0, so every submission seen at startup is past catch-up. |
| Policy.NewNeverPastCatchup | src/skycast.py:409 | A submission not seen at startup is never past catch-up. |
| Policy.ScanCloseMeans | config_template.py:16 | The scan for the closing bracket succeeds exactly when some later `]` has no line break before it. |
| Policy.MatchesBracketTagIsPattern | config_template.py:16 | The matcher accepts exactly the titles that the shipped rule `^\[.+?\]` matches: `[`, at least one character that is not a line break, then `]`. |
| Policy.BracketTagExamples | config_template.py:16 | Examples, not a property: concrete accepted and rejected titles under the shipped rule. The general statement is `Policy.MatchesBracketTagIsPattern`. |
| Policy.MatchesBracketTag | config_template.py:16 | The matcher for the shipped title rule; what it accepts is stated by `Policy.MatchesBracketTagIsPattern`. |
| Status.StatusReporter.constructor | src/skycast.py:167-168 | The cached status and sub-status start empty. |
| Status.StatusReporter.UpdateStatus | src/skycast.py:231-251 | An empty status falls back to the cached one. The display shows `>> status : sub ...` (without ` : sub` when the sub-status is empty) followed by the stop hint. The pair is cached only when `cache` is set; otherwise the cache is unchanged. |
| Status.Render | src/skycast.py:244-251 | The text handed to `live.update`: `>> `, the status, ` : ` and the sub-status when there is one, ` ...` and the stop hint; used by `Status.StatusReporter.UpdateStatus`. |
| Status.Ticks | src/skycast.py:437-441 | The sleeps of the countdown, one per pass of the `while` loop; `Status.Wait` is proved to perform them, and `Status.TicksAddUp`, `Status.TicksCount` and `Status.TicksShape` state their sum, number and sizes. |
| Status.Wait | src/skycast.py:431-441 | The sleeps are exactly `Ticks(total, freq)`. The cached status is never changed. The display ends on the countdown frame for the last remaining time, and nothing is shown when `total <= 0`. |
| Status.LastRemaining | src/skycast.py:437-441 | The time left at the last tick is in `(0, freq]`. |
| Status.TicksAddUp | src/skycast.py:437-441 | The ticks add up to exactly `max(0, total)` seconds, so there are none when `total <= 0`. |
| Status.TicksCount | src/skycast.py:437-441 | A countdown of `total > 0` seconds takes ceil(total / freq) ticks. |
| Status.TicksShape | src/skycast.py:440 | Every tick sleeps `freq` seconds except the last, which sleeps what is left (`min(freq, total_time)`). |
| Status.TicksBySecond | src/skycast.py:197-201 | With `freq = 1`, a countdown of `n` seconds is `n` one-second sleeps. |
| Retry.Backoff | src/skycast.py:497-504 | The wait after the k-th failed attempt is `min(5 * 2^(k-1), 300)`, which is in `(0, 300]`. |
| Retry.BackoffSchedule | src/skycast.py:91-92 | The first ten waits are 5, 10, 20, 40, 80, 160, 300, 300, 300, 300. |
| Retry.BackoffCapped | src/skycast.py:91-92 | From the seventh failure on, the wait is 300. |
| Retry.BackoffGrows | src/skycast.py:499-502 | The wait never shrinks from one failure to the next. |
| Retry.FailureSleepsAddUp | src/skycast.py:194-202 | The k-th consecutive failure sleeps exactly `min(300, 5 * 2^(k-1))` seconds in all. The sleeps are one-second ticks, then tenacity's own sleep, which the hook has set to 0. |
| Retry.DescriptionByExactClass | src/skycast.py:184-193 | For every fault that is not itself a RequestException, a RequestException wrapping it shows that fault's description. Every such fault without an entry shows "Reddit server error". Examples: a wrapped ConnectionError or ReadTimeout shows its own text. SSLError and TooManyRequests are retried but fall back to "Reddit server error". A RequestException wrapping NetworkError or a bare Timeout is not retried. |
| Taxonomy.InRetryExceptions | src/skycast.py:95-112 | RETRY_EXCEPTIONS by `isinstance`: the prawcore, requests and atproto tuples together; what it retries is stated by `Retry.DescriptionByExactClass` and `Retry.RetriedNeverEscapes`. |
| Taxonomy.DescriptionOf | src/skycast.py:113-131 | EXCEPTIONS_DESCRIPTIONS, one entry per class, with the `{subreddit}` placeholder kept apart; its lookups are stated by `Retry.DescriptionByExactClass` and `Pipeline.RecentNamesSubreddit`. |
| Retry.ShouldRetry | src/skycast.py:171-176 | `should_retry_request`: go on exactly when the attempt raised one of RETRY_EXCEPTIONS. |
| Retry.IsRetried | src/skycast.py:176-188 | The faults really attempted again: in RETRY_EXCEPTIONS and not re-raised by the hook. |
| Retry.Description | src/skycast.py:184-193 | The description printed for a fault: looked up by the exact class after unwrapping a RequestException, defaulting to "Reddit server error". |
| Retry.NoticeLine | src/skycast.py:174-196 | The console line of a notice: the description with `, retrying after` and the humanized backoff as an error, or the green "Successfully resumed"; `Retry.RunNoticeLines` states which line each attempt prints. |
| Retry.Run | src/skycast.py:171-203 | The engine's specification: each outcome is settled, re-raised or retried after its notice and countdown; `Retry.NetworkRetry` is proved to compute it, and `Retry.RunStops` and the lemmas after it state what it does. |
| Retry.RunNoticeLines | src/skycast.py:174-196 | The k-th console line of a run names the k-th fault's description and announces `min(5 * 2^(k-1), 300)` seconds, as an error; a recovery after a failure adds exactly one more line, the green "Successfully resumed", not as an error. |
| Retry.Attempt | src/skycast.py:171-176 | After an attempt, the engine goes on exactly when the outcome is a retried fault. That attempt then prints one notice and counts its backoff down in one-second ticks. The cached status is kept. |
| Retry.OnNetworkException | src/skycast.py:179-203 | A RequestException wrapping anything but a requests network error is re-raised, with no notice and no sleep. Otherwise the hook prints the fault's notice, counts `Backoff(attempt)` seconds down one second at a time, and puts the cached status back on the display. |
| Retry.NetworkRetry | src/skycast.py:497-507 | The wrapped call's result, sleeps and notices are exactly `Run(outcomes, 1)`. The cached status is unchanged. After any sleep, the display shows the cached status again. |
| Retry.RetryAttempts | src/skycast.py:497-504 | The loop stops at the first outcome that is not a retried fault. Every outcome before it is a retried fault. Its sleeps are the backoffs of those failures, and its notices are theirs. |
| Retry.RunStops | src/skycast.py:171-203 | After `n` retried faults followed by an outcome that is not retried, the run settles on that outcome. Its sleeps are the `n` backoffs, and its notices are one per failure, plus a recovery notice when a success comes after the first attempt. |
| Retry.RunSettles | src/skycast.py:171-176 | The call ends with the first outcome that is not a retried fault. It is still retrying when there is none. |
| Retry.RunSleeps | src/skycast.py:194-202 | The run sleeps the backoff of each failure, in order. |
| Retry.RunNotices | src/skycast.py:174-175 | The run prints one notice per failure, then "Successfully resumed" exactly when a later attempt succeeds. |
| Retry.RetriedPrefixMeans | src/skycast.py:171-188 | The first `n` outcomes are all faults that are retried. |
| Retry.RetryNoticesOfFaults | src/skycast.py:194-196 | Failed attempts get one notice each, numbered by attempt. |
| Retry.BackoffSleepsAddUp | src/skycast.py:194-202 | The sleeps of `n` failures add up to the sum of their exponential waits. |
| Retry.RecoversAfterFaults | src/skycast.py:171-203 | After `n` retried faults, a success is returned. The run has slept the first `n` backoffs and printed one notice per failure. It reports the recovery exactly when `n > 0`. |
| Retry.NotRetriedPropagates | src/skycast.py:176 | A first attempt that raises a fault that is not retried propagates it at once, with no sleep and no notice. |
| Retry.RetriedNeverEscapes | src/skycast.py:110-112 | A fault the engine retries never escapes it. |
| Pipeline.FullUrl | src/skycast.py:261-263 | The full URL is `https://www.reddit.com` followed by the whole permalink. |
| Pipeline.ShortUrl | src/skycast.py:266-268 | The short URL is `https://redd.it/` followed by the whole submission id. |
| Pipeline.FinalUrlResolves | src/skycast.py:311-313 | A `/r/` link becomes `https://www.reddit.com` + link, and any other link is kept. Resolving twice changes nothing. |
| Pipeline.GetBlobDecisions | src/skycast.py:332-350 | The image is downloaded first. It is uploaded exactly when the download answered 200. A non-200 answer gives no blob. A failed download is the result. After a 200 the result is the upload's blob, or the upload's own failure. A fault always comes from one of the two calls. |
| Pipeline.GetBlobResizesStrictly | src/skycast.py:338-347 | The uploaded data is the downloaded content, unless that is strictly larger than 976560 bytes; then it is the reduced image. |
| Pipeline.GetBlob | src/skycast.py:332-350 | `get_blob`, with its requests and sub-statuses; stated by `Pipeline.GetBlobDecisions` and `Pipeline.GetBlobResizesStrictly`. |
| Pipeline.ExtractAsksAboutFinalUrl | src/skycast.py:311-320 | The metadata service is asked about the final URL first, and a card that is returned links to that URL. |
| Pipeline.ExtractFallback | src/skycast.py:321-322 | An "Error" reply or an empty image gives `(None, final_url, "", final_url)`, with no download. |
| Pipeline.ExtractInfo | src/skycast.py:309-329 | `extract_info`, with each branch and the KeyError of a missing key; stated by `Pipeline.ExtractAsksAboutFinalUrl`, `Pipeline.ExtractFallback` and `Pipeline.ExtractWithPreview`. |
| Pipeline.ExtractWithPreview | src/skycast.py:321-329 | For any reply with no "Error" key, a non-empty image and a title and description (other keys allowed), the card carries the uploaded thumbnail (none for a non-200 image), the reply's title and description, and the final URL; the image is the second request. |
| Pipeline.Hashed | src/skycast.py:371-372 | Each tag gets its `#` sign. |
| Pipeline.Hashtags | src/skycast.py:356 | There is one hashtag per configured template. |
| Pipeline.TagSegmentsText | src/skycast.py:371-374 | The hashtag facets read as `#tag` joined by single spaces with nothing trailing, and they name exactly the hashtags, in order. |
| Pipeline.HashedJoinLength | src/skycast.py:357-360 | The `#` signs lengthen the joined text by one per tag. |
| Pipeline.SuffixIsReserved | src/skycast.py:357-375 | The reserved length equals the length of everything after the shortened text. The separator is there only when there are hashtags. The facets name exactly the hashtags. |
| Pipeline.PostTextFits | src/skycast.py:361-367 | The post is `|shortened| + (300 - remaining)` characters long, so it fits 300 whenever the shortened text fits its width. |
| Pipeline.PostText | src/skycast.py:353-375 | `build_post_text`: the shortened text, the separator when there are hashtags, and the hashtag facets with single spaces between them; stated by `Pipeline.SuffixIsReserved` and `Pipeline.PostTextFits`. |
| Pipeline.PostUrlOfRecord | src/skycast.py:395-399 | For a post URI `.../rkey`, the URL is `https://bsky.app/profile/<handle>/post/<rkey>`. |
| Pipeline.PostUrl | src/skycast.py:395-399 | BSKY_POST_URL with the handle and the last `/` segment of the post URI; stated by `Pipeline.PostUrlOfRecord`. |
| Pipeline.ProcessSubmission | src/skycast.py:378-399 | `process_submission`: the card, the post text, one post call (retried as a whole by the retry engine) and its URL; stated by `Pipeline.PublishesOnce`. |
| Pipeline.ExtractNeverPublishes | src/skycast.py:309-350 | Building the card never posts. |
| Pipeline.PublishesOnce | src/skycast.py:378-399 | A submission makes at most one post call (retried as a whole by the retry engine), and only after its card was built. The post carries the built text and that card, and the result is the new post's URL. |
| Pipeline.RecentBranches | src/skycast.py:294-306 | A fetched list is returned. A fault outside OTHER_PRAWCORE_EXCEPTIONS, or an exact ResponseException other than 401, propagates unprinted. A caught fault with a description prints it as an error and gives None. |
| Pipeline.RecentSubmissions | src/skycast.py:286-306 | `recent_submissions` as written, given what the fetch ends with; stated by `Pipeline.RecentBranches`. |
| Pipeline.RecentRaisesOnlyTheFetchFault | src/skycast.py:296-301 | Behind the retry engine, the startup fetch raises only the fault its call raised, except for a ResponseException subclass without a description (BadRequest, InvalidToken, ...), for which it raises KeyError with that class's name. |
| Pipeline.RecentCrashesOnUndescribedResponse | src/skycast.py:296-301 | As written, a fetch whose first attempt raises such a subclass is not retried, and `recent_submissions` then raises KeyError and prints nothing. |
| Pipeline.RecentSubmissionsCorrected | src/skycast.py:296-306 | The fetch with the missing description handled: a caught exception without a description is re-raised as itself. |
| Pipeline.CorrectedRaisesOnlyTheFetchFault | src/skycast.py:296-306 | The corrected fetch raises only the fault its call raised, prints only when it gives None, and agrees with the code as written wherever the description exists. |
| Pipeline.RecentNamesSubreddit | src/skycast.py:125-130 | The subreddit messages have the subreddit's name filled in. |
| Stream.Halt | src/skycast.py:444-470 | A call that does not return ends the loop. |
| Stream.StreamLoop | src/skycast.py:444-470 | The actions, sleeps and console lines of `main` over a finite stream, and the final display, are exactly `Trace(LoopBody(settings), stream, ...)`. |
| Stream.HandleElement | src/skycast.py:447-470 | One pass of the loop body produces exactly `Handling` of that element, and the display ends on that pass's screen. |
| Stream.Handling | src/skycast.py:447-470 | The specification of one pass of `main`'s loop body; `Stream.HandleElement` is proved to compute it, and `Stream.HandlingCounts`, `Stream.HandlingWellOrdered`, `Stream.PauseWaits` and `Stream.SkipIsQuiet` state what it does. |
| Stream.Trace | src/skycast.py:446-470 | The specification of the loop: the passes over the stream until an action ends it; `Stream.StreamLoop` is proved to compute it, and `Stream.PostsExactlyAdmitted` and `Stream.TraceWellOrdered` state what it does. |
| Stream.ShowSubStatuses | src/skycast.py:319-389 | The sub-statuses shown while a submission is processed keep the status. The display ends on the last of them. |
| Stream.StaysHalted | src/skycast.py:444-470 | Once a fault has ended the loop, nothing more happens. |
| Stream.HandlingCounts | src/skycast.py:447-470 | A pass that does not end the loop posts and saves its submission exactly when the skip policy admits it. It waits once exactly when the stream had nothing new. |
| Stream.CountsFollowPolicy | src/skycast.py:446-470 | For any body whose passes behave that way: until the loop stops, the posts are exactly the admitted submissions in stream order, each is saved, and there is one wait per pause. |
| Stream.PostsExactlyAdmitted | src/skycast.py:446-470 | Until `main` stops, its posts are exactly the submissions `verify_submission` admits, in stream order. Each gets one `process_submission`, so one post call (retried as a whole by the retry engine), and is saved. There is one wait per `None` from the stream. |
| Stream.HandlingWellOrdered | src/skycast.py:463-470 | Within a pass, a post is followed at once by the save of the same submission or by the end of the loop. |
| Stream.WellOrderedThen | src/skycast.py:446-470 | Well-ordered passes that do not end on a post concatenate to a well-ordered trace. |
| Stream.TraceClosed | src/skycast.py:446-470 | For any body whose passes are well ordered, so is the whole trace. |
| Stream.TraceWellOrdered | src/skycast.py:446-470 | In `main`, every post is followed by its save or by the end of the loop, and only the last action can end the loop. |
| Stream.PauseWaits | src/skycast.py:447-454 | A `None` waits CHECK_EVERY minutes in ticks of at most 60 seconds that add up to exactly that time. It prints nothing and ends on "Checking for new posts". |
| Stream.SkipIsQuiet | src/skycast.py:458-461 | A skipped submission is neither posted nor saved and leaves the display alone. It is reported on the console exactly when it has a reason, which is exactly when it is not past catch-up. |
| Legacy.PatchedSessionRequest | skycast.py:75-109 | The patched request's result and printed faults are exactly `Session(outcomes)`. |
| Legacy.Session | skycast.py:90-109 | The specification of the patched request: each caught exception is printed, then re-raised or retried at once; stated by the `Legacy.Session...` lemmas. |
| Legacy.SessionRetriesImmediately | skycast.py:90-109 | BadJSON, ServerError, TooManyRequests, and a RequestException wrapping a connection error, are sent again at once, with no sleep and however many times they come. The first success is returned unchanged, and each fault is printed once, in order. |
| Legacy.SessionRetriesFrom | skycast.py:90-109 | Retried faults before some outcomes leave the result unchanged and are printed first, in order. |
| Legacy.SessionPropagates | skycast.py:93-109 | An exception outside PRAWCORE_EXCEPTIONS propagates on its first occurrence, unprinted. A RequestException wrapping anything but a connection error is printed and re-raised. |
| Legacy.SessionRaisesUnretried | skycast.py:54-63 | The patched request raises only what it does not retry, and it prints only prawcore exceptions. |
| Legacy.GetResponse | skycast.py:155-167 | `get`'s result, sleeps and printed faults are exactly `GetRetry(outcomes)`. |
| Legacy.GetRetry | skycast.py:157-167 | The specification of `get`: a connection error or timeout is printed and followed by a 5-second sleep and another try; stated by `Legacy.GetSleepsFive` and `Legacy.GetReturnsFirstResponse`. |
| Legacy.GetSleepsFive | skycast.py:162-167 | `get` sleeps exactly 5 seconds per connection error or timeout and prints each one. It raises only other faults. |
| Legacy.GetReturnsFirstResponse | skycast.py:157-161 | After any number of connection errors and timeouts, `get` returns the first response, whatever its status. It has slept 5 seconds per failure. |
| Legacy.ExtractLinks | skycast.py:170-191 | The final URL is asked about first. The fallback card links to the final URL. A card with a preview links to the reported `url`. |
| Legacy.ReportedUrlWins | skycast.py:183-190 | An example, not a property: for one reply whose reported URL differs from the final one, this version's card links the reported URL and the current bot's card links the final URL. The general statement is `Legacy.ExtractLinks`. |
| Legacy.ExtractInfo | skycast.py:170-191 | This version's `extract_info`, with its calls through `get` and its unretried upload; stated by `Legacy.ExtractLinks`, `Legacy.LegacyExtractFallback` and `Legacy.LegacyExtractWithPreview`. |
| Legacy.LegacyExtractFallback | skycast.py:183-191 | An "Error" reply or an empty image gives `(None, final_url, "", final_url)`, with no download. |
| Legacy.LegacyExtractWithPreview | skycast.py:183-190 | For any reply with no "Error" key, a non-empty image and a title, description and url (other keys allowed): the image is the second request; a non-200 image gives no thumbnail; otherwise the card carries the upload's blob, or the upload's fault propagates; the card has the reply's title, description and `url`. |
| Legacy.LegacyPost | skycast.py:212-227 | The post text is exactly `title + "\n#ShareAPodcast"`. The URL ends with the last `/` segment of the post URI. |
| Legacy.ProcessSubmission | skycast.py:212-227 | This version's `process_submission`: the card, one post with the fixed text, and the URL from the last `/` segment; stated by `Legacy.LegacyPost`. |
| Legacy.LegacyLoop | skycast.py:230-239 | The actions of `main` over a finite stream are exactly `LegacyTrace(LegacyLoopBody(shrink), stream, ...)`. |
| Legacy.RunLoop | skycast.py:233-239 | The loop runs its body on each submission until an action ends it. |
| Legacy.LegacyHandling | skycast.py:234-239 | One pass of this version's loop: process, post, then save; stated by `Legacy.LegacyHandlingPostsThenSaves`. |
| Legacy.LegacyTrace | skycast.py:233-239 | The specification of this version's loop; `Legacy.LegacyLoop` is proved to compute it, and `Legacy.PostsAndSavesEverything` states what it does. |
| Legacy.LegacyStaysStopped | skycast.py:232-248 | Once a fault has ended the loop, nothing more happens. |
| Legacy.LegacyHandlingPostsThenSaves | skycast.py:234-239 | A pass that does not end the loop posts the submission, then saves it. |
| Legacy.TracePostsAndSaves | skycast.py:233-239 | For any body whose passes post and then save: until the loop stops, every submission is posted then saved, in order. |
| Legacy.PostsAndSavesEverything | skycast.py:233-239 | Until a fault stops it, `main` posts and then saves every streamed submission, in stream order, with no filtering. |
| Strings.LastSegment | src/skycast.py:395 | `split("/")[-1]` contains no slash, ends `s`, and is preceded by a slash when shorter than `s`. |
| Strings.LastSegmentAfterSlash | src/skycast.py:395 | The segment after the last slash of `head + "/" + tail` is `tail`. |

Reuse between the two versions:

- The first version's `get_blob` (skycast.py:194-209) makes the same decisions as the current one. The model reuses `Pipeline.GetBlob` for it, feeding it an upload that is not retried; this version has no sub-statuses.
- The first version's PRAWCORE_EXCEPTIONS (skycast.py:58-63) is `Taxonomy.IsPrawcoreException`.
- Its `reddit_url` (skycast.py:150-152) is `Pipeline.FullUrl`.

## Findings

| source | as written | input that shows it | evidently intended | confidence | as-written member | corrected member |
|---|---|---|---|---|---|---|
| src/skycast.py:296-301 | Every ResponseException is caught, but the description is looked up with `EXCEPTIONS_DESCRIPTIONS[exception.__class__]`, and only the exact ResponseException and four subclasses have an entry. | `subreddit.new` raises prawcore's BadRequest (or InvalidToken, Conflict, ...). It is not retried. It is caught at line 296, and line 297 logs it. Line 301 then raises KeyError, keyed by the BadRequest class. The fatal handler at lines 486-491 logs a KeyError traceback with the BadRequest as its context. The exact ResponseException, by contrast, is logged as itself. The console shows the same "Something went wrong!" line either way. | A caught exception without a description reaches the fatal handler as itself, as the exact ResponseException does at lines 298-300. | medium, not executed | Pipeline.RecentCrashesOnUndescribedResponse | Pipeline.CorrectedRaisesOnlyTheFetchFault |

## Left out

- Pipeline.PublishesOnce: it counts post calls, not posts on the server. The retry engine sends the post again after a NetworkError or InvokeTimeoutError, and a post that timed out after Bluesky accepted it is then created twice. The model has no server state and does not capture that duplicate.
- Network I/O is not modelled. praw, prawcore, atproto, httpx and requests calls are prescribed outcome sequences or final results. This covers login (`bsky_login`), `subreddit.new`, the stream generator, `upload_blob`, `post` and `save`.
- The stream generator's own behaviour is left out: its internal seen-set, its de-duplication, and faults it raises itself. The stream is a given finite sequence.
- `Exhausted` and the `Stall` action are artefacts of the finite outcome sequences. The bot itself would go on retrying.
- Retry sleeps and notices inside `process_submission` and `save` are not part of the stream trace. `Stream.StreamLoop` takes each call's final result. The retry engine is modelled on its own, in `Retry.NetworkRetry`.
- Retry.NetworkRetry: its sleeps and its notices are two separate sequences, so the order in which they interleave (each notice printed before its countdown) is not stated; only the order within each sequence is.
- Stream.StreamLoop: its actions, sleeps and console lines are separate sequences, so which console line comes between which actions is not stated; only the order within each sequence is.
- The text of the first version's log and print messages (`prawcore.<class>: ...`) is not modelled; the printed faults are recorded in order.
- PIL's thumbnail reduction is a parameter `shrink`. Only the size threshold is modelled.
- `textwrap.shorten` is a parameter. The ValueError it raises for a too-small width is not modelled.
- Pipeline.PostTextFits: takes the shortened text fitting its width as a premise, because `shorten`'s own length promise belongs to the library.
- `str.format(post=submission)` for the post template and hashtags is a parameter.
- The regex engine is a predicate parameter `titleOk`. Only the shipped rule `^\[.+?\]` is given concretely.
- `humanize.precisedelta` is a parameter `humanize`.
- `logging`, `time.strftime` timestamps, `prepare_logger` and the rich styling of `console_log` are not modelled. Console lines keep their text and their error flag.
- Rich `Live` rendering is reduced to the text handed to `live.update`.
- `KeyboardInterrupt` is an asynchronous signal. It is left out in both versions.
- The broad `except Exception` of `run` and of the first version's `main` is left out. The model's loop simply stops with an `Abort` action.
- Module-level setup (pyproject reading, client construction, `Session.request` patching) and the configuration files are not modelled. Their values are parameters.
- JSON values of the metadata reply are strings, and a JSON null stands as the empty string.
- Time is in integer seconds, while tenacity's `upcoming_sleep` is a float. The countdown frequency must be positive (`freq > 0`), as both callers pass.
- Submissions are compared by exact id. praw compares lowercased ids, and Reddit's base-36 ids are lowercase already, so the two agree.
- The startup list `recent` is an immutable value, so nothing can modify it.
- The first version's `original_exception` is assumed truthy, as exception objects are by default.
- prawcore's ResponseException subclasses without an entry of their own (BadRequest, Conflict, InvalidToken and the others) are one fault, `OtherResponse`, told apart by class name only.
- A KeyError raised for a missing description is keyed by the class's name (`KeyError(className)` in `Pipeline.RecentSubmissions`), where Python's KeyError carries the class object itself. Logging, the traceback and the chained exception context are not modelled.
