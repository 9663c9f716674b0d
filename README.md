# knapsack crawler core, modelled in Dafny

knapsack runs a *journey*, a JSON description of a crawl. It optionally logs
in through a browser window and keeps the login cookies. Starting from a list
of URLs (`beginning`), it then runs the steps in order, threading one result
list through them:

- `traverse` walks paginated listings breadth-first and collects item strings;
- `extract` fetches each item page and collects links resolved against it;
- `obtain` downloads the result;
- `debug` inspects the result;
- `record` does nothing yet.

Each step uses plain fetch, or a fetch that sends the login's `Cookie`
header when the step asks for credentials. Every fetch is retried by an
exponential-backoff executor.

This project models that core:

- `backoff.dfy`: the backoff executor `retryWithBackoff`. It is a loop over
  a script of call outcomes and leaves a trace of calls, failure reports
  and sleeps.
- `network.dfy`: the outside world as uninterpreted functions:
  - the answers of the server per transport and URL;
  - the XPath selection over a parsed page;
  - URL resolution.

  It also holds the JavaScript string array that `traverse` mutates in
  place, and a fetch through the default backoff.
- `traversal.dfy`: the frontier walk `traverse`. It is an imperative loop
  over the caller's own array, proved against a specification of the walk by
  its *log*: every URL ever enqueued.
- `extraction.dfy`: `extract`. It is a loop with a per-URL `try`/`catch`,
  proved against a recursive specification.
- `cookies.dfy`: the `Cookie` header built from the login cookies, with the
  parser that reads it back.
- `journey.dfy`: the runtypes schema of src/journey.ts. It is a JSON value
  type, validity predicates for each runtype, decoding to a typed journey,
  and encoding back.
- `knapsack.dfy`: `executeJourney` of src/knapsack.ts. It is a loop over the
  steps with a `switch`, proved against a step-by-step specification.
- `scraper.dfy`: the earlier `executeJourney` of src/scraper.ts and its step
  types. It is proved to behave like the newer interpreter on every journey
  it can express.

A run that never ends is modelled as the outcome `Running`. This covers two
cases: a fetch whose attempts never succeed, which the default
configuration retries forever, and a traversal stopped after `fuel` pages.

## Model

| member | source | states |
|---|---|---|
| Backoff.FirstSuccess | src/fetch.ts:87-90 | the index of the first call that succeeds; every call before it fails |
| Backoff.RetryWithBackoff | src/fetch.ts:80-101 | the loop returns the first success within the budget, or undefined, and leaves the trace of calls, callbacks and sleeps that `Retry` describes; the invariant `retryDelay == initialDelayMS * backoffFactor^numRetries` is kept |
| Backoff.DelayGrows | src/fetch.ts:95-96 | each sleep is `backoffFactor` times the previous one, with no cap |
| Backoff.FailureTraceExecutions | src/fetch.ts:87-97 | every failed attempt calls the operation exactly once |
| Backoff.FailureTraceBlocks | src/fetch.ts:88-97 | the trace of n failures is n equal blocks; block k is the call, then the `onFailure` report when a callback is given, then a sleep of `initialDelayMS * backoffFactor^k` |
| Backoff.SuccessEndsTheLoop | src/fetch.ts:88-90 | the first success within the budget is returned after exactly k+1 calls, and that call is the last thing the loop does |
| Backoff.AlwaysFailingIsCalledMaxRetriesTimes | src/fetch.ts:86-100 | with `maxRetries = N >= 0`, an always-failing operation is called exactly N times and the result is undefined; with N = 0 nothing happens |
| Backoff.DefaultConfigNeverGivesUp | src/fetch.ts:70-74 | under the default configuration, when the executor returns, it returns the first success |
| Network.Fetch | src/fetch.ts:22-25 | a fetch through the default backoff yields the body of the first successful attempt, and never returns when no attempt succeeds |
| Network.ResolveAll | src/fetch.ts:8-9 | mapping `resolveURL` over references either resolves every one, elementwise and in order, or throws at a failing one |
| Network.StringArray.constructor | src/fetch.ts:18 | a JavaScript array holding the given strings |
| Network.StringArray.Shift | src/fetch.ts:20 | `shift()` removes and returns the first element, and gives undefined on an empty array |
| Network.StringArray.Push | src/fetch.ts:33 | `push(...xs)` appends all of `xs` in order |
| Traversal.PageOutcome | src/fetch.ts:20-33 | a page hangs exactly when its fetch never succeeds; it loads exactly when its fetch succeeds, both selections succeed and every next-page reference resolves, and otherwise the loop throws; a loaded page's items are the item selector's strings unresolved, and its links are the next-page references resolved against the page's own URL |
| Traversal.Traverse | src/fetch.ts:11-37 | the loop over the caller's array gives the report of the walk specification; when it returns, the caller's `startURLs` array is empty |
| Traversal.WalkShape | src/fetch.ts:19-33 | after k loaded visits, the queue log is the start URLs followed by the links of the visited pages, and the items are theirs, in visit order |
| Traversal.TraverseFromShape | src/fetch.ts:19-36 | the fetched URLs stay in discovery order; when the walk returns, they are the whole log and the result is their items |
| Traversal.FifoOrder | src/fetch.ts:19-33 | pages are fetched first in, first out: the start URLs in order, then links in discovery order; a returning walk fetched every discovered link, duplicates included, and returned their items page by page; every page of a returning walk loaded, a throwing walk ends at a page that throws after pages that all loaded, and a walk still running either loaded every page or ends at a page that hangs |
| Traversal.EveryQueuedCopyIsFetched | src/fetch.ts:19-33 | nothing is deduplicated: a returning traversal fetched each URL exactly as many times as it was queued, as a start URL or as a link of a fetched page |
| Traversal.DuplicateIsFetchedTwice | src/fetch.ts:19-30 | for instance, a start URL listed twice whose page has no next-page link is fetched twice, and its items are collected twice |
| Traversal.CycleNeverReturns | src/fetch.ts:19-33 | from start URLs in a cyclic link graph, the traversal never returns |
| Extraction.Contribution | src/fetch.ts:47-58 | an item URL hangs the loop exactly when its fetch never succeeds; when selection and every resolution succeed it contributes the selected strings, each resolved against that URL, in order; when selection or a resolution throws it contributes nothing |
| Extraction.Extract | src/fetch.ts:39-62 | the loop gives the report of the recursive specification `Gather` |
| Extraction.GatherIsConcatenation | src/fetch.ts:45-61 | extract returns exactly when every URL's fetch succeeds; it then fetched every URL once, in order, and returned their contributions concatenated in URL order |
| Extraction.GatherHangsAtFirstHang | src/fetch.ts:45-58 | extract never throws; if it does not return, it fetched up to the first URL that never loads, and everything before that URL loaded |
| Extraction.FailedUrlIsSkipped | src/fetch.ts:47-58 | a URL whose selection or resolution throws changes nothing: extract ends as if that URL were not in the list |
| Extraction.PrefixStaysRunning | src/fetch.ts:45-48 | once a fetch never returns, later URLs change nothing |
| Cookies.CookieHeader | src/knapsack.ts:58-61 | the header is empty exactly when there are no cookies |
| Cookies.HeaderRoundTrip | src/knapsack.ts:58-61 | when no name holds `;` or `=` and no value holds `;`, the header reads back as exactly the cookies, in list order |
| Cookies.HeaderIsInjective | src/knapsack.ts:58-61 | different lists of such cookies give different headers |
| JourneySchema.DecodeStep | src/journey.ts:14-52 | a value decodes to a step exactly when it is valid against the union of the five step records intersected with `StepCommon`; the step's tag is the value's `type`, its selectors, target directory or field selectors are the strings under the record's keys (the field map with the same keys), and `includeCredentials` is present exactly when the key is, with the key's boolean |
| JourneySchema.DecodeSteps | src/journey.ts:64 | the steps decode exactly when every element is a valid step, elementwise and in order |
| JourneySchema.Decode | src/journey.ts:54-65 | a value decodes exactly when `JourneyDefinition` accepts it; the start URLs are the strings of `beginning` in order, step i is element i of `steps` decoded, and credentials are present exactly when the key is, with its `url` |
| JourneySchema.StepDescriptionIsUnique | src/journey.ts:14-52 | one JSON step value describes at most one recognised step, so the decoded step is fixed by the value's tag, payload keys and flag |
| JourneySchema.JourneyDescriptionIsUnique | src/journey.ts:54-65 | one JSON journey value describes at most one journey, so the decoded journey is fixed by `beginning`, `steps` and the credentials' `url` |
| JourneySchema.StepRoundTrip | src/journey.ts:14-52 | every recognised step written as JSON is accepted and decodes back to itself |
| JourneySchema.RoundTrip | src/journey.ts:54-65 | every journey with recognised steps written as JSON is accepted and decodes back to itself |
| JourneySchema.Tag | src/journey.ts:44-50 | a step's tag is one of the five tags of the union exactly when its kind is one of the five step records |
| JourneySchema.DecodedStepsAreRecognised | src/journey.ts:44-50 | a checked journey has only the five step tags |
| JourneySchema.StrategyMustBeFetch | src/journey.ts:14-17 | a step whose `executionStrategy` is missing or other than "fetch" is rejected |
| JourneySchema.ExtraKeyIgnored | src/journey.ts:14-42 | a key the step records do not name affects neither validity nor the decoded step |
| Knapsack.RunStep | src/knapsack.ts:71-100 | the `switch` on one step computes the step semantics `StepResult`: traverse, extract and obtain run on the current result, debug calls `debug` and falls through to record, and any other tag only logs |
| Knapsack.ExecuteJourney | src/knapsack.ts:49-102 | the interpreter's loop gives `Execution`: the login when there are credentials, then the steps in order from `beginning`, ending at the first step that does not return |
| Knapsack.RunStepsSplit | src/knapsack.ts:65-67 | steps run in list order: running `a + b` is running `a`, then `b` on its result |
| Knapsack.RunStepsStopped | src/knapsack.ts:67-101 | once a step does not return, later steps do not run |
| Knapsack.PassThrough | src/knapsack.ts:94-99 | record, unrecognised tags and a debug step that returns leave the result as it is |
| Knapsack.ReplacesWholesale | src/knapsack.ts:72-93 | a traverse, extract or obtain step's outcome is its operation's output on the previous result |
| Knapsack.LoginAtMostOnceBeforeSteps | src/knapsack.ts:55-63 | the login happens exactly when the journey has credentials, at most once, before every step |
| Knapsack.TransportSelection | src/knapsack.ts:54-70 | every request uses plain fetch or the journey's one credentialed transport; without credentials, or when no step includes them, all use plain fetch |
| Knapsack.CheckedJourneyHasNoUnknownStep | src/knapsack.ts:98-99 | a journey accepted by the schema never reaches the `default` branch |
| Scraper.RunStep | src/scraper.ts:80-108 | this revision's `switch` on one step computes its step semantics |
| Scraper.ExecuteJourney | src/scraper.ts:61-110 | this revision's loop gives its `Execution`: the login, then the steps in order from `beginning` |
| Scraper.RunStepsStopped | src/scraper.ts:77-109 | once a step does not return, later steps do not run |
| Scraper.Tag | src/scraper.ts:32 | a step's tag is one of this revision's four tags exactly when its kind is one of the four step types |
| Scraper.UpgradeKind | src/scraper.ts:6-34 | every step kind but an unknown "debug" tag has a newer counterpart of the same variant with the same fields and the same tag; an unknown tag stays unknown |
| Scraper.MatchesNewerRevision | src/scraper.ts:61-110 | on every journey of this revision without a step tagged "debug", both interpreters end the same way, log in the same way, and make the same requests through the same transports |
| Scraper.StepMatches | src/scraper.ts:80-108 | each step does what its newer counterpart does |
| Scraper.DebugIsUnknownHere | src/scraper.ts:104-107 | a step tagged "debug" reaches `unknownStep` here and leaves the result as it is; the newer revision calls `debug` for it |

## Left out

- The command line of src/knapsack.ts:11-43 is left out: argument parsing, reading the journey file, `JSON.parse` and error printing. The model starts from a parsed JSON value.
- src/browser.ts is not part of this model. `getLoginCookies` is the parameter `Env.loginCookies`.
- The bodies of `obtain` and `debug` are not part of the shown source. They are the parameters `Env.obtain` and `Env.debug`.
- node-fetch, JSDOM with fontoxpath, and `new URL(...).href` are uninterpreted functions of `Network.Web`. So are the attempt outcomes, the XPath selection (which may throw) and the URL resolution (which may throw).
- `Network.Fetch`: a failure of `response.text()` after a successful fetch is not modelled; the body is part of the attempt's outcome.
- `sleep`, timers and real time are left out. A sleep is a trace entry holding its delay.
- Delays and the backoff factor are natural numbers, not JavaScript floats.
- `Backoff.DelayGrows` is about the delay passed to `sleep`. Node's `setTimeout` waits about 1 ms for any delay above 2^31-1 ms; under the default configuration that happens from the sleep after the 23rd failure on. So the real wait stops growing, and that timer behaviour is not modelled.
- Logging through `console` is left out.
- `async`/`await` is modelled as the strictly sequential code it is here.
- `Backoff.RetryWithBackoff`: the loop never ends for `maxRetries = -1` with an operation that always fails. No finite script describes that run, so the precondition `Answers` excludes it. Termination is proved for every other case.
- `Traversal.Traverse`: the number of pages followed is bounded by `fuel`. A walk cut off by fuel is reported as still running, and termination on cyclic link graphs is not claimed.
- `Knapsack.RunStep`: each traverse step gets a fresh array holding the current result. In the source, a traverse step receives the array `currentResult` refers to, and empties it. That array is `journey.beginning` while no traverse, extract or obtain step has replaced it. This aliasing is modelled only inside `Traversal.Traverse`, whose caller's array is emptied.
- `Knapsack.ExecuteJourney`: `executeJourney` returns nothing. The model exposes the final result and the effects of the run.
- The runtypes semantics are stated, not derived from the runtypes library:
  - a `Record` accepts only objects and ignores extra keys;
  - `Optional` means the key may be absent;
  - JSON numbers are integers, since the schema never reads one.
- Traverse does not deduplicate URLs: a link found twice is queued and fetched twice.
- `Network.Web` is fixed for the whole run: the same URL gets the same attempt outcomes, the same page and the same selections every time it is fetched. A site that changes between fetches is not modelled, and `Traversal.DuplicateIsFetchedTwice` and `Traversal.CycleNeverReturns` rely on this.
- `Scraper.ExecuteJourney`: this revision's types are not checked at run time, so a step that is not well formed cannot be represented. Only well-formed steps and unknown tags are modelled.
- `Scraper.MatchesNewerRevision` covers journeys with no step tagged "debug". On such a step the revisions differ: the older one rejects it and the newer one runs `debug`, as `Scraper.DebugIsUnknownHere` states.
