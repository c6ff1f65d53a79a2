# Status-page poller — a Dafny model

This project models the sequential core of a status-page poller. The poller
polls one Atom feed per provider on an independent schedule. It fetches each
feed with conditional HTTP requests, extracts the entries, and decides which
entries are new or updated against a per-provider store of what it has seen.
Every change becomes an immutable `StatusEvent`, and a fan-out bus delivers it
to every subscriber queue. On failure the poller backs off exponentially.

Modules, one per file:

- `Optional` (`optional.dfy`): the `Option` type.
- `Text` (`text.dfy`): Python's `strip` and `split` on strings, with their laws.
- `Models` (`models.dfy`): the `StatusEvent` value and `formatted_output`.
- `Console` (`console.dfy`): the console consumer's `_format_event`.
- `Bus` (`bus.dfy`): the `EventBus` class over a sequence of (subscription id, queue) pairs.
- `State` (`state.dfy`): the `ProviderState` and `StateManager` classes.
  - `StateManager.View()` is the store's abstract value.
- `Fetcher` (`fetcher.dfy`): conditional headers and `FetchResult` shaping.
- `FeedParser` (`parser.dfy`): tag removal, entry defaults, and the id filter.
- `Scheduler` (`scheduler.dfy`):
  - the backoff arithmetic;
  - the start-up trace;
  - the detection walk as a specification function (`Detection`, `PollOnceSpec`);
  - the `PollScheduler` class, whose `PollOnce` and `PollLoop` methods are proved against that specification.

Two points of the code's behaviour that are easy to get wrong:

- **No `products` field.** `ParsedEntry` (core/parser.py) has exactly four fields: id, title, updated and summary. Entries carry no list of affected products.
- **Every non-304 answer counts as a success.** `fetch` never raises on a status, so a 5xx answer does not trigger backoff. `_poll_once` treats it like any other non-304 answer:
  - it stores that answer's validators, which may be absent;
  - it parses the body;
  - the cycle counts as a success.

  In the model only an exchange that raises fails a cycle.

One limit of the "re-running a cycle emits nothing" property:

- **Where it holds.** It holds when entries that share an id also share their `updated` string (`Scheduler.RerunEmitsNothing`).
- **Where it fails.** A feed listing one id twice with two different `updated` strings is reported as updated on every cycle. `Scheduler.RerunWithConflictingDuplicateEmits` shows two events on the second run.

## Model

| member | source | states |
|---|---|---|
| Models.EventTypeName | events/models.py:18 | an event type is spelled "new" or "updated", "updated" exactly for the updated type |
| Models.ParseEventType | events/models.py:18 | exactly "new" and "updated" are event types, and reading one back gives its spelling |
| Models.EventTypeRoundTrip | events/models.py:18 | naming an event type and reading the name back yields the same type |
| Models.FormattedOutput | events/models.py:20-26 | the two-line f-string; what it promises is stated by `FormattedOutputEnds` (its opening and closing text) and `FormattedOutputLines` (exactly those two lines) |
| Models.FormattedOutputEnds | events/models.py:20-26 | for any fields: the output opens with "[ts] Product: provider - product" and a line break; it closes with "  Status: status message", where the message always follows a space, even when empty |
| Models.FormattedOutputLines | events/models.py:24-25 | when no field holds a line break, the output splits into exactly the heading line and the status line |
| Models.StatusLineStripped | events/models.py:25 | the second line begins with "Status:" once stripped |
| Models.Str | events/models.py:28-29 | `__str__` is exactly `formatted_output()` |
| Console.Separator | consumers/console.py:37 | the separator is 40 characters, all dashes |
| Console.Tag | consumers/console.py:80 | the tag is "UPDATED" exactly for updated events and "NEW" exactly for new ones |
| Console.StatusLine | consumers/console.py:86-87 | " " + message follows the status only when the message is non-empty |
| Console.FormatEvent | consumers/console.py:83-89 | the four-line block; what it promises is stated by `FormatEventEnds` (its opening and closing text) and `FormatEventLines` (exactly those four lines) |
| Console.FormatEventEnds | consumers/console.py:83-89 | for any fields: the block opens with "[ts] [TAG] Provider: provider" and a line break, and ends with a line break followed by the 40 dashes |
| Console.FormatEventLines | consumers/console.py:83-89 | when no field holds a line break, the block has exactly four lines: heading, "Product: product", the status line, the separator |
| Text.Strip | core/parser.py:25 | `strip()` removes only whitespace, only at the ends, and leaves a result without whitespace at either end |
| Text.StripIdempotent | core/parser.py:25 | stripping twice is stripping once |
| Bus.Broadcast | events/bus.py:21-25 | one publish puts the event at the back of every queue, keeps every id, and adds or drops no subscriber |
| Bus.PublishAll | events/bus.py:21-25 | a run of publishes, one after the other; the registry keeps its size; what each queue then holds is stated by `PublishAllDelivers` and `PublishAllAppend` |
| Bus.PublishAllDelivers | events/bus.py:21-25 | after any run of publishes, each registered subscriber holds its old queue followed by all the events, each once, in publish order |
| Bus.PublishAllAppend | events/bus.py:21-25 | publishing two runs one after the other equals publishing their concatenation |
| Bus.SubscriberSeesLaterEvents | events/bus.py:34-40 | a new subscriber ends up holding exactly the events published after it registered, in order |
| Bus.Find | events/bus.py:43 | finds the first subscription with the id, or reports that there is none |
| Bus.Remove | events/bus.py:43 | `list.remove` on the registry; what it removes and keeps is stated by `RemoveDeletesFirst`, `RemoveOne` and `RemoveKeepsOthers` |
| Bus.RemoveDeletesFirst | events/bus.py:41-43 | `remove` deletes the first subscription with the id and keeps the rest in order; without one nothing changes |
| Bus.RemoveOne | events/bus.py:41-43 | among distinct ids, closing shrinks the registry by exactly one and ids stay distinct |
| Bus.RemoveKeepsOthers | events/bus.py:41-43 | closing keeps every other subscription and its queue, and adds none |
| Bus.EventBus.constructor | events/bus.py:17-19 | the bus starts with no subscribers |
| Bus.EventBus.Publish | events/bus.py:21-25 | the registry becomes `Broadcast` of the old one; with no subscriber nothing is buffered |
| Bus.EventBus.Subscribe | events/bus.py:34-36 | appends one new empty queue under an id not already registered, so the size grows by one |
| Bus.EventBus.Receive | events/bus.py:38-40 | takes the oldest event of that queue, the very event published, and changes nothing else |
| Bus.EventBus.Close | events/bus.py:41-43 | the registry loses exactly that subscription; the size drops by one |
| Bus.EventBus.Size | events/bus.py:45-47 | the size is the number of registered queues |
| State.ProviderState.SetValidators | core/state.py:52-53 | both validators are overwritten, absent ones included; the seen entries stay |
| State.ProviderState.constructor | core/state.py:17-24 | a new state has no etag, no last-modified value and nothing seen |
| State.Detect | core/state.py:74-78 | "new" for an unseen id; "updated" when the stored string differs; "" when equal; the flag is set exactly when the type is non-empty |
| State.MarkThenDetect | core/state.py:76-85 | after marking with `t`, asking with `t` reports no change and asking with any other string reports "updated" |
| State.Touch | core/state.py:39-41 | a missing provider is added with the initial state; every present one is kept as it is |
| State.StateManager.constructor | core/state.py:34-35 | the store starts empty |
| State.StateManager.GetState | core/state.py:37-42 | a known provider gets its own stored object and nothing changes; an unknown one gets a fresh initial state object, added under its name; distinct names keep distinct objects |
| State.StateManager.UpdateEtag | core/state.py:44-53 | both validators are overwritten, absent ones included; seen entries and every other provider stay as they were |
| State.StateManager.IsNewOrUpdated | core/state.py:61-78 | the answer is `Detect` on the provider's seen entries; its only effect is the lazy creation of the state |
| State.StateManager.MarkSeen | core/state.py:80-85 | records `updated` under the id, overwriting; other entries, the validators and other providers are unchanged |
| Fetcher.Lookup | core/fetcher.py:86-87 | `headers.get(key)`: present exactly when the key is, with its value |
| Fetcher.HeadersFor | core/fetcher.py:64-68 | If-None-Match is present exactly when there is an etag, If-Modified-Since exactly when there is a last-modified value, each carrying that value, and no other header is present |
| Fetcher.HeadersRoundTrip | core/fetcher.py:64-68 | the request carries exactly the validators it was built from |
| Fetcher.ConditionalHeaders | core/fetcher.py:64-68 | the dictionary built by the conditional inserts equals `HeadersFor` |
| Fetcher.Shape | core/fetcher.py:74-88 | on 304: no content, and the request's validators are echoed; on any other status: that status, the body, and the response's ETag and Last-Modified values, each absent when not sent |
| Fetcher.NotModifiedEchoesRequest | core/fetcher.py:74-80 | a 304 result carries exactly the validators the request sent |
| Fetcher.Fetch | core/fetcher.py:53-88 | sends the conditional request for the URL and shapes the answer; an exchange that raises yields None |
| FeedParser.StripTags | core/parser.py:19-24 | tag removal yields nothing longer than its input and adds no character |
| FeedParser.PlainPrefixKept | core/parser.py:19-24 | text without any '<' in front of anything is kept exactly, and removal goes on behind it |
| FeedParser.NoAngleKept | core/parser.py:19-24 | text without any '<' holds no tag and passes through tag removal unchanged |
| FeedParser.TagDropped | core/parser.py:19-24 | text before a tag is kept exactly, the tag up to its first '>' is dropped, and removal continues after it |
| FeedParser.StripTagsLeavesNoTags | core/parser.py:19-24 | no "<…>" span with at least one non-'>' character inside remains |
| FeedParser.StripHtml | core/parser.py:22-25 | the summary text has no whitespace at either end |
| FeedParser.RawSummary | core/parser.py:67-72 | the summary source is `summary` if present, else the first content item's value, else "" |
| FeedParser.ToParsed | core/parser.py:63-88 | a missing or empty id, title or updated becomes ""; the summary is the cleaned raw summary; its use is stated by `KeptInFeedOrder` |
| FeedParser.Kept | core/parser.py:62-89 | every kept entry has a non-empty id, and there are no more kept entries than raw ones |
| FeedParser.KeptInFeedOrder | core/parser.py:62-89 | the kept entries are exactly the converted raw entries that have an id, in feed order, none repeated |
| FeedParser.ParseSpec | core/parser.py:51-94 | a malformed feed without entries yields nothing, any other feed its kept entries; stated by `EmptyFeedYieldsNothing`, `KeptInFeedOrder` and `Parse` |
| FeedParser.EmptyFeedYieldsNothing | core/parser.py:53-59 | a feed without entries, malformed or not, yields an empty list |
| FeedParser.Parse | core/parser.py:41-94 | the loop returns the kept entries of the feed, each with a non-empty id |
| Scheduler.ProductOf | core/scheduler.py:101 | the product label defaults to the provider name |
| Scheduler.BaseIntervalOf | core/scheduler.py:103 | the base interval defaults to 30 seconds |
| Scheduler.Backoff | core/scheduler.py:116-118 | `base_interval * 2 ** min(failure_count, 5)`; its growth and cap are stated by `BackoffDoubles`, `BackoffCapped` and `BackoffMonotone` |
| Scheduler.BackoffDoubles | core/scheduler.py:115-118 | below the cap, each further failure doubles the backoff |
| Scheduler.BackoffCapped | core/scheduler.py:115-118 | from five failures on, the backoff stays at 32 times the base |
| Scheduler.BackoffMonotone | core/scheduler.py:115-118 | for a non-negative base the backoff never shrinks with more failures; it lies between the base and 32 times the base |
| Scheduler.NextSleep | core/scheduler.py:107-119 | success: the count resets to 0 and the sleep is base + jitter; failure: the count increments and the sleep is base·2^min(count, 5) + jitter |
| Scheduler.BackoffExample | core/scheduler.py:107-119 | at base 10 and no jitter, three failures sleep 20, 40, 80, and a success then sleeps 10 with the count back at 0 |
| Scheduler.FailureCount | core/scheduler.py:104-115 | the failures since the last success; `ScheduleNext` states how one more cycle moves it, and `PollLoop` keeps it as a loop invariant |
| Scheduler.ScheduleNext | core/scheduler.py:106-127 | one more cycle extends the schedule by exactly the sleep `NextSleep` gives for the count so far |
| Scheduler.ScheduleSleeps | core/scheduler.py:106-127 | the sleep after each cycle depends only on the outcomes up to it and its own jitter |
| Scheduler.SleepBounds | core/scheduler.py:108-119 | with no jitter, every sleep lies between base and 32·base, and it is the base after a success |
| Scheduler.TasksFor | core/scheduler.py:65-72 | one task per provider, in configuration order |
| Scheduler.StartTrace | core/scheduler.py:65-72 | the stagger and launch steps of `start`; stated by `StartLaunchesEach`, `StartStaggerCount` and `StartStaggersBeforeLaunch` |
| Scheduler.StartLaunchesEach | core/scheduler.py:65-72 | `start` launches each provider exactly once, in configuration order |
| Scheduler.StartStaggerCount | core/scheduler.py:65-67 | `start` for n providers sleeps the stagger delay n − 1 times |
| Scheduler.StartStaggersBeforeLaunch | core/scheduler.py:65-67 | the first launch is immediate; every later launch comes right after a stagger |
| Scheduler.MakeEvent | core/scheduler.py:169-183 | provider = name; product = product + " - " + title; status = title; message = summary; incident id = entry id; the detected type; the entry's time, or now when it cannot be parsed |
| Scheduler.Step | core/scheduler.py:161-183 | an entry emits nothing exactly when it is recorded with an identical string; otherwise it is marked seen and emits one event, typed updated if its id was known and new if not |
| Scheduler.Detection | core/scheduler.py:160-184 | the walk over the parsed entries; what it emits and records is stated by `EmittedInOrder`, `DetectionEventsFollowEntries`, `DetectionQuietWhenRecorded`, `DetectionRecordsAll`, `RerunEmitsNothing` and `FirstSightAllNew` |
| Scheduler.EmittedInOrder | core/scheduler.py:160-184 | the emitting entries are positions of the feed, in increasing order |
| Scheduler.DetectionEventsFollowEntries | core/scheduler.py:160-184 | one event per emitting entry, in parser order, each carrying the fields derived from its entry |
| Scheduler.DetectionQuietWhenRecorded | core/scheduler.py:160-165 | when every entry is recorded with an identical string, the walk emits and records nothing |
| Scheduler.DetectionRecordsAll | core/scheduler.py:160-167 | afterwards every entry's string is recorded under its id, if entries sharing an id agree; other ids keep their record |
| Scheduler.RerunEmitsNothing | core/scheduler.py:160-167 | re-running a cycle on the same entries emits no events, if entries sharing an id agree |
| Scheduler.RerunWithConflictingDuplicateEmits | core/scheduler.py:160-167 | one id listed twice with two strings is reported again on the rerun: two events |
| Scheduler.FirstSightAllNew | core/scheduler.py:160-183 | pairwise distinct, unseen ids each yield one "new" event, in order |
| Scheduler.PollOnceSpec | core/scheduler.py:129-184 | a fetch that raises fails the cycle and changes nothing; otherwise as `Handle` says; stated by `NotModifiedChangesNothing`, `OtherStatusStoresValidators`, `EndToEndFirstCycle` and `EndToEndSecondCycle` |
| Scheduler.Handle | core/scheduler.py:141-184 | a 304 changes nothing; any other answer stores its validators, then runs `Detection` over the parsed body when there is one; stated by `HandleStores` and `OtherStatusStoresValidators` |
| Scheduler.HandleStores | core/scheduler.py:153-156 | a non-304 answer without content stores its validators only and emits nothing |
| Scheduler.NotModifiedChangesNothing | core/scheduler.py:141-143 | a 304 leaves the provider's state unchanged and emits no events |
| Scheduler.OtherStatusStoresValidators | core/scheduler.py:152-156 | any other answer stores the result's validators before content is looked at; without content no entry is processed |
| Scheduler.LoopRun | core/scheduler.py:106-127 | a run of cycles for one provider, each `PollOnceSpec` on the state the earlier ones left: one outcome per tick, the registry keeps its size, and only the provider's entry is added to the store |
| Scheduler.LoopRunKeepsOthers | core/scheduler.py:106-127 | a provider's loop leaves every other provider's state as it was, and every subscriber keeps its id and everything it already held |
| Scheduler.EndToEndFirstCycle | core/scheduler.py:129-184 | one new incident in a 200 feed yields one "new" event for it, with product "IntegrationTest API - Service disruption", and records the entry and the etag |
| Scheduler.EndToEndSecondCycle | core/scheduler.py:135-143 | a following 304 cycle yields no further events and changes nothing |
| Scheduler.PollScheduler.constructor | core/scheduler.py:45-57 | holds the providers, bus and store; no tasks yet |
| Scheduler.PollScheduler.Start | core/scheduler.py:59-77 | one task per provider is appended in order; the steps taken are exactly the start-up trace |
| Scheduler.PollScheduler.Stop | core/scheduler.py:79-92 | every started task is cancelled and the task list is emptied |
| Scheduler.PollScheduler.PollOnce | core/scheduler.py:129-184 | the store's new value and the events are those of `PollOnceSpec` on the provider's state; every subscriber receives the events in order |
| Scheduler.PollScheduler.HandleResult | core/scheduler.py:153-184 | after a non-304 answer, the store and the events are those `Handle` gives |
| Scheduler.PollScheduler.ParseAndDetect | core/scheduler.py:158-184 | parses the body and walks the entries; events and seen entries are those of `Detection` |
| Scheduler.PollScheduler.DetectAndPublish | core/scheduler.py:160-184 | the loop emits and publishes exactly `Detection`'s events, in order; only the provider's seen entries change |
| Scheduler.PollScheduler.ProcessEntry | core/scheduler.py:161-184 | one entry: marked seen before its event is published, as `Step` says |
| Scheduler.PollScheduler.TryPollOnce | core/scheduler.py:107-114 | a cycle succeeds exactly when the fetch did not raise; the store and every subscriber queue end as `PollOnceSpec` says for the provider's state |
| Scheduler.PollScheduler.PollLoop | core/scheduler.py:98-127 | the outcomes, the store and the subscriber queues after the cycles are those of `LoopRun` over the ticks; after each cycle the failure count and sleep move as `NextSleep` says, so the sleeps are the `Schedule` of the outcomes: resets after success, capped doubling after failure, jitter added |

## Left out

- Concurrency is not modelled: asyncio tasks, `create_task`, `gather`, cancellation, the bus's `asyncio.Lock` and the fetcher's `asyncio.Semaphore`. Every operation runs to completion, one at a time.
- Real sleeping and randomness are not modelled.
  - Sleeps are returned as integers.
  - Jitter is an integer input per cycle, and the float `_MAX_JITTER` range is not modelled.
  - The 0.3-second stagger is a `Stagger` step in the start-up trace.
- Dates and clocks are foreign. `datetime.fromisoformat` and the display formatting are one `parseTime` function parameter, `datetime.now` is a `now` input, and a timestamp is kept as its display text.
- The foreign libraries are function parameters:
  - `feedparser.parse` (its `bozo` flag and entries);
  - `html.unescape`;
  - the aiohttp exchange, a `Transport` that maps the request to a response, or to None when it raised.
- Fetcher.Lookup: header lookup in the response is exact-key lookup. aiohttp's case-insensitive header dictionary is not modelled.
- Scheduler.MakeEvent: the clock is read once per cycle (`Tick.now`), and every unparseable entry of that cycle gets that reading. The source calls `datetime.now` anew for each such entry, so their times may differ by the time the cycle takes.
- Scheduler.ProductOf: a `product` key present with a null value is treated as absent, so the name is used. The source's `dict.get` returns `None` in that case, not the default.
- Scheduler.BaseIntervalOf: a `poll_interval_seconds` key present with a null value is treated as absent, so 30 is used. The source's `dict.get` returns `None` there, and the loop would then fail on arithmetic.
- Bus.EventBus.Receive: the source's `queue.get()` waits when the queue is empty; the model returns None and changes nothing.
- Bus.EventBus.Close requires the id to be registered. The source's `finally` runs once per registered queue, so that case does not arise there.
- Scheduler.PollScheduler.PollLoop: the endless loop runs for one cycle per given tick. Cancellation is not modelled.
- Scheduler.PollScheduler.TryPollOnce: only an exchange that raises fails a cycle. Exceptions elsewhere in `_poll_once`, such as from the foreign functions, are not modelled.
- Scheduler.TaskFor: the task name uses the provider's name. The source's fallback to the index when a configuration has no name is not modelled, because `_poll_loop` requires the name anyway.
- Logging, `consumers/sse.py`, `main.py`, and the console consumer's print loop and running flag are not part of this model.
- The `products` field asserted by older parser tests does not exist in `ParsedEntry` and is not modelled.
