# Verified model of DockMon's backend engines

DockMon is a Docker monitoring application. This project models the small stateful engines of
its Python backend in Dafny and proves what they guarantee: in every interleaving, over every
run, for every input.

- `BatchJobs`, `BatchResults`, `BatchCauses`, `BatchOutcomes`, `BatchManager`: the batch job engine. Every `with session` block
  is one atomic step, every `await` an interleaving point, and a schedule is any sequence of
  steps of any number of jobs. Whether a database block commits, whether a broadcast raises and
  what an action returns is part of the step.
- `StatsAuth`, `StatsLaws`, `StatsClient`: the token and session cache of the stats client under its two
  locks, one statement per step, with calls failing or being cancelled anywhere, and the
  reconnect delays of the event stream.
- `RetryQueue`, `SendMachine`, `SendResults`, `SendLaws`, `RetryResults`, `NotificationService`,
  `RateLimit`:
  sending alerts and retrying them. Any number of calls of `send_alert_v2` run interleaved, each
  with the snapshot of the alert its caller holds and an await for every channel; the retry loop
  and the evaluation service are among the callers, with what they write after a call returns.
  `RetryQueue` has the law of a single retry row.
- `Text`, `AlertTemplate`, `TelegramMarkup`, `LikeFilter`: filling alert templates, the Telegram
  markup and the escaping of search text, each against an independent meaning.
- `TagTable`, `TagNames`, `TagReattach`, `HostTags`, `Database`, `Cleanup`: the tag store, its two
  update modes, tag names, sticky tags, the batched range query, and the batched cleanup loops.
- `OldestFirst`, `DedupCache`, `EventLogger`: the bounded caches of the event logger and its queue
  reader.
- `Basics`, `Wrappers`: what several of them share.
- `Blackout`, `Realtime`, `HealthCheck`: blackout windows, stats subscriptions, health-check
  hysteresis.

Components that update state in place are classes. Their methods have the branches of the code
and are proved against a step function on the abstract state, about which the laws are then
proved as lemmas over all runs. Times are integers (seconds, milliseconds or microseconds, as
each module says).

## What the proofs found

The model follows the code. These statements, expected from the documentation or from the code's
shape, fail: a lemma gives an input for each, and the exact condition is proved instead.

- Batch counters can exceed the items. A broadcast that raises after an item's result is
  committed sends the item into the `except` branch, which counts it again as an error. A job
  whose only item succeeded can read "partial" with two of one item completed
  (`LoneSuccessReadsPartial`). Counters equal a recount exactly on the schedules in which that
  never happens to an item of the job (`CountersAgreeIff`).
- A broadcast that raises after the final status is committed overwrites it with "failed"
  (`OverwrittenStatusRun`). `LastingStatus` gives the status of a job at any time of any schedule,
  `TruthfulIff` says when a finished job reports its results truly.
- A job whose start cannot be committed or announced leaves its items queued for ever
  (`StrandedRun`), and no other job does (`LeftQueuedIff`, `Quiescence`).
- The five-second check against duplicate notifications reads the caller's snapshot. Calls whose
  snapshots predate the first delivery can deliver again within five seconds (`OverlappingSends`).
  `LetThroughByLastStamp` and `LetThroughIff` say exactly which calls are let through. The
  evaluation service moreover puts the stored time back to that of its own check, so that calls one
  after the other can also come too close (`BackdatedStamp`), and counts a delivery it made a second
  time (`DeliveriesCounted`). Overlap, such an overwriting and a reset of the stored time are the
  only ways for two deliveries to come too close (`CloseDeliveriesOverlap`).
- "Max 5 retries" (docstring of `_process_retry_queue`) holds only for attempts that do not
  requeue. An attempt that fails on all channels resets its own count and is repeated every five
  minutes or more without end (`FailingRowStays`); `RowDroppedIff` says when a row goes.
- Adding a tag when the highest index is 0 numbers it 0 again, because `scalar() or -1` takes 0
  for absent. The order of the two tags is then undefined (`SecondTagTies`, `DeltaOrders`).
- Delta mode validates and lower-cases the names it removes, not those it adds: an assigned tag
  whose name is not in validated form (`CapitalTagStays`) cannot be removed that way
  (`RemovableIffClean`).
- A delta that fails is not undone: its removals persist when a later name is refused
  (`RefusalKeepsRemoval`) or the additions fail (`FailedAdditionKeepsRemoval`), so that the table is
  as before exactly if no name taken up for removal was assigned (`FailedDeltaIdleIff`).
- Reattached tags do not keep their order: all get index 0 (`ReattachedTagsTie`, `ReattachOrders`).
- Reattaching tags may take two calls (`SecondCallAdds`, `OneCallSettlesIff`), never more.
- The metadata cleanup can run for ever exactly if as many rows as the batch size are kept
  (`OneKeptRow`, `RunsOnIff`).
- The deduplication cache decides like an unbounded one exactly if no more than 5000 distinct keys
  are recorded within three seconds (`BurstDisagrees`, `AgreesIff`).
- Tags of a Telegram message need not nest (`StraddlingSpan`); they do exactly under the condition
  of `NestingIff`. An even number of backticks in each part is sufficient, not necessary
  (`SpanAroundBold`).

Besides, the correlation store's "LRU" eviction removes the oldest by creation, and its "50%
headroom" is at most 50 entries.

## Model

| member | source | states |
|---|---|---|
| BatchJobs.StepShares | backend/batch_manager.py:260-323 | each step of an item task changes the recount of its row by just the outcome the step counts, except where the except branch overwrites a result |
| BatchJobs.CreateKeepsInv | backend/batch_manager.py:100-154 | creating a job keeps the invariant that ties counters, item rows, permits and active_jobs together |
| BatchJobs.JobKeepsInv | backend/batch_manager.py:156-246 | so does every step of a job task |
| BatchJobs.ItemKeepsInv | backend/batch_manager.py:248-323 | so does every step of an item task |
| BatchJobs.Reachable | backend/batch_manager.py:156-323 | the invariant holds after every schedule |
| BatchResults.CountersMatchRecount | backend/main.py:3423-3433 | in every interleaving completed = success + error + skipped, and each counter exceeds the recount that get_batch_job makes by exactly the results committed over after a raising broadcast |
| BatchCauses.OverwrittenIff | backend/batch_manager.py:304-321 | a committed result is overwritten exactly when the broadcast of it raises and the except branch then commits |
| BatchCauses.CountersAgreeIff | backend/batch_manager.py:283-323 | all four stored counters equal the recount if and only if no item of the job had the broadcast of its result raise and the resulting error committed |
| BatchCauses.CountersRightWithoutRaises | backend/batch_manager.py:304-305 | in particular as long as no broadcast after a commit raises |
| BatchResults.RecountIs | backend/main.py:3428-3433 | whatever hosts a viewer sees, each recounted number is that of the job's items on them with the status in question |
| BatchResults.ScopedRecountAddsUp | backend/main.py:3428-3433 | whatever hosts a viewer sees, recounted completed = success + error + skipped and is at most the total |
| BatchResults.HiddenWorkInvisible | backend/main.py:3425-3433 | no step of an item on a hidden host changes the counters a viewer is shown |
| BatchResults.HoldersTally | backend/batch_manager.py:258 | the set of item tasks between acquire and release is as large as the tally that the invariant adds to the free permits |
| BatchResults.AtMostFivePerHost | backend/batch_manager.py:33 | across all jobs at most five items of a host are between acquire and release, and with the free permits they make five |
| BatchResults.NeverStuck | backend/batch_manager.py:156-323 | while a task of a reachable state has not ended, some task can go on without a new job |
| BatchResults.StepWorks | backend/batch_manager.py:156-323 | every step but a creation decreases a measure |
| BatchResults.StepsBounded | backend/batch_manager.py:156-323 | the steps of any run are bounded by 7 for each job and 11 for each requested item created in it |
| BatchResults.Completes | backend/batch_manager.py:181-193 | from every reachable state all tasks can be carried to their end, within the measure |
| BatchCauses.Quiescence | backend/batch_manager.py:232-246 | when no task can go on, active_jobs is empty, every job is done, and an item was left queued exactly if its job could not commit or announce its start, and has run to its end otherwise |
| BatchCauses.LeftQueuedIff | backend/batch_manager.py:160-193 | the same for the items of each job as soon as its task is done |
| BatchCauses.StrandedRun | backend/batch_manager.py:175-239 | a run that ends with a failed job and its item queued |
| BatchResults.ResultsRecorded | backend/batch_manager.py:307-321 | unless the database fails in the block that records an error, no item task leaves without a recorded result |
| BatchCauses.NoResultIff | backend/batch_manager.py:283-321 | an ended item is without a result exactly if no outcome of it was committed and the block that records its error failed |
| BatchOutcomes.CommittedIsReturned | backend/batch_manager.py:280-289 | the first outcome committed for an item is the one its action returned |
| BatchOutcomes.EndedStatus | backend/batch_manager.py:260-321 | the status of an ended item, from the steps taken: error if the except branch committed, else the outcome its action returned if that was committed; the except branch is reached exactly if a block or broadcast before it raised |
| BatchOutcomes.WorkedInOrder | backend/batch_manager.py:260-281 | an action runs only after the item was committed as running, announced, and its job read; the item reads queued before and running meanwhile |
| BatchOutcomes.CreateMakes | backend/batch_manager.py:100-147 | a new job has for each host as many queued items as requested ids found there, a total of all requested ids, and changes no other job or item |
| BatchResults.CounterSigns | backend/batch_manager.py:292-300 | the error counter is positive iff an item's status is error, the success counter iff an item's first committed result was a success |
| BatchResults.FinalStatus | backend/batch_manager.py:191-221 | when the final status is committed all items have ended, and it is partial, failed or completed exactly as the item results dictate; every item has a result if recording errors never failed |
| BatchCauses.LastingStatus | backend/batch_manager.py:160-239 | the status of a job at any time of any schedule, from the steps that failed: completed and partial are true of the items, failed is too unless the except branch wrote it |
| BatchCauses.TruthfulIff | backend/batch_manager.py:191-241 | a done job reads as its results say, with all items ended, exactly if it crashed neither early nor in the final block, and, where the except branch committed over the status, some item is in error and none had a success |
| BatchCauses.OverwrittenStatusRun | backend/batch_manager.py:223-239 | a run whose only item succeeded and whose job ends failed |
| BatchResults.LoneSuccessReadsPartial | backend/batch_manager.py:302-321 | a run in which the only item of a job succeeded and the job reads partial with two items completed |
| BatchManager.BatchJobManager.constructor | backend/batch_manager.py:28-33 | the initial state |
| BatchManager.BatchJobManager.CreateJob | backend/batch_manager.py:100-154 | adds the job and one queued row for every id found, while total_items counts all ids, and keeps the invariant |
| BatchManager.BatchJobManager.ProcessJob | backend/batch_manager.py:156-246 | takes a job task from one await to the next and keeps the invariant |
| BatchManager.BatchJobManager.SpawnItems | backend/batch_manager.py:181-189 | starts a task for exactly the queued items of the job |
| BatchManager.BatchJobManager.ProcessItem | backend/batch_manager.py:248-323 | takes an item task from one await to the next, and keeps the invariant |
| StatsAuth.StepKeepsInv | backend/stats_client.py:30-99 | every statement of every task, and every exception, keeps lock ownership, the single open session and token freshness |
| StatsAuth.Reachable | backend/stats_client.py:30-99 | the invariant holds after every schedule |
| StatsClient.AtMostOneOpen | backend/stats_client.py:56-72 | however many tasks run, at most one session is open, and it is the cached one |
| StatsClient.CreatedAfterInvalidation | backend/stats_client.py:91-99 | a session created after an invalidation finished uses a token read from the file after that invalidation began |
| StatsClient.ReturnedAfterInvalidation | backend/stats_client.py:56-99 | a _get_session call begun after an invalidation finished returns no session with an older token |
| StatsClient.NeverDeadlocked | backend/stats_client.py:36-100 | while a task has not ended, some task can take a step, whatever the token file does |
| StatsClient.StepsBounded | backend/stats_client.py:30-99 | a run takes at most forty steps for each call |
| StatsLaws.ReturnsOpenSession | backend/stats_client.py:58-72 | _get_session returns the cached session and it is open then; if one was open, that very one |
| StatsLaws.CreatesWhenNoneOpen | backend/stats_client.py:63-72 | a session is created only when none is open, with the token its task loaded |
| StatsLaws.ClosesOnlyOnPurpose | backend/stats_client.py:87-98 | only close or an invalidation that found it open closes a session |
| StatsLaws.CloseCloses | backend/stats_client.py:87-89 | close ends at once exactly if no session is open, and has closed the open one when it ends |
| StatsLaws.InvalidationLeavesNothing | backend/stats_client.py:91-99 | an invalidation clears the token, and when it ends no session is cached or open |
| StatsLaws.ReadsOnlyUncached | backend/stats_client.py:36-48 | while a task reads the token file no usable token is cached |
| StatsLaws.TokenSource | backend/stats_client.py:32-48 | a task goes on with the cached token, not empty, or with one it has just read and cached because there was none |
| StatsLaws.GivesUpAfterTenReads | backend/stats_client.py:41-54 | a task raises by itself exactly with its tenth failed read |
| StatsClient.StatsServiceClient.constructor | backend/stats_client.py:21-28 | no token, no session, free locks |
| StatsClient.StatsServiceClient.Call | backend/stats_client.py:30-99 | starts a task for a call and keeps the invariant |
| StatsClient.StatsServiceClient.GetSessionStep | backend/stats_client.py:56-72 | a statement of _get_session does to the object what the step says |
| StatsClient.StatsServiceClient.LoadTokenStep | backend/stats_client.py:30-54 | likewise for _load_token, with its ten attempts |
| StatsClient.StatsServiceClient.InvalidateAuthStep | backend/stats_client.py:91-99 | likewise for _invalidate_auth |
| StatsClient.StatsServiceClient.CloseStep | backend/stats_client.py:87-89 | likewise for close |
| StatsClient.StatsServiceClient.Resume | backend/stats_client.py:30-99 | whichever task goes on, the object follows the state machine and keeps the invariant |
| StatsClient.EventStreamLoop | backend/stats_client.py:574-633 | the n-th failure in a row since the last connection or 401 waits min(2^(n-1), 30) seconds |
| StatsClient.DelaysGrow | backend/stats_client.py:626-633 | while nothing connects, delays never shrink and never exceed the cap |
| StatsClient.DelaysReset | backend/stats_client.py:591-633 | a connection or a 401 starts the delays anew at one second |
| RetryQueue.RowLaw | backend/notifications.py:1860-1994 | over any interleaving of retries and requeues, a row is dropped iff one retry delivers or five in a row go by without a reset; until then its count is the number of retries since the last reset, 0 to 4 |
| RetryQueue.DueLaw | backend/notifications.py:1976-1986 | a surviving row is due 60 seconds after it was queued or requeued, and 300, 900, 3600, 21600 after its first to fourth retry since |
| RetryQueue.GivesUpAfterFive | backend/notifications.py:1954-1990 | a row whose retries neither send nor requeue goes with the fifth retry and not before, at least 60+300+900+3600+21600 seconds after it was queued |
| RetryQueue.NeverGivesUp | backend/notifications.py:1336-1337 | a row whose retries fail on all channels is never dropped: its count stays 1, its retries come at least 300 seconds apart |
| SendMachine.StepKeepsInv | backend/notifications.py:1198-1366 | every step of every caller keeps one row per alert with a count below five, the rows of retries under way, and checks that were passed |
| SendMachine.Reachable | backend/notifications.py:1913-1997 | the invariant holds after every schedule |
| SendResults.SeenAtStart | backend/notifications.py:1931-1952 | however long a call waits, it works with the notified_at the row had when the caller took its snapshot |
| SendResults.LetThroughByLastStamp | backend/notifications.py:1221-1229 | on any schedule, a call passes the duplicate check if and only if the last time anyone wrote to notified_at before its snapshot lies at least five seconds back |
| SendResults.LetThroughIff | backend/notifications.py:1221-1229 | where only notes wrote the stamp, a call passes the duplicate check if and only if every delivery noted before its snapshot lies at least five seconds back; later ones never hold it back |
| SendResults.CloseDeliveriesOverlap | backend/notifications.py:1221-1352 | on any schedule, two noted deliveries come closer than five seconds only if the second call had its snapshot when the first was noted, or a reset or the evaluation service wrote over that note before the snapshot |
| SendResults.StampSince | backend/notifications.py:1340-1345 | from a note on, without a reset or an evaluation, the stored time is no older than it |
| SendResults.OverlappingSends | backend/notifications.py:1221-1352 | a run with two noted deliveries one second apart |
| SendResults.BackdatedStamp | backend/alerts/evaluation_service.py:763-817 | a run in which the second call begins after the first is over, and delivers one second later |
| SendResults.StampIsLatest | backend/notifications.py:1340-1345 | undisturbed, the stored time is that of the latest note |
| SendResults.DeliveriesCounted | backend/notifications.py:1344-1345 | notification_count is the number of noted deliveries plus the number of attempts the evaluation service recorded |
| SendResults.ResolvedIff | backend/notifications.py:1348-1350 | sending resolves an alert exactly when a rule with auto_resolve made a noted delivery |
| SendLaws.CallLaw | backend/notifications.py:1216-1357 | the whole of a call on any schedule: it sends nothing unless its snapshot shows no notification within five seconds, the rule has channels, no blackout is on and the message was prepared; it then asks each channel once and has delivered exactly if one said so |
| SendLaws.BlackoutHolds | backend/notifications.py:1250-1255 | a call that meets a blackout sends and queues nothing, and is marked if it would have sent otherwise |
| SendLaws.SuppressedIff | backend/blackout_manager.py:89-95 | an alert is marked as suppressed exactly if some call for it had channels, was no duplicate and met a blackout |
| SendLaws.NotedIff | backend/notifications.py:1330-1355 | a delivery is noted exactly when the last channel has answered, one delivered and the block commits |
| SendLaws.EvaluationWrites | backend/alerts/evaluation_service.py:800-833 | what the evaluation service writes when its call ends: one more attempt, and the time of the check if the call delivered, had no channels or a day has gone by |
| RetryResults.RowFollowsLaw | backend/notifications.py:1860-1997 | in every interleaving, with requeues and sends between the sends of a pass and any block failing, each row ever queued is what the law of a single row makes of its own events |
| RetryResults.RowDroppedIff | backend/notifications.py:1963-1983 | a row is still queued iff none of its retries delivered and no five in a row went by without a requeue; its count is the number since the last |
| SendLaws.QueuedIff | backend/notifications.py:1335-1337 | a row is added exactly when all channels of a call have failed, the block commits and the alert has no row |
| SendLaws.EventIff | backend/notifications.py:1957-1994 | the events of a row are just the ends of calls: of its own retries, and of others for its alert that failed on all channels |
| SendLaws.DueAt | backend/notifications.py:1976-1986 | on any run, when each row is due, from its last event and its count |
| SendLaws.PassTakesDueRows | backend/notifications.py:1927-1952 | a pass begins exactly one call for every row that is due and whose alert exists, whatever its count, with a fresh snapshot, and no other |
| RetryResults.HistoriesTimely | backend/notifications.py:1928-1931 | a retry ends no earlier than its row was due, unless the row was requeued under way |
| RetryResults.UnsentRowGivesUp | backend/notifications.py:1917-1990 | on any run, a row whose retries neither send nor requeue is gone exactly after the fifth, at least 26460 seconds after it was queued |
| RetryResults.FailingRowStays | backend/notifications.py:1336-1337 | on any run, a row whose retries fail on all channels stays queued at count 1, retried at intervals of 300 seconds or more |
| RetryResults.OneRow | backend/notifications.py:1873-1896 | at any time an alert has one row at most, and counts are 0 to 4 |
| NotificationService.NotificationService.constructor | backend/notifications.py:84-97 | no alerts, an empty queue, no calls |
| NotificationService.NotificationService.Begin | backend/alerts/evaluation_service.py:335-370 | a caller takes its snapshot |
| NotificationService.NotificationService.ProcessRetryQueue | backend/notifications.py:1926-1952 | a pass takes snapshots for exactly the due rows with an alert, and keeps the invariant |
| NotificationService.NotificationService.SendAlert | backend/notifications.py:1198-1256 | the guards up to the first await: duplicate by snapshot, no channels, blackout with its flag, failed preparation, each with what the caller then writes |
| NotificationService.NotificationService.ChannelAnswered | backend/notifications.py:1318-1366 | after the last channel, requeues iff none delivered, notes iff one did, and returns to the caller, whichever blocks fail |
| NotificationService.NotificationService.QueueRetry | backend/notifications.py:1860-1896 | requeues the alert's row, or adds one; there is never more than one row for an alert |
| NotificationService.NotificationService.Return | backend/notifications.py:1960-1994 | what the retry loop writes on the row and the evaluation service on the alert |
| RateLimit.ForgettingIsHarmless | backend/notifications.py:132-139 | although expired limits are deleted, every answer is as if the latest limit of each channel were never forgotten |
| RateLimit.NotificationChannels.constructor | backend/notifications.py:94 | no limits |
| RateLimit.NotificationChannels.Limit | backend/notifications.py:243 | a new limit replaces the channel's old one |
| RateLimit.NotificationChannels.IsRateLimited | backend/notifications.py:122-139 | true iff the channel's limit lies in the future; deletes at most that expired entry |
| Text.ReplaceSkips | backend/notifications.py:1850-1853 | replacing copies text in which the first character of the pattern does not occur |
| Text.ContainsIff | backend/database.py:4067-4075 | the substring test used for the filters finds a text at some position |
| AlertTemplate.ParseRenders | backend/notifications.py:1850-1858 | the tokens of a template stand for exactly that template |
| AlertTemplate.ReplaceStep | backend/notifications.py:1852-1853 | replacing one variable fills all and only its own placeholders |
| AlertTemplate.FillingIsSubstitution | backend/notifications.py:1850-1858 | for templates whose braces only delimit placeholders and brace-free values, the loop and the final cleanup equal simultaneous substitution with unmapped placeholders erased, for every order of the variables |
| AlertTemplate.FormatMessage | backend/notifications.py:1850-1858 | the loop performs the replacements in dictionary order |
| AlertTemplate.OrderMatters | backend/notifications.py:1850-1858 | a value with braces makes the result depend on the order |
| AlertTemplate.CleanupIff | backend/notifications.py:1855-1856 | the final clean-up leaves a text alone exactly if no braces around one or more of A-Z and _ stand in it |
| TelegramMarkup.WrapParts | backend/notifications.py:190-194 | the assignments to parts[i] wrap every second part, in place |
| TelegramMarkup.RenderTelegram | backend/notifications.py:183-201 | escapes, then toggles bold, then code |
| TelegramMarkup.RenderingIsPieces | backend/notifications.py:183-201 | splitting, wrapping and joining twice equals one reading from left to right in which each marker opens or closes |
| TelegramMarkup.RenderingReadsBack | backend/notifications.py:183-201 | for every message, the rendering without its tags is the escaped message without its markers, every < starts a tag, and bold and code tags each alternate and end closed |
| TelegramMarkup.EscapingRoundTrip | backend/notifications.py:185 | unescaping the escaped message gives it back |
| TelegramMarkup.ShownText | backend/notifications.py:183-201 | of any message, what is left without tags and with entities resolved is the message without its markers |
| TelegramMarkup.SplitEscape | backend/notifications.py:185-190 | escaping first does not move the bold parts |
| TelegramMarkup.NestStream | backend/notifications.py:188-201 | the tags from any position on nest iff the bold parts ahead close the code spans they open |
| TelegramMarkup.NestingIff | backend/notifications.py:188-201 | the tags of a rendering nest if and only if every bold part of the message has an even number of backticks, or none if a code span is open around it |
| TelegramMarkup.EvenPartsNest | backend/notifications.py:188-201 | an even number of backticks in every part is sufficient |
| TelegramMarkup.StraddlingSpan | backend/notifications.py:188-201 | a message whose tags do not nest |
| TelegramMarkup.SpanAroundBold | backend/notifications.py:188-201 | a message whose tags nest although a part has an odd number of backticks |
| LikeFilter.ChainEscapesEach | backend/database.py:4059-4059 | the three chained replacements escape every special character exactly once |
| LikeFilter.LikeAnywhere | backend/database.py:2952-2956 | LIKE on an escaped text between percent signs is the substring test |
| LikeFilter.FilterIsSubstring | backend/database.py:4057-4075 | for every text and candidate, the filter accepts exactly the candidates that contain the text, ASCII case aside |
| TagTable.ListingUnique | backend/database.py:2694-2704 | with distinct indices, get_tags_for_subject has one possible answer |
| TagTable.SetThenGet | backend/database.py:2843-2883 | setting an ordered list of distinct tags and reading it back returns that list, at indices 0, 1, 2, ..., and no other subject changes |
| TagTable.DeltaEntries | backend/database.py:2885-2928 | a delta leaves the kept tags where they were, adds the new ones consecutively and changes no other subject |
| TagTable.DeltaOrders | backend/database.py:2887-2921 | a delta keeps indices distinct, and puts the new tags last, if and only if it does not restart at 0 on top of a tag kept at 0 |
| TagTable.DeltaThenGet | backend/database.py:2885-2936 | reading after such a delta gives the kept tags in their order followed by the new ones |
| TagTable.SecondTagTies | backend/database.py:2888-2891 | adding a second tag leaves both at index 0, readable in either order |
| TagNames.CleanTwice | backend/database.py:2537-2551 | validating a validated name changes nothing |
| TagNames.AllowedCharacters | backend/database.py:2548-2549 | a validated name consists of letters, digits, hyphens, underscores and colons |
| TagNames.CleanIff | backend/database.py:2537-2551 | validation, exactly: 1 to 100 characters after trimming, letters, digits or - _ : with one letter or digit at least, put in lower case |
| TagNames.RemovableIffClean | backend/database.py:2893-2895 | an assigned tag can be removed by some delta if and only if its name is in validated form |
| TagNames.CapitalTagStays | backend/database.py:2843-2895 | a tag set with a capital letter stays whatever a delta removes |
| TagNames.FailedDeltaIdleIff | backend/database.py:2893-2940 | a delta that fails, over a refused name or over its additions, has left the table alone exactly if no name it took up for removal was assigned |
| TagNames.FailedAdditionKeepsRemoval | backend/database.py:2893-2928 | a delta that fails for adding a tag twice has removed another for good |
| TagNames.RefusalKeepsRemoval | backend/database.py:2893-2895 | so has one that fails over a later name |
| TagReattach.ReattachEffect | backend/database.py:2983-3062 | a call touches no existing row, adds rows only for the container, and makes what it adds findable by name |
| TagReattach.TagsBelong | backend/database.py:2989-3031 | in the fields of the rows, a container carries after a call just its own tags, those recorded for its compose project and service on its host, and, if these bring nothing new, those recorded for its name on its host |
| TagReattach.NewRowsRecord | backend/database.py:3010-3052 | new assignments record index 0, host and name, and the compose identity if found by it |
| TagReattach.UnchangedIff | backend/database.py:3058-3062 | a call changes nothing iff it finds no tag to add |
| TagReattach.ReattachOrders | backend/database.py:3010-3020 | a call keeps the container's indices distinct exactly if they were, at most one tag is new, and if one is, none stands at 0 |
| TagReattach.ReattachedTagsTie | backend/database.py:3045-3054 | two tags in a fixed order come back in either order |
| TagReattach.OneCallSettlesIff | backend/database.py:3025-3026 | one call is enough iff the compose identity brings nothing new or the name has nothing beyond it |
| TagReattach.SecondCallAdds | backend/database.py:3025-3056 | a table where the second call attaches a tag the first left out |
| TagReattach.TwoCallsSettle | backend/database.py:2971-3062 | after two calls every further one is idle, and the container carries exactly its former tags and all those recorded under its compose identity or its name |
| HostTags.RangeIsPrefix | backend/database.py:2718-2735 | the half-open scan from "host:" to "host;" selects exactly the ids that start with "host:" |
| HostTags.AnswerAgrees | backend/database.py:2725-2745 | for every container, the batched answer is one that get_tags_for_subject may give |
| HostTags.BatchedAgrees | backend/database.py:2706-2745 | with distinct indices both queries agree entry by entry |
| Database.DatabaseManager.MaxOrder | backend/database.py:2887-2891 | the highest index of the subject, if it has tags |
| Database.DatabaseManager.AddAssignments | backend/database.py:2852-2925 | adds all tags, or none if one violates the primary key |
| Database.AcceptedIff | backend/database.py:2819-2839 | an update is carried out exactly for a known kind of subject, exactly one mode, and at most 50 tags a list |
| Database.DatabaseManager.UpdateSubjectTags | backend/database.py:2794-2940 | refuses without a change what the validation refuses; otherwise sets the list or applies the delta, whose removals stay even when it fails (so that the table is unchanged exactly if none was assigned), and returns the tags in order |
| Database.DatabaseManager.RemoveTags | backend/database.py:2893-2895 | removes the validated names up to the first one refused |
| Database.DatabaseManager.RemoveTagFromSubject | backend/database.py:2659-2682 | removes one assignment and says whether there was one; a bad name or type changes nothing |
| Database.DatabaseManager.GetTagsForSubject | backend/database.py:2684-2704 | returns the subject's tags, each once, by index |
| Database.DatabaseManager.AttachMissing | backend/database.py:2996-3023 | assigns each tag that is missing once |
| Database.DatabaseManager.ReattachTags | backend/database.py:2971-3062 | does one reattachment and returns the tags added; an invalid key raises only if a former assignment is found |
| Database.DatabaseManager.GetTagsForHost | backend/database.py:2706-2745 | groups the answer by container id |
| Cleanup.ProgressIff | backend/database.py:3578-3606 | each pass stops or deletes something, whatever rows the query picks, if and only if fewer rows than the batch size are kept (or the batch size is zero) |
| Cleanup.RunsOnIff | backend/database.py:3578-3606 | the loop can go on for any number of passes exactly when as many rows as the (positive) batch size are kept |
| Cleanup.OneKeptRow | backend/database.py:3578-3606 | it does so for one kept row and a batch size of one |
| Cleanup.Housekeeping.CleanupOrphanedDeploymentMetadata | backend/database.py:3555-3611 | deletes only orphaned rows of reporting hosts and counts them; when it has ended none is left; it ends within one pass more than there are orphans unless a full batch of kept rows exists |
| Cleanup.Housekeeping.CleanupOrphanedTagAssignments | backend/database.py:3508-3553 | deletes exactly the container assignments last seen before the cutoff and returns their number |
| OldestFirst.TrimOldest | backend/event_logger.py:274-278 | removes n entries, none of them newer than one that stays |
| DedupCache.NeverOverfull | backend/event_logger.py:265-279 | on any run, whatever the times, the cache never holds more than 5000 entries |
| DedupCache.BoundedRateAgrees | backend/event_logger.py:248-279 | if at most 5000 distinct keys are recorded in any three seconds, the bounded cache decides like an unbounded record of last acceptance |
| DedupCache.ExcessDisagrees | backend/event_logger.py:273-279 | once more keys are recorded in three seconds, a repetition of one of them is let through |
| DedupCache.AgreesIff | backend/event_logger.py:248-279 | cache and record decide alike exactly on the traces that respect the rate |
| DedupCache.AcceptedIff | backend/event_logger.py:255-263 | an event is accepted exactly if none of its key was accepted less than three seconds before |
| DedupCache.RecordingKeeps | backend/event_logger.py:262-279 | nothing is forgotten up to 4000 entries; beyond, just what is older than five minutes, and the oldest over 5000 |
| DedupCache.BurstDisagrees | backend/event_logger.py:273-279 | 5001 keys at one moment make every run of the cache let a repetition through |
| DedupCache.BurstHasRun | backend/event_logger.py:262-279 | and there is such a run |
| EventLogger.EventLogger.constructor | backend/event_logger.py:88-120 | empty dictionaries |
| EventLogger.EventLogger.LogEvent | backend/event_logger.py:248-279 | accepts iff the key was not recorded within three seconds, and records it under the cap |
| EventLogger.EventLogger.CreateCorrelation | backend/event_logger.py:308-313 | adds the id to both dictionaries, whose keys stay equal |
| EventLogger.EventLogger.EndCorrelation | backend/event_logger.py:315-320 | removes it from both |
| EventLogger.EventLogger.CleanupStaleCorrelations | backend/event_logger.py:337-400 | no entry older than the TTL stays; of n > 1000 others exactly 1000 - min(50, n - 1000) stay, none older than one removed; the keys stay equal |
| EventLogger.ProcessEvents | backend/event_logger.py:405-472 | reads until cancelled or the first fifth queue error in a row, and handles every event read before |
| EventLogger.EventsInOrder | backend/event_logger.py:417-438 | the events handled are those read, in their order |
| Blackout.ArcByDay | backend/blackout_manager.py:62-81 | what an arc of the weekly circle covers, seen from each day |
| Blackout.MatchesIffCovers | backend/blackout_manager.py:62-81 | the same-day, late-night and early-morning branches hold iff, for some listed day d, (now - (d*DAY + start)) mod WEEK < (end - start) mod DAY |
| Blackout.IsInBlackoutWindow | backend/blackout_manager.py:44-83 | names the first enabled well-formed window that covers the present, or none if none does |
| Blackout.CalendarLaw | backend/blackout_manager.py:38-42 | the position in the week starts on Mondays at midnight, advances with time, and an offset of a minute is like a minute later |
| Blackout.CoversIff | backend/blackout_manager.py:44-81 | what makes a window cover the present, in its own fields |
| Blackout.MonitorLoop | backend/blackout_manager.py:107-137 | announced statuses alternate, and after a turn whose broadcast would get through the clients know the status; without a connection manager nothing is announced |
| Realtime.StepKeeps | backend/realtime.py:58-113 | every operation keeps subscriber sets non-empty and every started task accounted for |
| Realtime.EveryRunConsistent | backend/realtime.py:58-160 | on every run no subscriber set is empty, every task is registered once or was cancelled exactly once, and tasks exist only for subscribed keys if streams start only for subscribed keys |
| Realtime.DropIsExact | backend/realtime.py:64-92 | revoking or unsubscribing takes from the socket exactly the targeted keys, changes no other socket, and stops exactly the tasks whose last subscriber went |
| Realtime.HostOfKey | backend/realtime.py:54-56 | the host read from a key is the one it was made with |
| Realtime.RevokeByHost | backend/realtime.py:64-70 | revoking takes from the socket exactly the containers on hosts no longer visible |
| Realtime.UnsubscribeByContainer | backend/realtime.py:72-77 | unsubscribing takes exactly the container on the host, or on every host if none is given |
| Realtime.SubscribeAndLeave | backend/realtime.py:58-81 | a subscription adds the socket to its own key only; a socket that leaves altogether keeps none; one found dead loses just the key of the task that found it |
| Realtime.StartAndStop | backend/realtime.py:103-113 | a stream starts for its key unless it has one; stopping leaves no task and all subscriptions |
| Realtime.DropOneMore | backend/realtime.py:68-81 | dropping key by key, in any order, equals dropping all keys at once |
| Realtime.RealtimeMonitor.constructor | backend/realtime.py:47-52 | no subscriptions, no tasks |
| Realtime.RealtimeMonitor.SubscribeToStats | backend/realtime.py:58-62 | the subscription step |
| Realtime.RealtimeMonitor.DropSubscriber | backend/realtime.py:83-92 | discards, deletes an empty set and cancels the task, as the drop of one key says |
| Realtime.RealtimeMonitor.DropFrom | backend/realtime.py:68-81 | the loop over a snapshot of keys drops all of them, whatever their order |
| Realtime.RealtimeMonitor.RevokeHiddenSubscriptions | backend/realtime.py:64-70 | drops the keys of hosts that are not visible |
| Realtime.RealtimeMonitor.UnsubscribeFromStats | backend/realtime.py:72-77 | drops the container's keys, on one host or on all |
| Realtime.RealtimeMonitor.UnsubscribeAllStats | backend/realtime.py:79-81 | drops all keys |
| Realtime.RealtimeMonitor.StartContainerStatsStream | backend/realtime.py:103-113 | starts a task unless the key has one |
| Realtime.RealtimeMonitor.StopAllMonitoring | backend/realtime.py:247-254 | cancels every registered task once |
| HealthCheck.CountersAreStreaks | backend/main.py:4083-4092 | after any history the counters are the lengths of the trailing streaks, and one of them is zero |
| HealthCheck.StatusIsLastDecision | backend/main.py:4094-4100 | the status is the kind of the last result at which a streak stood at its threshold, or the initial status if that never happened, for any thresholds |
| HealthCheck.DecisiveIffCounter | backend/main.py:4095-4099 | the comparison of a counter with its threshold holds iff the newest results, as many as the threshold says, are of one kind |
| HealthCheck.FlipNeedsStreak | backend/main.py:4094-4100 | a status that differs after further results was brought about by a streak completed among them |
| HealthCheck.ContainerHttpHealthCheck.RecordResult | backend/main.py:4083-4100 | records a result, so that the row stays what its history says |

## Left out

Batch jobs:
- Actions: the body of `_execute_action` is a result of success, error or skipped, chosen by the step.
- `create_job` validation, dependency checks and lookups: requested ids are found or not found.
- Missing job or item rows: rows are never deleted in the model, so these branches do not occur.
- Cancelled batch tasks, and the order in which a semaphore wakes its waiters: any waiter may get a permit.
- The answer 404 of `get_batch_job` for unknown jobs and for viewers who see none of a job's items.
- A message that is broadcast or emitted has no content; only whether it raises matters.

Stats client:
- HTTP calls, the websocket and its messages; `close` only as far as it closes the session.
- An exception raised while a session is being created or closed counts as an exception in its task.

Notifications:
- `_send_*` bodies other than the Telegram text, and channel resolution: each configured channel delivers or does not.
- Template choice, the values of variables and action URLs; the dictionary's keys are taken to be names in braces.
- Telegram topic ids and everything after the text is rendered.
- The calls of one retry pass may overlap in the model, while the loop makes them one by one; what is proved holds a fortiori.
- Alerts are never deleted, and who resets `notified_at` or reopens an alert is one step that may come at any time; `resolved` covers only what sending writes. SendResults.LetThroughIff rests on no such reset and no evaluation having written the stamp before the snapshot; `LetThroughByLastStamp` does not.
- Host and container ids are taken to hold no colon where a key is read back; keys themselves are any text.
- In the evaluation service, which alerts are picked and when it waits; a database fault while a snapshot is taken.
- Python's `re` and `html` modules are modelled by the functions named after their effect.

Tags and queries:
- Tag rows with their colours and times of last use; non-ASCII characters in names, case folding and LIKE; limits on the length of LIKE patterns.
- The lower-casing of the query in `get_all_tags_v2`, which ASCII case-insensitive LIKE makes redundant.
- Database.DatabaseManager.GetTagsForHost: takes the rows the database answers with as an argument, because that order is free among equal indices.
- Database faults other than a violated primary key, and other sessions writing between two transactions of a delta.
- Cleanup.Housekeeping.CleanupOrphanedDeploymentMetadata: watches the loop for a given number of passes, since it need not end (`RunsOnIff`).

Event logger:
- Events that are not about a container, which are never deduplicated; the full queue; timestamps that are no datetimes.
- Cancellation and failure while an event is being processed; a failure drops the event and the loop goes on.

Blackout, subscriptions, health checks:
- Parsing of times (None stands for text that does not parse) and windows of the wrong shape.
- Event subscribers, stats calculation and visibility checks; a monitoring task that ends by itself stays registered, as in the code.
- The HTTP request of a health check and the parsing of expected status codes; only whether the result is a success enters the model.

Left out because they would only add easy members: the event bus, endpoints, settings and user interface code. The migrations of `backend/migrate.py` rest on Alembic, which is not part of this model.
