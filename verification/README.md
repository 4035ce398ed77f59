# dct-hub: a verified model of the render queue, the artifact store and their rules

dct-hub is a render cache with a persistent job queue. This project models the
protocol that keeps it consistent and proves properties of every run of it, and
models the classes around it as imperative Dafny proved against specification
functions. `dafny verify dfyconfig.toml` checks everything.

## How it is laid out

- `Protocol.dfy` is one transition system for both modes: the job table, the
  workers' positions in `_worker`, rows, blobs, half-finished deletes, live nodes
  and the clock. In HA mode every store or blob call is its own action. On a
  single node (`Config.single`) awaiting a `LocalStore` or `LocalBlobs` coroutine
  never suspends, so `Enabled` lets only the coroutine in the middle of such a
  sequence go on; the process may still crash between any two calls. Theorems are
  about `After(c, s, acts)` for every action sequence `acts` from an empty
  installation, so they hold in every reachable state.
- `Invariant.dfy` is what each action keeps in both modes. On top of it stand
  `Traces.dfy` (which events made a job done, in which order), `Lifecycle.dfy`,
  `Failures.dfy`, `SingleNode.dfy`, `Publishing.dfy`, `Exclusion.dfy` (clusters),
  `Scheduling.dfy` and `Coalescing.dfy` (what `submit_job` answers in a cluster).
  `ClusterRuns.dfy` builds, from an empty installation, a run for each single-node
  guarantee that a cluster does not give, and one for what a crash leaves behind.
- `Store.dfy`, `StorePg.dfy`, `RenderQueue.dfy`, `RenderService.dfy` and
  `Blobs.dfy` are the classes. A `RenderQueue` method other than `Wait` is the code
  between two suspension points; its contract says which protocol action it performs
  on the abstract state `View()`, so the theorems about runs speak about sequences of
  these calls. `Installation.dfy` says which protocol states the rows and files
  stand for; publishing, deleting, sweeping and the cluster's statements are stated
  as runs and actions on them. `Waiting.dfy` is a second, small transition system
  for the `_done` events of concurrent waiters.
- `RateLimiter.dfy` and `PgRateLimiter.dfy` are the two limiters,
  `Retention.dfy` the sweeper (`SweepTrace.dfy`: the tables while it runs),
  `CachePolicy.dfy` freshness, `AccessPolicy.dfy`
  grant resolution, `Timestamps.dfy` the order of timestamps kept as text (`Text.dfy`).

Conventions: a cache key stands for the board, format and digest it determines
(and for the variables, which are not repeated); clocks are integers in
microseconds, stored timestamps integers in whole seconds, which
`Timestamps.TextOrderIsTimeOrder` justifies; monotonic clocks are reals. A render,
`dct --version`, `describe` and board resolution succeed or fail arbitrarily
(parameters). Parsing a date is a parameter. Job ids and staging names are fresh.
Store calls themselves do not raise.

`LocalStore.InterruptJobs`, `PgStore.ReapStaleJobs`, `Lifecycle.BootInterrupts` and
`Waiting.FireReachesCurrentSleepers` are helpers that unfold one statement or action;
what these do is the subject of `Lifecycle.BootInterruptionIsFinal`,
`Exclusion.OneExecutionPerKey`, `Exclusion.StaleExecutionLosesExclusion` and
`Waiting.EventMeansTerminal`.

## What the code does not promise

For each of these a lemma gives a run or an input that shows it, and another the
condition under which, or the bound within which, the promise does hold.

- In HA mode a renders row does not always imply its blob, although
  `docs/architecture.md` says so: a re-render that crosses a delete of the same
  artifact loses the blob. `ClusterRuns.RowCanLoseBlob` is a run from an empty
  installation, `Publishing.CrossedLosesBlob` covers the four crossed orders,
  `Publishing.SerialKeepsBlob` the two serial ones, and
  `Publishing.RowImpliesBlobWithoutOverlap` shows nothing else can go wrong.
- The janitor's threshold is what keeps two replicas from rendering one key. A live
  execution whose start looks stale loses its row and can be duplicated
  (`Exclusion.StaleExecutionLosesExclusion`, and from an empty installation
  `ClusterRuns.KeyCanBeRenderedTwice`); without one it cannot happen
  (`Exclusion.OneExecutionPerKey`, `Exclusion.TimelyExecutionsExclude`).
- `finish_job` is unconditional, so in a cluster an interrupted job can still become
  done or failed (`ClusterRuns.InterruptedCanEnd`). It is final if and only if no
  live worker has it in hand (`Lifecycle.InterruptedIsFinal`).
- The comment in `PgStore.submit_job` that a job found by the last select is the
  winner, finished with a fresh artifact, is not always true: the answer may have
  failed, been interrupted, or be a newer queued one
  (`ClusterRuns.AnswerNeedNotBeDone`). It is true exactly when the winner was the
  newest row of its key at the conflict, nothing inserted since is listed before it,
  and its worker recorded a success (`Coalescing.AnswerIsFinishedWinner`).
- In HA mode a worker can park although a job is queued
  (`ClusterRuns.WakeUpCanBeMissed`); it claims again within one idle poll and the
  event loop's delay (`Scheduling.ParkedClaimsAgain`).
- The clustered limiter is approximate under concurrency, as its documentation says,
  but even one transaction at a time is not the exact sliding window: a transaction's
  clock stops at its start while the janitor prunes by the current time
  (`PgRateLimiter.SerialCanRefuseEmpty`, `PgRateLimiter.SerialCanAdmitFull`).
  `PgRateLimiter.CountIsBetween` says what a count sees and
  `PgRateLimiter.SerialIsExact` when it is exact. The excess is bounded by
  `n - 1` over the last 60 seconds and by `2n - 1` over any 60 seconds, both attained.
- A sweep decides on its listing, so a render published between the listing and the
  delete of its key can be removed although it is fresh
  (`Retention.FreshRenderCanGo`). What it deletes is a listed row outside the keep-set
  if and only if its key was not rendered again in between
  (`Retention.SweepRemovesListed`).
- FROZEN does not look at the render time, so it does not say the artifact was
  rendered after its dates had passed (`CachePolicy.FrozenNeedNotBeHistorical`). It
  does exactly when no date lies between the render day and the day of the verdict
  (`CachePolicy.FrozenSinceRender`).

## Model

| member | source | states |
|---|---|---|
| Invariant.RunKeepsInv | src/dct_hub/store_pg.py:156-236 | every run, in either mode with crashes, reaps and late finishes, keeps: workers own the job they claimed under their node and stamp, no two workers share a job, single-flight, done means published |
| Invariant.JobFollows | src/dct_hub/store.py:241-262 | one action never deletes a job, never changes its key or creation time, never lowers its rank, and changes nothing while the rank stays |
| Lifecycle.RunFollows | src/dct_hub/store_pg.py:191-236 | over any run a job's rank queued < running < interrupted < done/error never falls; done and error are final |
| Lifecycle.ClaimedAtMostOnce | src/dct_hub/store_pg.py:191-203 | no run, over all nodes, restarts and reaps, claims one job twice |
| Lifecycle.ReachableTable | src/dct_hub/store_pg.py:60-61 | every reachable table has at most one queued or running job per key, and every done job had its row put |
| Traces.DoneWasPublished | src/dct_hub/queue.py:117-137 | over any run, every done job was claimed by a worker that later wrote its row and later recorded the success, holding the job all the while |
| Traces.DoneIffFinishedOk | src/dct_hub/store_pg.py:205-209 | a job is done after a run exactly when it was done before or the run records a success for it |
| Lifecycle.RunEvolves | src/dct_hub/store_pg.py:168-177 | what other replicas do between two statements keeps every row and its key |
| Lifecycle.BootInterruptionIsFinal | src/dct_hub/queue.py:47-54 | what a boot interrupts, everything active on a single node and the node's own active jobs in a cluster, stays interrupted in every continuation on any node |
| Lifecycle.UnheldIsFinal | src/dct_hub/store_pg.py:205-236 | either mode: a terminal job that no live worker has in hand is unchanged by every continuation |
| Lifecycle.WorkerStillFinishes | src/dct_hub/queue.py:131-137 | in a cluster a live worker that goes on alone, from wherever it stands, makes its job done or failed whatever became of the row |
| Lifecycle.InterruptedIsFinal | src/dct_hub/store_pg.py:205-236 | in a cluster an interrupted job is final if and only if no live worker has it in hand |
| ClusterRuns.InterruptedCanEnd | src/dct_hub/store_pg.py:205-236 | a run from an empty installation interrupts a job that then becomes done, or failed |
| ClusterRuns.RowCanLoseBlob | src/dct_hub/gc.py:43-46 | for each crossed order, a run from an empty installation ends with a row and no blob |
| ClusterRuns.KeyCanBeRenderedTwice | src/dct_hub/gc.py:83-106 | a run from an empty installation ends with workers of two nodes rendering one key |
| ClusterRuns.WakeUpCanBeMissed | src/dct_hub/queue.py:117-130 | a run from an empty installation ends with a parked worker and a queued job |
| ClusterRuns.AnswerNeedNotBeDone | src/dct_hub/store_pg.py:168-177 | runs from an empty installation in which the row answered after a conflict is failed, interrupted or still queued |
| Coalescing.AnswerIsFinishedWinner | src/dct_hub/store_pg.py:168-177 | the row answered is the winner, done, exactly when the winner was the newest row of its key at the conflict, no insert since is listed before it, and its worker recorded a success |
| Coalescing.AnswerIsDone | src/dct_hub/store_pg.py:168-177 | the row answered is done exactly when it was done at the conflict or a success was recorded for it since |
| Failures.FailedJobsLeaveNoTrace | src/dct_hub/queue.py:131-137 | over any run a failed job never had its row put and no stored bytes are its own; a done job had its row put |
| SingleNode.WorkersMatchRunningRows | src/dct_hub/queue.py:47-57 | single node, any run with crashes and restarts: running rows and busy workers are in bijection, at most the pool size of them, and no key is rendered by two workers |
| SingleNode.NoLostWakeUps | src/dct_hub/queue.py:84-91 | single node: whenever a job is queued no worker is parked on the wake event |
| SingleNode.NeverStalls | src/dct_hub/queue.py:117-130 | single node: while a job is queued and nothing is half done there is a worker, and every worker not executing a job can claim one at once |
| SingleNode.TerminalIsFinal | src/dct_hub/store.py:241-262 | single node: a done, failed or interrupted job never changes again |
| Scheduling.BoundedOvertaking | src/dct_hub/store.py:228-239 | once the clock has left a job's creation second, it is still queued only after fewer claims than there were queued jobs at or before it |
| Scheduling.RefreshesAreSpaced | src/dct_hub/api.py:478-491 | a job created by an unforced request for a found artifact has a creation time at least min_interval_s after every earlier job of its key, exactly, despite truncation |
| Scheduling.IntervalTestReadsMax | src/dct_hub/policy.py:92-96 | the test on MAX(created_at) fires exactly when some job of the key is younger than the interval |
| Scheduling.ClusterCanMissWakeUp | src/dct_hub/queue.py:117-130 | in HA mode a submission between a failed claim and the clear leaves a worker parked with a job queued |
| Scheduling.ParkedClaimsAgain | src/dct_hub/queue.py:117-130 | a worker that parks and whose node stays up tries to claim again at most idle_poll_s, plus twice the event loop's delay, after it parked |
| Exclusion.OneExecutionPerKey | src/dct_hub/store_pg.py:227-236 | while no live execution looks stale to the reaper, no live worker's job is interrupted and at most one live worker in the cluster executes a key |
| Exclusion.WithinLimitIsFresh | src/dct_hub/gc.py:89 | an execution within timeout plus 120 seconds of its stamp never looks stale, although both times are cut to seconds |
| Exclusion.TimelyExecutionsExclude | src/dct_hub/gc.py:83-106 | if every live execution is always within timeout plus 120 seconds of its stamp, none loses its row and at most one live worker in the cluster executes a key |
| Exclusion.StaleExecutionLosesExclusion | src/dct_hub/gc.py:83-106 | from any state where a live execution looks stale, a reap, a resubmission and a claim make two workers render one key |
| Publishing.RowImpliesBlobWithoutOverlap | src/dct_hub/api.py:252-280 | any number of nodes, crashes anywhere: if no publish is ever mid-way while a delete of the same artifact is, every row's blob exists |
| Publishing.OverlapLosesBlob | src/dct_hub/gc.py:43-46 | from any state of such an overlap, both orders of finishing end with a row and no blob |
| Publishing.CrossedLosesBlob | src/dct_hub/gc.py:43-46 | all four crossed orders of a re-render and a delete are possible and lose the blob |
| Publishing.SerialKeepsBlob | src/dct_hub/gc.py:43-46 | the two serial orders keep a row's blob |
| Publishing.SingleNodeRowImpliesBlob | src/dct_hub/store.py:6-8 | single node: a row implies its blob in every reachable state, at every scheduling point and every possible crash point |
| Publishing.BlobsAreRows | src/dct_hub/api.py:252-280 | crash-free single-node runs: with nothing half done the published blobs are exactly the rows' blobs |
| ClusterRuns.CrashCanOrphanBlob | src/dct_hub/api.py:252-280 | a single-node run from an empty installation whose crash between the two publishing writes leaves a blob without a row; the next boot interrupts the job and leaves the blob |
| Publishing.ServedBytesAreOwn | src/dct_hub/blobs.py:21-27 | in every run: the bytes found at a row's locator were rendered by a job of exactly that key |
| Blobs.LocatorRoundTrip | src/dct_hub/blobs.py:21-27 | a locator splits back into board, key and format at its last dot and last slash |
| Blobs.LocatorInjective | src/dct_hub/blobs.py:21-27 | distinct keys have distinct locators |
| Blobs.SplitJoins | src/dct_hub/blobs.py:24-25 | the parts a board is checked by are its slash-free pieces, joining back to it |
| Blobs.PartsArePieces | src/dct_hub/blobs.py:24-25 | the parts of a split are exactly the maximal pieces of the text without the separator |
| Blobs.LocatorAccepts | src/dct_hub/blobs.py:21-27 | a locator is accepted exactly when the format is one or more lower-case letters or digits and the board has no backslash and no piece between slashes that is empty, a dot or two dots; its text is board, slash, key, dot, format |
| Blobs.LocalBlobs.PutFile | src/dct_hub/blobs.py:67-70 | the staged file becomes the blob and leaves staging; a missing one raises and changes nothing |
| Blobs.LocalBlobs.Delete | src/dct_hub/blobs.py:83-84 | removes the locator, if present, and nothing else |
| Store.LocalStore.SubmitJob | src/dct_hub/store.py:184-213 | returns a job of the requested key; adds a row exactly when no queued or running job of the key exists and exactly then reports created |
| Store.LocalStore.ClaimNextJob | src/dct_hub/store.py:228-239 | claims an oldest queued job and returns its row as it was before the update; nothing only when nothing is queued |
| Store.LocalStore.FinishJob | src/dct_hub/store.py:241-246 | writes status, error, duration and finish time whatever the status was, and nothing else; nothing for an unknown id |
| Store.LocalStore.LastActivity | src/dct_hub/store.py:270-273 | the greatest creation time among the key's jobs, or nothing |
| Store.LocalStore.AllRenders | src/dct_hub/store.py:163-166 | lists every ok row once, newest first, ties in any order |
| Store.LocalStore.DeleteRender | src/dct_hub/store.py:136-142 | removes the row and returns its locator |
| Store.LocalStore.Put | src/dct_hub/store.py:118-134 | inserts or replaces the row of the record's key |
| StorePg.PgStore.SubmitJob | src/dct_hub/store_pg.py:156-177 | created exactly when no active job of the key existed, and then it is the cluster's Submit action; otherwise an active job of the key at the first select, or if none is left the newest row of the key at the second |
| StorePg.PgStore.LatestForKey | src/dct_hub/store_pg.py:174-177 | the newest row of the key, ties broken by id |
| StorePg.PgStore.ClaimNextJob | src/dct_hub/store_pg.py:191-203 | claims the oldest queued row not locked by another claim and returns it updated, nothing only when all are locked; it is the cluster's Claim or ClaimNothing action |
| RenderQueue.RenderQueue.Start | src/dct_hub/queue.py:47-57 | the first call is the protocol's Start action, later calls change neither the state nor the wake event |
| RenderQueue.RenderQueue.Submit | src/dct_hub/queue.py:59-91 | is the protocol's Submit action, after Start if needed; a created row is queued with the requester, mode and second of the request, an answered one queued or running; sets the wake event when it created a job, and leaves it alone when it coalesced on a started queue |
| RenderQueue.RenderQueue.Turn | src/dct_hub/queue.py:117-130 | a worker's stretch from the loop head is the protocol's Claim, which writes exactly status, start second and node into the row, or ClaimNothing then Park with the wake event cleared |
| RenderQueue.RenderQueue.Complete | src/dct_hub/queue.py:131-141 | is the protocol's FinishJob; writes status, finish time, duration and the last 2000 characters of the failure into the job's row; fires and drops the job's done-event and no other |
| RenderQueue.RenderQueue.Wait | src/dct_hub/queue.py:93-115 | whatever the other coroutines do while it sleeps: returns the row stored at its return, a queued or running one only when the deadline has passed; every earlier read found the job queued or running, so it sleeps fewer than timeout / 0.5 + 1 times, each time for half a second or the rest of the timeout at most; leaves no entry of its job and changes nothing else |
| Waiting.EntriesBelongToWaiters | src/dct_hub/queue.py:93-115 | any interleaving of waiters, polls, cancellations and finishing workers: every done-event entry belongs to a waiter still inside wait, and none is left without waiters |
| Waiting.EventMeansTerminal | src/dct_hub/queue.py:98-110 | a waiter woken by its event reads a terminal row next and can only leave |
| Waiting.FiresFollowFinishes | src/dct_hub/queue.py:131-141 | in every run a fire of the job's event is pending exactly when a local worker has written its terminal row and not fired since |
| RenderService.RenderService.ExecuteRender | src/dct_hub/api.py:252-280 | succeeds exactly when the board resolves, dct reports a version, the render leaves a file and the locator is accepted; then exactly the rendered bytes and the row naming them are stored, else rows and blobs are unchanged; staging is left as found; it is the run PutBlob, PutRow or the action RenderFails |
| RenderService.Deliver | src/dct_hub/queue.py:131-141 | a worker from the end of its render to its loop head is a run of PutBlob, PutRow, FinishJob or of RenderFails, FinishJob, and the tables stay those of the abstract state |
| RenderService.RenderService.constructor | src/dct_hub/api.py:151-160 | the pool has one worker with the query cache on, else the configured number and at least one |
| RenderService.QueryCacheRunsOneAtATime | src/dct_hub/api.py:151 | with the query cache on no reachable state has two rows running or two workers rendering |
| RenderService.RenderService.Lookup | src/dct_hub/api.py:239-245 | finds the stored row exactly when it is ok; while a row implies its blob, what it finds has one |
| RenderService.TriggerRender | src/dct_hub/api.py:478-491 | serves, refuses or submits in exactly the ladder's cases; a submission is the protocol's Refresh or Submit action with its row's mode and requester; past the cached rungs the limiter's log is the one that request leaves |
| RenderService.ServeFound | src/dct_hub/api.py:304-309 | a found artifact is served as cached exactly when frozen or fresh, and as stale exactly when a job of its key is too recent |
| RateLimiter.RateLimiter.Allow | src/dct_hub/ratelimit.py:18-40 | accepts exactly when fewer than limit hits of the key in the log of all accepted hits are less than 60 seconds old, or the limit is off, and appends the accepted hit, despite trimming, dropping and bulk eviction; the dictionary grows past 10,000 windows only when all were hit in the last 60 seconds |
| RateLimiter.WindowsHoldAtMostLimit | src/dct_hub/ratelimit.py:1-5 | any half-open 60-second interval of any run of calls holds at most the limit of accepted hits per identity |
| RateLimiter.LiveOfTrimmed | src/dct_hub/ratelimit.py:24-29 | a trimmed window of counting hits has as many entries as the full log has counting hits |
| RateLimiter.EvictionIsSound | src/dct_hub/ratelimit.py:31-34 | the bulk eviction drops no hit that counts now or later |
| PgRateLimiter.OvershootBound | src/dct_hub/store_pg.py:299-320 | with at most n transactions in flight, hits accepted for an identity in the 60 seconds ending now never exceed limit + n - 1, with deletes and prunes interleaved |
| PgRateLimiter.OvershootAttained | src/dct_hub/store_pg.py:300-302 | for every limit and n some run reaches exactly limit + n - 1 |
| PgRateLimiter.IntervalBound | src/dct_hub/store_pg.py:295-320 | over every run any half-open interval of 60 seconds holds at most limit + 2n - 1 accepted hits of an identity |
| PgRateLimiter.IntervalAttained | src/dct_hub/store_pg.py:295-320 | for every limit and n some run reaches limit + 2n - 1, all stamped within 30 seconds |
| PgRateLimiter.CountIsBetween | src/dct_hub/store_pg.py:312-316 | any n: a transaction counts at least the accepted hits of the last 60 seconds and at most those of the 60 seconds before it began, exactly the former if and only if no hit lingers and exactly the latter if and only if none was deleted meanwhile |
| PgRateLimiter.SerialIsExact | src/dct_hub/store_pg.py:308-320 | one transaction at a time admits only while fewer than limit accepted hits lie in the last 60 seconds and refuses only if limit lie in the 60 seconds before it began; it is the exact sliding window when no hit lies between the two |
| PgRateLimiter.SerialCanRefuseEmpty | src/dct_hub/store_pg.py:312-318 | a run of one transaction at a time that refuses a hit although the last 60 seconds hold none |
| PgRateLimiter.SerialCanAdmitFull | src/dct_hub/store_pg.py:295-296 | a run of one transaction at a time that admits a hit although the 60 seconds before its start hold limit, which have been pruned |
| PgRateLimiter.AdmissionIsBounded | src/dct_hub/store_pg.py:313-319 | an admission that counted below the limit leaves committed plus pending hits within the bound |
| PgRateLimiter.DeletesOwnOldHits | src/dct_hub/store_pg.py:310-311 | of the rows it saw, a committed delete removes exactly its identity's hits from more than 60 seconds before its start |
| Retention.RetentionSweeper.SweepOnce | src/dct_hub/gc.py:48-70 | whatever is published while it runs: deletes exactly the keys of the listed rows that are known non-frozen, or whose board is gone, and are more than max_age_days days old or have max_per_board such rows of their board, not too old, listed before them; each once, and returns their number; uninterrupted it removes exactly those rows with their blobs, as a run of DeleteRow and DeleteBlob actions |
| Retention.RemovedMeans | src/dct_hub/gc.py:48-70 | the keep-set in microseconds and counts of listed rows, for every row of a listing |
| Retention.YoungOfFewStay | src/dct_hub/gc.py:3-7 | a record no older than the limit on a board with at most max_per_board listed rows stays, however it is classified |
| Retention.RetentionSweeper.Delete | src/dct_hub/gc.py:43-46 | removes the row and the blob it named, nothing for an unknown key; it is the run DeleteRow, DeleteBlob |
| Retention.SecondSweepRemovesNothing | src/dct_hub/gc.py:48-70 | a second sweep with the same clock and classification removes nothing, however ties are listed |
| Retention.CountLimitKeepsNewest | src/dct_hub/gc.py:66-69 | a row removed by the count limit leaves max_per_board kept rows of its board that are at least as new |
| Retention.OnlyDecidedAreRemoved | src/dct_hub/gc.py:35-41 | only known non-frozen records and those of deleted boards are removed, and every such record that is too old is |
| Retention.SweepRemovesListed | src/dct_hub/gc.py:48-70 | a record that a sweep deletes is a listed one outside the keep-set if and only if its key was not rendered again between the listing and the delete |
| Retention.FreshRenderCanGo | src/dct_hub/gc.py:48-70 | a record listed as too old and rendered again before its delete: the fresh row and bytes go although the next listing would keep them |
| SweepTrace.SparesOthers | src/dct_hub/gc.py:48-70 | a key the sweep does not delete keeps the listed row, or has one published meanwhile |
| SweepTrace.SweepKeepsBlobs | src/dct_hub/gc.py:8-10 | a sweep deletes no blob that a remaining row names, whatever is published while it runs |
| Retention.ServedFrozenSurvives | src/dct_hub/gc.py:35-41 | what serving called FROZEN is never removed by a later sweep while the board source is unchanged |
| CachePolicy.VerdictsInOrder | src/dct_hub/policy.py:55-90 | the verdicts of any sequence of requests over time are a run of FRESH, then STALE, then FROZEN |
| CachePolicy.FrozenNeedNotBeHistorical | src/dct_hub/policy.py:67-70 | a board whose one date is the render day is not FROZEN at the render and is FROZEN the next day |
| CachePolicy.FrozenSinceRender | src/dct_hub/policy.py:67-90 | a record FROZEN on some day was FROZEN on its render day exactly when none of its dates lies from the render day up to that day |
| CachePolicy.ServedFrozenIsKept | src/dct_hub/policy.py:98-118 | what freshness calls FROZEN, frozen calls True or undecidable, now or later, even with a failed describe cached |
| CachePolicy.DateVarsAreLastDates | src/dct_hub/policy.py:48-52 | the schema holds exactly the names declared as dates, each with the default of its last date declaration |
| CachePolicy.CachePolicy.DateVars | src/dct_hub/policy.py:42-53 | the first outcome per fingerprint is kept, a failure as no date variables |
| CachePolicy.CachePolicy.AllInPast | src/dct_hub/policy.py:77-90 | true exactly when every date variable has a value, the request's or the default, whose first ten characters are a date before today |
| CachePolicy.CachePolicy.GetFreshness | src/dct_hub/policy.py:55-75 | MISSING without a record; FROZEN exactly when enabled and the schema cached afterwards is not empty and every date is set, parses and lies before today; otherwise FRESH exactly while less than default_ttl_s seconds have passed since the render, then STALE; other cached schemas stay |
| CachePolicy.CachePolicy.IsFrozen | src/dct_hub/policy.py:98-118 | undecidable exactly when enabled and describe fails; True exactly when enabled and the description has dates, all before today; else False |
| AccessPolicy.AccessPolicy.Capabilities | src/dct_hub/auth/access.py:62-75 | gives exactly the capabilities of the grants that list the identity by subject, email or a common group and whose pattern covers the board while no other covering pattern covers strictly fewer boards |
| AccessPolicy.MatchesWhatItCovers | src/dct_hub/auth/access.py:3-9 | a pattern matches every board if it is the star, the board of that very text, and the boards below the folder it names, and nothing else |
| AccessPolicy.WinnersGovern | src/dct_hub/auth/access.py:62-72 | the grants that win by specificity are exactly those whose covering pattern has no strictly narrower covering rival |
| AccessPolicy.GivesAsDocumented | src/dct_hub/auth/access.py:3-9 | the union over the winners is the documented rule, on the configured grants |
| AccessPolicy.SameInAnyOrder | src/dct_hub/auth/access.py:49-55 | configurations listing the same grants in another order give the same capabilities |
| AccessPolicy.WinningPattern | src/dct_hub/auth/access.py:62-75 | when some grant applies there is one most specific matching pattern, and the winning grants are exactly those that carry it |
| AccessPolicy.EquallySpecificIsSame | src/dct_hub/auth/access.py:32-45 | two patterns that match a board and are equally specific are the same text |
| AccessPolicy.SpecificityIsContainment | src/dct_hub/auth/access.py:3-9 | of two patterns matching a board the more specific one is the one covering strictly fewer boards |
| AccessPolicy.SubtreeCoversFolder | src/dct_hub/auth/access.py:40-45 | a folder pattern matches exactly the boards below the folder, not the folder itself nor a sibling |
| AccessPolicy.WinnersShareFirst | src/dct_hub/auth/access.py:69-70 | of the sorted grants the winners are the matching ones with the first match's pattern |
| AccessPolicy.BreakLosesNothing | src/dct_hub/auth/access.py:71-72 | nothing behind the first less specific match can win |
| AccessPolicy.StripDropsSlashes | src/dct_hub/auth/access.py:53 | stripping removes exactly the leading slashes |
| Timestamps.TextOrderIsTimeOrder | src/dct_hub/store.py:294-295 | for all instants of years 1 to 9999 the timestamp texts compare exactly as the whole seconds |
| Timestamps.Fields | src/dct_hub/store.py:294-295 | the calendar fields of an instant are valid and denote that instant |
| Timestamps.EarlierIsSooner | src/dct_hub/store_pg.py:13-14 | calendar order is chronological order through month lengths and leap years |
| Timestamps.FormatOrder | src/dct_hub/store_pg.py:13-14 | text order of two timestamps is field-by-field order |
| Timestamps.FormatReads | src/dct_hub/store.py:294-295 | the text has the form YYYY-MM-DDTHH:MM:SS+00:00 and its fields read back |
| Timestamps.ReapedTextIsOld | src/dct_hub/store_pg.py:231-234 | a start that precedes the cutoff as text is older than the threshold |

## Left out

- Scheduling.ParkedClaimsAgain: assumes that the event loop takes a due step of the worker within a fixed delay, stated as a bound on how far the clock may advance meanwhile.
- Coalescing.AnswerIsFinishedWinner: ids are compared by code point when creation times tie, like every text here.
- RateLimiter.RateLimiter.Allow: clock readings are reals, so floating-point rounding of `time.monotonic()` differences is not modelled.
- PgRateLimiter.OvershootBound: `n` is a parameter; the code bounds it by four pooled connections per replica. The database clock is assumed not to go back. A limit of zero or less, which admits everything without touching the table, is outside the transition system.
- Timestamps.TextOrderIsTimeOrder: text is compared by code point; a Postgres database with another collation is not modelled.
- RenderQueue.RenderQueue.Wait: that a sleep lasts its limit unless the event ends it, and that a fired event is followed by a terminal read are assumptions on its environment; the latter is proved in `Waiting`.
- Exclusion.OneExecutionPerKey: assumes one clock for the cluster and, through it, that executions end within the threshold; rendering time outside `dct render` is not bounded by the code.
- Janitor leadership (`try_leader`, `release_leader`): depends on Postgres session liveness; any number of nodes may reap and sweep in the model.
- `RenderQueue` as a class is the single-node queue; the cluster's queue is the transition system, with one action per statement.
- In HA mode an insert and the wake-up after it are one action; a worker woken early is only a worker that may claim.
- Routes, authentication, identities, sessions, templates, and the page that renders on a miss: plumbing around the same submissions.
- `cachekey.py` and `boards.py`: hashing and file-system scans; a key is taken to determine its board, variables and format.
- `validate_vars`, `config.py`: simple branches; `max_per_board` and the intervals are taken as non-negative.
- S3 and SQLite internals, subprocesses, and store calls that raise.
- `list_jobs`, `list_renders`, `latest_renders`: read-only listings.
