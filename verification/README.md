# CauSium backend: verified models of its protocols

This project models the stateful mechanisms of the CauSium backend, and the
Azure resource id parser of its frontend, and proves what they keep over every
run. `dafny verify dfyconfig.toml` checks all of it.

| file | what it models |
|---|---|
| `SlidingWindow.dfy` | the two-bucket estimator over the log of admitted requests: a sharp bound for every real-time window |
| `RateLimiter.dfy` | the same limiter over expiring Redis counters, and the rule loop of the security middleware |
| `Gateway.dfy` | any number of requests in flight, their rule checks interleaved |
| `Idempotency.dfy` | the get / set-nx / get / compare / get protocol with any number of clients |
| `RetryQueue.dfy` | one consumer on one queue: retry counters, dead letters, draining |
| `JobBroker.dfy` | any number of workers on one queue: conservation, lease lock, dead-letter table |
| `Scheduler.dfy` | the periodic scheduler: once per bucket, and no day missed |
| `Keyring.dfy`, `KeyringOverlap.dfy` | workspace keyrings, their ciphertext format, and rotation; overlapping transactions on them |
| `Outbox.dfy` | the notification worker and its transactions |
| `Metrics.dfy`, `Percentiles.dfy` | counters, sample deques and the SLO snapshot as folds of the observation log |
| `SupportAccess.dfy`, `SupportOverlap.dfy` | support access sessions; overlapping calls on them |
| `AzureResource.dfy` | the resource id parser against its printer |
| `Rounding.dfy`, `Text.dfy`, `Sequences.dfy`, `Expiry.dfy` | exact rounding and division; numerals, splitting, joining, trimming; distinct sequences; expiring Redis keys |

Redis commands and database commits are atomic steps. Redis keys are maps to
values with expiry times. Time is an integer number of ticks of any resolution;
a lemma that needs seconds takes `hz` ticks a second. Weights are millionths,
as six decimals print them, and percentages are exact reals rounded half to
even. A class carries the fields that the source updates in place; each of its
methods is proved against a specification function, and the theorems are about
those functions over all runs.

Where the code falls short of its own words or of its evident intent, the model
follows the code:

* `backend/app/core/middleware.py:251` promises at most `limit` requests inside
  any window. That holds exactly for windows aligned with a bucket, for offsets
  whose weight still rounds to 1, and for limit 0 (`PromiseExactly`). The sharp
  bound is `2*limit - floor(limit*weight)`; twenty logins fit into one minute
  under the shipped limit of ten (`PromiseFailsInPractice`).
* After the advertised `Retry-After` a client is admitted exactly when its bucket
  was not full or its weight rounds below 1 (`RetryAfterExactly`); one that fills a
  bucket at its first tick is still blocked (`RetryAfterFails`).
* Line 873 of the repository's own README.md says identical retries return the
  original result. It fails in two ways. Inside one TTL an identical retry gets the
  original response exactly when that response has been cached by then; if the first
  call raised, as at `backend/app/domains/experiments/router.py:343-346`, or answered
  with status 500 or above, every retry is told `in_progress` (`FetchExactly`,
  `RetryExactly`). And the response key outlives the request key, so past one TTL a
  client can be handed the response to a different request (`ReplayHorizonExactly`).
* What counts as identical there is narrow: the fingerprint covers method, path and
  body only (`SharedFingerprintExactly`). `lookback_days` and `sync_mode` of the sync
  endpoint (`backend/app/domains/cloud_accounts/router.py:226-227`) are in the query
  string, so a sync request with other values is answered as a retry.
* `backend/app/workers/notification_worker.py:7-9` says a restart never
  double-sends. The stamp is committed after the sends, so an aborted transaction
  repeats them. No alert is sent twice exactly when no transaction aborts
  (`NoDoubleSendExactly`); with n aborts, n + 1 sends are possible and no more
  (`SendsWithinExactly`).
* A retry is pushed back before the lock is freed, so another worker can pop it and
  skip it: the job ends before its third attempt and is not parked. That never
  happens exactly with at most one worker, without retries, or without locks
  (`RetriesSurviveExactly`).
* Requeueing a dead letter pushes the job before the row is committed; if the commit
  fails the row stays open with its job queued again (`UncommittedRequeue`). Only a
  commit or a resolve closes such a row (`OpenExactly`).
* Two rotations that find the same key due can both succeed, one turning to it after
  the other has committed, and leave two keys active. Exactly one is active in every
  run exactly when transactions do not overlap (`OneActiveExactly`); versions stay
  1..n, the newest active and every ciphertext readable however they do
  (`OverlapKeeps`, `OverlapReadable`).
* A call that ends a support session reads it without a lock, so it can overwrite an
  expiry committed meanwhile. Status and `ended_at` are final exactly when calls do
  not overlap (`FinalityExactly`); no finished session is ever active again however
  they do (`OverlapStaysFinished`).
* The handler of a cancelled export deletes the job's lock, and the `finally`
  after it deletes it once more. Between the two another worker may take the
  lock, and the second delete lets a third one in: exports under one lock can
  overlap however short they are (`CancelledOverlap`, `ExclusionExactly`).
* A gap of 89 days or more between syncs can miss a day (`NoDayMissedExactly`).
* `observe_worker_job` takes any status. A worker's `total` in the snapshot is wrong
  exactly when a job was recorded under the status `total` (`WorkerTotalExactly`),
  and a status `worker` makes the snapshot raise (`BuildWorkerRows`). The export
  worker, its only caller, passes neither.
* A resource id is recovered, and given back by re-joining its fields, exactly when
  its subscription and group are not taken for keywords and its name does not end
  in whitespace (`RoundTripExactly`, `RejoinExactly`).

## Model

| member | source | states |
|---|---|---|
| SlidingWindow.WeightExactly | backend/app/core/middleware.py:259-268 | the weight is the share of the bucket still to come, as the nearest number of millionths with ties to even: that integer and no other |
| SlidingWindow.CarryExactly | backend/app/core/middleware.py:40 | the carry is the weighted count rounded down: that integer and no other |
| SlidingWindow.EstimateExactly | backend/app/core/middleware.py:257-268 | at any instant of bucket b the estimate is the number of requests logged in b plus that of b-1 weighted by the rounded share of b still to come, rounded down |
| SlidingWindow.WeightFalls | backend/app/core/middleware.py:259 | the weight, rounded to six decimals, never rises with the offset into the bucket |
| SlidingWindow.WeightRange | backend/app/core/middleware.py:259-268 | inside a bucket the weight lies between 0 and 1, and is 1 at its start |
| SlidingWindow.CarryBounds | backend/app/core/middleware.py:40 | the weighted previous count is at most that count, and equals it only for weight 1 or count 0 |
| SlidingWindow.EstimateBounds | backend/app/core/middleware.py:40-47 | the estimate lies between the current bucket's count and the sum of both counts |
| SlidingWindow.AlignedBound | backend/app/core/middleware.py:40-45 | every aligned bucket admits at most limit, whatever the clock readings |
| SlidingWindow.HeadBound | backend/app/core/middleware.py:33-50 | the first `a` ticks of a bucket admit at most limit less the weighted count of the bucket before |
| SlidingWindow.WindowBound | backend/app/core/middleware.py:33-50 | in every run, a window `a` ticks into bucket k admits at most limit + P - floor(P*weight), P being bucket k's final count |
| SlidingWindow.WorstCaseBound | backend/app/core/middleware.py:257-274 | so at most 2*limit - floor(limit*weight), and never more than 2*limit |
| SlidingWindow.WorstCaseReached | backend/app/core/middleware.py:257-274 | for every window length, limit and offset one run reaches that bound exactly |
| SlidingWindow.Burst | backend/app/core/middleware.py:40-49 | n checks at one instant admit exactly min(n, limit - estimate), at any point of any run |
| SlidingWindow.PromiseExactly | backend/app/core/middleware.py:246-252 | the documented promise of at most limit per window holds if and only if the limit is 0, the window is aligned, or the weight rounds to 1 |
| SlidingWindow.PromiseFailsInPractice | backend/app/core/config.py:254-257 | with the shipped login limit, twenty requests pass in one minute |
| SlidingWindow.RetryAfterSuffices | backend/app/core/middleware.py:428 | a client quiet for at least `window` is admitted if its bucket was not full or its rounded weight is below 1 |
| SlidingWindow.RetryAfterExactly | backend/app/core/middleware.py:428 | after exactly `window` that condition is also necessary |
| SlidingWindow.RetryAfterFails | backend/app/core/middleware.py:428 | a client that fills a bucket at its first tick is blocked then and again after the advertised time |
| RateLimiter.BucketKeyInjective | backend/app/core/middleware.py:265-266 | two bucket keys are equal only for the same prefix and bucket |
| RateLimiter.BucketKeyParts | backend/app/core/middleware.py:265-266 | a bucket key is the prefix, a colon and the bucket in decimal |
| RateLimiter.GetExactly | backend/app/core/middleware.py:34-35 | a live counter reads as its value, a missing or expired one as 0 |
| RateLimiter.ReadsIdealCount | backend/app/core/middleware.py:263-271 | in every state that refines the ideal log, a check reads the ideal never-expiring counts of both buckets |
| RateLimiter.ChargeKeepsRefinement | backend/app/core/middleware.py:45-46 | INCR with expiry `window*2` keeps the store a refinement of the ideal log: no counter vanishes while a check can read it |
| RateLimiter.LaterKeepsRefinement | backend/app/core/middleware.py:46 | the passing of time keeps the refinement |
| RateLimiter.Limiter.constructor | backend/app/core/middleware.py:33-50 | an empty store refines the empty log |
| RateLimiter.Limiter.Reap | backend/app/core/middleware.py:46 | dropping every expired key, whenever Redis does it, keeps the refinement and the log |
| RateLimiter.Limiter.Script | backend/app/core/middleware.py:34-49 | the script's answer and store, branch by branch; a blocked call writes nothing |
| RateLimiter.Limiter.Check | backend/app/core/middleware.py:239-274 | a check blocks exactly when the ideal estimator does; blocked it changes no counter, admitted it adds one charge and reports limit less the new estimate |
| RateLimiter.Limiter.HandleRequest | backend/app/core/middleware.py:400-433 | a request stopped by rule j has charged exactly rules 0..j-1 and reports rule j's limits; a served one reports the first rule's |
| Gateway.RunChargesExactlyPassed | backend/app/core/middleware.py:405-433 | however requests interleave, each has charged exactly the rules it passed, in order, and is admitted when that is all of them |
| Gateway.KeyLogIsRun | backend/app/core/middleware.py:407-410 | however requests interleave, one key's admissions are those of the single-key estimator run on that key's own checks |
| Gateway.ConcurrentWindowBound | backend/app/core/middleware.py:375-433 | the sharp window bound holds for every key under any number of concurrent requests with any rule lists |
| Gateway.BucketCountsRequests | backend/app/core/middleware.py:407-410 | a bucket count is the number of distinct requests that charged the key in it |
| Gateway.RunOneChargePerRule | backend/app/core/middleware.py:376-398 | no request charges a key twice, in every interleaving |
| Gateway.RunBucketCounts | backend/app/core/middleware.py:407-433 | in every run each bucket count equals the number of requests that passed that rule in that bucket |
| Gateway.AdmittedWithinCounts | backend/app/core/middleware.py:407-433 | admitted requests never exceed a bucket count of any of their keys, and each is counted in some bucket of each |
| Gateway.BlockedExactly | backend/app/core/middleware.py:416-433 | in every run a request is blocked if and only if a check of its next rule has been refused |
| Gateway.BlockedForGood | backend/app/core/middleware.py:416-433 | a blocked request stays as it is and never charges another key |
| Idempotency.Connection.PrepareRequest | backend/app/core/idempotency.py:22-41 | the code, under arbitrary writes of other clients between its commands, runs the client program of the state machine |
| Idempotency.Connection.CacheResponse | backend/app/core/idempotency.py:47-66 | a response below status 500 replaces whatever is cached, with a fresh expiry; others change nothing |
| Idempotency.StepSettled | backend/app/core/idempotency.py:27-63 | once a client has won, every step of any client keeps the stored fingerprint and every answer in agreement with the winner |
| Idempotency.SafeWithinTtl | backend/app/core/idempotency.py:22-66 | inside one TTL at most one client gets `new`, another fingerprint gets only `conflict`, the response key is set exactly when the winner has cached a response, and every replay is that envelope, below status 500 |
| Idempotency.FetchExactly | backend/app/core/idempotency.py:37-41 | inside one TTL a client that fetches gets exactly what the winner has cached by then, and `in_progress` if and only if that is nothing |
| Idempotency.RetryExactly | backend/app/core/idempotency.py:27-41 | an identical retry, with any other clients at work between its commands, gets the winner's response if and only if it is cached by its last one |
| Idempotency.KeysHoldLast | backend/app/core/idempotency.py:27-63 | over every run, past any number of TTLs, the two keys hold the last claim and the last response below status 500, with the expiries they were given |
| Idempotency.AnswerExactly | backend/app/core/idempotency.py:27-41 | over every run, what each command tells a client, from the last claim and the last response alone; a fetch before its expiry gets exactly the last response |
| Idempotency.NewAnswersApart | backend/app/core/idempotency.py:29-31 | over all time, two `new` answers on one scope lie at least one TTL apart |
| Idempotency.ReplayHorizonExactly | backend/app/core/idempotency.py:29-63 | all replays in a horizon answer the same request if and only if the horizon is at most the TTL |
| Idempotency.StaleReplay | backend/app/core/idempotency.py:37-39 | a concrete run past the TTL replays one request's response to another |
| Idempotency.ScopeKeyFields | backend/app/core/idempotency.py:17-19 | the fields of a scope key, in order |
| Idempotency.ScopeKeyInjective | backend/app/core/idempotency.py:17-19 | equal scope keys come from equal components, with any text as the client's key |
| Idempotency.KeysDisjoint | backend/app/core/idempotency.py:23-24 | a request key is never a response key |
| Idempotency.SharedFingerprintExactly | backend/app/core/idempotency.py:8-14 | with no bar in methods and paths, two requests hash the same bytes if and only if method, path and body agree, whatever the query strings |
| Idempotency.CollisionExactly | backend/app/core/idempotency.py:9-13 | some bodies make two paths hash the same bytes if and only if the methods agree and the paths are equal or one continues the other after a bar |
| RetryQueue.RunOneConsistent | backend/app/workers/scoring_worker.py:27-77 | every run keeps each counter equal to the payload's failures since its last success or dead letter, below 3, and every dead-letter row at 3 attempts |
| RetryQueue.RunOneProgress | backend/app/workers/job_runtime.py:16 | every run uses up at least one of the runs left, a failing run exactly one |
| RetryQueue.RunsLeftBounds | backend/app/workers/job_runtime.py:16 | n jobs with zero counters have exactly 3n runs left, and never fewer than their number |
| RetryQueue.FailureKeepsJobs | backend/app/workers/carbon_sync_worker.py:59-85 | a failing run loses no payload: it is queued again or in the table |
| RetryQueue.Consumer.Push | backend/app/workers/ingestion_worker.py:75 | a push adds one payload in front and changes nothing else |
| RetryQueue.Consumer.ProcessNext | backend/app/workers/ingestion_worker.py:181-220 | one run takes the oldest payload and leaves the state of the specified run, with the counters still right |
| RetryQueue.Consumer.Drain | backend/app/workers/scoring_worker.py:95-106 | a single consumer empties the queue within the runs left; if every run fails it takes exactly that many and every job is in the table |
| JobBroker.ActConserves | backend/app/workers/export_worker.py:77-255 | each atomic step of a worker moves a payload to exactly one other place |
| JobBroker.RunConserved | backend/app/workers/ingestion_worker.py:88-242 | for any number of workers and any interleaving: pushes = queued + in hand + completed + skipped + cancelled + parked, payload by payload |
| JobBroker.StepExclusive | backend/app/workers/ingestion_worker.py:94-103 | a step keeps runs under one lock apart, if no running job has outlived the lease and none is cancelled |
| JobBroker.RunExclusive | backend/app/workers/ingestion_worker.py:94-242 | in every run without cancellations, jobs shorter than the lease never overlap under one lock key |
| JobBroker.Overrun | backend/app/workers/ingestion_worker.py:25 | a job that lasts to the end of its lease can overlap with another |
| JobBroker.CancelledOverlap | backend/app/workers/export_worker.py:188-252 | the double release of a cancelled export lets two others overlap, however short |
| JobBroker.ExclusionExactly | backend/app/workers/export_worker.py:92-252 | no overlap in any interleaving if and only if jobs are shorter than the lease and the queue has no cancellation handler |
| JobBroker.RowsDropExactly | backend/app/workers/maintenance_worker.py:36-44 | a row disappears in a step if and only if that is a cleanup which finds it closed and more than 30 days old |
| JobBroker.OpenRowsStay | backend/app/workers/maintenance_worker.py:36-44 | an open dead-letter row stays unchanged through every run until someone requeues or resolves it |
| JobBroker.UncommittedRequeue | backend/app/domains/admin/service.py:155-166 | a requeue without its commit leaves the row open through every run although the job is queued again |
| JobBroker.OpenExactly | backend/app/domains/admin/service.py:155-166 | once an open row's job is pushed again, the row is open at the end of a run if and only if the run has neither committed a requeue of it nor resolved it |
| JobBroker.RunRetryCounts | backend/app/workers/scoring_worker.py:54-77 | with workers sharing a counter, rows of retrying queues record at least 3 attempts and export rows 0 |
| JobBroker.StepsRefineRunOne | backend/app/workers/ingestion_worker.py:88-242 | without interference, the atomic steps of a job that begins amount to one run of the single-consumer queue, and record how it ended |
| JobBroker.EarlySkipRefinesRunOne | backend/app/workers/ingestion_worker.py:89-103 | a payload that names no job, or whose lock is taken, is one skipped run: one more record, and counters, locks and table as they were |
| JobBroker.RunOnlyJobs | backend/app/workers/scoring_worker.py:18-22 | in every run a payload that names no job is never run, never counted and never parked |
| JobBroker.ExportFailsOnce | backend/app/workers/export_worker.py:196-252 | a failed export is parked with no attempt counted and not queued again |
| JobBroker.CancelEnds | backend/app/workers/export_worker.py:188-252 | a cancelled export is recorded, frees its lock, and is neither queued again nor parked |
| JobBroker.RetriesSurviveExactly | backend/app/workers/ingestion_worker.py:181-242 | no job with failed attempts is dropped by a taken lock, in any run, if and only if there is at most one worker, or no retrying, or no locks |
| JobBroker.EarlyRetryLost | backend/app/workers/ingestion_worker.py:181-242 | for any number of workers from two, a run in which a job is pushed once, fails once, is skipped and gone, with no row in the table and one attempt still counted |
| Scheduler.LookbackExactly | backend/app/workers/ingestion_worker.py:57-66 | the look-back asked for is 90 days for an account that never synced, else the whole days since the last sync plus two, within 2..90 |
| Scheduler.WorkerLookbackExactly | backend/app/workers/ingestion_worker.py:133-135 | the look-back taken is the one asked for within 7..90, else the nearer end; 30 where none is asked for |
| Scheduler.CoversUpTo88 | backend/app/workers/ingestion_worker.py:57-66 | with a gap of at most 88 days, a job run within a day of being enqueued starts no later than the last sync's day |
| Scheduler.NoDayMissedExactly | backend/app/workers/ingestion_worker.py:130-136 | no sync history with that gap misses a day if and only if the gap is at most 88 days |
| Scheduler.RunOncePerBucket | backend/app/workers/ingestion_worker.py:49-55 | across any interleaved passes each account is scheduled at most once per bucket, and locks outlive their bucket by the slack |
| Scheduler.OncePerBucketExactly | backend/app/workers/ingestion_worker.py:53 | for every slack: at most once per bucket in every run if and only if passes delay their locks by at most the slack |
| Scheduler.Redis.EnqueuePeriodicSyncJobs | backend/app/workers/ingestion_worker.py:29-85 | a pass performs the modelled lock attempts and enqueues, in order, one job with the smart look-back for each lock won |
| Keyring.UnformatFormat | backend/app/core/security.py:125-135 | splitting and parsing undo the ciphertext format for every version and token |
| Keyring.IsWorkspaceExactly | backend/app/core/security.py:129 | which texts are workspace ciphertexts, symbol by symbol |
| Text.BlanksIgnored | backend/app/core/security.py:135 | a version may stand between blanks |
| Text.PlusIgnored | backend/app/core/security.py:135 | a plus before a version counts for nothing |
| Text.UnderscoreIgnored | backend/app/core/security.py:135 | an underscore between its digits counts for nothing |
| Keyring.EnsuredConsistent | backend/app/core/security.py:93-118 | ensuring keeps versions 1..n with exactly version n active, and leaves the organisation with an active key |
| Keyring.ActiveIffKeys | backend/app/core/security.py:94-108 | an organisation lacks an active key only if it has no key, so version 1 is never created twice |
| Keyring.RotateRowConsistent | backend/app/core/security.py:193-210 | one rotation keeps versions 1..n gapless and unique with exactly the newest active |
| Keyring.RotateBatchConsistent | backend/app/core/security.py:192-212 | a batch does too; of the old rows it only deactivates the batch, and new rows carry the reference time |
| Keyring.RotateBatchFresh | backend/app/core/security.py:200-208 | the k-th row a batch adds is active, opens to the k-th fresh key, and belongs to the organisation of the k-th due row |
| Keyring.RunsKeepConsistent | backend/alembic/versions/0021_workspace_keyrings.py:32 | every run of ensure and rotate keeps all of that, and only adds rows |
| Keyring.DueOrderBatch | backend/app/core/security.py:176-188 | oldest first and cut to the batch is an answer the due query may give |
| Keyring.Table.Ensure | backend/app/core/security.py:93-118 | returns the organisation's newest key, which is active; adds a row if and only if the organisation has none, then version 1 sealing the fresh key |
| Keyring.Table.Encrypt | backend/app/core/security.py:121-125 | the ciphertext is that of an active row of the organisation |
| Keyring.Table.Decrypt | backend/app/core/security.py:128-153 | yields a value if and only if the global key sealed it into the text or a key of the organisation did whose version the text names; the two other errors exactly for a malformed text and a missing version |
| Keyring.DecryptsExactly | backend/app/core/security.py:128-153 | the same for every table with unique versions |
| Keyring.Table.Rotate | backend/app/core/security.py:156-213 | replaces each key of a possible batch, all old enough, by a fresh key of its organisation; a batch that is not full leaves no active key that is old enough; raises for a non-positive age or batch and changes nothing |
| Keyring.AgeOrder | backend/app/core/security.py:185 | the order of the due query: keys without a date first, then the earliest date |
| Keyring.StaysReadable | backend/app/core/security.py:128-153 | a ciphertext of any row decrypts to its plaintext in every later consistent table |
| Keyring.ReadableThroughRuns | backend/app/core/security.py:165-166 | every ciphertext ever produced stays readable through any later run of ensure, encrypt and rotate |
| Keyring.ReadableExactly | backend/app/core/security.py:139-153 | another organisation reads it if and only if its key of that version is the same key |
| Keyring.TenantsIsolated | backend/app/core/security.py:107-111 | after any run whose generated keys are distinct, a ciphertext of one organisation is refused to every other |
| Keyring.LegacyReadable | backend/app/core/security.py:129-131 | secrets sealed with the global key stay readable |
| Keyring.TicksProgress | backend/app/core/security.py:173-213 | repeated ticks at one time rotate distinct rows that were due at the start, oldest first, and never a key just created |
| Keyring.TicksDrain | backend/app/core/security.py:187-213 | after k ticks exactly max(0, due - k*batch) keys are due, so ceil(due/batch) ticks finish |
| KeyringOverlap.CommitGood | backend/app/core/security.py:192-213 | a commit that meets no conflict keeps versions unique and linked and the newest of each organisation active, whatever was committed since the transaction read |
| KeyringOverlap.OverlapKeeps | backend/alembic/versions/0021_workspace_keyrings.py:32 | however ensure and rotate transactions overlap, versions stay exactly 1..n, one row each, with version n active |
| KeyringOverlap.OverlapReadable | backend/app/core/security.py:165-166 | however they overlap, every ciphertext ever produced stays readable |
| KeyringOverlap.OverlapIsolated | backend/app/core/security.py:107-111 | however transactions overlap, with generated keys distinct a ciphertext of one organisation is refused to every other |
| KeyringOverlap.RotatedAdds | backend/app/core/security.py:193-210 | a turn of the loop drafts one row: a fresh key of the due row's organisation, newer than every version the transaction sees |
| KeyringOverlap.FreeCommits | backend/app/core/security.py:199-212 | a commit without conflict appends exactly what was drafted, fresh keys included, and deactivates exactly the rotated rows |
| KeyringOverlap.OnlyFinishedCommit | backend/app/core/security.py:192-212 | a transaction in the middle of its loop cannot commit, and an aborted one leaves nothing |
| KeyringOverlap.TakenAborts | backend/alembic/versions/0021_workspace_keyrings.py:32 | a transaction one of whose rows is taken commits nothing |
| KeyringOverlap.TwoActive | backend/app/core/security.py:188-210 | a concrete overlap of two rotations leaves two keys active |
| KeyringOverlap.OneActiveExactly | backend/app/core/security.py:93-213 | exactly the newest key is active in every run if and only if at most one transaction is open at a time |
| Outbox.StepGood | backend/app/workers/notification_worker.py:184-284 | every step keeps batches disjoint, one claim per alert and channel, no repeated send in a transaction, and everyone served who is no longer to do |
| Outbox.RunGood | backend/app/workers/notification_worker.py:272-284 | so does every interleaving of any number of transactions, whatever other rows each claim passes over |
| Outbox.DispatchesAreSenders | backend/app/workers/notification_worker.py:206-214 | a recipient's dispatches of an alert number the transactions that sent it |
| Outbox.DispatchBound | backend/app/workers/notification_worker.py:184-284 | in every run a recipient gets an alert on a channel exactly once per aborted transaction that had sent it, plus once if some other transaction sent it |
| Outbox.SendsAreRecent | backend/app/workers/notification_worker.py:42-75 | in every run whatever is sent was raised at most a day before it was claimed |
| Outbox.RunClaimsFit | backend/app/workers/notification_worker.py:42-75 | in every run a claim is of at most 50 alerts, oldest first, none older than a day |
| Outbox.CommittedServed | backend/app/workers/notification_worker.py:189-214 | a committed transaction has stamped its alerts and served every recipient it chose |
| Outbox.AbortResends | backend/app/workers/notification_worker.py:190-192 | for every n a run with n aborted transactions sends one alert n + 1 times to one recipient |
| Outbox.SendsWithinExactly | backend/app/workers/notification_worker.py:272-284 | every run with at most n aborted transactions stays within m sends per alert, channel and recipient if and only if m exceeds n |
| Outbox.NoDoubleSendExactly | backend/app/workers/notification_worker.py:7-9 | the documented promise of no double send holds of every run with at most n aborted transactions if and only if n is 0 |
| Outbox.Worker.DispatchBatch | backend/app/workers/notification_worker.py:184-269 | the dispatch loop is a run of the machine; committed it has served everyone and stamped the batch, aborted it keeps no stamp |
| Rounding.HalfEvenNearest | backend/app/core/observability.py:151 | the rounding is the nearest integer, even between two equally near |
| Percentiles.RoundsExactly | backend/app/core/observability.py:200-212 | rounding to two or four decimals gives the nearest such value, an even one between two, and no other |
| Percentiles.Round4Complement | backend/app/core/observability.py:200-201 | rounding the success rate again changes nothing |
| Percentiles.RankIndexExactly | backend/app/core/observability.py:151 | the rank is p percent of the last index, rounded to the nearest integer with ties to even, and no other |
| Percentiles.PercentileIsRank | backend/app/core/observability.py:145-152 | with that rank, the percentile is the one sample with at most `rank` samples below it and more than `rank` at or below it |
| Percentiles.PercentilePermutes | backend/app/core/observability.py:145-152 | the percentile does not depend on the order of the samples |
| Metrics.Registry.constructor | backend/app/core/observability.py:15-19 | empty counters are the folds of the empty log |
| Metrics.Registry.ObserveApiRequest | backend/app/core/observability.py:54-61 | one observation keeps all five maps the folds of the log, key by key |
| Metrics.Registry.Rollup | backend/app/core/observability.py:165-198 | the accumulation, in any key order, gives the folds over each path and the totals |
| Metrics.Registry.BuildSnapshot | backend/app/core/observability.py:155-224 | path rows count exactly the log's entries of the path, sum to the totals, and have the average, maximum and p95 of those entries; the two rates lie in 0..100 and sum to 100 |
| Metrics.SliOfIsFold | backend/app/core/observability.py:206-212 | error rate, average, p95 and maximum of a row are the rounded values over its log entries, p95 at 95 percent of the last index of the pooled last 2000 durations of each key; average and p95 never exceed the maximum |
| Metrics.Rounded95thUnique | backend/app/core/observability.py:211 | there is only one such value, however the samples are listed |
| Metrics.AgreesStep | backend/app/core/observability.py:56-61 | an observation moves the counters of its key and no other, and the deque keeps the last 2000 durations |
| Metrics.RecentExactly | backend/app/core/observability.py:19 | a deque holds the last 2000 durations in order |
| Metrics.CountIsSize | backend/app/core/observability.py:57 | the count of some keys is the number of log positions with them |
| Metrics.MaxInExactly | backend/app/core/observability.py:60 | the maximum is the longest duration, or 0 |
| Metrics.ErrorsOnIsSize | backend/app/core/observability.py:197-198 | the errors of a path are its log positions whose status is in the five hundreds |
| Metrics.SumsAreAny | backend/app/core/observability.py:176-198 | summing the paths' counts counts each log entry once |
| Metrics.JobRegistry.constructor | backend/app/core/observability.py:21-23 | empty counters are the folds of the empty log |
| Metrics.JobRegistry.ObserveWorkerJob | backend/app/core/observability.py:64-69 | a job adds one to both counts of its worker and status and its duration to the sum; all three stay folds of the log |
| Metrics.JobRegistry.BuildWorkerRows | backend/app/core/observability.py:256-264 | raises exactly if some job has status `worker`; otherwise every row is a fold of the log |
| Metrics.WorkerTotalExactly | backend/app/core/observability.py:263-264 | a worker's total is its number of jobs if and only if none has status `total` |
| Metrics.JobCountsAreSizes | backend/app/core/observability.py:67 | job counts are numbers of log positions |
| SupportAccess.Service.Create | backend/app/domains/admin/service.py:168-210 | each rejection, changing nothing, or a session open for the requested minutes, stored as returned |
| SupportAccess.Service.End | backend/app/domains/admin/service.py:221-256 | each rejection; ends only an active session before its expiry and stores it ended as of now; finished sessions never change |
| SupportAccess.StripExactly | backend/app/domains/admin/service.py:222 | the reason is the text without the whitespace at both ends, and nothing else |
| SupportAccess.SpaceCodes | backend/app/domains/admin/service.py:175 | what counts as whitespace in a reason, beside `Text.BlankCodes` |
| Text.BlankCodes | backend/app/domains/admin/service.py:175 | the code points of the whitespace that Python and JavaScript agree on |
| SupportAccess.Service.Resolve | backend/app/domains/admin/service.py:258-275 | resolves exactly for the creator, while active, strictly before the expiry, so within 60 minutes of creation |
| SupportAccess.Service.ListActive | backend/app/domains/admin/service.py:212-219 | expires exactly the stale sessions and lists exactly the open ones, each once, newest first |
| SupportAccess.Service.ExpireStale | backend/app/domains/admin/service.py:283-298 | the loop expires every stale session, setting `ended_at` only where unset, and touches no other |
| SupportAccess.ExpiredSound | backend/app/domains/admin/service.py:283-298 | after stale sessions expire, `ended_at` is set exactly on finished sessions and every active one is still open |
| SupportAccess.RunEvolves | backend/app/domains/admin/service.py:168-298 | over every run, ended and expired are final, and who, where, why and until when never change |
| SupportAccess.ResolvesOnlyWhileOpen | backend/app/core/database.py:90-97 | whatever calls follow and whether rejected ones keep their writes, a session that resolves later was active, its creator's and unexpired before |
| SupportAccess.HistorySound | backend/app/domains/admin/service.py:168-298 | after any history on a clock that never goes back, `ended_at` is set exactly on sessions that are not active, ends come before and expiries not before `expires_at`, and no session is open for more than 60 minutes |
| SupportAccess.ResolvesWithinAnHour | backend/app/domains/admin/service.py:258-275 | after any such history a session resolves only within 60 minutes of its creation |
| SupportOverlap.OverlapStaysFinished | backend/app/domains/admin/service.py:221-298 | however calls overlap, the terms of a session never change and a finished one is never active again |
| SupportOverlap.StepExactly | backend/app/core/database.py:90-97 | a commit writes what the call changed over whatever is there by then, and a rollback leaves nothing |
| SupportOverlap.OverlapSound | backend/app/domains/admin/service.py:168-298 | however calls overlap, `ended_at` is set exactly on sessions that are not active, and none is open for more than 60 minutes |
| SupportOverlap.LateEndOverwrites | backend/app/domains/admin/service.py:226-242 | a concrete overlap in which an end overwrites a committed expiry |
| SupportOverlap.FinalityExactly | backend/app/domains/admin/service.py:221-298 | status and `ended_at` of finished sessions are final in every run if and only if at most one transaction is open at a time |
| AzureResource.PartsOfPrintExactly | frontend/src/utils/azureResource.ts:11-14 | trimming and splitting a printed id gives its components back if and only if the last one does not end in whitespace |
| AzureResource.KeywordPositions | frontend/src/utils/azureResource.ts:15-17 | where the three keywords are found in a printed id, whatever the components |
| AzureResource.RoundTripExactly | frontend/src/utils/azureResource.ts:9-38 | parsing a printed id recovers all components if and only if none is taken for a keyword and the name does not end in whitespace |
| AzureResource.ParseExactly | frontend/src/utils/azureResource.ts:12-37 | for any id, the components around the first occurrences of the keywords, and nothing if the trimmed id does not begin with a slash or what must follow a keyword is missing |
| AzureResource.MissingKeyword | frontend/src/utils/azureResource.ts:19 | nothing is answered when a keyword is missing |
| AzureResource.AnyCasing | frontend/src/utils/azureResource.ts:15-17 | keywords in any casing parse alike |
| AzureResource.LowerExactly | frontend/src/utils/azureResource.ts:15 | lower-casing moves the capital letters and nothing else |
| AzureResource.DoubleSlashIgnored | frontend/src/utils/azureResource.ts:14 | an empty component counts for nothing |
| AzureResource.LeadingSpaceLost | frontend/src/utils/azureResource.ts:11 | whitespace before an id is lost |
| AzureResource.SpaceCodes | frontend/src/utils/azureResource.ts:11 | what counts as whitespace around an id, beside `Text.BlankCodes` |
| AzureResource.ParsedComponents | frontend/src/utils/azureResource.ts:14-29 | whatever the id, all parsed fields are non-empty and free of slashes, but for a type path that may be empty |
| AzureResource.RejoinExactly | backend/scripts/seed_demo.py:579-583 | re-joining the parsed fields gives a printed id back if and only if the parse recovered every component |
| AzureResource.TrailingSpaceLost | frontend/src/utils/azureResource.ts:11 | whitespace after a name is lost |

## Left out

- Failures of Redis: the fail-open branches of the limiter and of the idempotency helpers, and `DisabledRedis`.
- Float noise in weights, durations and percentages; the model computes exactly and rounds as the source does.
- One clock: checks, expiries and schedule locks read one non-decreasing clock, while the source mixes application and Redis clocks.
- The fields of queue payloads and their JSON and UUID parsing: a payload is a text, and which texts name a job is a parameter.
- The work of a job (ingestion, scoring, export building), the downstream pushes after an ingestion, the backoff sleep of the carbon worker, and a crash in the middle of a job; dead-letter writes succeed.
- Statuses of export jobs and the reset of stuck ones, which does not push to the queue, so nothing is said about their liveness.
- The process gate of the ingestion loop and its renewal.
- Workers of the queues as classes with fields: `JobBroker` models them as a state machine over values, since many run at once; `RetryQueue.Consumer` has the state of one.
- User anonymisation, audit events, workspace lifecycle and pagination.
- Gateway.RunBucketCounts: for rule lists that name no key twice, as the middleware builds them; what a list with a repeated key charges is in `Gateway.RunChargesExactlyPassed`.
- Extraction of addresses, organisations and emails into keys, origin checks and security headers; header times are in ticks.
- Hash and cipher strength: a fingerprint is a text, a Fernet token an opaque symbol that only its key opens.
- Keyring.Table.Encrypt: a table used by one transaction at a time; overlapping ones are in `KeyringOverlap`, where a transaction that waits for another's uncommitted version and then fails is one that aborts.
- Keyring.Table.Decrypt: numerals of more than 4300 digits, which Python refuses, and numbers beyond the database's integer range; both fail there too, with another error than a missing key.
- Idempotency.Connection.PrepareRequest: values other clients write between two commands are a parameter; the JSON round trip of an envelope is taken as exact.
- The queries that choose recipients; they are a parameter, distinct by the unique preference of each user. What email and Slack do with a dispatch.
- Outbox.Worker.DispatchBatch: a worker's own transaction; other transactions interleave in the state machine only.
- Path sanitising, the upper-casing of methods and the text of status codes; ordering and the cut to 25 rows, alerts, lifecycle rows and the metrics text of the snapshot; the error rate of a worker row.
- Dates in the process's local time zone: days are those of one time zone.
- SupportAccess.Service.Create: the creation time is the call's own clock reading, while the database stamps its own.
- The route that ends a session belongs to any administrator; who may call is not part of this model.
- Lower-casing of non-ASCII letters in resource ids; none of them turns a text into one of the three keywords.
