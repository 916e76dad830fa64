# The job queue, modelled and proved

A Dafny model of a job queue in which workers lease jobs from two PostgreSQL tables, `jobs` and
`workers`, and a reaper takes back the jobs whose leases have lapsed. `dafny verify dfyconfig.toml`
checks every proof.

The model has three layers.

- **The machine** (`Schema`, `Machine`). One event for each effect a committed transaction has on the
  tables; a run is a sequence of events, each enabled where it happens. An event carries its own time,
  because `now()` is fixed when a transaction begins and the transaction may commit later. About all
  runs: the row and cross-table invariants (`Invariants`), the lifecycle grammar, termination and what
  each row records (`History`), conservation of attempts (`Conservation`), single dispatch and
  no starvation (`Dispatch`), exact sweeps and bounded recovery (`Recovery`), replays and stale workers
  (`Calls`).
- **The interleaving** (`Locks`). Transactions of several statements, with row locks, waiting and
  re-checking, buffered writes and rollback anywhere; the claim and the sweep scan a snapshot row by
  row and skip what is locked or has changed since. Every interleaving commits a run of the machine
  (`Refinement`), so what is proved of all runs holds of every interleaving; each event is traced to the
  call and the moment it comes from (`Origins`), and no interleaving deadlocks (`Deadlock`). `NoStarvation` and `BoundedRecovery` are about runs whose claims and sweeps find no row
  locked, which an interleaving's need not be; what claims and sweeps choose under contention, and the
  two theorems in the form that holds of every interleaving, are in `Contention` and
  `ContendedRecovery`. The rules for locks are those of
  PostgreSQL 16, sections 13.2.1 and 13.3.2 of its manual, "The Locking Clause" of its SELECT page, and
  section 9.9.5 for `now()`.
- **The programs**. The store as an object that updates its tables (`Store`), the benchmark that drains
  it and a worker's report with its retries (`Clients`), the worker loop composed with the store
  (`Fencing`), renewal against the clock (`LeaseTiming`), retry delays in 64-bit arithmetic (`Backoff`),
  and the capture of a command's output (`OutputCapture`).

Where the code and its own text disagree, the model follows the code:

- The delay is documented as base * 2^(attempt-1) up to a ceiling (docs/DESIGN.md:37-38). For some
  configurations the product wraps to a small positive number that the clamp does not catch.
  `ExactIffSound` says exactly for which, and `MonotoneIffNoWrap` exactly when a further failure can
  shorten the wait; `UnsoundConfiguration` is one; the defaults are fine.
- A comment says two renewals in a row can fail before the lease lapses
  (internal/worker/worker.go:163-164). Two cannot, unless requests take no time. One can, if the failing
  request does not hold the synchronous loop too long: the exact condition is interval +
  misses * max(interval, hold) + 2 * latency <= lease (`SafeIffNeverReaped`, `ToleratedMisses`). With the
  shipped 30 s lease and 15 s client timeout, one failure is survived exactly when requests are answered
  within 2.5 s (`ShippedTiming`). A worker that asks for three times the longest lease or more loses
  its jobs even if every renewal succeeds (`OverlongLeaseIsUnsafe`).
- A late report is said to get a conflict (docs/DESIGN.md:80). A late failure report is told success
  while the job is waiting again, whoever sends it; it changes nothing (`UnownedFailReply`).
- A worker's late completion is said not to overwrite another attempt's result. That holds against other
  workers; under the same worker id it can land on a later attempt (`LateReport`,
  `LateReportLandsOnLaterAttempt`), unless the worker's calls are sequential (`AttemptFencing`).
- The documented reaper query has no order (docs/DESIGN.md:49-53); the code sweeps the oldest leases
  first, and `BoundedRecovery` depends on it.

## Model

| member | source | states |
|---|---|---|
| Backoff.Delay | internal/jobs/job.go:139-161 | for every configuration and attempt count, even after wrap-around, the wait is positive and at most the ceiling in force |
| Backoff.ExactIffSound | internal/jobs/job.go:151-160 | the wait is base * 2^(attempt-1) capped, at every attempt, if and only if the ceiling is within 40 doublings and none of the 40 shifts leaves low bits that read as a positive wait under the ceiling |
| Backoff.DivisibleBaseIsSound | internal/jobs/job.go:143-160 | closed-form sufficient test: 2^v divides base, base * max < 2^(63+v), max <= base * 2^40 |
| Backoff.DefaultIsExact | internal/jobs/job.go:132-135 | the default configuration waits min(2^(attempt-1) s, 5 min) at every attempt, and so does one left unset |
| Backoff.MonotoneIffNoWrap | internal/jobs/job.go:123-160 | a further failure never shortens the wait, at any two attempt counts, if and only if none of the 40 shifts wraps to a positive wait under the ceiling |
| Backoff.UnsoundConfiguration | internal/jobs/job.go:156-160 | base 2^25+1 ns, ceiling 600 s: attempt 39 waits 600 s and attempt 40 only 2^39 ns |
| OutputCapture.BoundedBuffer.Write | internal/worker/executor.go:46-59 | the buffer accounts for old contents followed by the chunk and always reports a full write |
| OutputCapture.BoundedBuffer.Text | internal/worker/executor.go:62-69 | the text is everything written, or its first bytes and a note with the true total |
| OutputCapture.DecimalDenotes | internal/worker/executor.go:66 | the total in that note is the byte count in base ten: digits only, no leading zero, the right value |
| OutputCapture.CaptureAndStore | internal/worker/executor.go:106-116 | for every chunking, what is sent is the whole output up to 32768 bytes, else its first 32768 bytes and the note; and what is stored is the whole output up to 32768 bytes, else its first 32768 bytes and the server's marker |
| OutputCapture.TruncateCaptured | internal/jobs/store.go:231-236 | truncating what the worker captured equals truncating the whole output: the worker's own note never survives |
| OutputCapture.TruncateIdempotent | internal/jobs/store.go:226-236 | truncating keeps up to 32768 bytes and marks the rest; doing it twice is doing it once, and the result has at most 32783 bytes |
| Invariants.StepKeepsInv | internal/jobs/store.go:139-144 | every event, at whatever time it is stamped, keeps the row and cross-table invariants |
| Invariants.ReachableInv | internal/jobs/job.go:14-34 | in every reachable state: a lease exactly while RUNNING; no owner and attempts to spare while PENDING or CANCELED; an owner and 1..max attempts while RUNNING or COMPLETED; an owner and exactly max attempts when FAILED; running jobs have registered owners; a worker's current job runs under it |
| Invariants.OneCurrentWorkerPerJob | internal/jobs/store.go:462-468 | no job is the current job of two workers, in any reachable state |
| Invariants.RowsPersist | internal/jobs/store.go:22-26 | no run deletes a job, rewrites what was ordered, or lowers its attempt counter |
| History.JobLifecycle | docs/DESIGN.md:5-27 | each job's events form (claim renew* requeue)* and at most one ending, the ending matches its status, and attempts equals the number of claims |
| History.StatusChangesBounded | internal/jobs/store.go:324-329 | in any continuation a job changes status at most as often as its fuel allows, at most 2 * max_attempts times |
| History.StepBurnsFuel | internal/jobs/store.go:450-456 | the measure strictly drops on every status change and never rises |
| History.TerminalForever | docs/DESIGN.md:23-24 | a COMPLETED, FAILED or CANCELED row never changes in any column, and no later event names it |
| History.RowRecordsLastEvent | internal/jobs/store.go:249-253 | every column is what the last event on the job wrote or what stood there before: stdout, stderr and error each from the report's own, whole up to 32768 bytes; exit code and duration as reported; claims, renewals and cancels leave result, error and retry time alone; a reaped row names the worker that stopped reporting |
| History.WorkerColumns | internal/jobs/store.go:483-514 | every column of a worker's row as a function of the events alone: processed counts effective reports across re-registrations, last_heartbeat is its own last call, current_job_id its standing assignment |
| Conservation.AttemptsConserved | internal/jobs/store.go:272-279 | over every run: sum of attempts = sum of jobs_processed + attempts reaped + jobs running |
| Conservation.StepBalance | internal/jobs/store.go:442-469 | only a reap unbalances the books, by exactly one |
| Dispatch.NextClaimExists | internal/jobs/store.go:145-151 | a claim comes back empty only when no unlocked job is claimable |
| Dispatch.NoDoubleDispatch | internal/jobs/store.go:123-136 | between two claims of the same job it was failed or reaped |
| Dispatch.StepKeepsPlace | internal/jobs/store.go:145-151 | new jobs and retries begun once a job is available line up behind it, transactions of other kinds begun at any time leave its place alone, and a claim that finds nothing locked and does not take it takes one ahead of it |
| Dispatch.NoStarvation | internal/jobs/store.go:148-150 | an available job is claimed or canceled within one more uncontended claim than there are jobs ahead of it, if what enters the queue was begun once it was available, and whenever everything else was begun |
| Recovery.SweepEffect | internal/jobs/store.go:442-470 | a sweep is a run of the machine that rewrites exactly the picked jobs and frees exactly the workers whose current job was picked |
| Recovery.PickSize | internal/jobs/store.go:412-416 | with any rows locked, the query returns min(batch, expired rows not locked) |
| Recovery.SweepExact | internal/jobs/store.go:412-456 | one sweep takes min(batch, expired) jobs, sends each to PENDING or FAILED by its attempts with a positive bounded delay, leaves attempts alone, and touches no unexpired lease |
| Recovery.SweepPickExists | internal/jobs/store.go:412-416 | the sweep's query has an answer whatever is locked |
| Recovery.BoundedRecovery | internal/jobs/store.go:397-405 | an expired lease, with n leases no later than it, is reaped once the sweeps have had room for n jobs, unless its worker came back first; leases granted meanwhile, by transactions begun at any time, need only run out later |
| Recovery.RecoveryTime | internal/api/server.go:142-154 | in every reachable state a job is terminal, or claimable after the largest backoff, or expired after the longest lease |
| Recovery.ClampedLease | internal/api/server.go:142-154 | no request obtains more than the longest configured lease; over real-number seconds one within bounds is granted to the nanosecond, one below is raised to the minimum, one above lowered to the maximum, and zero gets the standard lease |
| Recovery.GrantedAsAsked | internal/api/server.go:146-153 | over real-number seconds, a lease within bounds is granted to the nanosecond |
| Calls.CompletionReplays | internal/jobs/store.go:245-247 | once applied, a completion delivered again at any later point of any run succeeds, shows the same row and changes nothing |
| Calls.CancelReplays | internal/jobs/store.go:377-380 | once canceled, a job canceled again at any later point of any run answers success with the same row and changes nothing |
| Calls.StaleWorkerHarmless | internal/jobs/store.go:240-243 | once a job has left a worker's hands, its reports and renewals change neither table until it claims the job again |
| Calls.UnownedFailReply | internal/jobs/store.go:293-308 | exactly when a failure report without ownership is told success; it never changes anything |
| Calls.UnownedCompleteReply | internal/jobs/store.go:293-308 | a completion without ownership is told success exactly when this worker completed the job already, not found when there is none, and a conflict otherwise; it changes nothing |
| Calls.LateCompletionConflicts | internal/jobs/store.go:240-243 | once a job has been failed or reaped, its old worker's completion gets a conflict at every later point of every run, until it claims the job again |
| Fencing.AttemptFencing | internal/worker/worker.go:155-211 | with sequential workers, every renewal or report that changes a row changes the attempt its worker claimed and holds |
| Fencing.FailDelayExact | internal/jobs/store.go:315-334 | with sequential workers the retry delay is that of the attempt being failed, although it is computed from an earlier read |
| Fencing.LateReport | internal/jobs/store.go:334-335 | without that assumption a late report lands on a later attempt exactly when the same worker id has claimed the job since |
| Fencing.LateReportLandsOnLaterAttempt | internal/jobs/store.go:253-254 | a run in which the completion of attempt 1 is accepted as that of attempt 2 |
| LeaseTiming.SafeIffNeverReaped | internal/worker/worker.go:214-243 | with the synchronous loop, its ticker that buffers one tick, answers within the latency and failures that hold the loop for at most hold: from some reachable state a sweep can take a job under execution if and only if interval + misses * max(interval, hold) + 2 * latency exceeds the lease granted |
| LeaseTiming.CoveredThroughout | internal/worker/worker.go:163-169 | in a safe timing, however the requests are spaced within those bounds, the lease is never behind the clock and the job keeps its owner and attempt, whatever others do |
| LeaseTiming.SendsFollowTicks | internal/worker/worker.go:214-243 | over every run of the loop, the next renewal is sent on the first tick after the previous one was sent, or as soon as that one is over if the tick has passed by then |
| LeaseTiming.FirstSend | internal/worker/worker.go:214-222 | the first renewal is sent a third of the lease asked for after the claim was answered |
| LeaseTiming.MissesInRow | internal/worker/worker.go:221-240 | failures are counted since the last answered renewal, never exceed the number allowed in a row, and a renewal may fail exactly while they are fewer |
| LeaseTiming.ToleratedMisses | internal/worker/worker.go:163-164 | in the model's whole nanoseconds: one failure that is over by the next tick is harmless up to a latency of a sixth of the lease; two in a row are safe only if twice the latency is at most lease mod 3 ns; one that holds the loop for more than two thirds of the lease is never safe |
| LeaseTiming.ShippedTiming | internal/worker/client.go:30-36 | 30 s lease, 15 s client timeout: one failed renewal is survived exactly when twice the latency is at most 5 s, two in a row never |
| LeaseTiming.OverlongLeaseIsUnsafe | internal/api/server.go:150-152 | asking for three times the longest lease or more is unsafe even with no failed renewal |
| Refinement.CommitIsRun | internal/jobs/store.go:48-58 | what a transaction makes visible at commit is the effect of its events on the tables as they then are |
| Refinement.InterleavingsRefineRuns | internal/jobs/store.go:137-188 | for every interleaving, with snapshots older than locks and rollback anywhere, the committed tables are those of a run of the machine, in commit order |
| Origins.EventOrigin | internal/jobs/store.go:48-58 | in every interleaving each committed event is, argument by argument, the effect of the call that opened its transaction; its time is the clock at the step where the transaction began; and a failure's attempt count is the job's committed count at the step that read it |
| Origins.FailureDelay | internal/jobs/store.go:315-334 | in every interleaving the retry delay is that of the attempts being failed less the claims of the job committed between the read and the failure, so the attempt's own delay when there are none |
| Origins.AnsweredEmpty | internal/jobs/store.go:153-160 | in every interleaving a call that ends without effect matches no row of the tables as committed then, and a claim told there is nothing has been past every claimable job its query saw |
| Refinement.NoRowHeldTwice | internal/jobs/store.go:125-132 | no two open transactions hold the same job or worker row |
| Refinement.OneWorkerAtATime | internal/jobs/store.go:123-132 | in every interleaving a job is not handed out again before a failure report or a sweep has put it back |
| Refinement.SkippedJobIsLeaving | internal/jobs/store.go:145-151 | a claim passes over a job its query saw only if the job has stopped being claimable since, or another transaction holds it and is about to commit it as RUNNING or CANCELED |
| Contention.ChosenInOrder | internal/jobs/store.go:145-151 | in every interleaving, what a claim holds is the first of what its query saw and what a sweep holds the oldest leases it saw, but for rows it looked at, one by one, and could not have; and what it holds still qualifies |
| Contention.SweepSize | internal/jobs/store.go:407-416 | in every interleaving a sweep holds min(batch, or 100 if it is not positive; rows its query saw expired and it did not pass over) |
| Contention.QueryKeepsInView | internal/jobs/store.go:145-151 | a claim or sweep whose query has run keeps an unlocked job in view until it has taken what it wants: it cannot look at a free row that qualifies and leave it |
| Contention.BoundedOvertaking | internal/jobs/store.go:148-151 | while nobody locks a waiting job, the claims that had it in view and took another, committed and still open together, number at most the jobs that were ahead of it |
| Contention.NoStarvationUnderLocks | internal/jobs/store.go:123-136 | in every interleaving, once more claims than that have overtaken the job, some transaction was taking it: it held the row and would commit it as RUNNING or CANCELED |
| ContendedRecovery.TakenAreOlder | internal/jobs/store.go:412-416 | what a sweep takes before a job it saw expired has leases no later than that job's, and if it ends without the job its batch is full |
| ContendedRecovery.BoundedSweeping | internal/jobs/store.go:397-416 | while nobody locks a running job, the rows taken by sweeps that saw its lease expired, committed and in hand together, are fewer than the leases no later than its own |
| ContendedRecovery.BoundedRecoveryUnderLocks | internal/jobs/store.go:397-405 | in every interleaving, once such sweeps have taken as many rows as there are leases no later than the job's, someone has locked the job: its worker or a sweep |
| Refinement.TwoPhaseFail | internal/jobs/store.go:315-334 | in every interleaving the attempt count read before the failure's transaction is at most the one failed, so unless the backoff wraps the retry never waits longer than that attempt's own delay |
| Deadlock.WaitingDescends | internal/jobs/store.go:168-170 | whoever is waited for has a lower rank: job rows before worker rows, and two sweeps never want the same worker |
| Deadlock.RunsOrWaits | internal/jobs/store.go:412-416 | an open transaction can go on unless it matches a row another has locked |
| Deadlock.NoDeadlock | internal/jobs/store.go:463-465 | in every reachable state waiting has no cycle, and if any transaction is open some transaction can go on |
| Store.Store.Create | internal/jobs/store.go:65-68 | inserts a PENDING job under the next id, every column as given, or refuses max_attempts below 1 |
| Store.Store.Claim | internal/jobs/store.go:137-188 | hands out the PENDING job first by available_at and id among those available by now, with the lease and owner asked for and one more attempt; "no jobs" exactly when there is none; an unknown worker leaves the tables as they were |
| Store.Store.RenewLease | internal/jobs/store.go:193-211 | the owner's lease ends at now + lease and nothing else changes, and the answer is the new row; otherwise not owned or not found, with nothing changed |
| Store.Store.Complete | internal/jobs/store.go:248-290 | the owner's job is COMPLETED with each result column from the report's own, cut at 32768 bytes, and the worker's count goes up by one; otherwise nothing changes and a replay is resolved |
| Store.Store.Fail | internal/jobs/store.go:314-363 | the owner's job is requeued, or FAILED on its last attempt, available at now + the delay of its attempts, with the report's error and result columns; otherwise nothing changes and a replay is resolved |
| Store.Store.Cancel | internal/jobs/store.go:368-383 | success exactly when the job was PENDING or CANCELED, showing the stored row, now CANCELED; RUNNING, COMPLETED and FAILED jobs are refused with nothing changed |
| Store.Store.FindExpired | internal/jobs/store.go:412-440 | collects the oldest expired leases up to the batch, omitting none that fits |
| Store.Store.ReapExpiredLeases | internal/jobs/store.go:406-474 | takes min(batch, or 100 if it is not positive; expired leases) jobs, the oldest; its effect is one reap for each, every column stated; it reports each job's attempts, new status and old worker; no other row changes |
| Store.Store.RegisterWorker | internal/jobs/store.go:483-496 | inserts the worker or updates it in place, keeping its counter |
| Store.Store.Heartbeat | internal/jobs/store.go:500-514 | stamps a known worker, and does not invent an unknown one |
| Store.Store.ListPending | internal/jobs/store.go:84-117 | the newest waiting jobs up to the limit, newest first, omitting none that fits |
| Clients.ClaimUntilEmpty | cmd/queue-bench/claim.go:49-68 | returns exactly the jobs waiting at the start that became available by the end, in queue order, each once, and leaves nothing claimable |
| Clients.CountDuplicates | cmd/queue-bench/claim.go:216-243 | duplicates + distinct jobs = records; zero duplicates exactly when no job appears twice; each job is kept with its latest claimer |
| Clients.CleanVerdict | cmd/queue-bench/claim.go:361-369 | in every interleaving without lapsed leases or failures, the committed claims are of different jobs |
| Clients.RacingClaimers | cmd/queue-bench/claim.go:163-243 | however claims and seeding of one-attempt jobs follow one another: every waiting or seeded job is waiting or in exactly one record, whose claimer holds it, and nothing else started running |
| Clients.CleanupInAnyOrder | cmd/queue-bench/claim.go:286-318 | the failures land in any order: at every point a recorded job is FAILED if its failure landed and otherwise still its claimer's, and no other job is touched |
| Clients.CancelPending | cmd/queue-bench/claim.go:326-345 | terminates with nothing waiting, having changed only waiting jobs, to CANCELED |
| Clients.Cleanup | cmd/queue-bench/claim.go:286-322 | sent one after another, after a clean run with one attempt per job: no error, every claimed job FAILED with the cleanup's error, nothing waiting, no other job's running state changed |
| Clients.SendReport | internal/worker/worker.go:249-273 | up to four requests of which any may be lost or unanswered, with nobody else acting between them: the tables are as if exactly the first to arrive had run, or unchanged if none did; the pauses are 250 ms doubled after each try |
| Clients.ReportLandsOnce | internal/worker/worker.go:245-273 | deliveries of a worker's reports on a job, interleaved with anything but its own claims of that job, change the tables at most once, and only if it held the job |
| Clients.OneReportPerClaim | internal/jobs/store.go:245-254 | in every interleaving, between two reports of one worker on one job that both took effect the worker claimed the job again |

## Left out

- HTTP routing, JSON, authentication and the mapping of errors to status codes: only the store call that results is modelled.
- `ValidateNew`, `ValidStatus`, `Stats`, `ListWorkers` and unfiltered `List`: they would add easy members.
- Process execution, signals and real timers: execution is a worker holding a job for some time.
- `registerWithRetry`, `heartbeatLoop`, jitter and logging: they do not affect which job runs where.
- Database connection, migrations and server startup; the reaper's ticker is a sweep that may happen at any time.
- Clients.ClaimUntilEmpty: is one claimer alone with the store; racing claimers are in CleanVerdict, RacingClaimers and the interleaving theorems.
- Calls that overlap are modelled on values, in module Locks, not on the object of module Store.
- The worker's `Run`, `process` and `renewLoop` run beside the store, so in Fencing and LeaseTiming they are steps on values rather than loops; `report` is the loop in SendReport.
- Locks.Worked: an update of one row looks at it and locks it in one step, the two updates a sweep makes for one job are one step, and rows scanned with equal lease_until may come in any order.
- Recovery.ClampLease: works over reals; the rounding of float64 seconds and requests too large for an int64 duration are not modelled. Timestamps are kept in nanoseconds, where PostgreSQL rounds to microseconds.
- Dispatch.NoStarvation: is about claims that find no row locked; NoStarvationUnderLocks drops that, and does not count a claim that takes a row which left the queue and came back after its query saw it.
- Recovery.BoundedRecovery: is about sweeps that find no row locked; BoundedRecoveryUnderLocks drops that, and does not count a row that changed after the sweep's query saw it and was expired again when the sweep locked it.
- Clients.Cleanup: sends the failures one after another where the benchmark sends them concurrently; CleanupInAnyOrder covers every order.
- Clients.SendReport: lets nobody act between its tries; ReportLandsOnce and OneReportPerClaim cover everything in between.
- LeaseTiming.SafeIffNeverReaped: a renewal may take effect before it is given up but not after; one that did, stamped with the time it began, could shorten a lease renewed since.
- Output bytes are carried unchanged; UTF-8 and JSON re-encoding are not modelled, nor is an overflow of the 64-bit byte counter.
