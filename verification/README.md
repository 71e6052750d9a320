# Verified model of the runner supervisor

This project models the hard core of the runner supervisor in Dafny 4.11 and proves
what that code relies on: the pool allocator and its reconcile cycle, the tracking of
containers, the job-history recorder, the two wakeup protocols, the login limiter,
the two-clock sessions, the removal journal's paging and the ghost sweep.
`dafny verify dfyconfig.toml` checks everything.

## How it is built

Go methods that update fields, maps or table rows are methods of Dafny classes with the
same fields, branches and loops (`PoolController`, `Reconciler`, `JobStore`, `Recycler`,
`Scheduler`, `LoginRateLimiter`, `SessionStore`, `GhostSweeper`). Each is proved either
against a declarative specification on values or against the promise itself; what holds
over runs is proved about the specification as lemmas, or kept as a class invariant.

| file | what it models |
|---|---|
| `Basics.dfy` | shared types and sequence facts |
| `JobTable.dfy`, `JobRecorder.dfy` | the job_history table with its two unique indexes; the recorder's transactions, statement by statement |
| `JobEffects.dfy` | what each recorder call writes, column by column |
| `JobMerge.dfy`, `JobConvergence.dfy` | laws of the recorder: index safety, closed rows, idempotence, confluence of one job's events |
| `Tracking.dfy` | the reconciler's container table: audits, busy flips, the lifetime anchor |
| `Fleet.dfy` | counting, targets, draining and growing of a pool, as values |
| `Ledger.dfy` | the account of the containers: what entered and left the table, event by event |
| `Queue.dfy`, `QueueRace.dfy` | the fates of queued requests; a queue drain beside unlocked enqueues |
| `Webhook.dfy`, `Removal.dfy` | booked webhook demand; lifetime limits and the ownership gate |
| `Controller.dfy` | the pool controller: every section that holds `provisionMu` |
| `GhostSweep.dfy` | deregistration of orphaned registrations |
| `IdleRecycle.dfy`, `CronLoop.dfy` | the two wakeup protocols as interleaved steps, and the objects whose critical sections are those steps |
| `LoginLimiter.dfy`, `Sessions.dfy` | the login limiter with its durable store; sessions with a sliding and an absolute clock |
| `RemovalPaging.dfy` | reverse scan and keyset paging over the removal journal |

Conventions. Instants and durations are integers; instant 0 is Go's zero time. The engine
and the forge answer arbitrarily (`*`, or parameters such as `userKnown`), so every theorem
holds for every combination of successes, failures and vetoes. What a step loads from the
database (pools, tombstones, settings) is a parameter. The controller keeps a ghost log of
everything it did to the engine and of what its audits found. Its class invariant `Valid`
says that every spawn in the log, from whichever of the four spawning paths, left room under
the pool's cap and under the global quota, and that replaying the log gives the tracked
containers: nobody enters or leaves the table without exactly one entry in the log
(`Ledger.OneRecordEach`). Both hold in every run of these methods in any order. Sections under
`provisionMu` are atomic. The listing of a pool's runners may come in any order.

## What the proofs show beyond the intended behaviour

* A redelivered `in_progress` event deletes the job's row and attaches nothing, because the
  transition row's id is dropped (`JobMerge.StartedKeepsJob` gives the exact condition).
* A `completed` event without a completion time reopens a closed row exactly when it takes one
  of the two upgrade branches and the row's runner slot and the job id are free
  (`JobMerge.UntimedReopens`; `JobMerge.UntimedReopensIdleRunner` is a concrete case).
* When a runner's death is recorded before the `completed` event, the job is counted twice
  exactly when both the poll path and the `queued` event had recorded it, no `in_progress` had
  merged them, and the death was recorded without the job's id, as a crash or an unenriched
  exit is (`JobConvergence.DeathRace`). `JobConvergence.DeathKeepsConclusion` says when the
  forge's conclusion still reaches a row and what the row keeps otherwise.
* An `in_progress` event can forget what is known: the absorbed stub's metadata that neither the
  event nor the runner's row repeats is lost, and a promoted stub takes neither metadata nor a
  queue time from the event (`JobEffects.StartedForgets` is the exact condition,
  `JobEffects.WorkflowForgotten` a concrete case).
* A `queued` event is refused exactly when the job's row is closed already (the upsert returns
  no row); the table is unchanged (`JobMerge.QueuedRefused`).
* Polled demand that idle runners cover does not raise the target, so a polling cycle may drain
  the very standbys that cover it: exactly when the pool has something to drain without it
  (`Fleet.IdleCanGo`; `Fleet.CoveredStandbyDrained` is a concrete case).
* All requests that a cycle queues at the global quota beyond the polled demand are for one and
  the same target, because the round robin goes by the number of runners (`Fleet.QueuedForOneTarget`).
* The forge's veto of an idle drain does not always keep the runner alive, as
  docs/03-lifecycle-and-orchestration.md promises: runners that the cap branch of a cycle leaves
  are asked about again by the second branch, and any other answer then, an API error included,
  removes the runner although its entry says busy by now. This can happen exactly when the pool
  is above its cap and the second branch has something to drain (`Fleet.VetoCanBeRetried`;
  `Fleet.VetoedRunnerIsRemoved` is a concrete case).
* A request that the unlocked fast path of a webhook enqueues while the queue is being drained
  is overwritten when the drain publishes what it kept (`QueueRace.LostIffOverwritten`).
* A recycle pass cut short by its timeout is not run again by the worker; what it left is up to
  later reconcile ticks (`IdleRecycle.CutShort`; `IdleRecycle.ServedUnlessCut` says when all is served).
* Following the cursor skips records exactly when a page boundary separates two removals of one
  instant (`RemovalPaging.FollowReturnsAll`, `RemovalPaging.SplitLoses`).
* Auditing a container whose name now resolves to another pool tracks it twice
  (`Tracking.DoubleTracked`).
* A registration passes over a fire that is due but not started when the job has no last run, and
  a schedule that never fires again counts as missed at every registration
  (`CronLoop.FirePassedOver` is exact, `CronLoop.NeverRunLosesFire` a concrete case,
  `CronLoop.RegistrationDue` says what counts as missed).
* The cron loop does not always skip overlapping runs as its log line says: registering a
  job again replaces its entry together with the flag that a run is in flight, so an ordinary
  later fire starts a second task even if no fire was missed (`CronLoop.SkippingOverlaps`).
  Tasks of a pool never overlap as long as it is not registered while one of them is in flight
  (`CronLoop.OneTaskUnlessReregistered`).
* The queue is drained by pool name. After a pool was renamed its queued requests are dropped
  although the pool exists, and a pool that took over the name is served in its place
  (`Queue.RenamedIsDropped`, `Queue.TakenNameIsServed`; `Queue.FateByName` is the exact condition).
* Booked jobs count for the whole pool and warm runners per target, so with several targets more
  than the shortfall is spawned: exactly when a target's spare warm runners are outnumbered by
  the bookings of the other targets (`Webhook.SpawnsBeyondShortfall`, `Webhook.WarmPairSpawnsThird`).
* A refused session is accepted again when deleting its row failed and the clock reading falls
  back into the session (`Sessions.RefusalRevoked`).
* A login lock can end before the reported instant, when failures age out of the window first
  (`LoginLimiter.StaysLockedUntilReported`, `LoginLimiter.LockEndsEarly`); a reset whose delete
  is lost locks the key again at the next restart (`LoginLimiter.LostResetLocksAgain`).
* The comment on `RecycleIdleRunners` says that failed terminations stay tracked; the code
  untracks the runner whatever the engine answers, and so does the model.
* The break at the per-pool cap inside the reconcile spawn loop never triggers: the target
  is capped before, so a cycle that spawns ends exactly on target.

## Model

| member | source | states |
|---|---|---|
| JobRecorder.PutUnique | internal/db/migrations/005_job_history_open_job_id_index.sql:8-10 | writing a single row keeps both unique indexes exactly if no other row has its job id and no other open row its runner slot |
| JobRecorder.ClosedUnique | internal/db/job_history.sql.go:82-112 | closing a runner's open row and stamping an id violates an index exactly if another row already carries that id |
| JobRecorder.StampFree | internal/db/job_history.sql.go:117-146 | when the enriching close may stamp the job id without clashing |
| JobRecorder.JobStore.Exec | internal/db/migrations/004_job_history_lifecycle.sql:36-41 | a statement succeeds exactly if its result satisfies both unique indexes, and otherwise changes nothing |
| JobRecorder.JobStore.OpenTransitionJob | internal/db/db.go:222-238 | busy observed: one open row for the runner, kept if it is there already |
| JobRecorder.JobStore.CloseTransitionJob | internal/db/db.go:243-263 | idle observed: the runner's open row is closed with status, id and log path, or nothing changes when the id clashes |
| JobRecorder.JobStore.RecordJobTimeout | internal/db/db.go:205-217 | the timed-out runner's open row is closed as timeout |
| JobRecorder.JobStore.CloseInterruptedOpenJobs | internal/db/db.go:269-304 | row by row, exactly the open rows of runners not kept are closed as interrupted, and their number is returned |
| JobRecorder.JobStore.CloseStaleOpenJobs | internal/db/db.go:309-320 | exactly the pool's open rows started before the cutoff are closed |
| JobRecorder.JobStore.RecordWebhookQueued | internal/db/db.go:333-352 | a queued event inserts a stub, refreshes an open row's metadata, or fails on a closed row |
| JobRecorder.JobStore.AttachWebhookToTransition | internal/db/job_history.sql.go:14-43 | the runner's open row receives the job's identity unless that would duplicate a job id |
| JobRecorder.JobStore.RecordWebhookStarted | internal/db/db.go:357-426 | absorb, promote, attach or insert, each statement within the indexes, rolled back as a whole on failure |
| JobRecorder.JobStore.RecordWebhookCompleted | internal/db/db.go:448-533 | closes by id, else by runner, else upgrades a closed row, as one transaction |
| JobRecorder.JobStore.CloseOpenRowByRunnerEnrichJobID | internal/db/job_history.sql.go:117-146 | only the runner's open row without an id is closed and given the id |
| JobRecorder.JobStore.UpgradeClosedJobRowConclusion | internal/db/job_history.sql.go:923-953 | only a row closed as completed takes the forge's conclusion |
| JobRecorder.JobStore.UpgradeLatest | internal/db/job_history.sql.go:956-993 | only the runner's latest closed row without an id is upgraded |
| JobEffects.OpenWrites | internal/db/db.go:222-238 | busy observed: the runner has one open row, and a new one is running, without a job, from the given instant; nothing else is written |
| JobEffects.CloseWrites | internal/db/db.go:243-263 | an accepted close gives the runner's open row status, log path, time and a positive job id, keeps its other columns, and writes nothing else |
| JobEffects.TimeoutWrites | internal/db/db.go:205-217 | the timed-out runner's open row is closed as timeout and keeps its id; nothing else is written |
| JobEffects.InterruptWrites | internal/db/db.go:269-304 | boot recovery closes exactly the open rows of runners that are not kept |
| JobEffects.StaleWrites | internal/db/db.go:309-320 | the stale check closes exactly the pool's open rows that started before the cutoff |
| JobEffects.QueuedWrites | internal/db/db.go:333-352 | an accepted queued event leaves the job one open row: a queued stub, or the old row with its first queue time, its runner and status, and the newest metadata |
| JobEffects.StartedWrites | internal/db/db.go:357-426 | an accepted in_progress that is no redelivery leaves the job exactly one row, running on that runner, with the first known start; which queue time and metadata it has; only the absorbed stub goes and no other row is written |
| JobEffects.StartedForgets | internal/db/db.go:381-405 | it forgets nothing known about the job if and only if an absorbed stub's metadata is repeated by the event or the runner's row, and a promoted stub knew all the event says |
| JobEffects.WorkflowForgotten | internal/db/db.go:388-397 | the concrete loss: the stub's workflow name is gone after it was absorbed |
| JobEffects.CompletedDeletes | internal/db/db.go:448-533 | a completed event deletes a row if and only if it is an open row of the runner without a job and the job's own row was open |
| JobEffects.CompletedWrites | internal/db/db.go:448-533 | it writes at most the row that takes the conclusion, which gets status and time, an id if it had none, and a runner if it was an open stub |
| JobEffects.UpgradesNewest | internal/db/job_history.sql.go:956-993 | of several closed rows of the runner without a job the newest takes the conclusion |
| JobMerge.KeepsIndexes | internal/db/db.go:205-533 | every recorder call keeps one row per job id and one open row per pool and runner |
| JobMerge.RunKeepsIndexes | internal/db/db.go:205-533 | the same over every sequence of recorder calls |
| JobMerge.AbsorbFree | internal/db/db.go:357-426 | deleting the stub and then attaching is within both indexes after each statement; attaching first never is |
| JobMerge.StartedKeepsJob | internal/db/db.go:357-426 | an accepted in_progress leaves the job an open row if and only if the stub is not the runner's own open row |
| JobMerge.RedeliveryLosesJob | internal/db/db.go:370-397 | the concrete failing case: two identical in_progress events lose the job |
| JobMerge.ClosedStaysClosed | internal/db/db.go:448-533 | with a completion time no call deletes or reopens a closed row, or changes a status other than completed |
| JobMerge.RunClosedStaysClosed | internal/db/db.go:205-533 | the same over every sequence of calls |
| JobMerge.UntimedReopens | internal/db/db.go:455-533 | a completed event reopens a closed row if and only if it has no time, takes an upgrade branch, and the upgraded row's slot and the id to stamp are free |
| JobMerge.UntimedReopensIdleRunner | internal/db/db.go:455-533 | the concrete failing case: a runner was busy and idle, and an untimed completed event reopens its row |
| JobMerge.OpenBranchesKeepClosed | internal/db/db.go:455-533 | an untimed event alters no closed row under any other condition |
| JobMerge.CompletedTwice | internal/db/db.go:448-533 | delivering the same completed event twice leaves the table of delivering it once |
| JobMerge.QueuedRefused | internal/db/db.go:333-352 | a queued event is refused if and only if it carries a job id whose row is closed; then nothing changes |
| JobConvergence.EventsShape | internal/db/db.go:222-426 | which rows one job has, and whether they are queued or running, is decided by which kinds of events were recorded, not by their order or repetition |
| JobConvergence.EventsConverge | internal/db/db.go:222-533 | every ordering of poll-open, queued and in_progress followed by completed ends with exactly one row of the job, with its runner, id, conclusion and time, all other rows untouched |
| JobConvergence.DeathRace | internal/orchestrator/controller.go:1102-1128 | with the runner's death recorded before completed, under whatever status and with or without the job's id, the job ends as one row if and only if not (poll and queued event had both recorded it, no in_progress had, and the death carried no id) |
| JobConvergence.CrashCountsTwice | internal/orchestrator/controller.go:1102-1128 | the concrete case: busy observed, queued event, crash, completed event leave other than one row |
| JobConvergence.DeathKeepsConclusion | internal/orchestrator/controller.go:1102-1128 | the forge's conclusion reaches a row if the death was recorded as completed or a queued stub was unmerged; otherwise the one row keeps the death's status and instant, and the id only if something had recorded it |
| Tracking.Reconciler.Audit | internal/orchestrator/auditor.go:77-173 | merges the listing into the table row by row, reports active, exited, disappeared and adopted containers (each adopted one once), and forgets what is gone |
| Tracking.Reconciler.TrackedPoolRunners | internal/orchestrator/auditor.go:176-200 | exactly the pool's entries, each once |
| Tracking.Reconciler.TrackedJobKeys | internal/orchestrator/auditor.go:205-221 | exactly the named containers of resolved pools |
| Tracking.Reconciler.MarkRunnerBusy | internal/orchestrator/auditor.go:256-272 | one match at most takes the flag; the anchor is set once |
| Tracking.Reconciler.UntrackRunner | internal/orchestrator/auditor.go:237-247 | removes exactly that entry |
| Tracking.AuditMirrorsHost | internal/orchestrator/auditor.go:93-164 | after an audit with a stable resolver the table tracks exactly the listed containers, each once |
| Tracking.AuditRemembers | internal/orchestrator/auditor.go:111-144 | an audit takes no busy or on-demand flag, and no anchor, spawn instant or forge id that the row does not replace, from a container that is still listed |
| Tracking.FlagIsLastFlip | internal/orchestrator/auditor.go:77-272 | over every run a tracked container is busy if and only if the last flip that hit it said so, however many audits came after; spawn instant, on-demand flag and forge id stay unless a listing says otherwise |
| Tracking.DeadAreListed | internal/orchestrator/auditor.go:146-150 | the containers reported as exited are those of the listed rows that do not run |
| Tracking.StepKeepsInv | internal/orchestrator/auditor.go:77-272 | audit, track, untrack and busy flips keep one bucket per container, busy implies anchored, and no anchor of a tracked container moves |
| Tracking.EveryRunAnchored | internal/orchestrator/auditor.go:77-272 | the invariant over every run |
| Tracking.OneBucket | internal/orchestrator/auditor.go:77-272 | under it no container is tracked under two pools |
| Tracking.AnchorNeverMoves | internal/orchestrator/auditor.go:249-272 | while a container stays tracked its busy anchor never changes, however often the listing flaps |
| Tracking.LifetimeCountsFromFirstBusy | internal/orchestrator/controller.go:706-732 | after any run the lifetime switch fires on a runner if and only if it is running, busy and past the limit since it was first marked busy |
| Tracking.AdoptedCountsFromSpawn | internal/orchestrator/auditor.go:124-135 | an adopted running container counts from its spawn instead |
| Tracking.DoubleTracked | internal/orchestrator/auditor.go:96-109 | a tracked container is put into a second bucket if and only if its row now resolves to another pool |
| Fleet.DemandQueueCovers | internal/orchestrator/controller.go:1913-1934 | idle runners of a target plus its entries in the demand queue reach its polled demand |
| Fleet.DemandQueueIs | internal/orchestrator/controller.go:1924-1934 | the demand queue holds exactly the shortfall of each target, once per listing of the target |
| Fleet.PolledIs | internal/orchestrator/controller.go:1886-1909 | a target's demand is its last answer, and a target without an answer has none |
| Fleet.TargetMeets | internal/orchestrator/controller.go:1859-1951 | the effective target is the least number that meets min_idle on top of the busy runners and the uncovered demand on top of all runners, cut only by the cap |
| Fleet.CountOnIdle | internal/orchestrator/controller.go:1916-1921 | counting the idle list by target gives the number of idle runners on that target |
| Fleet.CapThenTarget | internal/orchestrator/controller.go:1953-2027 | both drain branches together: never below a positive min_idle's target, nothing left to drain unless vetoed, nothing done to a pool with nothing to drain, and no vetoed runner removed unless the veto may be asked again |
| Fleet.VetoCanBeRetried | internal/orchestrator/controller.go:1957-2027 | some answers of the forge make a cycle remove a runner it has just vetoed if and only if the pool is above its cap and the second branch has something to drain |
| Fleet.VetoesKept | internal/orchestrator/controller.go:1957-2027 | within each branch no vetoed runner is removed, and over both only under that condition |
| Fleet.VetoedStays | internal/orchestrator/controller.go:1465-1479 | otherwise a runner with a veto event is still there and running after both branches |
| Fleet.VetoedRunnerIsRemoved | internal/orchestrator/controller.go:1957-2000 | the concrete failing case: cap lowered to 1, one busy runner and one standby, veto and then an error |
| Fleet.DrainedByAge | internal/orchestrator/controller.go:1982-2027 | within its cap a pool loses no on-demand runner younger than the grace period, and a scale-to-zero pool none of unknown age |
| Fleet.IdleCanGo | internal/orchestrator/controller.go:1935-2027 | with room for the uncovered demand, some answers of the forge make a cycle remove an idle runner if and only if the pool's fields say there is something to drain |
| Fleet.NothingDrained | internal/orchestrator/controller.go:1935-2027 | otherwise the whole cycle drains nothing; in particular with an uncovered deficit in a pool with standbys |
| Fleet.CoveredStandbyDrained | internal/orchestrator/controller.go:1935-2027 | the concrete case: two standbys for two queued jobs, min_idle 1, and one standby goes |
| Fleet.QueuedForOneTarget | internal/orchestrator/controller.go:2061-2082 | the requests a cycle queues beyond the demand are all for one target |
| Fleet.DemandMet | internal/orchestrator/controller.go:2053-2089 | placing the whole demand queue gives every target idle runners or queued requests for its demand |
| Fleet.CycleSettles | internal/orchestrator/controller.go:1841-2099 | without polled demand a cycle with no veto or spawn error settles the pool, and a cycle on a settled pool does nothing |
| Fleet.CycleCovers | internal/orchestrator/controller.go:1878-2089 | a polling cycle without spawn error ends with runners or requests for every job of every target that answered, if the cap has room, nobody waits in the queue and the pool has nothing to drain |
| Fleet.CycleKeepsPromise | internal/orchestrator/controller.go:1841-2099 | all promises of a cycle follow from its draining and growing halves: no thrashing, draining by age, demand first and then round robin, on target in terms of the pool's fields, settling, demand met |
| Controller.PoolController.Classify | internal/orchestrator/controller.go:1841-1851 | the running count and exactly the idle runners |
| Controller.PoolController.TotalActiveRunners | internal/orchestrator/controller.go:2196-2212 | the number of running containers over all pools |
| Controller.PoolController.SpawnSingleRunner | internal/orchestrator/controller.go:2101-2193 | given a token and a started container, and only then, one new idle container of the pool on the wanted target; otherwise nothing changes; the log records the counts and limits it was made under |
| Controller.PoolController.Launch | internal/orchestrator/controller.go:2163-2185 | a started container is a new idle runner of the pool on the wanted target, under an id never used before |
| Controller.PoolController.TerminateAndRecord | internal/orchestrator/controller.go:861-918 | tracking is dropped and one removal recorded whatever the engine answers |
| Controller.PoolController.MarkEngineRemoved | internal/orchestrator/controller.go:920-938 | the removal is remembered as ours, and memories older than five minutes go |
| Ledger.OneRecordEach | internal/orchestrator/controller.go:861-918 | between any two moments of a run a container that was tracked and is gone has exactly one departure on record and one that is still there none; a new one has one entry more than departures |
| Ledger.BalancedAccounts | internal/orchestrator/controller.go:861-918 | the same for every container at once, over any stretch of a run |
| Controller.PoolController.DrainIdleRunner | internal/orchestrator/controller.go:1465-1479 | the runner goes unless the forge vetoes; exactly then it stays, and the first runner of its name is marked busy |
| Controller.PoolController.DrainOverCap | internal/orchestrator/controller.go:1953-1971 | drains until the excess is gone or every idle runner was tried; what is left is kept in order |
| Controller.PoolController.DrainStale | internal/orchestrator/controller.go:1982-2000 | scale to zero drains stale runners only, and all of them unless vetoed |
| Controller.PoolController.DrainExcess | internal/orchestrator/controller.go:2001-2027 | drains at most the excess, spares on-demand runners in their grace period, and stops short only when all others were tried |
| Controller.PoolController.ScaleDown | internal/orchestrator/controller.go:1953-2027 | the two branches as one step of the cycle |
| Controller.PoolController.PollDemand | internal/orchestrator/controller.go:1883-1934 | one demand entry per polled job that no idle runner of its target covers |
| Controller.PoolController.ComputeTarget | internal/orchestrator/controller.go:1859-1951 | the effective target meets min_idle plus the busy runners and the running plus the uncovered ones, each cut only by the cap |
| Controller.PoolController.PlaceOne | internal/orchestrator/controller.go:2071-2088 | a spawn exactly below the global quota, a queued request at it, nothing on a spawn error |
| Controller.PoolController.SpawnNeeded | internal/orchestrator/controller.go:2053-2089 | places exactly what is needed unless a spawn fails, uncovered demand first, then round robin by the number of runners, never above cap or quota |
| Controller.PoolController.ReconcilePool | internal/orchestrator/controller.go:1825-2099 | one cycle of a pool: no thrashing, draining by age, reaching min_idle plus busy runners and running plus uncovered jobs as far as the cap admits and no more, settling, every answered target's demand met, every spawn within the limits |
| Controller.PoolController.RepeatedCycle | internal/orchestrator/controller.go:1825-2099 | repeating a cycle that had no veto and no spawn error does nothing |
| Controller.PoolController.DrainOne | internal/orchestrator/controller.go:2399-2438 | why one request is kept, dropped or launched: kept at the quota in any case, then dropped if and only if no pool bears its name |
| Controller.PoolController.DrainQueue | internal/orchestrator/controller.go:2380-2443 | each request is launched, dropped or kept exactly once, in order: dropped only when no pool bears its name, kept only at a limit or after a spawn error, launched for the pool now bearing its name and on its target; first come, first served within a pool; nothing happens at the quota |
| Controller.PoolController.EnqueueRequest | internal/orchestrator/controller.go:2367-2377 | the request goes to the end of the queue |
| Queue.QueueNext | internal/orchestrator/controller.go:2399-2438 | handling one more request extends the account of fates, and earlier reasons stay valid |
| Queue.FifoNext | internal/orchestrator/controller.go:2399-2438 | a request overtakes an older one of its pool only after a spawn error of that pool |
| Queue.FatesInOrder | internal/orchestrator/controller.go:2398-2442 | the requests of each fate keep their order |
| Queue.DrainedStuck | internal/orchestrator/controller.go:2399-2442 | after a drain whoever still waits waits for a limit or after a spawn error |
| Queue.FatesPartition | internal/orchestrator/controller.go:2398-2442 | the fates partition the copied queue: no request of it is lost or duplicated |
| QueueRace.LostIffOverwritten | internal/orchestrator/controller.go:2380-2443 | over every interleaving of drains and unlocked enqueues, a request is lost if and only if it was enqueued between the copy and the publication of one drain |
| QueueRace.EnqueuedWhileDraining | internal/orchestrator/webhook_scaling.go:265-275 | the concrete loss: a request enqueued while another is being drained |
| Queue.FateByName | internal/orchestrator/controller.go:2393-2411 | every possible fate of a request is right for the pool id it was made for if and only if its name is still the name of that pool and of no later one, or both are gone |
| Queue.RenamedIsDropped | internal/orchestrator/controller.go:2407-2411 | the first concrete failing case: below the quota the request of a renamed pool can only be dropped |
| Queue.TakenNameIsServed | internal/orchestrator/controller.go:2393-2411 | the second: a container for the request belongs to the pool that took over the name |
| Queue.FatesById | internal/orchestrator/controller.go:2380-2443 | while the requests are rightly named, a drained queue serves and drops by pool id |
| Controller.PoolController.MarkQueuedDemand | internal/orchestrator/webhook_demand.go:33-50 | the job is booked as of now, no booking of the pool is older than an hour afterwards, other pools keep theirs |
| Controller.PoolController.ReleaseDemand | internal/orchestrator/webhook_demand.go:52-82 | releases exactly that booking |
| Webhook.MarkAdds | internal/orchestrator/webhook_demand.go:33-50 | while nothing is stale, a queued event adds its job to the booked ones once |
| Webhook.MarkSweeps | internal/orchestrator/webhook_demand.go:33-50 | after a queued event exactly the bookings of the pool older than an hour are gone |
| Webhook.DecideWhen | internal/orchestrator/webhook_scaling.go:218-321 | when a queued job is covered, capped, queued at the quota or served, in this order |
| Controller.PoolController.QueuedUnderLock | internal/orchestrator/webhook_scaling.go:277-336 | from any state found under the lock: covered, capped, queued at the quota, or one runner on the matched target |
| Controller.PoolController.HandleQueued | internal/orchestrator/webhook_scaling.go:191-336 | the whole queued event: the job is booked and exactly one of those outcomes follows |
| Controller.PoolController.DeliverQueued | internal/orchestrator/webhook_scaling.go:218-336 | k distinct jobs with any redeliveries spawn exactly max(0, k - w) runners for w warm ones, given room for that many and no spawn error |
| Webhook.QueuedKeepsReserved | internal/orchestrator/webhook_scaling.go:225-253 | with several targets, an event that is covered or served keeps the booked jobs of every target within its idle runners |
| Controller.PoolController.QueuedReserved | internal/orchestrator/webhook_scaling.go:191-336 | one event either keeps every target reserved, or its spawn failed, or there was no room for one more runner |
| Controller.PoolController.DeliverToTargets | internal/orchestrator/webhook_scaling.go:191-336 | after any sequence of queued events for several targets, with room for them and no spawn error, every target has a warm runner for each of its booked jobs |
| Webhook.SpawnsBeyondShortfall | internal/orchestrator/webhook_scaling.go:218-253 | with room, an event spawns a runner its target does not need if and only if the target's spare warm runners are fewer than the bookings of the pool's other targets |
| Webhook.WarmPairSpawnsThird | internal/orchestrator/webhook_scaling.go:218-253 | the concrete case: two targets with one job and one warm runner each, and a third runner is spawned |
| Controller.PoolController.ReplenishIdleStandby | internal/orchestrator/webhook_scaling.go:384-482 | one standby on the vacated runner's target exactly while standbys are short and both limits leave room; a queued request at the global quota |
| Controller.PoolController.TerminateHungRunner | internal/orchestrator/controller.go:814-842 | the runner goes, and the queue is served at once: whoever still waits waits for a limit or after a spawn error |
| Controller.PoolController.KillOverdue | internal/orchestrator/controller.go:706-732 | exactly the pool's overdue runners are killed, and after any kill whoever still waits in the queue waits for a reason |
| Removal.DoomedWhen | internal/orchestrator/controller.go:706-732 | overdue are the runners that run, are busy and are past the limit since their anchor, or since their spawn if they have none |
| Controller.PoolController.CheckHungRunners | internal/orchestrator/controller.go:683-785 | exactly the runners past one of their limits are gone, each by a lifetime kill under that limit; a drain entry is retired only when its pool has none of its containers left running |
| Removal.CheckedMore | internal/orchestrator/controller.go:688-785 | checking one more limit extends the account exactly, although the queue spawns in between |
| Controller.PoolController.DrainPool | internal/orchestrator/controller.go:2574-2653 | a graceful drain leaves nobody idle and every busy runner, under a backstop, and is idempotent; a hard drain leaves nobody running; the queue loses exactly the pool's requests; each departure is on record once |
| Removal.WithoutPoolIs | internal/orchestrator/controller.go:2620-2630 | purging the queue removes the pool's requests and no other |
| Removal.WithoutPoolInOrder | internal/orchestrator/controller.go:2620-2630 | ... and keeps the order of the others |
| Controller.PoolController.RecycleIdleRunners | internal/orchestrator/controller.go:2661-2714 | the idle runners are parted into the removed and the vetoed ones; busy ones are untouched |
| Controller.PoolController.ReapContainer | internal/orchestrator/controller.go:1031-1085 | a dead container leaves the table; it is recorded as reaped exactly once, or not at all if the supervisor removed it itself within five minutes; then the queue is served |
| Controller.PoolController.DropEcho | internal/orchestrator/controller.go:1037-1056 | the echo of a removal of ours only drops the tracking |
| Controller.PoolController.AuditAndReap | internal/orchestrator/controller.go:561-572 | after the audit exactly the exited containers leave the table, and each that the supervisor had not removed itself is recorded as reaped once |
| Controller.PoolController.DrainRemovedPool | internal/orchestrator/controller.go:620-647 | the gate for one pool: without a row and without ownership nothing happens |
| Controller.PoolController.DrainRemovedPools | internal/orchestrator/controller.go:593-647 | exactly the idle runners of owned, deleted, not yet draining pools go |
| Controller.PoolController.ReconcilePools | internal/orchestrator/controller.go:652-657 | a round is one cycle per pool with the answers polled for it, each starting where the one before ended and keeping its promise; every removal is warranted; pools without a row are unaffected; what is running and busy stays so; with distinct ids and no polled demand a round without veto or spawn error settles every pool, and a round over settled pools does nothing |
| Controller.PoolController.RepeatedRound | internal/orchestrator/controller.go:652-657 | repeating such a round does nothing |
| Controller.PoolController.RunCycle | internal/orchestrator/controller.go:561-664 | a cycle of an active controller, stage by stage: reaping exactly the dead, serving the whole queue, draining removed pools, killing overdue runners, one cycle per pool |
| Controller.PoolController.Reconcile | internal/orchestrator/controller.go:549-664 | every removal of a cycle is warranted; each stage does exactly its part, the queue is served and every pool gets its cycle; each dead container not removed by the supervisor itself is recorded once, and every entry and departure is on record; foreign pools lose no running container, in the events and in the table; a busy container that the host lists as running is still there, running and busy, unless past a limit, starting from the table before the audit; a clean cycle without polled demand leaves every pool settled |
| Controller.StagesAreSafe | internal/orchestrator/controller.go:549-664 | the stages of a cycle keep the running containers of foreign pools and the busy ones within their limits |
| Removal.WarrantedIsSafe | internal/orchestrator/controller.go:620-776 | warranted removals spare the running containers of pools with neither row, drain entry nor ownership, and containers that the removing step saw busy within their pool's lifetime and drain limits |
| Removal.ForeignStays | internal/orchestrator/controller.go:549-664 | the stages of a cycle leave every live container of a foreign pool tracked and running |
| Removal.BusyStays | internal/orchestrator/controller.go:549-664 | they leave every live busy container that is past no limit of its pool tracked, running and busy |
| Removal.BusyOutlivesIs | internal/orchestrator/controller.go:549-664 | the same from the table before the audit: a busy container that the host lists as running outlives the cycle within its limits |
| GhostSweep.CountsAreStreaks | internal/orchestrator/controller.go:1762-1808 | a count of c means the name was eligible in each of the last c executed sweeps |
| GhostSweep.DeregisteredAfterStreak | internal/orchestrator/controller.go:1778-1796 | a name is deregistered only if it was eligible in every one of the last ghostOfflineCycles sweeps |
| GhostSweep.ResetBuysTime | internal/orchestrator/controller.go:1767-1776 | one sweep in which the name was not eligible protects it for the following cycles |
| GhostSweep.GhostSweeper.SweepRow | internal/orchestrator/controller.go:1765-1796 | one listed name: forgotten, counted, or tried and dropped exactly if the forge grants it |
| GhostSweep.GhostSweeper.SweepPool | internal/orchestrator/controller.go:1738-1809 | the counters after a sweep; a name listed online or busy, not ours or tracked is neither counted nor tried, any other is counted once more or gone; at most ghostMaxDeregistrations successes, and every due name tried unless the burst guard struck |
| IdleRecycle.AtMostOneWorker | internal/orchestrator/controller.go:2725-2757 | a pool never has two workers |
| IdleRecycle.EveryRunSafe | internal/orchestrator/controller.go:2725-2795 | the pairing of run table and workers, and what is still owed, in every interleaving |
| IdleRecycle.NoEditLost | internal/orchestrator/controller.go:2725-2757 | after four steps of the pool's worker every call accepted before has been followed by a pass that started later, unless cancelled |
| IdleRecycle.ServedUnlessCut | internal/orchestrator/controller.go:2743-2775 | unless the pool's last pass was cut short by its timeout, whatever was served was served by a whole pass, and in a pool at rest that is every accepted call |
| IdleRecycle.CutShort | internal/orchestrator/controller.go:2762-2775 | the concrete failing case: the only pass of an edit is cut short and the worker ends |
| IdleRecycle.OwedWorkerCanMove | internal/orchestrator/controller.go:2743-2757 | while a call is owed the pool's worker can always take a step |
| IdleRecycle.WorkerSettles | internal/orchestrator/controller.go:2743-2795 | any number of edits coalesce: at most six steps after the last call, three once cancelled |
| IdleRecycle.OneEditOnePass | internal/orchestrator/controller.go:2725-2757 | a single edit of a pool at rest causes one pass and no rerun |
| IdleRecycle.NoWorkerAfterCancel | internal/orchestrator/controller.go:2728-2731 | after cancellation no worker is started and no call accepted |
| IdleRecycle.Recycler.ScheduleIdleRecycle | internal/orchestrator/controller.go:2725-2739 | the method is the protocol's schedule step, and the wait group counts the workers |
| IdleRecycle.Recycler.DecideRerun | internal/orchestrator/controller.go:2748-2755 | the method is the protocol's decision step |
| IdleRecycle.Recycler.StopBackground | internal/orchestrator/controller.go:2780-2783 | the method is the protocol's cancellation |
| CronLoop.NoWakeupLost | internal/cron/scheduler.go:366-448 | whenever the loop waits, its deadline is the minimum next run or a wakeup is pending, in every interleaving |
| CronLoop.FireClearsDue | internal/cron/scheduler.go:413-431 | after firing every next run is later than now or absent, exactly the due idle jobs were started, and their last run is now |
| CronLoop.DueLoopCanMove | internal/cron/scheduler.go:369-393 | while a job is due the loop always has a step |
| CronLoop.DueJobIsReached | internal/cron/scheduler.go:366-448 | a due job is handled within six loop steps unless registrations keep interrupting |
| CronLoop.RegistrationDue | internal/cron/scheduler.go:74-145 | an accepted registration leaves the first fire not before now, strictly after now if the job never ran or missed a fire, or none; it runs the job if and only if a fire lies strictly between the last run and now, or none after it at all, and the policy says so |
| CronLoop.FirePassedOver | internal/cron/scheduler.go:95-123 | the new entry neither waits nor makes up for a fire if and only if: not after now for a job that never ran; not after now under the skip policy if one was missed; not after the last run otherwise |
| CronLoop.NeverRunLosesFire | internal/cron/scheduler.go:121-123 | the concrete loss: a job that never ran is due, and is registered again |
| CronLoop.NoFirePassedOver | internal/cron/scheduler.go:74-448 | over every run an entry's next run is the first fire after the instant up to which its registration and the firings that found it due have dealt with it |
| CronLoop.StartRunsPending | internal/cron/scheduler.go:316-344 | starting the scheduler runs exactly the jobs that a missed fire left pending |
| CronLoop.OverlapStep | internal/cron/scheduler.go:95-141 | a step makes two tasks of a pool overlap if and only if it starts one while another is in flight; which steps start one is spelled out for registering, starting and firing |
| CronLoop.OneTaskUnlessReregistered | internal/cron/scheduler.go:413-448 | over every run a pool has at most one task in flight, which belongs to its current entry, as long as no registration of the pool is accepted while one is |
| CronLoop.SkippingOverlaps | internal/cron/scheduler.go:95-141 | the concrete failing run: no missed fire, policy skip, and two tasks of a pool in flight |
| CronLoop.Scheduler.RegisterJob | internal/cron/scheduler.go:74-145 | the method is the register step, with its missed-fire policy |
| CronLoop.Scheduler.UnregisterJob | internal/cron/scheduler.go:148-159 | the method is the unregister step |
| CronLoop.Scheduler.SyncJobs | internal/cron/scheduler.go:223-242 | registers all, then drops the absent jobs; the first invalid configuration leaves exactly the earlier registrations |
| CronLoop.Scheduler.Start | internal/cron/scheduler.go:316-344 | the method is the start step, dispatching exactly the pending jobs |
| CronLoop.Scheduler.EarliestNextRunLocked | internal/cron/scheduler.go:396-411 | the minimum of the non-zero next runs, or none |
| CronLoop.Scheduler.FireDueJobs | internal/cron/scheduler.go:413-448 | the method is the firing step |
| LoginLimiter.BackoffIsExact | internal/server/ratelimit.go:94-115 | for every failure count from five on, the wrapping shift with its guards is min(15 min, 2^(n-5) min) |
| LoginLimiter.BackoffMonotone | internal/server/ratelimit.go:94-115 | more failures never lock for a shorter time |
| LoginLimiter.WaitDoubles | internal/server/ratelimit.go:94-115 | one minute after five failures, doubled by each further one up to a quarter of an hour |
| LoginLimiter.WindowIs | internal/server/ratelimit.go:165-178 | exactly the failures younger than 15 minutes count |
| LoginLimiter.RefusedIff | internal/server/ratelimit.go:94-178 | over every run login is refused, for the time reported, if and only if at least five failures since the last reset are that young and the backoff for their number has not passed since the last one |
| LoginLimiter.DeadlineNeverLater | internal/server/ratelimit.go:94-178 | without new failures the lock deadline never moves later |
| LoginLimiter.UnlocksAsReported | internal/server/ratelimit.go:94-120 | the key is unlocked at now plus the reported retry and stays unlocked |
| LoginLimiter.StaysLockedUntilReported | internal/server/ratelimit.go:94-120 | without new failures the lock holds through every instant before the reported one if and only if the oldest counted failure stays in the window that long, or the last nine failures coincide |
| LoginLimiter.LockEndsEarly | internal/server/ratelimit.go:94-120 | the concrete case: a reported minute that ends after half of it |
| LoginLimiter.RunOrdered | internal/server/ratelimit.go:122-178 | every reachable failure list is ordered in time |
| LoginLimiter.MirrorStep | internal/server/ratelimit.go:122-163 | the store keeps mirroring memory if and only if no insert was lost and no delete of a key with failures in the window; failed pruning is harmless |
| LoginLimiter.RestartTransparent | internal/server/ratelimit.go:68-178 | after any such history, a limiter rebuilt by restore answers every later question as the one that kept running |
| LoginLimiter.LostResetLocksAgain | internal/server/ratelimit.go:148-163 | the failing case: a reset whose delete is lost frees the key until the next restart locks it as before |
| LoginLimiter.LoginRateLimiter.PruneLocked | internal/server/ratelimit.go:165-178 | keeps exactly the failures inside the window, in order |
| LoginLimiter.LoginRateLimiter.RetryAfter | internal/server/ratelimit.go:94-120 | the remaining lock, positive exactly when refused |
| LoginLimiter.LoginRateLimiter.RecordFailure | internal/server/ratelimit.go:122-146 | memory and store after a failure, whichever store statements fail |
| LoginLimiter.LoginRateLimiter.ResetKey | internal/server/ratelimit.go:148-163 | memory and store after a success, whether the delete works or not |
| LoginLimiter.LoginRateLimiter.Restore | internal/server/ratelimit.go:68-92 | memory regrouped from the stored rows inside the window |
| Sessions.RunClocks | internal/server/auth.go:423-462 | over every run the cap never moves and the idle deadline neither goes back nor passes it |
| Sessions.ExpiryIsFinal | internal/server/auth.go:423-445 | a request past either clock is refused, and so is every later one if the row was deleted or the clock does not go back |
| Sessions.RefusalRevoked | internal/server/auth.go:431-438 | the request after a refusal is accepted if and only if the delete failed, the clock fell back into the session and the user is known |
| Sessions.RefusedThenAccepted | internal/server/auth.go:431-438 | the concrete case: refused at 11, accepted at 10 |
| Sessions.SteadyUseSurvivesToCap | internal/server/auth.go:446-462 | a session used with gaps of at most half the idle window is accepted if and only if the cap has not passed |
| Sessions.UnusedIsRefused | internal/server/auth.go:423-462 | however it was used before, a session unused for longer than the idle window is refused, and so is one past its cap |
| Sessions.PurgeChangesNoAnswer | internal/db/sessions.sql.go:180-187 | the hourly purge changes no answer under a non-decreasing clock |
| Sessions.SessionStore.ValidateSession | internal/server/auth.go:423-462 | accepted if and only if the row is there, neither clock has run out and the user is known; the row is written only past half of the idle window, and then renewed up to the cap |
| Sessions.SessionStore.IssueSession | internal/server/auth.go:599-613 | the fresh row with both deadlines |
| Sessions.SessionStore.PurgeExpired | internal/db/sessions.sql.go:180-187 | exactly the sessions past one of their clocks go |
| RemovalPaging.ReadLastLines | internal/server/log_removals.go:182-207 | the ring buffer yields the last non-blank lines in order, or fails on an over-long line |
| RemovalPaging.ScanPage | internal/server/log_removals.go:129-166 | the reverse scan returns the newest matching records below the cursor, a page at most |
| RemovalPaging.ListRemovalRecords | internal/server/log_removals.go:98-177 | the page and the next cursor, and when the request is refused |
| RemovalPaging.OlderThan | internal/server/log_removals.go:129-177 | the cursor of record k leaves exactly the records after k if and only if the next one is strictly older |
| RemovalPaging.FollowReturnsAll | internal/server/log_removals.go:129-177 | for every page size, following the cursor returns every match once, newest first, if and only if no page boundary separates two records of one instant |
| RemovalPaging.SplitLoses | internal/server/log_removals.go:93-97 | the concrete loss: two removals of one instant, one record a page |
| RemovalPaging.PagingIsComplete | internal/server/log_removals.go:98-207 | from the first page of an unchanged journal within the scan cap and without an over-long line: the client gets exactly the matching records of the journal, each once, newest first, under that same condition |
| RemovalPaging.RequestCount | internal/server/log_removals.go:129-177 | the number of requests such a client sends when nothing is skipped |

## Left out

- Docker, forge HTTP, log capture, encryption, bcrypt, WebAuthn, RPC handlers and the web UI: plumbing; their outcomes are arbitrary in the model.
- Cron expression parsing: only that the next fire after t is later than t, or none.
- Float parsing, poll jitter, diagnostics texts, audit logs, health aggregation, backups: easy members or floating point.
- NormalizeRepositoryURL and pool matching of a webhook event: targets are compared as already normalised strings, and the matched pool and target are parameters of the event.
- applyRemoteBusyState and the job-row recording beside each allocator step: busy flips appear as steps in `Tracking`, recorder calls as steps in `JobMerge`; the controller's methods do not perform them, and a cycle starts after the flips.
- HandleContainerEvent, GracefulShutdown and the task exit handler: compositions of the modelled reaping, draining and scaling.
- The unlocked fast path of a queued event or a standby backfill: the controller's methods handle it atomically with the rest of the event; what it does to a queue drain running at the same moment is in `QueueRace`.
- Controller.PoolController.HandleQueued: says nothing about other writers between its fast check and the lock; `QueuedUnderLock` holds from any state found under the lock.
- Controller.PoolController.DeliverQueued: queued events are handled one at a time, because demand is read before idle runners are counted, and within the booking's one-hour life.
- Controller.PoolController.Reconcile: that each dead container is recorded once holds for host listings that name no container twice; the pool list is loaded once for the whole cycle, where the source loads it again for each queue drain.
- Controller.PoolController.SpawnSingleRunner: the engine never hands out a container id twice.
- Tracking.StepKeepsInv: audits use a resolver that keeps answering the same pool for a container, listings report no busy state, and a spawned container is not yet tracked; `Tracking.DoubleTracked` says what happens otherwise.
- JobConvergence.EventsConverge: a completion time is present, the in_progress event is recorded at most once, runner name and job id are fresh; the row laws above state what happens otherwise.
- JobRecorder.JobStore.Exec: SQLite checks a unique index row by row, the model at the end of a statement; no modelled statement depends on the difference.
- JobRecorder.JobStore.UpgradeLatest: two rows with the same latest time are told apart by the smaller id, which the query leaves open.
- LoginLimiter.RestartTransparent: rows are reloaded in insertion order (the query has no ORDER BY), the clock does not go back, and the restore's own statements succeed.
- RemovalPaging.PagingIsComplete: the journal does not change while the client pages, and timestamps are positive and do not go back from line to line.
- JobConvergence.DeathRace: an enriched death carries the id of the job that is followed; what the forge's job listing answers is a parameter.
- CronLoop.NoWakeupLost: cancelling the run context is the same step as stopping the scheduler.
- GhostSweep.GhostSweeper.SweepPool: the counters are exact when no name occurs twice in one cycle's listings; the bound on successes holds in any case.
