# Verified model of scheduler0's state machines

scheduler0 is a job scheduler replicated by raft: every write is a log entry that each node turns
into one SQL transaction. This project models the parts of it whose correctness depends on many
steps at once, in Dafny 4.11, and proves what they promise. `dafny verify dfyconfig.toml` checks
everything.

| file | what it models |
|---|---|
| `StateMachine.dfy` | applying log entries one by one or in batches, snapshots, restores, and a cluster that does these in any order |
| `Recovery.dfy` | process start: raft restores the newest snapshot, then recovery replays the log, carries uncommitted logs over, writes a new snapshot and compacts; a run can die between any two durable effects |
| `SnapshotCodec.dfy` | the byte format of snapshots, and writing one to a sink that can fail |
| `LogTables.dfy`, `Batching.dfy` | splitting rows by SQLite's variable limit, scanning a table by id ranges, batched inserts and the ids they report |
| `Dispatcher.dfy` | the mover, assigners, workers and token channel of the worker pool, under every interleaving |
| `ConnectionPool.dfy`, `PoolCalls.dfy`, `PoolUnusable.dfy` | the connection pool under every interleaving of Get, put and Close; its calls one at a time; connections marked unusable |
| `AlertThrottle.dfy` | the alert throttle with overlapping publishes and time |
| `CreditLedger.dfy` | the AI-credit balance, its append-only ledger and idempotency keys, with int64 arithmetic and failing writes |
| `Calendar.dfy`, `QuotaPeriod.dfy` | Gregorian month steps as Go's `AddDate` takes them, and the quota window advanced lazily along them |
| `ScheduleQueue.dfy`, `ScheduleListing.dfy` | the queue of scheduled executions, with the sifting of Go's `container/heap` written out |
| `NextRun.dfy` | the catch-up walk to a job's next execution |
| `KeyRotation.dfy` | moving stored secrets to a new key, resumably |
| `Collections.dfy` | option and result types, sums over slots, iterated steps |

Code that changes rows, files or slices in place is a class whose methods are proved against a
function or a predicate of the old state; concurrent code is a transition system, and its results
hold for every reachable state. SQL execution, decoding, compression, encryption, the cron parser
and the factory of connections are function-valued parameters; what is assumed of each is a named
predicate (`SoundEngine`, `SoundImages`, `SoundPlatform`, `SoundCipher`, `CronLike`,
`ErrorsHaveText`, `StandardDecoders`). Clocks, nonces, failing writes and the moment a process dies
are arguments.

## What the code does not promise

Some properties one would expect hold only under a condition. Each is stated with its exact
condition, and where it helps with the input or run on which it fails.

- Uncommitted execution logs do not survive every restart. Raft starts before recovery reads the main
  database, and restores the newest snapshot over it; a log survives exactly if no snapshot is listed
  or the newest one has it (`Recovery.Node.RecoverRepeatedly`, `Recovery.StartForgets`). What
  `Recovery.Node.RecoverRaftState` says is about the main database as raft's start left it. From that
  first start on nothing more is lost, however often the process dies; but the logs that the snapshot
  had are then stored twice.
- The throttle is safe exactly when every publish ends before its window does, or the window is
  empty: a publish that fails later deletes the claim of its successor (`AlertThrottle.SafeExactly`,
  `AlertThrottle.SlowFailure`). The shipped constants satisfy it.
- An error answer does not mean that a command had no effect: a commit whose result cannot be read
  stays, reports an error and sends no event (`StateMachine.Effect`).
- The next execution is not always found. The cron library answers the zero time when it finds no tick
  within five years; a schedule that parses and never ticks, such as 30 February, sends the catch-up
  loop to the zero time for ever (`NextRun.NeverTicks`, and exactly when in `NextRun.EndsExactly`).
- The credit balance agrees with its ledger after a call exactly when the call's ledger row is
  written (or records nothing) and the sum stays in int64; a failed ledger insert is only logged
  (`CreditLedger.StepConsistent`).
- A connection belongs to one holder exactly as long as no wrapper is closed twice
  (`ConnectionPool.OwnedExactly`, `PoolCalls.CloseTwice`). The connection counter
  exceeds the connections really open by those closed as unusable and those drained by Close
  (`ConnectionPool.CounterOvershoot`).
- A further run of key rotation finds nothing exactly if the two key texts spell different AES keys,
  or nothing was readable. The service only refuses equal texts, while hexadecimal digits come in two
  cases: with "AB..." and "ab..." every run rotates every secret again (`KeyRotation.FurtherRun`).
- The insert of async-task logs declares 6 columns and binds 8, so it fits SQLite's limit exactly up
  to 4095 rows (`Batching.AsyncTaskLogsFit`).
- Inserting no rows panics, because an empty input makes one empty batch
  (`LogTables.InsertExecutionLogs`, `LogTables.RaftBatchInsert`).

## Model

| member | source | states |
|---|---|---|
| `StateMachine.FsmStore.Apply` | pkg/fsm/fsm_store.go:125-137 | a command whose transaction commits moves the replicated tables to the transaction's and the node's own rows to what its cascade leaves of them, and is answered and reported with its result exactly if that can be read; any other entry leaves the database alone and is answered with the error of the step that failed, or, a configuration entry, not at all |
| `StateMachine.FsmStore.ApplyBatch` | pkg/fsm/fsm_store.go:139-158 | a batch leaves the fold of its entries, answers each entry as it would be answered alone, sends the events in order, and keeps every row of the node's own that no entry's cascade deletes |
| `StateMachine.FsmStore.Snapshot` | pkg/fsm/fsm_store.go:160-164 | any node that restores the stream has this database |
| `StateMachine.FsmStore.Restore` | pkg/fsm/fsm_store.go:166-201 | the open database becomes the stream's exactly if the stream decodes and the file can be replaced, and stays as it was otherwise |
| `StateMachine.BatchBoundary` | pkg/fsm/fsm_store.go:125-158 | a batch boundary can be put anywhere: databases, responses and events are the same |
| `StateMachine.IneffectiveDropped` | pkg/fsm/fsm_actions.go:108-192 | dropping every entry that takes no effect where it stands leaves the database and the events of the whole log as they were |
| `StateMachine.OwnEntriesDropped` | pkg/fsm/fsm_actions.go:108-160 | no configuration entry and no entry without data takes effect anywhere in any log |
| `StateMachine.ReplayNoninterference` | pkg/fsm/fsm_actions.go:101-234 | the same for any sequence of entries |
| `StateMachine.ReplicasConverge` | pkg/fsm/fsm_store.go:125-201 | in every run of batches, snapshots and restores a node's replicated tables are the fold of the log up to its index, and two nodes at one index agree and answer every continuation alike |
| `StateMachine.CatchesUp` | pkg/fsm/fsm_store.go:160-201 | a node that installs another's snapshot has exactly its database and index, and with the rest of the log the state of the whole log |
| `Recovery.FaithfulReconstructs` | pkg/fsm/fsm_store.go:262-372 | files that agree with the history reconstruct exactly the state of the whole history |
| `Recovery.Node.NewestSnapshot` | pkg/fsm/fsm_store.go:278-302 | image, index and term of the newest snapshot, or a blank one |
| `Recovery.Node.ReplayLog` | pkg/fsm/fsm_store.go:340-372 | the loop applies every entry behind the snapshot once, in order, emits no event, and ends with the index and term of the last one |
| `Recovery.Node.ReplayEntry` | pkg/fsm/fsm_store.go:363-368 | one replayed entry changes the recovery database as Apply would and sends nothing |
| `Recovery.Node.RestoreAndReplay` | pkg/fsm/fsm_store.go:326-372 | snapshot, migrations and replay give the reconstructed state and the history's last index and term |
| `Recovery.Node.CarryOver` | pkg/fsm/fsm_store.go:374-380 | the recovery database gains exactly the carried execution logs, and its replicated tables do not change |
| `Recovery.Node.Rebuild` | pkg/fsm/fsm_store.go:276-388 | the recovery database holds the reconstructed state, the snapshot's logs that the replay left, and exactly the uncommitted execution logs of the main database beside them |
| `Recovery.Node.FinishSnapshot` | pkg/fsm/fsm_store.go:390-408 | the new snapshot is listed only when it was written and closed completely, and comes first |
| `Recovery.Node.Install` | pkg/fsm/fsm_store.go:390-436 | finishes exactly if nothing dies and the sink takes everything; wherever the run dies, the files still agree with the history, and the log is gone only if the newest snapshot covers all of it |
| `Recovery.Node.Compact` | pkg/fsm/fsm_store.go:410-435 | finishes exactly if nothing dies; the log is deleted whole or not at all, and raft restarts on exactly the rebuilt database |
| `Recovery.Node.StartRaft` | pkg/fsm/fsm_store.go:215-251 | starting raft makes the newest snapshot's database the main one, and leaves the main one alone when no snapshot is listed |
| `Recovery.Node.RecoverRaftState` | pkg/fsm/fsm_store.go:262-436 | on the main database that raft's start left: a run in which nothing dies or fails finishes, unless the database exceeds a Go slice; however it ends, the files reconstruct what they did before, no event was sent, and an entry left the log only under a finished snapshot; a finished run has the state of the whole history, and exactly the main database's uncommitted logs beside those the old snapshot had and the replay left |
| `Recovery.Node.Restart` | pkg/service/service.go:202 | one process start, raft first and then recovery: however it ends, the next start finds the same state and the same uncommitted logs |
| `Recovery.Node.RecoverRepeatedly` | pkg/fsm/fsm_store.go:262-436 | any number of process starts that die anywhere, then one that does not, recover the state of the whole history and exactly the logs raft's first start left; a log the main database held before that survives exactly if no snapshot was listed or the newest had it |
| `Recovery.StartForgets` | pkg/fsm/fsm_store.go:166-183 | the input on which a log is lost: a snapshot of the whole history that was taken before the log was written |
| `SnapshotCodec.BytesFromSnapshot` | pkg/utils/misc.go:75-133 | the cursor walk over the stream decodes it as specified, with every error and slice panic |
| `SnapshotCodec.Uint64RoundTrip` | pkg/utils/misc.go:63-73 | reading inverts writing on every uint64 |
| `SnapshotCodec.SnapshotRoundTrip` | pkg/fsm/fsm_snapshot.go:23-74 | decoding what Persist wrote gives back the image, for every image and whatever follows in the stream or its buffer |
| `SnapshotCodec.LegacyRoundTrip` | pkg/utils/misc.go:87-133 | the older uncompressed form decodes to its image, and its length is never the marker |
| `SnapshotCodec.FormsDisjoint` | pkg/fsm/fsm_snapshot.go:29-35 | no stream is a snapshot in both forms, and the compressed form determines the image |
| `SnapshotCodec.Format` | pkg/fsm/fsm_snapshot.go:32-70 | the format byte by byte: eight bytes of ones, the length of the compressed image from its least byte on, the compressed image |
| `SnapshotCodec.LeastByteFirst` | pkg/utils/misc.go:63-73 | byte k of a written number is its digit k in base 256, least significant first |
| `SnapshotCodec.CutLegacy` | pkg/utils/misc.go:123-127 | a cut off stream of the older form is refused |
| `SnapshotCodec.CutCompressed` | pkg/utils/misc.go:108-113 | a cut off compressed stream panics, unless the read buffer reaches far enough |
| `SnapshotCodec.BadLengths` | pkg/utils/misc.go:105-131 | a length beyond int64 panics, an empty one means no database |
| `SnapshotCodec.Persist` | pkg/fsm/fsm_snapshot.go:23-82 | success exactly if every write and the close succeed, and then a completely written, closed sink; otherwise a cancelled one |
| `SnapshotCodec.PersistBody` | pkg/fsm/fsm_snapshot.go:26-74 | the three writes and the close, in order, stopping at the first failure |
| `Batching.Batch` | pkg/utils/batcher.go:12-39 | the loop splits the rows into consecutive pieces of the computed size and a shorter last one |
| `Batching.BatchesConcatenate` | pkg/utils/batcher.go:12-39 | concatenating the batches gives the rows back in order, and no batch of a non-empty input is empty |
| `Batching.FitsExactly` | pkg/utils/batcher.go:13-36 | a caller declaring some columns and binding others stays under the limit exactly when its largest batch does |
| `Batching.DeclaredColumnsFit` | pkg/utils/batcher.go:13-36 | declaring what is bound is safe for any number of rows, exactly while one row fits |
| `Batching.FullBatches` | pkg/utils/batcher.go:13-25 | when there is more than one batch, none but the last could take one more row within 32766 variables |
| `Batching.EqualChunks` | pkg/utils/batcher.go:21-33 | all batches but the last are equally large |
| `Batching.AsyncTaskLogsFit` | pkg/shared_repo/shared_repo.go:375-408 | declaring 6 and binding 8 fits exactly up to 4095 rows |
| `LogTables.ExpandIdsRange` | pkg/utils/misc.go:283-289 | all ids from low to high, in order |
| `LogTables.Table.SelectIn` | pkg/shared_repo/shared_repo.go:125-176 | the batch query returns every row with a listed id, once |
| `LogTables.Table.MinMaxId` | pkg/shared_repo/shared_repo.go:80-113 | the least and the greatest id of the table |
| `LogTables.GetExecutionLogs` | pkg/shared_repo/shared_repo.go:37-187 | the batched scan from least to greatest id returns each row of the table exactly once, whatever the gaps |
| `LogTables.InsertExecutionLogs` | pkg/shared_repo/shared_repo.go:196-296 | success appends exactly the logs in order; a failure leaves exactly the batches before it |
| `LogTables.RaftBatchInsert` | pkg/repository/async_task/async_tasks.go:128-200 | position i of the result is the id given to task i, whatever inserts, updates and deletes the log orders between the batches: under it the table has the task's row as these left it, or none; on failure the table has the batches before the failing one |
| `LogTables.PlacedByInserts` | pkg/repository/async_task/async_tasks.go:128-200 | if the commands in between only insert, position i is the id of the row that holds task i itself |
| `LogTables.WriteBatch` | pkg/repository/async_task/async_tasks.go:162-193 | one batch is inserted behind other commands, and the ids counted back from the last one are its own |
| `Dispatcher.ReachableInv` | pkg/utils/dispatcher.go:26-98 | bounds, order, conservation, tokens and liveness of the goroutines hold in every reachable state |
| `Dispatcher.StepInv` | pkg/utils/dispatcher.go:63-98 | every channel operation of every goroutine keeps that invariant |
| `Dispatcher.Conservation` | pkg/utils/dispatcher.go:63-98 | accepted work is exactly partitioned over input queue, mover, pending buffer, assigners, workers and executed; assigners take it in acceptance order |
| `Dispatcher.AtMostOnce` | pkg/utils/dispatcher.go:63-98 | no submission runs twice, or runs and still waits somewhere, also after cancellation |
| `Dispatcher.Occupancy` | pkg/utils/dispatcher.go:13-39 | accepted work not yet started is at most maxQueue + 1 + max(maxQueue, 65536) + maxWorkers |
| `Dispatcher.OccupancyReached` | pkg/utils/dispatcher.go:13-39 | that bound is exact: some run holds that much unstarted work, and then accepts no more |
| `Dispatcher.SubmitAccepted` | pkg/utils/dispatcher.go:100-129 | a submission is accepted exactly while the input queue has room, or, without a queue, the mover is free |
| `Dispatcher.CancelStops` | pkg/utils/dispatcher.go:67-98 | cancelling lets the mover, every assigner not handing over and every waiting worker return |
| `Dispatcher.PoolNeverOverflows` | pkg/utils/worker.go:24-27 | a worker can always offer its queue without blocking |
| `Dispatcher.HandoverNeverBlocks` | pkg/utils/dispatcher.go:82-98 | before cancellation an assigner holding a worker's queue finds that worker waiting on it, and the queue is not in the pool too |
| `Dispatcher.TokensUnshared` | pkg/utils/dispatcher.go:86-90 | two assigners never hold the same worker's queue |
| `Dispatcher.MeasureDrops` | pkg/utils/dispatcher.go:63-98 | every internal step lowers the work still to be done, counted in hops |
| `Dispatcher.NoDeadlock` | pkg/utils/dispatcher.go:63-98 | before cancellation unfinished accepted work always leaves an internal step enabled |
| `Dispatcher.Drains` | pkg/utils/dispatcher.go:41-98 | once submissions stop every internal run is finite, and one that cannot go on has executed exactly the accepted work |
| `Dispatcher.CanDrain` | pkg/utils/dispatcher.go:41-98 | such a run exists from every reachable state |
| `ConnectionPool.NewChannelPool` | pkg/network/pool/channel.go:31-54 | exactly the valid capacities with a working factory give a filled pool; a failing factory leaves no connection open |
| `ConnectionPool.CloseAll` | pkg/network/pool/channel.go:134-137 | draining an unshared pool leaves no connection open |
| `ConnectionPool.StepInv` | pkg/network/pool/channel.go:56-139 | every step of Get, put, Close and of the wrappers keeps ownership, the counter's account and the lock and drain protocols, exactly if it is not a second Close of a wrapper |
| `ConnectionPool.ReachableInv` | pkg/network/pool/channel.go:56-139 | hence they hold in every interleaving in which each wrapper is closed at most once |
| `ConnectionPool.OwnedExactly` | pkg/network/pool/conn.go:18-28 | a run keeps ownership throughout exactly if it closes no wrapper twice |
| `ConnectionPool.Ownership` | pkg/network/pool/channel.go:67-139 | a raw connection is in exactly one place (idle, one wrapper, one thread) while open and in none after |
| `ConnectionPool.ExclusiveUse` | pkg/network/pool/conn.go:18-43 | no two live wrappers share a connection, and a wrapped one is neither idle nor closed |
| `ConnectionPool.NoPanic` | pkg/network/pool/channel.go:100-134 | put never sends on a closed channel and the channel is closed once |
| `ConnectionPool.CounterOvershoot` | pkg/network/pool/channel.go:49-138 | at rest the counter is the open connections plus those closed as unusable plus those drained by Close |
| `ConnectionPool.NoLeak` | pkg/network/pool/channel.go:103-139 | at rest after Close, connections are left open exactly if some wrapper was not closed |
| `PoolCalls.DoubleCloseBreaksOwnership` | pkg/network/pool/conn.go:18-28 | the run in which closing one wrapper twice leaves its connection idle twice |
| `PoolCalls.CloseTwice` | pkg/network/pool/conn.go:18-28 | closing a wrapper twice makes its connection idle twice, in any open pool with room |
| `PoolCalls.GetIdle` | pkg/network/pool/channel.go:67-81 | Get hands out the longest idle connection |
| `PoolCalls.GetNew` | pkg/network/pool/channel.go:82-90 | without an idle one it hands out a new, counted connection, and leaves no trace when the factory fails |
| `PoolCalls.NewOnlyWhenEmpty` | pkg/network/pool/channel.go:75-88 | in every interleaving a connection is made only while none is idle and the channel is open |
| `PoolCalls.GetFails` | pkg/network/pool/channel.go:67-71 | on a closed pool Get fails |
| `PoolCalls.GetOvertaken` | pkg/network/pool/channel.go:75-79 | so does a Get that a concurrent Close overtook |
| `PoolCalls.CloseReturns` | pkg/network/pool/channel.go:95-113 | closing a wrapper puts its connection behind the idle ones while there is room |
| `PoolCalls.CloseWhenFull` | pkg/network/pool/channel.go:114-119 | with the channel full it closes the connection and tells the counter |
| `PoolCalls.CloseAfterPool` | pkg/network/pool/channel.go:103-107 | so it does once the pool is closed |
| `PoolCalls.CloseUnusable` | pkg/network/pool/conn.go:22-27 | closing a wrapper marked unusable closes its connection and does not tell the counter |
| `PoolCalls.PoolCloses` | pkg/network/pool/channel.go:123-139 | Close ends the pool and closes every idle connection; a second one does nothing |
| `PoolUnusable.FlagsFollowEvents` | pkg/network/pool/conn.go:18-36 | in every run the flags of a wrapper say exactly which calls were made on it |
| `PoolUnusable.UnusableNeverReused` | pkg/network/pool/conn.go:18-36 | from the Close of a wrapper that a call marked unusable before, its connection is in no buffer, no live wrapper and no later one, and it is closed when no call is in progress |
| `PoolUnusable.DroppedExactly` | pkg/network/pool/conn.go:22-27 | at rest the connections dropped behind the counter's back are exactly those of the wrappers closed after being marked |
| `AlertThrottle.SnsPublisher.Claim` | pkg/alerts/alerts.go:202-211 | a claim succeeds exactly when the key was not claimed or its claim is a full window old or older, and then stamps it |
| `AlertThrottle.SnsPublisher.Release` | pkg/alerts/alerts.go:213-217 | the key's claim and no other goes |
| `AlertThrottle.SnsPublisher.Publish` | pkg/alerts/alerts.go:135-200 | suppressed publishes change nothing, delivered and panicked ones leave the claim, failed ones free the key |
| `AlertThrottle.SafeExactly` | pkg/alerts/alerts.go:147-217 | delivered publishes of one key are claimed a window apart in every overlapping run, exactly if the window is empty or longer than any publish takes |
| `AlertThrottle.SlowFailure` | pkg/alerts/alerts.go:190-196 | the run in which a late failure frees its successor's claim |
| `AlertThrottle.DefaultsAreSafe` | pkg/alerts/alerts.go:46-47 | the shipped window and timeout are on the safe side |
| `AlertThrottle.FailureFreesKey` | pkg/alerts/alerts.go:190-196 | when a publish ends in time its key is free for the next attempt exactly if it failed |
| `AlertThrottle.AttemptGoesOut` | pkg/alerts/alerts.go:151-154 | with others in flight too, an attempt goes out exactly then, and is the newest publish, claimed now |
| `AlertThrottle.WindowReopens` | pkg/alerts/alerts.go:202-211 | after a delivered publish, time alone reopens its key exactly once the window has passed |
| `CreditLedger.CreditsRepo.Ensure` | pkg/repository/account_ai_credits/account_ai_credits.go:122-181 | a new account gets exactly the welcome amount, or zero, as its balance, and a ledger row of that amount, kind and key unless the row's write fails or its key is taken; an existing one is returned as it is; errors change nothing |
| `CreditLedger.CreditsRepo.InsertLedger` | pkg/repository/account_ai_credits/account_ai_credits.go:346-370 | the row is appended unless the write fails or its key is taken |
| `CreditLedger.CreditsRepo.ApplyDelta` | pkg/repository/account_ai_credits/account_ai_credits.go:183-228 | a delta that is not a repetition moves the balance by its amount, but not below zero, and appends its row with the new balance; a repetition or a failed balance write leaves the ledger and every balance |
| `CreditLedger.CreditsRepo.DeleteByAccountId` | pkg/repository/account_ai_credits/account_ai_credits.go:310-328 | after success neither balance nor rows of the account are left; other accounts keep every row and balance however it ends, and an error keeps the balance |
| `CreditLedger.ClosedForm` | pkg/repository/account_ai_credits/account_ai_credits.go:200-203 | a running balance clamped at zero is the plain sum less the least prefix sum, never negative and never below the sum |
| `CreditLedger.NewBalanceExact` | pkg/repository/account_ai_credits/account_ai_credits.go:200-203 | int64 addition and clamp give the mathematical balance exactly while the sum fits |
| `CreditLedger.WrapsAround` | pkg/repository/account_ai_credits/account_ai_credits.go:200 | beyond that, sums are taken modulo 2 to the 64 |
| `CreditLedger.EnsureConsistent` | pkg/repository/account_ai_credits/account_ai_credits.go:131-180 | Ensure keeps balances and ledger in agreement exactly when a due welcome row is written |
| `CreditLedger.DeltaConsistent` | pkg/repository/account_ai_credits/account_ai_credits.go:183-228 | ApplyDelta keeps them exactly without overflow and with its row written or nothing to record |
| `CreditLedger.DeleteConsistent` | pkg/repository/account_ai_credits/account_ai_credits.go:310-328 | deleting keeps them exactly when the balance row goes too, or held nothing |
| `CreditLedger.StepConsistent` | pkg/repository/account_ai_credits/account_ai_credits.go:122-370 | any call keeps agreement exactly under its check |
| `CreditLedger.RunConsistent` | pkg/repository/account_ai_credits/account_ai_credits.go:122-370 | so does any run of calls that meet their checks |
| `CreditLedger.BalanceClosedForm` | pkg/repository/account_ai_credits/account_ai_credits.go:183-228 | after any such run each balance has the closed form over its ledger amounts |
| `CreditLedger.SnapshotClosedForm` | pkg/repository/account_ai_credits/account_ai_credits.go:346-370 | every row's balance_after has the closed form over the rows up to it |
| `CreditLedger.RetryIsNoOp` | pkg/repository/account_ai_credits/account_ai_credits.go:189-198 | once a key is recorded a later call with it changes neither table, whatever came between, unless the account was deleted |
| `CreditLedger.SuccessRecords` | pkg/repository/account_ai_credits/account_ai_credits.go:189-224 | a call whose writes succeed records its key |
| `CreditLedger.WelcomeKeysDiffer` | pkg/repository/account_ai_credits/account_ai_credits.go:165 | no two accounts share a welcome key |
| `Calendar.DateOf` | pkg/repository/account_ai_quota_period/account_ai_quota_period.go:64 | every day number has a valid date with that number |
| `Calendar.DateOfDayNumber` | pkg/repository/account_ai_quota_period/account_ai_quota_period.go:64 | and only one: dates and day numbers are in bijection |
| `Calendar.DayNumberIsCivil` | pkg/repository/account_ai_quota_period/account_ai_quota_period.go:64 | the table of months and the leap rule count days as the closed form counted from March does |
| `Calendar.FourCenturies` | pkg/repository/account_ai_quota_period/account_ai_quota_period.go:64 | every 400 years have 146097 days |
| `Calendar.AddMonthAdvances` | pkg/repository/account_ai_quota_period/account_ai_quota_period.go:138-143 | a one-month step advances by exactly the days of the starting month, overflowing or not, and keeps the clock |
| `Calendar.AddMonthIsCivil` | pkg/repository/account_ai_quota_period/account_ai_quota_period.go:64 | the step in closed form: from a date to the same day number of the next calendar month, at the same time of the day |
| `Calendar.AddMonthDay` | pkg/repository/account_ai_quota_period/account_ai_quota_period.go:138-143 | the step keeps the day of the month, or a day after the 28th overflows into the first three |
| `Calendar.BoundarySpread` | pkg/repository/account_ai_quota_period/account_ai_quota_period.go:138-143 | k steps advance by between 28k and 31k days |
| `Calendar.AnchorDay` | pkg/repository/account_ai_quota_period/account_ai_quota_period.go:138-143 | a day of the month up to 28 is kept forever |
| `Calendar.OverflowsOnce` | pkg/repository/account_ai_quota_period/account_ai_quota_period.go:138-143 | a chain of steps overflows at most once |
| `QuotaPeriod.QuotaPeriodRepo.Create` | pkg/repository/account_ai_quota_period/account_ai_quota_period.go:59-89 | the new row's window, or which error and no change |
| `QuotaPeriod.QuotaPeriodRepo.EnsurePeriod` | pkg/repository/account_ai_quota_period/account_ai_quota_period.go:122-151 | the catch-up loop stores and returns the window advanced to now, creates a missing row, and changes nothing on error |
| `QuotaPeriod.RolledIsLink` | pkg/repository/account_ai_quota_period/account_ai_quota_period.go:136-143 | the advanced window is the link around now of the same chain of boundaries, reached within (now - next) / 28 days + 1 rounds |
| `QuotaPeriod.RolledTwice` | pkg/repository/account_ai_quota_period/account_ai_quota_period.go:122-151 | two advances, in either order of their times, are one advance to the later |
| `QuotaPeriod.LazinessDoesNotMatter` | pkg/repository/account_ai_quota_period/account_ai_quota_period.go:122-151 | a call at t returns what a single call at t would, whatever earlier calls were made or failed |
| `QuotaPeriod.WindowInForce` | pkg/repository/account_ai_quota_period/account_ai_quota_period.go:59-151 | the window in force at t is determined by the creation time: the link around t of the chain anchored there |
| `QuotaPeriod.NeverBackward` | pkg/repository/account_ai_quota_period/account_ai_quota_period.go:122-151 | successive windows never move backward |
| `ScheduleQueue.RootIsEarliest` | pkg/models/schedule_queue.go:13-23 | in heap order no key is earlier than the root |
| `ScheduleQueue.JobHeap.Swap` | pkg/models/schedule_queue.go:25-27 | two keys change places, the multiset stays |
| `ScheduleQueue.JobHeap.Up` | pkg/models/schedule_queue.go:74 | sifting up repairs a heap with one early key |
| `ScheduleQueue.JobHeap.Down` | pkg/models/schedule_queue.go:98 | sifting down repairs a heap with one late key and leaves the slots behind it alone |
| `ScheduleQueue.JobHeap.Init` | pkg/models/schedule_queue.go:119 | any slice is turned into a heap of the same keys |
| `ScheduleQueue.JobHeap.Push` | pkg/models/schedule_queue.go:74 | heap order kept, one key more |
| `ScheduleQueue.JobHeap.Pop` | pkg/models/schedule_queue.go:93-99 | heap order kept, an earliest key less |
| `ScheduleQueue.JobHeap.Peek` | pkg/models/schedule_queue.go:41-46 | an earliest key, or the zero key when empty |
| `ScheduleQueue.ScheduleQueue.AddJob` | pkg/models/schedule_queue.go:66-75 | adds the key exactly unless its id or time is zero, which panics |
| `ScheduleQueue.ScheduleQueue.RemoveJob` | pkg/models/schedule_queue.go:77-91 | drops exactly the keys with that job id |
| `ScheduleQueue.ScheduleQueue.Pop` | pkg/models/schedule_queue.go:93-99 | removes one key of least time; the zero key comes back exactly when the queue is empty |
| `ScheduleQueue.ScheduleQueue.Peek` | pkg/models/schedule_queue.go:105-107 | a key of least time without removing it |
| `ScheduleQueue.ScheduleQueue.Len` | pkg/models/schedule_queue.go:101-103 | the number of keys, counting equal ones |
| `ScheduleQueue.ScheduleQueue.Clear` | pkg/models/schedule_queue.go:109-112 | no key is left |
| `ScheduleQueue.ScheduleQueue.GetAllItems` | pkg/models/schedule_queue.go:114-126 | a permutation of the contents in time order, the queue unchanged |
| `ScheduleListing.ListingUnique` | pkg/models/schedule_queue.go:114-126 | the contents determine the listed times, however ties are broken |
| `NextRun.GetNextExecutionTime` | pkg/models/job.go:115-173 | every error and one-time case, for every environment; otherwise the first element after now of the chain from the last run (or from now), for every schedule whose chain passes now at all, which is when the loop ends |
| `NextRun.FirstAfterUnique` | pkg/models/job.go:167-172 | that element is unique |
| `NextRun.EndsExactly` | pkg/models/job.go:169-171 | the loop ends exactly if the chain passes now before it comes to the zero time, or the chain that then starts over from the zero time does |
| `NextRun.EndsWithoutTicksAtZero` | pkg/models/job.go:169-171 | without a tick after the zero time either, exactly if the chain never comes to it before passing now |
| `NextRun.NeverTicks` | pkg/models/job.go:169-171 | the input on which the loop never ends: a schedule without ticks, for a job that has run or has no start date |
| `NextRun.WalkIsNextOfNow` | pkg/models/job.go:154-172 | if the schedule finds the least tick after each instant from the seed to now, the walk gives the tick after now |
| `NextRun.WalkWithFixedDelay` | pkg/models/job.go:154-172 | for a fixed delay d it gives last + (floor((now - last) / d) + 1) * d |
| `KeyRotation.CellRotated` | pkg/utils/encrypt.go:137-149 | a value is re-encrypted exactly when the old key reads it and the new key is well formed, to the cipher's encryption of what the old key read |
| `KeyRotation.EncryptedReads` | pkg/utils/encrypt.go:13-73 | what a well-formed key encrypts, exactly the texts that spell that key read back, unchanged |
| `KeyRotation.CredentialRepo.ReEncryptSecrets` | pkg/repository/credential/credential.go:534-595 | a stopped run leaves every secret as it was or moved; a complete one has the cipher's encryption of the recovered plaintext in exactly the readable ones and counts them |
| `KeyRotation.AISettingsRepo.UpdatedRow` | pkg/repository/account_ai_settings/account_ai_settings.go:186-228 | each of the five columns is rotated on its own, and the row counts as changed exactly if one was readable |
| `KeyRotation.AISettingsRepo.ReEncryptSecrets` | pkg/repository/account_ai_settings/account_ai_settings.go:162-253 | the same for rows of five secrets, counting the rows with a readable one |
| `KeyRotation.Resumes` | pkg/utils/encrypt.go:127-149 | part of a rotation followed by a whole one is a whole one |
| `KeyRotation.RowResumes` | pkg/repository/account_ai_settings/account_ai_settings.go:186-253 | the same for a row of settings |
| `KeyRotation.MeaningPreserved` | pkg/utils/encrypt.go:127-149 | by the cipher itself, after a rotation the new key decrypts what the old one decrypted before, and anything else is untouched; the old key still reads a value exactly if it read it before and both texts spell one AES key |
| `KeyRotation.CountsReadable` | pkg/repository/credential/credential.go:569-592 | the count of rotated secrets is one for each that the cipher decrypts under the old key |
| `KeyRotation.CountsReadableRows` | pkg/repository/account_ai_settings/account_ai_settings.go:203-251 | the same for rows with a readable column |
| `KeyRotation.FurtherRun` | pkg/repository/credential/credential.go:552-594 | a further run rotates nothing, unless both texts spell one AES key; then it rotates every readable secret again |
| `KeyRotation.FurtherRowRun` | pkg/repository/account_ai_settings/account_ai_settings.go:203-253 | the same for rows of settings |
| `KeyRotation.RotateInterrupted` | pkg/repository/credential/credential.go:534-595 | any number of interrupted runs and a complete one preserve every secret, and a further run finds nothing, unless the texts spell one key |
| `KeyRotation.RotateSettingsInterrupted` | pkg/repository/account_ai_settings/account_ai_settings.go:162-253 | the same for the AI settings |

## Left out

- SQL text, the SQLite driver, bolt, raft's elections and transport: raft's committed log is given, and a statement is a deterministic step that commits or rolls back.
- SQLite's last insert id after an update or delete, which is that of the connection's latest insert and so can come from a node-local one: the id is taken as a function of the replicated tables.
- Entries of the log store that were never committed: recovery replays the whole tail, which is taken as committed here, as raft's log is.
- What raft applies between its start and recovery, and the other node-local table, async_tasks_uncommitted: it is part of neither the replicated tables nor the carried rows, and no command is taken to read it.
- gzip, AES-GCM, protobuf and JSON: compression and images are inverse pairs, and a text decrypts only under the AES key that encrypted it.
- A log with gaps behind the snapshot: the log is taken as contiguous up to its last index; in the source a failed GetLog leaves a zero entry whose index and term are still recorded (pkg/fsm/fsm_store.go:360-371).
- Recovery.Node.NewestSnapshot: takes the newest snapshot as one that can be opened and decodes; the source skips unopenable ones, back to snapshots whose log may be gone, and ignores a decoding error (pkg/fsm/fsm_store.go:279-299).
- Apply between Snapshot and Persist: they are one step here, while the source reads the database file only in Persist (pkg/fsm/fsm_snapshot.go:24).
- GetAsyncTasksLogs returns nothing in the source, so recovery carries no async tasks (pkg/shared_repo/shared_repo.go:189-194).
- RunMigrations is a fixed function that is the identity on every state reached from a migrated one.
- StateMachine.FsmStore.Restore: speaks of the open database; what is left of the file on disk after a failed Restore is not modelled.
- Operating-system errors of the recovery files, other than the process dying at that point.
- Snapshot images and table ids beyond int64; other 64-bit overflow than the ledger's and the codec's.
- Provider, model, prompt, payment and date columns of the ledger, UpdateAutoTopup and GetLedger.
- Failing SQL queries: every SELECT succeeds; only writes, batches and whole runs fail.
- Concurrent ApplyDelta calls, whose balance updates can overwrite each other, and writes that are applied although the call reports an error.
- Time zones with changing offsets: the calendar is that of a fixed offset.
- A clock that runs backward under the alert throttle, and the saturation of Go's time differences.
- Cron details: parsing, how Next searches for a tick, and sub-second truncation of fixed delays.
- Result channels of BlockQueue and effectors that block, among them nested submissions once the pending buffer is full.
- ConnectionPool.NoPanic: covers the channel operations only; factories and connections that panic or are nil are not modelled, nor is a writer's priority on the read-write lock.
- Alert bodies: truncation, sanitising of details, environment names.
- Credential scopes, and the CRUD and list queries of all repositories.
- DeleteExecutionLogs, BatchInsert, GetAllTasks and the body of InsertAsyncTasksLogs: the same batch loops again.
- BatchByBytes and the dollar conversions, which are floating point, and Debounce.
