# Protocols of the potato utility library, modelled and proved in Dafny

The repository wraps drivers for databases, message brokers, caches and object stores. Most of
it is plumbing, but several places hold real protocols. This project models those and proves
what they keep, over every input, every run or every interleaving.

- **Migration runner and lock** (`MigrationVersions`, `MigrationRunner`, `MigrationDatabase`,
  `MigrationCluster`, `MigrationLease`, `MigrationHistory`, `MigrationProgress`). Version names and
  their order, the resumable machine over `schema_migrations`, its imperative form with a fault at any statement,
  and any number of instances with crashes, their own clocks and a lease lock in a table: what no
  run can break, and what an instance gets done when nothing fails.
- **Delayed queue** (`DelayQueue`, `DelayDaemon`). A sorted set and a list moved by an atomic
  script, the queue registry, and one pass of the daemon with its ten worker slots.
- **Channel protocols** (`StreamPipeline`, `RocketChannel`, `RocketRegistration`,
  `RabbitConnection`, `RabbitConfirm`, `KafkaConsume`, `KafkaRegistry`, `KafkaFrontier`). State machines over
  program counters of any number of threads; libraries and brokers are environment steps.
- **Connection strings** (`DsnTemplate`, `DsnQuoting`, `Dsn`). The template engine, the quoting
  rules of SQL Server and PostgreSQL, and readers written from the two grammars: ODBC
  keyword=value strings with braced values, and the keyword/value strings of section 34.1.1.1
  of the PostgreSQL 16 documentation.
- **Directory rename** (`ObsRename`). Copy, then delete, with a failure at any point.
- **Bloom filter** (`Bloom`). The wrapping hash and the unique-visitor counter.

`Strings` and `Counting` hold the string operations of Go and a counting function. Every file
has one module of the same name, but for `RocketChannel.dfy`, which holds two. Check the project
with `dafny verify dfyconfig.toml`.

## How the models are built

A concurrent protocol is a `State`, an `Action` type, `Enabled` and `Apply`, and `Play` (or
`Exec`) over a sequence of actions; a theorem about `Play` is about every interleaving of any
length. Each SQL statement or transaction, Redis command or script, map operation and channel
operation is one atomic step, and a crash may come between any two. Where the Go code updates an
object in place there is a class (`Database`, `Redis`, `Operator`, `Bucket`, `Connection`,
`BloomFilter`, `Monitor`) whose methods are proved against specification functions. I/O enters
as parameters: file lines, directory entries, fault patterns, clock offsets, script results.

## What turned out not to hold

Where a property is false of the code, the code is modelled as it is, a concrete run shows the
failure, and the exact condition is proved.

- **Lease lock** (`gormx/migrate/lock.go`). The comment at lines 138-139 rests on the threshold
  being far larger than a migration. What matters is LockTimeout plus clock skew: the lock is
  exclusive in all runs if and only if that sum is at most a third of the threshold, 100 seconds
  (`MigrationLease.LeaseSafeIff`); the default timeout of 60 seconds leaves 40 for the skew. Even
  without exclusion the committed history stays a prefix of the plan
  (`MigrationHistory.HistoryIsPlanPrefix`).
- **RabbitMQ reconnect**. After a failed dial of its own the daemon goes back to the old notify
  channel, which is closed; if a push reconnects in between, the stale notification marks the new
  connection not ready and the daemon dials a second one beside it. Close then leaves the first
  one open. A run is sound if isReady is only cleared for the current notify channel, whatever
  dials fail; clearing it over a live connection can always be followed by a second dial; and all
  runs are sound if and only if the daemon's own dials cannot fail or nobody else dials.
- **RabbitMQ on-demand reconnect**. `tryReConnect(false)` never retries a dial. If AttemptTimes is
  more than one (the default is 3), a call whose dial failed waits one tick and reports a connection;
  otherwise it returns the error. A report comes from a connection that was seen if and only if no
  dial of the call failed and it did not find the operator closed; all reports are honest if and only
  if on-demand dials cannot fail, nobody but the daemon connects, or AttemptTimes is at most one.
- **RabbitMQ confirms**. A push that gives up on Close returns an open channel with its
  confirmation still due; a later push reads it. Matched if and only if the operator is not
  closed under way. A channel rebuilt by `recheck` is not put into confirm mode again: a push can
  be answered if and only if its channel was open and still in confirm mode when it was borrowed.
- **Kafka commit frontier**. `CancelConsume` removes the reader before the cancel channel. One that
  overlaps a consumer's claim before its `getReader`, or another `CancelConsume`, can leave a
  reader that two consumers get, and then a message is lost. A loop that ends by its recovered
  panic frees the key and leaves its reader registered, with the same outcome. Without such overlaps
  and panics no two loops ever share a reader and the frontier holds, with any number of cancels
  and restarts.
- **Delayed-queue registry**. A queue is in the shared registry if and only if the first push to
  it got through `SADD`; a failed one is never repeated by that operator.
- **Directory rename**. Loses objects without any fault if the source key ends in several
  slashes or one directory lies inside the other; keeps everything if and only if neither is so.
- **PostgreSQL quoting**. `quotePG` looks for the space, the quote and the backslash only. A value
  is read back if and only if it is non-empty and either holds one of these or holds no white
  space at all; only the very last value may be empty.

## Assumptions

Distinct `lockedBy` values. Where a theorem says so, each renewal starts on time and commits
within its timeout. `MAX(version)` compares bytes. A lock-table or migration-table statement is
atomic. Unregistered database types take no lock, as in the code, and the history theorem covers
them. A recursive listing of a directory is a snapshot in any order; when the two directories lie
apart, copying cannot change what is listed. A rename has no concurrent writer. A callback of a
stream sends a fixed sequence unless it panics. One Kafka partition. The drain bound by
passes counts passes whose scripts reach Redis. SQL and script texts are opaque.

## Model

| member | source | states |
|---|---|---|
| MigrationVersions.VersionShape | gormx/migrate/migrate.go:351-358 | isMigrationVersion, which splits at underscores, accepts exactly the strings of the shape YYYYMMDD_NNN |
| MigrationVersions.NameVersionInverse | gormx/migrate/migrate.go:320-337 | extractNameVersion returns v exactly for the names v + "_" + non-empty description + ".sql" with v well formed |
| MigrationVersions.NameVersionRoundTrip | gormx/migrate/migrate.go:320-337 | building such a name and extracting its version gives the version back, also when the description holds underscores |
| MigrationVersions.VersionOrder | gormx/migrate/migrate.go:261-266 | on well-formed versions byte order is numeric order on (date, sequence), and equality is equality of both numbers |
| MigrationVersions.HeaderIsFirstDeclaration | gormx/migrate/migrate.go:296-310 | the first header line that is neither blank nor a plain comment decides the declared version, whatever follows |
| MigrationVersions.ParseHeaderVersion | gormx/migrate/migrate.go:286-311 | the scanning loop returns what that reading of the header says |
| MigrationVersions.LoadedAs | gormx/migrate/migrate.go:246-283 | a file named by a version is loaded under the version that its header declares if that is well formed, else under the one of its name, unless its name starts like a baseline: then, or under a second baseline name in a DDL directory, it is not loaded |
| MigrationVersions.SortFiles | gormx/migrate/migrate.go:261-266 | the sorted list is a permutation of the files, strictly increasing by (version, name) |
| MigrationVersions.LoadMigrationFiles | gormx/migrate/migrate.go:235-268 | the loader returns exactly the accepted directory entries, sorted, all of the directory's kind and well formed, with at most one DDL baseline; for each file named by a version it returns the one file with the version of LoadedAs, or none |
| MigrationVersions.OneDdlBaseline | gormx/migrate/migrate.go:240-244 | skipping every other baseline name leaves at most one baseline in a DDL directory |
| MigrationRunner.LatestIsMaximum | gormx/migrate/migrate.go:468-475 | the latest version is recorded (or empty), and no recorded version of the kind is above it |
| MigrationRunner.PendingMembers | gormx/migrate/migrate.go:411-428 | the main loop executes a file exactly if it is no baseline, lies above the maximum, and is the first by name of its version |
| MigrationRunner.PendingRises | gormx/migrate/migrate.go:411-428 | executed versions strictly increase from the maximum on, and only files of the kind run |
| MigrationRunner.AboveLatestIsNew | gormx/migrate/migrate.go:416-422 | a version above the maximum is never recorded already, so isApplied cannot answer yes there |
| MigrationRunner.ResumeEquivalence | gormx/migrate/migrate.go:378-430 | after any prefix of committed files a new run has exactly the remaining plan, and the same verdict |
| MigrationRunner.RerunExecutesNothing | gormx/migrate/migrate.go:378-430 | a run after a complete run executes nothing |
| MigrationRunner.StagesEqualOneRun | gormx/migrate/migrate.go:378-430 | running the files in two stages split by version executes what one run executes |
| MigrationRunner.KeysStayUnique | gormx/migrate/migrate.go:456-461 | no run inserts a (version, type) key twice |
| MigrationRunner.RunResumes | gormx/migrate/migrate.go:192-229 | resume equivalence for the whole of Run, wherever in the DDL or seed phase the first run stopped |
| MigrationDatabase.FindBaseline | gormx/migrate/migrate.go:383-393 | the scan reports an error exactly if there is more than one baseline, and otherwise returns the only one |
| MigrationDatabase.Database.ExecFile | gormx/migrate/migrate.go:437-464 | one transaction: succeeds exactly for a survivable fault and a new key, and then appends exactly one row; otherwise the table is as before |
| MigrationDatabase.Database.RunPending | gormx/migrate/migrate.go:411-429 | the loop commits the plan up to its first fault and leaves exactly those rows; it errs exactly if it stopped short |
| MigrationDatabase.Database.RunMigrationFiles | gormx/migrate/migrate.go:378-430 | for every pattern of faults the executed files are the plan up to its first fault, the table grows by exactly their rows, and the error cases are exactly the stated ones |
| MigrationDatabase.Database.Run | gormx/migrate/migrate.go:192-229 | DDL then seed, with a fault at any statement, the two version queries included: the plan up to its first fault; only a DDL fault is returned as an error |
| MigrationDatabase.FaultyRunsCompose | gormx/migrate/migrate.go:192-229 | what a faulty run committed followed by the plan of the next run is the original plan |
| MigrationLease.LeaseStep | gormx/migrate/lock.go:174-246 | every statement of every instance keeps the lease invariant: each holder owns the row, and its locked_at is recent enough |
| MigrationLease.StaleIsDead | gormx/migrate/lock.go:199-206 | a compare-and-delete that judged a row stale never names the row of a live holder |
| MigrationLease.LeaseSafety | gormx/migrate/lock.go:138-246 | in every run there is at most one holder, the row is its own, and by its clock never older than LockTimeout plus two thirds of the threshold |
| MigrationLease.ForeignRowsAreSafe | gormx/migrate/lock.go:201-204 | whatever the timing, only a compare-and-delete naming its locked_at changes another instance's row; a former holder never refreshes or deletes it |
| MigrationLease.SlowHolder | gormx/migrate/lock.go:217-234 | a run of allowed timing in which a live holder's row reaches the age LockTimeout plus two thirds of the threshold |
| MigrationLease.LeaseSafeIff | gormx/migrate/lock.go:140-246 | mutual exclusion holds in all runs exactly if LockTimeout plus clock skew is at most a third of the stale threshold |
| MigrationHistory.CommitsAreNext | gormx/migrate/migrate.go:378-430 | whatever an instance knows from earlier reads, a statement leaves the table alone or records the next step of the plan |
| MigrationHistory.NothingSkipped | gormx/migrate/migrate.go:411-415 | every file at or below the recorded maximum that the plan contains is recorded |
| MigrationHistory.HistoryIsPlanPrefix | gormx/migrate/migrate.go:192-229 | for any number of instances, crashes, lost leases and failures at any point, the committed rows are a prefix of the single-instance plan, and a new run would commit exactly the rest |
| MigrationHistory.EachVersionOnce | gormx/migrate/migrate.go:456-461 | over all instances no version of a kind is recorded twice |
| MigrationHistory.ScriptsRunAloneInOrder | gormx/migrate/lock.go:184-246 | under the lease condition no script runs while another instance holds the lock, and the running script is the next, unrecorded step of the plan |
| MigrationProgress.ScanCompletes | gormx/migrate/migrate.go:411-428 | from any file on, statements that do not fail commit exactly what is pending behind it |
| MigrationProgress.WorkCompletes | gormx/migrate/migrate.go:192-229 | from any table, statements that do not fail commit exactly the plan of Run, and then the work is over |
| MigrationProgress.LockIsTaken | gormx/migrate/lock.go:174-214 | an instance gets the lock when there is no row, or one that its clock calls stale |
| MigrationProgress.LockGoesOn | gormx/migrate/lock.go:174-214 | a step inside Lock stays in its loop, with the same deadline, or gets the lock; only a stop leaves it otherwise |
| MigrationProgress.WaiterGetsLock | gormx/migrate/lock.go:174-214 | wherever Lock is in its loop, whatever the others do meanwhile: if the row is free or stale before the deadline, the same call can take the lock |
| MigrationProgress.FreshRowIsWaitedFor | gormx/migrate/lock.go:198-213 | an instance that judged the row fresh waits and tries again: once the row is removed in time, it gets the lock in the same call |
| MigrationProgress.CrashedHolderIsReplaced | gormx/migrate/lock.go:198-206 | a crashed holder does not block the others: once its row is stale, the next instance takes the lock |
| MigrationProgress.HolderGoesOn | gormx/migrate/lock.go:216-246 | a holder keeps renewing until its work is finished, unless it stops |
| MigrationProgress.RenewalWorks | gormx/migrate/lock.go:217-234 | when its tick is due a holder can set its row to its current clock; a failed renewal is due again later |
| MigrationProgress.LateRenewalLands | gormx/migrate/lock.go:217-246 | a renewal under way at Unlock may still refresh the own row until Unlock has removed it |
| MigrationProgress.FailureEndsWork | gormx/migrate/migrate.go:376-461 | a statement that fails ends the work and changes nothing |
| MigrationProgress.LockIsFreed | gormx/migrate/lock.go:237-246 | Unlock removes the own row, also while a renewal is under way |
| MigrationProgress.OneInstanceCompletes | gormx/migrate/migrate.go:192-229 | an instance that finds a free or stale lock can commit the whole plan and leaves no lock row behind |
| DelayQueue.ZAdd | goredis/queue.go:241-244 | adding a member leaves exactly one entry for it, with the new due time, and every other entry as it was |
| DelayQueue.MovesSmallestDue | goredis/queue.go:204-212 | the script moves exactly the smallest due entries, at most 100, in order, and nothing else |
| DelayQueue.StepConserves | goredis/queue.go:226-272 | each push, pop and migration changes pending plus ready by exactly what it adds or takes |
| DelayQueue.RunConserves | goredis/queue.go:202-272 | over every interleaving pending plus ready plus popped is what was there plus what was pushed; pushing a pending message again adds nothing |
| DelayQueue.ReadyInOrder | goredis/queue.go:202-272 | first in, first out over every interleaving: what is popped, in order, followed by what is left is what was ready followed by what arrived, message by message or batch by batch |
| DelayQueue.NoOvertaking | goredis/queue.go:204-212 | a pending message is never overtaken by one that is due later |
| DelayQueue.NoneMovesEarly | goredis/queue.go:203-212 | every moved message is due by the clock of the very script that moves it |
| DelayQueue.DrainBound | goredis/queue.go:202-212 | among any pops, direct pushes, other migrations and delayed pushes for later, each migration from a given time on clears 100 of the messages due by then, or all that are left |
| DelayQueue.DrainExact | goredis/queue.go:202-212 | and clears no more when no migration has an earlier clock and no due message is pushed again for later |
| DelayQueue.DrainedAfter | goredis/queue.go:202-212 | n due messages are gone once n/100 migrations, rounded up, have come, whatever is popped, pushed directly or pushed for later in between |
| DelayDaemon.QueuesAreIndependent | goredis/queue.go:202-272 | however commands on many queues interleave, each queue sees a run of its own operations and nothing else |
| DelayDaemon.Operator.PushDelayMessage | goredis/queue.go:226-246 | success and failure cases, the registry effect, and the one ZADD on success only |
| DelayDaemon.Operator.GetMessage | goredis/queue.go:269-272 | takes the head off the ready list and leaves the rest in order, or reports that there is none |
| DelayDaemon.Operator.PushMessage | goredis/queue.go:262-266 | puts the message behind everything that is ready |
| DelayDaemon.RegisteredIff | goredis/queue.go:228-239 | an operator registers a queue exactly if its first push to it got through SADD; later pushes never repair it |
| DelayDaemon.OrphanedQueue | goredis/queue.go:231-236 | one failed SADD and a later successful push leave a queue that the shared registry does not name |
| DelayDaemon.PassStep | goredis/queue.go:134-158 | every step of a pass keeps the slot count equal to the workers holding one, and at most ten |
| DelayDaemon.PassProgresses | goredis/queue.go:134-158 | a pass that has not returned can always go on, and every step uses up some of a finite amount of work |
| DelayDaemon.PassVisitsAll | goredis/queue.go:134-158 | in every schedule at most ten migrations are in flight; a pass that returns uncancelled has migrated every queue exactly once and returned every slot |
| DelayDaemon.CancelledPassReturns | goredis/queue.go:138-158 | a pass whose workers are through can be cancelled, and then returns and leaves the remaining queues alone |
| DelayDaemon.PassMigrates | goredis/queue.go:134-158 | a pass that completes brings every known queue at least one migration, whatever commands of others come in between |
| DelayDaemon.DrainedByPasses | goredis/queue.go:134-212 | after n/100 uncancelled passes, rounded up, no known queue holds a message due by then, if none had more than n of them: whatever others pop, push directly, push for later or migrate in between |
| StreamPipeline.Step | streams/stream.go:281-300 | every step keeps the invariant on slots, wait group, pipe and what was delivered |
| StreamPipeline.PipelineSafety | streams/stream.go:275-302 | for every schedule at most `workers` callbacks are in flight and at most `workers` values in the channel, nothing is sent on the closed pipe, it closes only after all callbacks returned, and the output is the multiset of what the callbacks sent; a panicking callback loses only its own rest |
| StreamPipeline.PipelineComplete | streams/stream.go:275-302 | without panics the closed and drained pipeline delivered exactly all outputs, in source order for one worker |
| StreamPipeline.SequentialOrder | streams/stream.go:276-300 | with one worker the output is the in-order concatenation of what the callbacks sent, at every point and past panics |
| StreamPipeline.PipeOrder | streams/stream.go:275-302 | what has been sent keeps its place and comes out in that order, for any number of workers |
| StreamPipeline.PipelineEnds | streams/stream.go:281-300 | as long as the consumer takes, some step other than a panic is possible until everything is done, and no schedule goes on for ever |
| StreamPipeline.WorkersAreUsed | streams/stream.go:281-284 | wherever a schedule has come to, as long as fewer than `workers` slots are held the next item gets its callback |
| StreamPipeline.PanicIsContained | streams/util.go:17-34 | a callback may panic at any point: it sends nothing more, its slot becomes free, and the other callbacks and the channel are as before |
| StreamPipeline.DeliveredEmit | streams/stream.go:290-297 | a value sent by a running callback joins the delivered output exactly once, whatever other callbacks do |
| StreamPipeline.DeliveredStep | streams/util.go:21-34 | while the pipe is open no step, the recovered panic of a callback included, loses or repeats anything that was sent |
| RocketChannel.ChannelSafety | rocketmqx/rocketmq.go:387-424 | in every interleaving nothing is sent on or closed twice, the channel closes at most once and never holds more than ten batches, and a handler answers ConsumeSuccess exactly if its batch went into the channel, once |
| RocketChannel.ChannelOrder | rocketmqx/rocketmq.go:388-414 | batches are received in the order in which they were sent |
| RocketChannel.RefusedOnlyWhenClosing | rocketmqx/rocketmq.go:406-420 | in every interleaving a handler answers that a batch is to be retried only after a close of the channel or of the operator has begun |
| RocketChannel.CloserIsNotBlocked | rocketmqx/rocketmq.go:396-420 | a closer waiting for the write lock waits a bounded number of steps, none of which needs a receiver |
| RocketChannel.HandlerDelivers | rocketmqx/rocketmq.go:406-420 | while the channel is open and has room a handler call delivers its batch and answers success |
| RocketChannel.CloserCloses | rocketmqx/rocketmq.go:396-404 | the first closer closes done and the channel once no reader is in the way |
| RocketChannel.ClosersReturnAfterClose | rocketmqx/rocketmq.go:396-404 | whichever call of closeFn returns first, in every interleaving done and the channel are closed by then |
| RocketChannel.WaitingCloserReturns | rocketmqx/rocketmq.go:396-404 | once the channel is closed every waiting call of closeFn can return |
| RocketRegistration.ClosedIffRemoved | rocketmqx/rocketmq.go:426-466 | whenever the consumer is removed around the registration of its closer, the channel is closed exactly if the consumer was removed, and its closer is still registered exactly if not |
| RabbitConnection.LockPlay | rabbitmqx/rmq.go:403-425 | in every run connMu has one owner, and Close and its marks keep step |
| RabbitConnection.NeverReopened | rabbitmqx/rmq.go:1411-1437 | once Close has returned in any run, whatever dials fail, no connection is dialled or opened again however the run goes on |
| RabbitConnection.ConnectionSafety | rabbitmqx/rmq.go:396-460 | whatever dials fail and however many threads reconnect: in a run that clears isReady only for the current closeConnNotify until Close, a dial starts only when no connection is live, at most one is live, and none after Close |
| RabbitConnection.StaleNoticeBreaks | rabbitmqx/rmq.go:454-455 | conversely, wherever a run has come to before Close, clearing isReady over a live, ready connection can be followed by a dial beside it |
| RabbitConnection.DaemonReconnects | rabbitmqx/rmq.go:403-457 | wherever a run has come to before Close: when the connection that the daemon watches is lost, the daemon can replace it and watch the new one |
| RabbitConnection.EarlyLossIsNoticed | rabbitmqx/rmq.go:416-457 | a connection that is lost before isReady is set is not missed: isReady is set, and the daemon can notice the loss |
| RabbitConnection.DaemonEndsOnlyAfterClose | rabbitmqx/rmq.go:403-459 | in every run the daemon ends only after Close has marked the operator and closed closeCh |
| RabbitConnection.WaitsEndOnClose | rabbitmqx/rmq.go:435-453 | wherever a run has come to: once closeCh is closed the daemon and every waiting call can end, with an error |
| RabbitConnection.LeakedConnection | rabbitmqx/rmq.go:450-457 | otherwise a stale disconnect notification leads to two live connections, one of which survives Close |
| RabbitConnection.SoundIff | rabbitmqx/rmq.go:396-460 | the connection properties hold in all interleavings exactly if the dials of the daemon itself cannot fail or nobody else dials |
| RabbitConnection.ConnectedReport | rabbitmqx/rmq.go:403-459 | in every run a call that reports a connection saw isReady, with a connection in place, exactly if none of its dials failed and it did not find the operator closed |
| RabbitConnection.FailedDialReport | rabbitmqx/rmq.go:427-446 | in every run a call has at most one failed dial; until Close signals, a call whose dial failed reports a connection exactly if AttemptTimes is more than one |
| RabbitConnection.ConnectedWithoutConnection | rabbitmqx/rmq.go:427-446 | with AttemptTimes above one a call whose dial failed reports a connection although there is none |
| RabbitConnection.HonestIff | rabbitmqx/rmq.go:403-459 | in all interleavings a call that reports a connection saw one or found the operator closed, exactly if no on-demand dial can fail, nobody but the daemon connects, or AttemptTimes is at most one |
| RabbitConnection.CallGivesUp | rabbitmqx/rmq.go:427-440 | wherever a run has come to: a call whose dial failed can only return the error if AttemptTimes is at most one, and else waits for its tick |
| RabbitConfirm.Step | rabbitmqx/rmq.go:464-497 | every step keeps lent channels private to their push and idle channels free of confirmations while the operator is open |
| RabbitConfirm.ConfirmsMatch | rabbitmqx/rmq.go:464-594 | while the operator is open idle confirm channels have nothing unread or outstanding, and every push reads its own confirmation, also after timeouts, nacks and dying channels |
| RabbitConfirm.PushIsAnswered | rabbitmqx/rmq.go:478-495 | wherever a run has come to while the operator is open: a push whose confirmation is outstanding can be answered, reads exactly that answer, ack or nack, and gives back a clean channel |
| RabbitConfirm.AnsweredIff | rabbitmqx/rmq.go:505-533 | wherever a run has come to, a push that borrows a channel now can be answered exactly if the channel is open and still in confirm mode |
| RabbitConfirm.ReturnedDirty | rabbitmqx/rmq.go:470-473 | a push that gives up because of Close returns an open channel whose confirmation is still due |
| RabbitConfirm.MatchedIff | rabbitmqx/rmq.go:464-594 | confirmations match in all interleavings exactly if the operator is not closed while pushes go on |
| RabbitConfirm.GivenBack | rabbitmqx/rmq.go:560-576 | wherever a run has come to: a channel given back goes to the next push if it is open, and otherwise leaves the pool for good |
| RabbitConfirm.TimeOutClosesChannel | rabbitmqx/rmq.go:474-477 | a channel whose confirmation timed out is never lent again, so no late confirmation is read by another push |
| RabbitConfirm.NoChannelIsLost | rabbitmqx/rmq.go:541-576 | in every interleaving, once no push is under way every channel is back in the pool or out of it for good |
| RabbitConfirm.PushCanEnd | rabbitmqx/rmq.go:464-497 | wherever a run has come to, a push can end when its publish fails, its time runs out, its channel dies or the operator is closed, and has read nothing then |
| KafkaConsume.Step | kafkax/kafka.go:549-597 | every fetch, write, commit, cancel, restart and rebalance keeps the frontier of each reader and of the committed offset |
| KafkaConsume.CommittedIsWritten | kafkax/kafka.go:541-597 | across cancels, crashes, failed commits, restarts and rebalances every message with a value below the committed offset was written to a consumer channel, if no loop starts on a used reader |
| KafkaConsume.DeliveredUpTo | kafkax/kafka.go:549-597 | one loop can write any prefix of any partition, whichever commits fail; the next commit that succeeds covers the failed ones |
| KafkaConsume.LostMessage | kafkax/kafka.go:585-595 | two loops on one reader can commit past a message that neither wrote |
| KafkaRegistry.OneLiveConsumer | kafkax/kafka.go:527-537 | in every interleaving of consume and CancelConsume a key has at most one consumer that was not cancelled, and a consumer is never given a reader that is already closed |
| KafkaRegistry.NoReaderIsLost | kafkax/kafka.go:651-665 | in every run of one process every reader ever made is the registered one or closed, whatever overlaps |
| KafkaRegistry.CancelClosesReader | kafkax/kafka.go:651-665 | in a serial run a consumer that was cancelled has its reader closed |
| KafkaRegistry.CancelThenConsume | kafkax/kafka.go:651-665 | wherever a run has come to, an undisturbed CancelConsume cancels the consumer of the key and closes the registered reader, and the next consumer makes its own |
| KafkaRegistry.SerialRunsOwnReaders | kafkax/kafka.go:527-665 | any number of consumers, cancels, restarts and crashes: if no CancelConsume overlaps another one, or a consume between its claim and its reader, and no live consumer's loop panics, no two loops are ever given one reader, stopped ones included |
| KafkaRegistry.ClaimOverlapShares | kafkax/kafka.go:651-665 | wherever a run has come to: a cancel under way while a live consumer has no reader yet can leave that reader to the next consumer |
| KafkaRegistry.CancelOverlapShares | kafkax/kafka.go:651-665 | wherever a run has come to: two overlapping cancels can cancel a consumer without closing its reader, which the next consumer is then given |
| KafkaRegistry.PanicShares | kafkax/kafka.go:543-547 | wherever a run has come to: a live consumer whose loop panics frees the key and leaves its reader registered, which the next consumer is then given |
| KafkaRegistry.OwnReadersIff | kafkax/kafka.go:527-665 | readers are owned in all interleavings exactly if there is at most one consume call, or nobody cancels and no loop panics |
| KafkaFrontier.SerialFrontier | kafkax/kafka.go:527-665 | the commit frontier over the registry: in every run in which cancels overlap neither each other nor a claim and no live consumer's loop panics, every message with a value below the committed offset was written to a consumer channel |
| KafkaFrontier.RestartResumes | kafkax/kafka.go:527-549 | after a crash all loops are gone, and a new consumer goes on at the committed offset |
| KafkaFrontier.LostMessage | kafkax/kafka.go:585-595 | otherwise a cancelled loop and its successor on the same reader can lose a message for good |
| KafkaFrontier.PanickedMessage | kafkax/kafka.go:543-547 | without any cancel, a loop that panics over a message and its successor on the same reader can lose that message |
| KafkaFrontier.FrontierIff | kafkax/kafka.go:527-665 | the frontier holds on every partition and in every run exactly if there is at most one consume call, or nobody cancels and no loop panics |
| DsnTemplate.OrderIndependent | gormx/dsn.go:304-310 | replacement does not depend on the order in which the map yields its entries |
| DsnTemplate.ValuesAreVerbatim | gormx/dsn.go:303-310 | each value goes verbatim into a slot that the template alone determines; inserted values are never expanded again |
| DsnTemplate.SegmentReady | gormx/dsn.go:294-301 | the loop over the map answers exactly whether every placeholder in the segment has a value |
| DsnTemplate.ExpandOptional | gormx/dsn.go:269-291 | the expansion loop terminates and computes the left-to-right reading of the template |
| DsnTemplate.SegmentKeptIffReady | gormx/dsn.go:275-290 | an optional segment is kept, without its brackets, exactly if all its placeholders have values; else it is dropped whole |
| DsnTemplate.UnclosedIsKept | gormx/dsn.go:280-284 | an opening bracket that is never closed is text like any other |
| DsnTemplate.Substitute | gormx/dsn.go:304-310 | whatever order the map yields, the result is the replacement by any listing of its entries |
| DsnQuoting.MssqlValueInverse | gormx/dsn.go:169-174 | every string survives quoteMSSQL: the ODBC value grammar reads it back |
| DsnQuoting.MssqlLeavesPlain | gormx/dsn.go:169-174 | a value is left as it is exactly if it is empty or has no white space at its ends and no reserved character |
| DsnQuoting.MssqlRoundTrip | gormx/dsn.go:192-194 | a chain of printed pairs is read back unchanged, whatever the values contain |
| DsnQuoting.PgValueInverse | gormx/dsn.go:155-166 | a value that is non-empty and either quoted or free of white space is read back |
| DsnQuoting.ValueLost | gormx/dsn.go:161-166 | any other value is not read back: it is cut at its white space, or the next field is read in its place |
| DsnQuoting.PgRoundTripIff | gormx/dsn.go:187-189 | a PostgreSQL chain returns all its fields exactly if each value is recoverable; only the last may be empty |
| Dsn.Render | gormx/dsn.go:232-246 | rendering computes the template with each optional segment decided and each encoded value in its place |
| Dsn.PgRendered | gormx/dsn.go:85-98 | the PostgreSQL text is the template with the encoded values, and the search path exactly if a schema is set |
| Dsn.MssqlRendered | gormx/dsn.go:102-112 | the SQL Server text is the template with the encoded values |
| Dsn.PgInFull | gormx/dsn.go:88 | the PostgreSQL text written out: each value behind its keyword, the host as it is, the search path exactly with a schema |
| Dsn.MssqlInFull | gormx/dsn.go:103 | the SQL Server text written out: each value behind its keyword, the host as it is |
| Dsn.AppendArgs | gormx/dsn.go:249-266 | each argument follows behind one separator of its own; without arguments nothing is appended |
| Dsn.NumberInverse | gormx/dsn.go:241 | the port text stands for the port |
| Dsn.SqlserverReturnsEverything | gormx/dsn.go:103 | for a plain host and plain argument names the ODBC reader gets back every user, password, database and argument value, for all strings |
| Dsn.PostgresReturnsEverythingIff | gormx/dsn.go:88 | for a plain host and plain argument names the reader of section 34.1.1.1 gets back every value exactly if all are recoverable |
| Dsn.EmptyPasswordLost | gormx/dsn.go:162-164 | an empty password is not read back: what follows is read in its place |
| Dsn.Connection.GenDsn | gormx/dsn.go:213-229 | an explicit or earlier DSN wins; without dialect, host or port the result is empty; else the generated text is returned and kept |
| ObsRename.Bucket.DeleteDirectory | obsx/obs.go:660-694 | of the keys that start with the name and one slash, however many slashes were given, removes exactly those whose removal does not fail; succeeds exactly if the listing and all removals do |
| ObsRename.Bucket.RenameDirectory | obsx/obs.go:617-639 | for every pattern of faults the bucket ends as some listed keys copied and, only after all copies, some keys of the old directory removed; it succeeds exactly if nothing failed; when the directories lie apart nothing is lost, and on success each p/rel is at q/rel, nothing is left under p/, and the rest is as it was |
| ObsRename.NothingLostAnywhere | obsx/obs.go:622-639 | at every point of failure each object but the marker still has its content under its old or its new key |
| ObsRename.OutsideUnchanged | obsx/obs.go:634-639 | at every point of failure keys outside both directories are unchanged |
| ObsRename.SuccessMoves | obsx/obs.go:622-639 | on success each src + rel is at dst + rel, nothing is left under src, and nothing else changed |
| ObsRename.KeepsEverythingIff | obsx/obs.go:622-639 | a rename of the directory p, written with n slashes, to q without faults keeps every object of every bucket exactly if n is one and neither of p/ and q/ starts the other |
| ObsRename.MovesPlainly | obsx/obs.go:622-639 | for p written with one slash and q with any number the move leaves each p/rel at q/rel, nothing under p/, and every other key unchanged |
| Bloom.MaskIsRemainder | bloom/bloom.go:60 | masking with 2^n - 1 is the remainder modulo 2^n |
| Bloom.Hash | bloom/bloom.go:55-61 | the wrapping loop returns the exact polynomial modulo 2^25, the same for 32-bit and 64-bit words |
| Bloom.BloomFilter.Add | bloom/bloom.go:28-34 | adds exactly the six bits of the value, all below the table size |
| Bloom.BloomFilter.Contains | bloom/bloom.go:36-48 | answers yes exactly for a non-empty value all of whose bits are set |
| Bloom.NoFalseNegatives | bloom/bloom.go:28-48 | after any run of Adds every added value is found exactly if it is not empty |
| Bloom.Monitor.HandleVisitor | ginmetrics/metricmiddle.go:127-137 | one request: an unknown IP is added and counted, a known one changes nothing |
| Bloom.CounterIsCounted | ginmetrics/metricmiddle.go:127-137 | in any order of requests the visitor counter grows by exactly the number of counted requests |
| Bloom.CountedAtMostOnce | ginmetrics/metricmiddle.go:127-137 | in any order of requests a non-empty IP is counted at most once; requests without an IP are counted every time |
| Bloom.CounterBound | ginmetrics/metricmiddle.go:127-137 | the counter never exceeds the number of distinct unknown IPs plus the requests without one |

## Left out

- `advisoryLocker.Lock`: the retry loop around session locks; who holds such a lock is decided by the database, and releasing it depends on the driver's connection pool.
- Statements that reach the database after their client has stopped: a crashed instance is taken to send nothing more, but for a renewal under way at Unlock.
- Start-up back-off and timers of the delayed-queue daemon, slow-query logging, and the per-queue timeout of a migration.
- The copies of the delayed queue for single, cluster and sentinel clients: the same algorithm under another key template.
- DSN dialects other than SQL Server and PostgreSQL: their escaping is `net/url` code or none at all.
- `hostAuthority` and hosts that need quoting: both readers are stated for a host that its dialect would not quote.
- Renaming a single object: one copy and one delete.
- A listing that sees objects created while it runs: only matters when one directory lies inside the other, where objects are lost already with a snapshot.
- Kafka consumption with a handler: a later successful commit covers an earlier failed message, so there is no frontier to keep. Several partitions are several copies of the model.
- Two `ConsumeWithChannel` calls on one key, and Close racing with a consumer that is not yet stored.
- RabbitMQ declare and bind cache, pool limits, consumer channels, and the retry loop around the push cores.
- `ForEach` of the streams package: the same worker pool without an output channel.
- Sequence-only stream operators, date formatting, configuration, logging, HTTP, Mongo, Elasticsearch and Kubernetes helpers, encryption wrappers.
- False positives of the Bloom filter: an IP whose six bits were set by others is not counted; no rate is stated. Replacing the filter by a second `Use` starts a new count.
- `EnsureDatabase`: creating the database and schema before the run.
