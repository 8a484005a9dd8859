# Verification of the core of compkg

A Dafny model of the hardest parts of the Go library compkg, with proofs about it: the goroutine
pool, the local fallback queue and the executor of the scheduler client, traffic accounting,
configuration diff and decryption, the Redis lock and its random ids, the trace map, and ECB
encryption. `dafny verify dfyconfig.toml` checks all of it.

What runs concurrently is modelled as a state machine. A step is one access to shared state (one
atomic operation, one critical section or one channel operation), a run is any finite sequence of
enabled steps, and the theorems speak of every state of every run. What one goroutine does by itself,
or under a lock, is a class or a method with the loops of the original, proved against a specification
that further lemmas are about. Files, clocks, Redis, the database, random words and the outcomes of
remote calls are parameters or nondeterministic. Where operations may fail, a constant `reliable` of the
class in question rules failures out, so that contracts can also say what happens without any.

| file | models |
|---|---|
| `GopoolProtocol.dfy` | the pool's goroutines as an interleaved step system: no lost wakeup, exactly-once execution, counters, worker bound, termination |
| `GopoolGrowth.dfy` | when a call starts a worker, and how far the pool grows |
| `GopoolTaskList.dfy` | the linked task list on the heap, with nodes recycled through one free pool |
| `SpoolNames.dfy`, `SpoolDisk.dfy`, `SpoolIndex.dfy`, `SubmitSpool.dfy` | the disk queue over a directory whose operations may fail or be cut off: index, eviction, ack, reload, crashes |
| `SubmitBuffer.dfy` | the memory queue, EnqueueTask and the two flush rounds |
| `FallbackMem.dfy`, `FallbackDisk.dfy` | each level of the fallback queue with its history: what every critical section keeps |
| `FallbackQueue.dfy` | both levels, their callers, one flusher and restarts over whole runs |
| `FallbackShows.dfy`, `FallbackRounds.dfy`, `FallbackRefinement.dfy` | the methods of the two queues, called beside a state of FallbackQueue: each call, and each flush round, is enabled steps of it |
| `RetryRounds.dfy` | what rounds of the retry loop achieve once the scheduler can be reached |
| `ExecutorSteps.dfy`, `Executor.dfy` | dispatch, semaphore, cancel table and the message channel of one session: what each step keeps, and whole sessions, also after a failed stream.Send |
| `TrafficLedger.dfy` | byte conservation over interleavings of adds, flushes and rollbacks of several instances |
| `TrafficTracker.dfy` | one tracker: AddUp, AddDown and flushOnce |
| `TrafficFields.dfy`, `TrafficDump.dfy` | hash fields, aggregation into rows, rounding, and the dump into the table |
| `ConfigTree.dfy`, `ConfigDiff.dfy` | settings trees, flatten, prefixes and listeners |
| `ConfigDecrypt.dfy`, `ConfigNormalize.dfy` | decryption with the first fitting key: on values, and in place on the heap |
| `RedisLock.dfy`, `Randn.dfy` | the lease lock and TryLock; rejection sampling of ids |
| `TraceMap.dfy` | the TTL map with its sweeper |
| `Aes.dfy` | padding, ECB CryptBlocks, encrypt and decrypt |
| `MapSums.dfy`, `Strconv.dfy` | sums over maps and lookups; decimal numbers |

## What does not hold

Some expected properties are false of the code. The model keeps the code as it is; a lemma shows the
failure and another the condition under which the property holds.

- Disk-level submissions can repeat or go back: after an acknowledgement that could not delete its file
  (`FallbackQueue.FailedAckRedelivers`, `TwiceDeliveredRun`), after a crash between a submission and its acknowledgement
  (`CrashBeforeAckRedelivers`, `TwiceDeliveredByCrashRun`), and after a restart with a clock behind the numbers in use
  (`NumberTwiceRun`). `DiskFifoExactly` says from which states they cannot: exactly if all that is on disk, and the next
  number, is ahead of all that was delivered.
- One file on disk that does not decode stops the disk level: every round fails to read it, and the records in its batch
  and behind it stay, also those that decode (`RetryRounds.StandsStill`). Rounds in which the scheduler can be reached empty
  the disk level exactly if every record decodes (`EmptiesExactly`, `RetryLoop`).
- A receive loop can block although its session is live: once a stream.Send has failed, the sender has returned and nothing
  cancels the session until the receive loop ends, but that waits for room in the full channel and never calls stream.Recv
  again (`Executor.BlockedRun`, `BlockedForGood`). `EverythingReported` says when all gets reported: exactly if what is owed
  fits into the channel beside what the sender left there; `StuckExactly`: nobody waits in vain while the sender runs.
- With two live runs of the same run id, the first to finish makes the other uncancellable
  (`Executor.DuplicateIdLosesCancel`, `DuplicateIdRun`). `AllCancelableExactly`: every live run is cancellable all along
  exactly if no two live runs ever have the same id.
- hasEncrypted overlooks ENC strings in a list that is directly inside a list, so that normalize passes
  them on undecrypted (`ConfigDecrypt.NestedListOverlooked`); `HasEncryptedExact` gives the exact condition.
- A listener's prefix test is the path test exactly for names that are not empty and contain no dot
  (`ConfigDiff.PrefixIsPathPrefix`, `OtherNamesMislead`).
- buildField and parseField are inverse exactly for names without `|`, which the comment at
  pkg/traffic/tracker.go:153 takes for granted (`TrafficFields.BuildParse`).
- A failed pipeline that took effect is counted twice, although the comment at
  pkg/traffic/tracker.go:111 calls the rollback idempotent (`TrafficLedger.FailedPipelineCountsTwice`); nothing is ever lost
  (`BytesConserved`), and nothing of a field is counted twice exactly if no failed pipeline had an effect on it (`NoDuplicatesExactly`).
- A second hash that reads as the same hour, or a hash written again after its dump, overwrites rows of the first: they
  survive exactly if the two agree on every pair they share (`TrafficDump.SharedHourExactly`).
- Zero padding does not round-trip data that is empty or ends in a zero byte, and panics if there are only
  zeros (`Aes.ZeroRoundTrip`).
- A second client gets a running lock exactly if it has the same id (`RedisLock.SameIdBothGranted`).
- TryLock with a timeout and a WaitRetry that is not positive can go round any number of times without the clock moving
  (`RedisLock.AttemptsBoundedExactly`).

## Model

| member | source | states |
|---|---|---|
| GopoolProtocol.NoStrandedTask | pkg/gopool/pool.go:115-139 | in every state of every run, a non-empty list means that a worker will look at it again or a call that linked its task is still deciding about a worker: no wakeup is lost although workerCount is read outside the lock |
| GopoolProtocol.PositiveCountMeansSomebody | pkg/gopool/pool.go:134 | a caller that gives up on a positive workerCount leaves somebody who will look at the list, or a worker about to start |
| GopoolProtocol.WakePreservedByWorker | pkg/gopool/worker.go:43-59 | a worker exits only over an empty list, because it looks and exits under one hold of the lock |
| GopoolProtocol.Preserved | pkg/gopool/pool.go:115-139 | every step of callers and workers keeps lock ownership, both counters, the wakeup condition, list order and exactly-once execution |
| GopoolProtocol.FifoAndAtMostOnce | pkg/gopool/worker.go:43-56 | tasks leave the list in the order they entered; none runs twice and none that was not submitted |
| GopoolProtocol.AllRanExactlyOnce | pkg/gopool/worker.go:39-77 | with no call in flight and no worker left, the list is empty and every submitted task has run exactly once |
| GopoolProtocol.CountersExact | pkg/gopool/pool.go:128 | taskCount is the list length minus linked-but-uncounted calls plus workers between unlinking and decrementing; workerCount is the live workers plus those about to start |
| GopoolProtocol.WorkerBound | pkg/gopool/pool.go:134-138 | with cap at most C and at most N calls at a time, workerCount never exceeds max(C, 1) + N - 1 |
| GopoolGrowth.LeavesExactly | pkg/gopool/pool.go:133-138 | a call that ends without starting a worker read a taskCount below ScaleThreshold, or a workerCount not below a cap it read later, and after that a positive workerCount |
| GopoolGrowth.SpawnsExactly | pkg/gopool/pool.go:133-138 | a call that starts one read enough tasks and then a workerCount below a cap it read later, or, not finding that, a workerCount of 0 |
| GopoolGrowth.GrowsExactly | pkg/gopool/pool.go:128-138 | with ScaleThreshold at most 1 and a fixed cap, n calls one after the other whose tasks have not returned leave exactly min(n, max(cap, 1)) workers, each with a task to take |
| GopoolProtocol.SomethingEnabled | pkg/gopool/worker.go:39-77 | while a call or worker is left, some goroutine can move: no deadlock |
| GopoolProtocol.TasksDrainAfterLastCall | pkg/gopool/worker.go:39-77 | once calls stop, every schedule ends within a bounded number of steps, and where it ends every task has run exactly once |
| GopoolTaskList.Pool.Append | pkg/gopool/pool.go:119-127 | the list gets the task at its end; at most the last node of this list is written, a stale taskTail never |
| GopoolTaskList.Pool.Take | pkg/gopool/worker.go:43-52 | the oldest node is returned and the rest stays in order; taskTail keeps pointing to the taken node when the list is empty |
| GopoolTaskList.TaskPool.Get | pkg/gopool/pool.go:116 | the free pool hands out a zeroed node that was put back or is new, and no longer owns it |
| GopoolTaskList.TaskPool.Put | pkg/gopool/pool.go:57-60 | a zeroed node goes back to the free pool |
| GopoolTaskList.Process.Fetch | pkg/gopool/pool.go:116-118 | getting and filling a node changes no pool's list or tasks, even if a stale taskTail points to it |
| GopoolTaskList.Process.Link | pkg/gopool/pool.go:119-127 | linking a node changes no other pool's list, and all lists stay disjoint from each other and from the free nodes |
| GopoolTaskList.Process.Take | pkg/gopool/worker.go:43-56 | a worker gets the oldest node of its pool and is the only one to hold it |
| GopoolTaskList.Process.Recycle | pkg/gopool/worker.go:70 | zeroing and giving back a node changes no pool's list or tasks |
| SpoolNames.NameRoundTrip | pkg/scheduler/submit_spool.go:121 | reload reads back from a file name the number push put into it, for every number below 2^63 |
| SpoolNames.TmpIgnored | pkg/scheduler/submit_spool.go:211-218 | reload never picks up a temporary file |
| Strconv.ValueOfDigits | pkg/scheduler/submit_spool.go:121 | parsing the zero-padded decimal form of a number gives the number |
| SpoolDisk.Disk.WriteFile | pkg/scheduler/submit_spool.go:123 | a write may stop anywhere and leave any prefix in its own file; no other file changes |
| SpoolDisk.Disk.Rename | pkg/scheduler/submit_spool.go:126 | a rename happens completely or not at all |
| SpoolDisk.Disk.Remove | pkg/scheduler/submit_spool.go:111 | a removal happens completely or not at all, and a missing file counts as removed |
| SpoolIndex.EvictionsLeast | pkg/scheduler/submit_spool.go:109-116 | the files evicted are the shortest oldest prefix that makes room, and there is one for every task not larger than the budget |
| SubmitSpool.Spool.MakeRoom | pkg/scheduler/submit_spool.go:109-116 | the eviction loop deletes exactly that prefix, oldest first, or a part of it if a removal fails; index, size and directory agree throughout |
| SubmitSpool.Spool.EvictAndStore | pkg/scheduler/submit_spool.go:109-132 | after eviction the second test for a full spool at line 117 can never fire; the byte budget is kept |
| SubmitSpool.Spool.Push | pkg/scheduler/submit_spool.go:81-133 | success appends the encoded task and evicts exactly the shortest oldest prefix that makes room; an I/O failure leaves a suffix of the old records; a task larger than the budget changes nothing; without I/O failures every other encodable task is stored; the index describes the directory exactly, sizes sum to currentBytes within maxBytes and nextSeq is above all |
| SpoolIndex.PushHistory | pkg/scheduler/submit_spool.go:109-132 | every directory state a push goes through holds the newest of the old records, complete and in order, with the new one at the end or not at all |
| SpoolIndex.CrashDuringPush | pkg/scheduler/submit_spool.go:81-133 | a crash between any two file operations of push, then a restart with any budget: the queue is a suffix of the old one, with or without the new task at its end; nothing torn or reordered |
| SubmitSpool.Spool.Ack | pkg/scheduler/submit_spool.go:164-182 | the first record with the number is removed from directory, index and size, or on a failed removal nothing changes; an unknown number is no error; there is no directory state in between |
| SubmitSpool.Spool.AckNext | pkg/scheduler/submit_spool.go:164-182 | with distinct numbers the ack removes exactly the record meant |
| SubmitSpool.Spool.Drain | pkg/scheduler/submit_spool.go:136-161 | on success the oldest min(max, all) records, decoded, in order; nothing is removed; without I/O failures it fails only if one of these does not decode |
| SubmitSpool.Spool.Scan | pkg/scheduler/submit_spool.go:203-229 | the scan finds exactly the files whose names parse, whatever order the directory is listed in, with their total size and the highest of their numbers, or 0 |
| SpoolIndex.SortedIsIndex | pkg/scheduler/submit_spool.go:230 | sorting what the scan found gives the index of the directory: every parsable file once, ascending |
| SubmitSpool.Spool.Load | pkg/scheduler/submit_spool.go:202-235 | after a reload the next number is above every number in the directory, and it is the old one or one more than the highest |
| SubmitSpool.Spool.Reload | pkg/scheduler/submit_spool.go:202-245 | reload recovers exactly the records present, less the shortest oldest prefix over budget, and loses no other record wherever it is cut off; without I/O failures it succeeds |
| SpoolIndex.ReloadEnd | pkg/scheduler/submit_spool.go:236-244 | the same as a statement about any directory without equal numbers |
| SpoolIndex.IndexUnique | pkg/scheduler/submit_spool.go:202-235 | a directory without equal numbers has only one index |
| SpoolIndex.StrictIffNoTies | pkg/scheduler/submit_spool.go:230 | numbers in the index are strictly ascending if and only if no two file names parse to the same number |
| SubmitSpool.EncodeDecode | pkg/scheduler/submit_spool.go:90-105 | what push encoded, with its size in a second encoding, decodes to the same task under the same number |
| SubmitBuffer.Buffer.Push | pkg/scheduler/submit_buffer.go:46-60 | appends below capacity, else changes nothing |
| SubmitBuffer.Buffer.Drain | pkg/scheduler/submit_buffer.go:63-76 | what is taken followed by what stays is the old queue |
| SubmitBuffer.Buffer.PutBack | pkg/scheduler/submit_buffer.go:79-92 | tasks go back in front; over capacity the oldest of all are dropped |
| SubmitBuffer.Client.EnqueueTask | pkg/scheduler/submit_buffer.go:115-141 | after an error without a gRPC status or with one of the codes Unavailable, DeadlineExceeded, Canceled, ResourceExhausted, Aborted and Internal, or before the start, the task is queued in exactly one level, at its end; any other code is returned and nothing queued; an accepted task is not queued; the disk is untouched whenever memory has room; with a working disk ErrLocalBufferFull means that the task is over budget or there is no disk level |
| SubmitBuffer.Client.EnqueueBuffered | pkg/scheduler/submit_buffer.go:171-179 | memory takes the task whenever it has room, disk only otherwise |
| SubmitBuffer.FirstRetriableExact | pkg/scheduler/submit_buffer.go:183-199 | a flush round stops at the first submission that fails without a gRPC status or with one of these codes, and at no earlier one |
| SubmitBuffer.Client.FlushBufferOnce | pkg/scheduler/submit_buffer.go:229-260 | the tasks before the first submission that fails with one of these codes are accepted, or dropped for another code; that one, with one more attempt, and all later ones are back in front; the disk level is next exactly if nothing went back |
| SubmitBuffer.Client.FlushSpoolOnce | pkg/scheduler/submit_buffer.go:263-285 | with distinct numbers, exactly those records go whose submission, before the first failure with one of these codes, was accepted or failed with another code, and whose file could be deleted; all others stay in order; the batch is a full one, or none if a record of it cannot be read |
| RetryRounds.EmptiesExactly | pkg/scheduler/submit_buffer.go:263-285 | rounds with an answering scheduler and working disk empty the disk queue at some time if and only if every record decodes, and then as many rounds as it has records are enough |
| RetryRounds.StandsStill | pkg/scheduler/submit_spool.go:149-158 | otherwise, after at most as many rounds as records decode before the first that does not, exactly the records from the start of its batch on are left, and they stay |
| RetryRounds.RetryLoop | pkg/scheduler/submit_buffer.go:205-285 | the retry loop does this to the real queues, memory first; as many ticks as it has tasks empty the memory queue |
| FallbackQueue.EveryMemoryTaskAccounted | pkg/scheduler/submit_buffer.go:46-92 | over all runs, each task queued in memory is in exactly one of: L1, the flusher's batch, delivered, rejected, dropped by putBack, lost with the process |
| FallbackQueue.EveryDiskTaskAccounted | pkg/scheduler/submit_buffer.go:263-285 | over all runs and restarts, each task queued on disk is there, delivered, rejected or evicted; no task meets both overflow rules |
| FallbackQueue.PutBackDropsAtMostPushes | pkg/scheduler/submit_buffer.go:79-92 | with one flusher, putBack drops at most as many tasks as were pushed since the drain it undoes |
| FallbackQueue.MemoryFifo | pkg/scheduler/submit_buffer.go:229-260 | successful memory-level submissions are strictly increasing in enqueue order |
| FallbackQueue.DiskFifo | pkg/scheduler/submit_buffer.go:263-285 | over runs in which every removal succeeds or finds the file gone, no crash comes between a submission and its acknowledgement and no restart uses a lower number, successful disk-level submissions are strictly increasing in number, restarts included |
| FallbackQueue.DiskFifoExactly | pkg/scheduler/submit_buffer.go:263-285 | between two rounds of the flusher, in any run: every continuation without such a failure keeps them strictly increasing if and only if they are so far, and all numbers on disk and the next one are above all delivered |
| FallbackQueue.FailedAckRedelivers | pkg/scheduler/submit_buffer.go:275-277 | after a failed removal of a delivered task's file, whatever else is queued, a continuation without any failure submits it again |
| FallbackQueue.CrashBeforeAckRedelivers | pkg/scheduler/submit_buffer.go:275-277 | the same after a crash between the submission and its acknowledgement, unless the restart evicts the record |
| FallbackQueue.TwiceDeliveredRun | pkg/scheduler/submit_buffer.go:271-284 | for every capacity, a run that submits one disk task twice because its file could not be deleted |
| FallbackQueue.TwiceDeliveredByCrashRun | pkg/scheduler/submit_buffer.go:271-284 | for every capacity, a run without any failed removal that submits one disk task twice because the process dies in between |
| FallbackQueue.NumberTwiceRun | pkg/scheduler/submit_spool.go:70 | for every capacity, a run in which no removal fails and no crash comes between a submission and its acknowledgement, and that delivers two tasks under one number because the clock of a restart is behind |
| FallbackRefinement.Twin.Enqueue | pkg/scheduler/submit_buffer.go:46-60 | a call of Buffer.Push beside a protocol state is its step Enqueue, and queue and state still correspond |
| FallbackRefinement.Twin.Spill | pkg/scheduler/submit_spool.go:81-133 | a call of Spool.Push, whatever its outcome, is an enabled step Spill that stores exactly if the push reports it |
| FallbackRefinement.Twin.Drain | pkg/scheduler/submit_buffer.go:63-76 | a call of Buffer.Drain is an enabled step Drain1 with the same batch |
| FallbackRefinement.Twin.PutBack | pkg/scheduler/submit_buffer.go:79-92 | a call of Buffer.PutBack with what is left of the batch is the step PutBack |
| FallbackRefinement.Twin.DrainSpool | pkg/scheduler/submit_spool.go:136-161 | a call of Spool.Drain is an enabled step Drain2 with the same tasks, or one that fails |
| FallbackRefinement.Twin.Ack | pkg/scheduler/submit_spool.go:164-182 | a call of Spool.Ack is the step Ack, successful or not, also for a record already evicted |
| FallbackRefinement.Twin.FlushBufferOnce | pkg/scheduler/submit_buffer.go:229-260 | a call of FlushBufferOnce is a sequence of enabled steps, one for the drain, each submission and the putBack, and delivers the tasks at the positions it reports |
| FallbackRefinement.Twin.FlushSpoolOnce | pkg/scheduler/submit_buffer.go:263-285 | a call of FlushSpoolOnce is a sequence of enabled steps, one for the drain and each submission and acknowledgement, failed removals included, and delivers the records at the positions it reports; without I/O failures they are the steps DiskFifoExactly speaks of |
| FallbackRefinement.Restart | pkg/scheduler/submit_spool.go:60-75 | a new spool reloading a directory that shows the protocol's disk queue is an enabled step Crash: the number it continues with is above every number there |
| FallbackRefinement.CutPushShows | pkg/scheduler/submit_spool.go:81-133 | every directory state a push goes through is the one that some enabled step Spill leaves, so that a crash at any point of a push is a Spill followed by a Crash |
| Executor.OneAckPerDispatch | pkg/scheduler/executor.go:35-72 | every dispatch gets exactly one Ack by the time the receive loop takes its next message, and the Ack says whether it got a slot |
| Executor.OneResultAfterAck | pkg/scheduler/executor.go:106-141 | a dispatch has at most one Result, only if accepted, only after its Ack in channel order, and exactly one once its goroutine is gone |
| Executor.ResultTellsOutcome | pkg/scheduler/executor.go:110-136 | a Result says success exactly for a handler that returned no error, timeout for an error matching DeadlineExceeded, canceled for another one matching Canceled, failed for any other, in every state of every run |
| Executor.EveryOutcomeReported | pkg/scheduler/executor.go:106-141 | once the goroutine of an accepted dispatch is gone, the Result for what its handler returned is in the channel |
| Executor.AckTellsSlot | pkg/scheduler/executor.go:41-65 | a dispatch is accepted if and only if its job is registered and a slot was free in the state in which the receive loop tried to take one |
| Executor.SlotsAreInflight | pkg/scheduler/stream.go:215-217 | slots taken are the accepted runs not yet done, never more than MaxConcurrency |
| Executor.HeartbeatsTellOccupancy | pkg/scheduler/stream.go:197-206 | every heartbeat on the channel reports the slots taken in the state in which it read them, after the heartbeat before it |
| Executor.CancelReachesOnlyNamedRun | pkg/scheduler/stream.go:220-233 | each cancel-table entry leads to an accepted, unfinished run of that id; the n-th Cancel message cancels at most one context, that of an accepted run with the id this very message names |
| Executor.AllCancelableExactly | pkg/scheduler/executor.go:76-91 | at every point so far each registered unfinished run was found under its id if and only if at no point so far two registered unfinished runs had the same id |
| Executor.DistinctIdsAllCancelable | pkg/scheduler/executor.go:76-91 | so with run ids distinct over the session every registered unfinished run is found under its id |
| Executor.CancelExactly | pkg/scheduler/stream.go:220-233 | a Cancel message cancels the context found under its id, and none if there is none |
| Executor.CancelReachesRun | pkg/scheduler/stream.go:220-233 | while no two live runs have had one id, a Cancel message naming a live run cancels that run |
| Executor.DuplicateIdLosesCancel | pkg/scheduler/executor.go:85-91 | with equal ids the first run to finish deletes the other's entry |
| Executor.DuplicateIdRun | pkg/scheduler/executor.go:76-91 | a run with two dispatches of one id that ends with the second one running and not cancellable |
| Executor.StuckExactly | pkg/scheduler/executor.go:159-165 | where nothing can move, everything is in the channel, all slots are free and no cancel function is left if and only if nobody waits for room in the channel; who does, waits for a sender that has quit; with a running sender all is on the wire |
| Executor.EverythingReported | pkg/scheduler/executor.go:35-142 | when messages stop arriving every schedule ends, and in the end each dispatch has one Ack and each accepted one its Result in the channel if and only if the messages owed fit into it beside those the sender did not take; they are on the wire if the sender has not quit |
| Executor.NothingReachesServer | pkg/scheduler/stream.go:114-125 | after a failed stream.Send no further message reaches the server in this session |
| Executor.BlockedForGood | pkg/scheduler/stream.go:130-136 | a receive loop that waits with an Ack while the channel is full and the sender has quit stays there in every continuation of the session; the dispatch never gets an Ack, and no further dispatch or Cancel message is taken |
| Executor.BlockedRun | pkg/scheduler/executor.go:159-165 | for every MaxConcurrency, a run that gets there: one failed Send, then 65 dispatches of an unregistered job |
| TrafficLedger.LawKept | pkg/traffic/tracker.go:61-72 | every atomic step of adds, swaps, pipeline and rollback keeps memory + in flight + Redis = added + duplicated |
| TrafficLedger.BytesConserved | pkg/traffic/tracker.go:112-150 | over all runs of any number of instances, for each field: memory + in flight + Redis is what was added plus what a failed pipeline applied all the same; so never less than was added |
| TrafficLedger.NoDuplicatesExactly | pkg/traffic/tracker.go:141-149 | for each field the sum is exactly what was added if and only if no failed pipeline has had an effect on that field |
| TrafficLedger.FailedPipelineCountsTwice | pkg/traffic/tracker.go:141-149 | a run after which bytes added once are both in Redis and in memory |
| TrafficLedger.RedisIsTheTotal | pkg/traffic/tracker.go:112-150 | once all is flushed Redis holds at least what was added to a field, and exactly that if and only if no failed pipeline has had an effect on that field |
| TrafficTracker.Tracker.Add | pkg/traffic/tracker.go:61-72 | adds to one counter of a tracked device; an untracked device or n <= 0 changes nothing |
| TrafficTracker.Tracker.SwapOut | pkg/traffic/tracker.go:114-122 | all counters become zero and the pending list has exactly the non-zero ones |
| TrafficTracker.Tracker.FlushOnce | pkg/traffic/tracker.go:112-150 | success adds the up and the down counter of each device to the up and the down field of the device, and no other field changes; a failure leaves every counter as it was |
| TrafficTracker.ExecArrives | pkg/traffic/tracker.go:129-138 | the pipeline built from the pending list adds each up count to the up field and each down count to the down field of its own device only |
| TrafficTracker.AddedArrives | pkg/traffic/tracker.go:61-72 | n more bytes counted for a device in one direction put n more into the field device, service and "up" or "down" by the next successful flush, and change no other field |
| TrafficFields.ParseExact | pkg/traffic/store.go:43-49 | parseField returns parts if and only if they join to the field and the first two contain no separator |
| TrafficFields.BuildParse | pkg/traffic/tracker.go:154-160 | parseField inverts buildField if and only if device and service contain no separator |
| TrafficFields.CountersHaveOwnFields | pkg/traffic/tracker.go:154-160 | within one service no two counters share a field, whatever the device names |
| TrafficFields.NearestKB | pkg/traffic/dao.go:160-165 | the result is the only number of KB within half a KB of the bytes, a half rounded up |
| TrafficFields.Accumulate | pkg/traffic/dao.go:99-124 | in any map order, each key's sums are the counts of its own up and down field |
| TrafficFields.AggregateHashToRecords | pkg/traffic/dao.go:99-138 | exactly one row for each pair that some field with a positive count belongs to, holding its two rounded counts |
| TrafficFields.AggregateUnique | pkg/traffic/dao.go:104-137 | the rows do not depend on map order |
| TrafficFields.RowsAreTotals | pkg/traffic/dao.go:99-138 | what trackers counted for a device and service ends up in one row, rounded; a pair with nothing counted has none |
| TrafficDump.UpsertStores | pkg/traffic/dao.go:141-156 | storing the aggregate of a hash puts its rows in place over whatever an earlier attempt left, and touches no other hour |
| TrafficDump.CountedBytesStored | pkg/traffic/dao.go:99-156 | once an hour is stored, up_kb and down_kb of a device and service are within half a KB of the bytes in the fields ending in up and in down |
| TrafficDump.Store.DumpKey | pkg/traffic/dao.go:45-83 | whatever fails, the hash of the key is still there unchanged or its rows are in the table; no failure reported means the latter |
| TrafficDump.Store.DumpPending | pkg/traffic/dao.go:29-93 | the same for all keys, for scans with repeated or vanished keys; the current hour is never touched; rows come only from the hashes; success means every past hour scanned is stored; without failures their hashes are also gone |
| TrafficDump.NoHourLost | pkg/traffic/dao.go:27-93 | over any sequence of dumps with any failures, the hash of an hour no longer written is kept unchanged or its rows are in the table |
| TrafficDump.SharedHourExactly | pkg/traffic/dao.go:65-83 | storing the rows of another hash of the same hour keeps those of the first if and only if the two agree on every pair they share |
| ConfigDiff.Flatten | pkg/config/loader.go:580-597 | in any map order, there is a key for every leaf path and every key holds a leaf filed under it |
| ConfigTree.LeafAtExact | pkg/config/loader.go:580-597 | scalars and lists are leaves; a table has the leaves of its slots one name further down |
| ConfigDiff.JoinInjective | pkg/config/loader.go:580-597 | for non-empty dot-free names different paths have different dot-keys |
| ConfigDiff.MatchesAncestors | pkg/config/loader.go:603-608 | any string matches the key of a path as a prefix if and only if it is the key of an ancestor or of the path itself |
| ConfigDiff.PrefixIsPathPrefix | pkg/config/loader.go:603-608 | for such names keyMatchesPrefix is the path-prefix relation |
| ConfigDiff.OtherNamesMislead | pkg/config/loader.go:603-608 | for every other name it is wrong for some paths |
| ConfigDiff.Diff | pkg/config/loader.go:306-318 | a key is changed if and only if it is in one map only, or in both with different renderings; and it comes with its old and new value |
| ConfigDiff.FirePrefix | pkg/config/loader.go:330-345 | in any order of changes, the listeners of a prefix are called exactly once each for one matching hot-reloadable change, or not at all if there is none |
| ConfigDiff.Loader.FireDiff | pkg/config/loader.go:299-346 | the same for all prefixes of one reload; on trees with non-empty dot-free names, a leaf in one tree only, or in both with different renderings, under a hot-reloadable path calls every listener of each of its ancestors exactly once, in order of registration and with the old and new value of such a leaf, and listeners with no such leaf below them are not called |
| ConfigDiff.Loader.OnChange | pkg/config/loader.go:425-429 | registers one more callback under the prefix, after the others |
| ConfigDiff.FiresIffSubtreeChanged | pkg/config/loader.go:299-358 | for such trees some change matches a prefix and is hot-reloadable if and only if some leaf in the subtree at that path changed and lies under a hot-reloadable path |
| ConfigDecrypt.DecryptedAt | pkg/encrypt/config.go:69-116 | at every path: an ENC leaf becomes its plain text; every other leaf, and the kind and slots of every branch, stay |
| ConfigDecrypt.EncLeaf | pkg/encrypt/config.go:43-60 | at every path ENC(c) becomes what the key makes of c, and a string of any other form stays |
| ConfigDecrypt.HasEncryptedIsPruned | pkg/config/loader.go:527-554 | hasEncrypted finds exactly the ENC leaves outside lists that are directly in a list |
| ConfigDecrypt.HasEncryptedExact | pkg/config/loader.go:527-554 | hasEncrypted is false exactly when decryption is the identity for every key, for all trees without a list in a list, and otherwise for exactly the trees with an ENC leaf outside one or with none at all |
| ConfigDecrypt.NestedListOverlooked | pkg/config/loader.go:542-550 | a tree with a list in a list for which it is false although there is an ENC leaf |
| ConfigNormalize.DeepClone | pkg/config/loader.go:556-577 | the same tree in nodes none of which existed before |
| ConfigNormalize.Decrypt | pkg/encrypt/config.go:69-116 | in place and in any order: succeeds if and only if the key opens every ENC leaf, and then the tree is its decryption |
| ConfigNormalize.HasEncryptedIn | pkg/config/loader.go:527-554 | the walk over maps and slices computes hasEncrypted of the tree |
| ConfigNormalize.Normalize | pkg/config/loader.go:164-203 | returns the settings decrypted by the first key that opens every ENC leaf, in fresh nodes, or the right error; nothing that existed before is written, so no trace of a failing key remains |
| RedisLock.LeaseHolds | pkg/redis_lock/redis_lock.go:16-21 | a granted lease lasts its full time whatever other clients do |
| RedisLock.Exclusion | pkg/redis_lock/redis_lock.go:16-26 | after A's last grant or refresh at t, and unless A unlocks, no other id is granted the lock before t + px |
| RedisLock.LeaseEnds | pkg/redis_lock/redis_lock.go:16-21 | once t + px has come without a refresh anyone is granted the lock |
| RedisLock.OthersChangeNothing | pkg/redis_lock/redis_lock.go:22-26 | a script of another id changes neither owner nor expiry of a running lease, and neither lock nor unlock succeeds |
| RedisLock.UnlockExact | pkg/redis_lock/redis_lock.go:22-26 | unlock succeeds if and only if this id's lease is running, and then anyone is granted the lock at once |
| RedisLock.SameIdBothGranted | pkg/redis_lock/redis_lock.go:16-21 | while a lease is running a second client is granted the lock if and only if it has the same id |
| RedisLock.Lock.Acquire | pkg/redis_lock/redis_lock.go:90-102 | true means that the lease began with the last script and lasts LockSeconds * 1000 + 500 ms; false without an error that another id holds it |
| RedisLock.Lock.Release | pkg/redis_lock/redis_lock.go:105-115 | true means that this id's running lease was deleted; false without an error that it held none |
| RedisLock.Lock.TryLock | pkg/redis_lock/redis_lock.go:68-87 | terminates if WaitRetry is positive or time passes with every attempt; success means a granted lease; it gives up only when no time is left for another attempt; the number of attempts is bounded by timeout / retry + 1, and is one without a timeout |
| RedisLock.AttemptsBoundedExactly | pkg/redis_lock/redis_lock.go:73-85 | with a timeout the number of failed attempts TryLock can go on from is bounded if and only if WaitRetry is positive |
| RedisLock.Lock.constructor | pkg/redis_lock/redis_lock.go:48-65 | without options 3 s, no waiting and 100 ms; a lock time of zero becomes 10 s, a retry interval of zero 100 ms |
| Randn.ChunksAreDigits | pkg/redis_lock/random.go:65-75 | the six-bit chunks of a word are disjoint parts of it: with the unused top they make up the word |
| Randn.LettersExact | pkg/redis_lock/random.go:10-17 | chunks below 62 stand for their letter of the alphabet, 62 and 63 for none, and ten chunks are what fits into 63 bits |
| Randn.RandnDetermined | pkg/redis_lock/random.go:62-78 | the result is determined by the first n letters of the stream |
| Randn.FillBytes | pkg/redis_lock/random.go:65-75 | the loop ends if the stream has enough letters, fills every byte from the back, uses each chunk once and in order, ten to a word, and reads no more words than needed |
| Randn.Randn | pkg/redis_lock/random.go:62-78 | the result is the reverse of the first n chunks below 62, mapped to letters |
| TraceMap.TCPContextMap.Save | pkg/trace/tcp_context.go:59-76 | stores the entry to expire at most maxTTL later; nothing once closed or for an empty id |
| TraceMap.TCPContextMap.Load | pkg/trace/tcp_context.go:81-104 | removes the entry; a hit exactly for a valid entry not expired, its device and type for an invalid one, and a miss for an expired or missing one |
| TraceMap.TCPContextMap.Sweep | pkg/trace/tcp_context.go:137-146 | removes exactly the entries expired at the clock reading |
| TraceMap.SweepIsTransparent | pkg/trace/tcp_context.go:59-146 | over all interleavings, with clock readings outside the lock, every Load returns what it would from a map that is never swept |
| TraceMap.SavedInBetween | pkg/trace/tcp_context.go:81-104 | between two Loads that find an id there is a Save of the entry the second one found |
| TraceMap.HitIsRecent | pkg/trace/tcp_context.go:63-72 | a hit returns what an earlier Save of that id stored, at most maxTTL earlier |
| Aes.PKCS7RoundTrip | pkg/encrypt/aes.go:165-176 | one to 16 bytes are added up to whole blocks, each of them the number added, and unpadding takes them off again, for all data |
| Aes.PKCS7UnPaddingExact | pkg/encrypt/aes.go:171-176 | on any data as many bytes as the last one says are taken off; it panics if and only if there are fewer, or none at all |
| Aes.ZeroRoundTrip | pkg/encrypt/aes.go:178-190 | unpadding returns the data without its trailing zeros and panics if nothing is left; so it inverts padding if and only if the data is not empty and does not end in zero |
| Aes.ZeroUnPaddingLoop | pkg/encrypt/aes.go:184-190 | the loop ends and strips exactly the trailing zeros |
| Aes.CryptBlocks | pkg/encrypt/aes.go:211-243 | panics if and only if the input is not whole blocks or the output too short; else applies the cipher to each block and leaves the rest of the output alone |
| Aes.EcbRoundTrip | pkg/encrypt/aes.go:211-243 | the decrypter inverts the encrypter on whole blocks |
| Aes.EncryptExact | pkg/encrypt/aes.go:117-159 | encryption fails exactly for an unknown type or a bad key, and else returns the base64 of the padded data with the cipher applied to each block of 16 bytes |
| Aes.AesEcb.Encrypt | pkg/encrypt/aes.go:143-159 | computes the specification of encryption, errors included |
| Aes.AesEcb.Decrypt | pkg/encrypt/aes.go:125-141 | computes the specification of decryption, errors and panics included |
| Aes.EncryptDecrypt | pkg/encrypt/aes.go:101-159 | decryption returns the data if and only if the padding is PKCS7 or the data is not empty and does not end in zero |

## Left out

Assumptions and simplifications:

- SubmitSpool.Spool.Push: nextSeq is below 2^63; the overflow of the sequence number is not modelled. A foreign file named with the largest int64 would overflow it at reload.
- SubmitSpool.Spool.Reload: the directory belongs to one process; the default directory (submit_spool.go:62) is shared by all clients of the host that do not set one, and what they do to each other's files is not modelled.
- SpoolDisk.Disk.WriteFile: a write that fails or is cut off leaves a prefix of the data; lost directory entries after a power failure are not modelled, as the original does not sync. Directories among the entries are not modelled.
- SpoolIndex.CrashDuringPush: for a directory in which no two names parse to one number; `5.json` beside `00000000000000000005.json` can be scanned in either order.
- SubmitBuffer.Client.FlushSpoolOnce: says which records stay only if numbers are distinct and each file holds the number in its name, as all files written by push do.
- SubmitBuffer.Client.FlushBufferOnce: without interference by other goroutines; interference is in FallbackQueue. SubmitOptions has three representative fields.
- FallbackQueue.DiskFifo: the history flag steady stands for the three conditions; DiskFifoExactly is the statement without it. There is one flusher goroutine, as in the original.
- FallbackRefinement.Restart: a first start over any directory in which no number occurs twice; a reload that fails leaves no queue.
- FallbackRefinement.Twin.FlushSpoolOnce: for distinct numbers that agree with the file names, and without interference by other goroutines, as Twin.FlushBufferOnce; with interference the round is Twin.DrainSpool and Twin.Ack call by call.
- RetryRounds.RetryLoop: without interference by other goroutines; a read that keeps failing for another reason is not modelled, and acts as a record that does not decode.
- Order between the two levels is not claimed; the original does not give it.
- GopoolProtocol.AllRanExactlyOnce: assumes that task functions return or panic and the panic handler does not panic; int32 overflow of the counters is not modelled.
- GopoolTaskList.Process.Fetch: the context field of a task is not modelled.
- Executor.OneAckPerDispatch: for a session whose context is live, and that starts with free slots and an empty cancel table; in the original both outlive a session, and handlers of an earlier one may still hold slots and entries. Session teardown is not modelled: after it a late Result or heartbeat is dropped, or panics, as the select of sendOrDrop may also choose the send on the closed channel. Reconnecting is not modelled either; of an error only whether it matches DeadlineExceeded and Canceled is.
- TrafficLedger.BytesConserved: int64 overflow and the expiry of the hash are not modelled; the hash is the one of the current hour, and a flush that computes its key just before the hour ends and executes after it counts as an earlier one.
- TrafficTracker.Tracker.FlushOnce: without concurrent adds; those are in TrafficLedger. Expire is not modelled.
- TrafficDump.NoHourLost: the hash is not written any more and does not expire, and no other key of the prefix reads as the same hour: time.ParseInLocation also accepts a one-digit hour, and two local hours can coincide at a clock change.
- TrafficFields.RowsAreTotals: for counts below 2^63.
- ConfigDiff.Loader.FireDiff: fmt's rendering of values is a parameter; listeners are identified by numbers and a panicking listener is not modelled. Which of several changes a listener gets depends on map order.
- ConfigNormalize.Normalize: environment expansion, reading and parsing of the keys, and the copy into a new viper are not modelled; slices are visited in any order, which the result does not depend on, only the text of an error. AES-GCM and base64 are a parameter.
- RedisLock.Exclusion: Redis expires a key at the time given by PX on its own clock, which does not go back; failover is not modelled.
- RedisLock.Lock.TryLock: with a timeout and a WaitRetry that is not positive, requires that the clock advances with every attempt; otherwise the original need not end, see AttemptsBoundedExactly.
- Randn.Randn: requires a stream that has enough letters; without one the original does not end. The locked source, Seed, Rand and RandId are not modelled.
- TraceMap.SweepIsTransparent: for Save, Load and sweep; the count returned by Stats does depend on sweeping.
- Aes.CryptBlocks: for distinct buffers of 16-byte blocks; the aliasing of append in the padding functions is not modelled.
- Aes.EncryptDecrypt: for a block cipher whose decryption inverts encryption on each block and a base64 that decodes what it encoded; the CBC mode and AES-GCM come from the standard library.

Not modelled, because it is library and network code or would add only easy members: the gRPC, HTTP,
Nacos, gorm and OpenTelemetry clients, DecryptStruct, Feature, sharding, sampling, masking, the alert
engine, the timer package, metrics and logging.
