# A verified model of the server runtime and of the PKG1 codec

This project models, in Dafny, the parts of the repository whose correctness is hard to see by reading one
function at a time, and proves what the rest of the program relies on.

* **Job runtime** (`job_runtime.dfy`, `job_trace.dfy`, `lock_queue.dfy`, `job_timer.dfy`, `job_timer_trace.dfy`,
  `timed_jobs.dfy`, `timed_jobs_trace.dfy`): `JobQueue`, the global queue and the worker
  loop as a transition system over their atomic operations, for any number of threads and queues. One token per
  queue decides who may execute it; its queue steps are the functions the queue class is proved against. The timer is
  a class proved against what a call must dispatch, and a transition system of many threads with a 64-bit clock. Both
  systems are then joined, from the reservation of a job to its execution.
* **Lock layer** (`lock_word.dfy`, `lock_graph.dfy`, `dead_lock_profiler.dfy`, `lock_order.dfy`): the 32-bit
  recursive reader/writer lock as a transition system; the depth-first cycle detector as a class with its in-place
  tables; and whole runs of the profiler, up to the deadlock theorem.
* **Session byte pipeline** (`bytes.dfy`, `framing.dfy`, `recv_buffer.dfy`, `packet_session.dfy`,
  `send_protocol.dfy`, `send_protocol_trace.dfy`, `send_buffer.dfy`, `send_chunks.dfy`, `send_chunks_trace.dfy`,
  `memory_manager.dfy`, `memory_pool.dfy`, `memory_pool_trace.dfy`): framing against
  re-framing, compaction of the receive buffer, the protocol that keeps one send outstanding, the shared memory behind
  send buffers, and the size-class allocator: one request at a time, and its pools under any number of threads.
* **PKG1 (WZ) codec** (`wz_*.dfy`, `dxt_decoder.dfy`): the layout functions, the writer with its back-patched stream
  and the reader with its cursor, each proved against the same specification; the exact condition under which a whole
  tree reads back; the directory with its disguised offsets; and the DXT block decoders. `wz_format.dfy` says what
  every layout is in plain bytes, and `wz_single.dfy` which numbers have the one-byte form.
* **Map grid** (`map_instance.dfy`): the spatial index and the tables it has to agree with.

`basics.dfy` holds what several of them share.

Code that changes state step by step is a class or a method whose contract is a function of the old state.
Protocols between threads are values, actions and an inductive invariant: `Enabled` and `Apply` give one atomic step,
`IsRun` a run from the initial state. The files named `*_trace.dfy` are about runs together with their actions: what a
step does in terms of what its thread was called with and saw before. Fields called histories (`pushed`, `executed`, `accepted`, `closed`, ...) only
record what happened. Running `dafny verify dfyconfig.toml` checks everything.

Requirements on callers that the code has and the model states: thread ids are 1 to 65535; at most 65535 read
holds at once and fewer than 65536 nested writes; locks are released by guards; framed payloads are at most 4092
bytes; streams stay below 4 GiB.

Results where the code and what one might expect of it differ, each with its exact condition (for images, outside one
named family of trees):

* `Framing.LoopEndsIffLive`: the receive loop ends exactly if no header it reaches announces size zero.
* `LockWord.CrashExactly`: unlocking a write crashes exactly if the thread still holds a read.
* `SendProtocol.StrandedExactlyByRefusal`: a queued buffer is left with nobody to send it exactly by the store that ends
  a refused `WSASend` while the session is still connected and its queue is not empty. A queued buffer of a connected
  session is being served exactly if the session is registered (`SendProtocol.ServedIffRegistered`), and one left
  behind waits for the next `Send` (`SendProtocol.StrandedUntilNextSend`).
* `JobTimers.NothingEarly`: a job is dispatched no earlier than its delay after the reservation, except exactly if that
  tick is beyond 64 bits.
* `WzSurvival.ImageRoundTrip`: the writer stores a byte or sbyte property without its value, so that the reader takes
  the next byte for it and goes on one byte ahead; whole floats from -127 to -1 and minus zero come back positive; some
  strings cannot be stored; null children are left out; and a list of one nameless null at the end of the stream is
  taken for an empty one. `WzSurvival.SurvivesList` puts all this into one condition on the list and the byte behind it.
  Every image whose list meets it reads back. One whose list does not meet it never does, provided that no name of 1 or
  27 wide characters is the first thing, other than nameless nulls, behind a byte (`WzSurvival.ClearNodes`): such a name
  looks like a de-duplicated one to a reader one byte ahead. `WzLookalikes.TwinComesBack` gives images with such a name
  that do not meet the condition and read back all the same.
* `MapInstances.ColumnsInsideIff`: with a left bound above zero a position on the map can name a column outside the
  grid; the condition on bound and width under which none does is exact.

## Model

| member | source | states |
|---|---|---|
| `LockQueues.LockQueue.Push` | Server/ServerCore/utils/lock_queue.h:6-9 | appends at the back, the enqueuing step of the job protocol |
| `LockQueues.LockQueue.Pop` | Server/ServerCore/utils/lock_queue.h:11-20 | takes the front item, or nothing exactly when empty |
| `LockQueues.LockQueue.PopAll` | Server/ServerCore/utils/lock_queue.h:22-29 | drains the queue into the batch, in order, leaving it empty: one step of the job protocol |
| `JobRuntime.InvAlways` | Server/ServerCore/job/job_queue.cpp:6-45 | the token, the books and the thread shapes hold in every state of every run |
| `JobRuntime.OneToken` | Server/ServerCore/job/job_queue.cpp:6-45 | pushers that saw zero + global-queue entries + executors of a queue are one if its counter is positive, else none |
| `JobRuntime.JobsDoNotOverlap` | Server/ServerCore/job/job_queue.cpp:19-45 | two threads never run jobs of one queue at the same time |
| `JobRuntime.ExecuteNeverNests` | Server/ServerCore/thread/thread_manager.cpp:44-60 | `Execute` is entered only by a thread that is executing nothing; which pushes enter it is `JobTraces.EntersOnlyBy` |
| `JobRuntime.NothingLostOrReordered` | Server/ServerCore/job/job_queue.cpp:6-45 | executed ++ rest of batch ++ queue is the sequence of pushes, and the counter is queued + unsubtracted + pushers in between |
| `JobRuntime.QuiescentMeansDone` | Server/ServerCore/job/job_queue.cpp:6-45 | with nothing in flight every pushed job has run exactly once, in push order |
| `JobRuntime.NoLostWakeUp` | Server/ServerCore/job/job_queue.cpp:6-45 | while a job of a queue has not run, the queue is in the global queue, where any free thread can pop, or the thread with its token can take its next step |
| `JobRuntime.WaitingMovesUp` | Server/ServerCore/thread/thread_manager.cpp:44-60 | a waiting queue keeps its place, moves up by one with every pop, and is entered by the thread that pops it at the front |
| `JobTraces.RegisterGoesBy` | Server/ServerCore/job/job_queue.cpp:10-16 | over runs with their actions: a push that found the counter at zero enters `Execute` exactly if it was called with `push_only` on a thread with no current queue; otherwise the queue becomes the last entry of the global queue |
| `JobTraces.EntersOnlyBy` | Server/ServerCore/job/job_queue.cpp:10-15 | a thread gets into `Execute` only by popping the front of the global queue or by such a `push_only` push |
| `JobTraces.WaitsOnlyBy` | Server/ServerCore/job/job_queue.cpp:13-42 | a queue gets into the global queue only at its end, by a push that may not execute or by the executor whose latest look at the clock was too late |
| `JobTraces.FirstPusherRegisters` | Server/ServerCore/job/job_queue.cpp:7-10 | a push puts the job it was called with at the end of the queue and goes on exactly if the counter was zero when it counted |
| `JobTraces.RoundGoesBy` | Server/ServerCore/job/job_queue.cpp:22-44 | a round of the executor takes all jobs there are, leaves exactly if its subtraction brings the counter to zero, and gives the queue up exactly if it is late |
| `JobTimers.JobTimer.Reserve` | Server/ServerCore/job/job_timer.cpp:6-13 | adds exactly one item; when it is due is `JobTimers.DueExactly` |
| `JobTimers.DueExactly` | Server/ServerCore/job/job_timer.cpp:7-7 | what was reserved is due at a tick exactly if the delay is over by then; a sum beyond 64 bits starts again at zero |
| `JobTimers.TakenWhenDue` | Server/ServerCore/job/job_timer.cpp:24-33 | a drain called when the delay is over takes every copy and leaves none, an earlier one takes none |
| `JobTimers.JobTimer.Top` | Server/ServerCore/job/job_timer.cpp:24-27 | an item that is less than no other in the queue's inverted order is one with the earliest tick |
| `JobTimers.JobTimer.Drain` | Server/ServerCore/job/job_timer.cpp:20-34 | takes exactly what is due, earliest first, and leaves exactly the rest |
| `JobTimers.JobTimer.Distribute` | Server/ServerCore/job/job_timer.cpp:15-45 | does nothing when busy; else pushes the due jobs of live owners, in tick order, and clears the flag |
| `JobTimers.DrainedIsExact` | Server/ServerCore/job/job_timer.cpp:24-33 | per item: taken as often as reserved if due, not at all otherwise |
| `JobTimers.DispatchedIsSorted` | Server/ServerCore/job/job_timer.cpp:36-42 | what reaches the queues is in non-decreasing tick order and only for live owners |
| `JobTimers.DispatchedIsExact` | Server/ServerCore/job/job_timer.cpp:36-42 | per item: dispatched as often as it is in the batch if its owner lives, not at all otherwise |
| `JobTimers.OneDistributor` | Server/ServerCore/job/job_timer.cpp:16-18 | in every run at most one thread distributes at a time |
| `JobTimers.NothingEarly` | Server/ServerCore/job/job_timer.cpp:6-45 | over all runs of threads reading one clock, what is dispatched was reserved, and happens no earlier than reservation plus delay exactly if that sum fits 64 bits |
| `JobTimers.NothingLost` | Server/ServerCore/job/job_timer.cpp:15-45 | every reserved item is in the queue, in the one distributor's hands or dispatched, and in one place only |
| `TimerTraces.ReservedIsAsked` | Server/ServerCore/job/job_timer.cpp:6-13 | over runs with their actions: the items pushed are those of the calls of `Reserve`, each for the clock its call read, once for every call |
| `TimerTraces.DrainTakesWhatIsDue` | Server/ServerCore/job/job_timer.cpp:15-34 | the drain of a call that read the clock when a reservation's delay was over leaves none of it in the queue; otherwise it leaves all of it |
| `TimedJobs.InvAlways` | Server/ServerCore/job/job_timer.cpp:36-42 | runtime and timer together: every job made is being reserved, reserved, dispatched, being pushed or pushed, once |
| `TimedJobs.EveryJobRunsOnce` | Server/ServerCore/job/job_queue.cpp:6-45 | over all joint runs no job, pushed directly or by the timer, runs twice or in a queue it was not made for |
| `TimedJobs.ReservedJobRunsOnce` | Server/ServerCore/job/job_queue.h:20-31 | when everything has settled every reserved job has run exactly once in its owner's queue, or nowhere if the owner was gone at its dispatch |
| `TimedJobs.RunsNoEarlier` | Server/ServerCore/job/job_timer.cpp:6-45 | a reserved job that has run was dispatched no earlier than its delay after the reservation exactly if that tick fits 64 bits |
| `TimedTraces.DispatchGoesBy` | Server/ServerCore/job/job_timer.cpp:36-42 | in every reachable joint state the dispatch of a living owner's job is a push with `push_only` by a thread that executes nothing; a job without owner is not pushed |
| `TimedTraces.ExpiredExactly` | Server/ServerCore/job/job_timer.cpp:36-42 | given up are exactly the jobs dispatched after their owner was gone |
| `TimedTraces.TimedJobRunsHere` | Server/ServerCore/job/job_timer.cpp:38-38 | a timed push that finds its queue empty ends in `Execute` on the dispatching thread and never goes through the global queue |
| `LockWord.InvAlways` | Server/ServerCore/thread/lock.cpp:7-95 | every interleaving of the loads, exchanges, adds and stores keeps the invariant |
| `LockWord.WriterExcludesAll` | Server/ServerCore/thread/lock.cpp:22-30 | while one thread holds write no other thread holds anything |
| `LockWord.WordDecodes` | Server/ServerCore/thread/lock.h:6-12 | the word is the owner's id and the number of read holds; reads under an owner are the owner's |
| `LockWord.OwnerIsUndisturbed` | Server/ServerCore/thread/lock.cpp:71-77 | no other thread's step changes the word or the counter while it is owned |
| `LockWord.ReadTakenExactly` | Server/ServerCore/thread/lock.cpp:72-76 | a reader's exchange succeeds exactly if no thread owns the word and as many reads are held as it expects, so that readers share; it adds one read and nothing else |
| `LockWord.WriteTakenExactly` | Server/ServerCore/thread/lock.cpp:20-28 | a writer's exchange succeeds exactly if no thread owns the word and no read is held |
| `LockWord.UndisturbedReadSucceeds` | Server/ServerCore/thread/lock.cpp:72-76 | a reader that loads and exchanges with nothing in between succeeds exactly if no thread owns the word |
| `LockWord.CounterIsDepth` | Server/ServerCore/thread/lock.cpp:12-17 | between operations the plain counter is the owner's write nesting |
| `LockWord.StoreErasesOwnHoldOnly` | Server/ServerCore/thread/lock.cpp:49-53 | the unlocking store finds only the owner's id, so it erases nobody else's hold |
| `LockWord.CrashExactly` | Server/ServerCore/thread/lock.cpp:45-47 | an order crash happens exactly when the unlocking writer still holds a read; a read unlock never crashes |
| `LockWord.AllReleasedMeansEmpty` | Server/ServerCore/thread/lock.cpp:40-54 | with nothing held the word and the counter are zero again |
| `LockWord.ReaderLimitIsSharp` | Server/ServerCore/thread/lock.cpp:72-74 | the 65536th read would carry into the owner half, and no earlier one does |
| `DeadLockProfilers.DeadLockProfiler.Dfs` | Server/ServerCore/thread/dead_lock_profiler.cpp:67-113 | terminates; without a crash `here` is finished and the search state is kept; with one, a real cycle was printed |
| `DeadLockProfilers.DeadLockProfiler.Follow` | Server/ServerCore/thread/dead_lock_profiler.cpp:83-110 | one edge: forward edges and finished locks are harmless, an unfinished ancestor closes a cycle |
| `DeadLockProfilers.DeadLockProfiler.ReportCycle` | Server/ServerCore/thread/dead_lock_profiler.cpp:94-108 | the walk up the parents reaches `there`, and the printed lines are a cycle of recorded edges |
| `DeadLockProfilers.DeadLockProfiler.CheckCycle` | Server/ServerCore/thread/dead_lock_profiler.cpp:51-65 | crashes if and only if the history has a cycle |
| `DeadLockProfilers.DeadLockProfiler.AllFinishedMeansAcyclic` | Server/ServerCore/thread/dead_lock_profiler.cpp:58-60 | finishing times rank the graph, so a completed search excludes every cycle |
| `DeadLockProfilers.DeadLockProfiler.PushLock` | Server/ServerCore/thread/dead_lock_profiler.cpp:4-33 | crashes exactly if the new edge closes a cycle; otherwise ids, history and stack grow; which edges there are is `LockOrder.EdgeIsAStep` |
| `DeadLockProfilers.DeadLockProfiler.PopLock` | Server/ServerCore/thread/dead_lock_profiler.cpp:35-49 | the two crash conditions, and the stack without its top |
| `LockGraph.RankedMeansAcyclic` | Server/ServerCore/thread/dead_lock_profiler.cpp:67-113 | a graph with a rank that drops along every edge has no cycle |
| `LockGraph.SpelledCycle` | Server/ServerCore/thread/dead_lock_profiler.cpp:95-106 | the printed lines, read backwards, are a closed walk |
| `LockGraph.MutualReachMeansEqual` | Server/ServerCore/thread/dead_lock_profiler.cpp:51-65 | in an acyclic history two ids that reach each other are one |
| `LockOrder.ProfilerStaysSound` | Server/ServerCore/thread/dead_lock_profiler.cpp:4-49 | over all runs ids and names are a bijection, the history is acyclic and guarded releases never crash |
| `LockOrder.EdgeIsAStep` | Server/ServerCore/thread/dead_lock_profiler.cpp:19-29 | over all runs there is an edge from `u` to another id `v` exactly if at some earlier step a thread whose innermost recorded lock had id `u` took the lock with id `v` |
| `LockOrder.HistoryIsAcquisitions` | Server/ServerCore/thread/dead_lock_profiler.cpp:19-29 | and in names: exactly if some thread, with a lock of the first name taken last and still held, took one of the second, different name |
| `LockOrder.CrashMeansAcquiredCycle` | Server/ServerCore/thread/dead_lock_profiler.cpp:25-28 | taking a lock crashes if and only if the acquisitions that really happened, this one included, have a cycle |
| `LockOrder.UnlockCrashesExactly` | Server/ServerCore/thread/dead_lock_profiler.cpp:35-48 | releasing crashes exactly with nothing held, or with another name than the one taken last; an unknown name passes for the first one taken |
| `LockOrder.EqualIdsAreContiguous` | Server/ServerCore/thread/dead_lock_profiler.cpp:19-32 | on a thread's stack everything between two equal ids has that id |
| `LockOrder.CircularWaitHasOneName` | Server/ServerCore/thread/lock.cpp:7-10 | a circular wait involves locks of one single name only |
| `Framing.FrameReadsBack` | Server/GameServer/network/game/game_client_packet_handler.h:175-189 | a framed packet followed by anything is cut off whole, with its size, id and payload |
| `Framing.ParseAppend` | Server/ServerCore/network/session.cpp:296-317 | bytes that arrive later never change packets already cut |
| `Framing.ParseKeepsBytes` | Server/ServerCore/network/session.cpp:296-317 | packets and leftover together are the stream |
| `Framing.RestHasNoPacket` | Server/ServerCore/network/session.cpp:302-310 | what is left holds no whole packet |
| `Framing.LeftoverBounded` | Server/ServerCore/network/session.cpp:306-310 | what is left is at most 65534 bytes |
| `Framing.ParseFrames` | Server/ServerCore/network/session.cpp:296-317 | reading framed messages gives exactly the frames, in order, with nothing left |
| `Framing.LoopEndsIffLive` | Server/ServerCore/network/session.cpp:299-314 | the loop as written ends if and only if no reached header announces size zero |
| `Framing.ZeroHeaderNeverEnds` | Server/ServerCore/network/session.cpp:306-313 | four zero bytes keep the loop turning for ever |
| `RecvBuffers.RecvBuffer.CopyToFront` | Server/ServerCore/network/recv_buffer.cpp:18-18 | the copy, for source and target that do not overlap |
| `RecvBuffers.RecvBuffer.Clear` | Server/ServerCore/network/recv_buffer.cpp:11-22 | keeps the unread bytes: without any both positions start again, with room for a full receive nothing moves, and otherwise the bytes move to the front |
| `RecvBuffers.RecvBuffer.OnRead` | Server/ServerCore/network/recv_buffer.cpp:24-31 | refuses exactly more than there is, else moves the read position |
| `RecvBuffers.RecvBuffer.OnWrite` | Server/ServerCore/network/recv_buffer.cpp:33-40 | refuses exactly more than fits, else moves the write position |
| `PacketSessions.PacketSession.OnRecv` | Server/ServerCore/network/session.cpp:296-317 | delivers exactly the whole packets of the window and reports the bytes they took; gets stuck exactly at a header that announces size zero |
| `PacketSessions.PacketSession.ProcessRecv` | Server/ServerCore/network/session.cpp:238-262 | disconnects only on an empty or oversized completion; otherwise the copy never overlaps and room for a full receive remains, unless the loop gets stuck |
| `PacketSessions.PacketSession.Receive` | Server/ServerCore/network/session.cpp:134-145 | the window stays the undelivered suffix of everything received, until exactly a size of zero in the stream gets the session stuck |
| `PacketSessions.PacketSession.ReceiveAll` | Server/ServerCore/network/session.cpp:238-262 | however the network cuts the stream, exactly the framed packets are delivered, in order |
| `SendProtocol.InvAlways` | Server/ServerCore/network/session.cpp:15-35 | duty, lock, event and queue stay consistent in every interleaving |
| `SendProtocol.OneOutstanding` | Server/ServerCore/network/session.cpp:200-217 | at most one send is outstanding, refusals included, and its buffers stay referenced |
| `SendProtocol.SendsInOrder` | Server/ServerCore/network/session.cpp:167-218 | batches given to `WSASend`, refused ones included, ++ batch in hand ++ queue are the accepted buffers in lock order; no batch is empty |
| `SendProtocol.QueuedMeansDuty` | Server/ServerCore/network/session.cpp:264-282 | with nothing refused, a nonempty queue is registered and somebody has the duty to send it |
| `SendProtocol.DutyIsUnique` | Server/ServerCore/network/session.cpp:27-34 | the duty to send is never held twice |
| `SendProtocol.ServedIffRegistered` | Server/ServerCore/network/session.cpp:15-35 | in every reachable state a queued buffer of a connected session has somebody to send it if and only if the session is registered |
| `SendProtocol.StrandedExactlyByRefusal` | Server/ServerCore/network/session.cpp:208-216 | a step leaves a queued buffer with nobody on duty if and only if it is the store after a refusal, connected, with buffers queued |
| `SendProtocol.StrandedUntilNextSend` | Server/ServerCore/network/session.cpp:22-34 | what was left behind stays so exactly until the next buffer is queued or the session disconnects; that sender has the duty |
| `SendProtocol.RefusalStrandsBuffer` | Server/ServerCore/network/session.cpp:208-216 | a run in which it happens |
| `SendSteps.SendQueuesIfConnected` | Server/ServerCore/network/session.cpp:15-35 | over runs with their actions: a `Send` on a connected session ends by queueing its buffer behind all others; on any other it does nothing |
| `SendSteps.AcceptedIsGiven` | Server/ServerCore/network/session.cpp:22-30 | the accepted buffers are those given to `Send`, each once, in the order of the lock |
| `SendSteps.BatchIsTheQueue` | Server/ServerCore/network/session.cpp:167-188 | on a connected session `RegisterSend` makes one batch of everything queued and leaves the queue empty; on any other it touches neither |
| `SendSteps.OfferGoesBy` | Server/ServerCore/network/session.cpp:199-217 | a taken batch is outstanding; a refused one is dropped, then the session is disconnected if the error says so, and then the registration ends |
| `SendSteps.CompletionGoesBy` | Server/ServerCore/network/session.cpp:264-275 | a completion gives up the event's buffers, and one of no bytes disconnects and ends |
| `SendSteps.DecisionGoesBy` | Server/ServerCore/network/session.cpp:275-281 | under the lock an empty queue ends the registration and any other is registered again |
| `SendBuffers.SendBufferChunk.Open` | Server/ServerCore/network/send_buffer.cpp:20-31 | hands out the free part behind the used bytes, or null exactly when it is too small |
| `SendBuffers.SendBufferManager.Open` | Server/ServerCore/network/send_buffer.cpp:41-55 | never null for up to 4096 bytes; a current chunk with room stays and the buffer starts behind its used bytes; otherwise the last listed chunk, or a new one when none is listed, takes its place from its start on; no other chunk is touched |
| `SendBuffers.MakeSendBufferInternal` | Server/GameServer/network/game/game_client_packet_handler.h:175-189 | succeeds exactly for payloads up to 4092 bytes; then the bytes written in place are the frame of id and payload, and nothing before them in the chunk changes; and exactly where the 16-bit size wraps the source writes out of bounds |
| `SendBuffers.MakeTwoInARow` | Server/ServerCore/network/send_buffer.cpp:35-55 | two messages that fit together into the current chunk lie behind each other in it, and the second leaves the first as it is |
| `SendChunks.InvAlways` | Server/ServerCore/network/send_buffer.cpp:10-80 | for any threads and any order of steps chunks, owners and buffers stay consistent |
| `SendChunks.ClosedBuffersAreStable` | Server/ServerCore/network/send_buffer.cpp:10-15 | closed buffers still referenced are in bounds, pairwise disjoint, and hold what they were closed with |
| `SendChunks.BytesNeverChange` | Server/ServerCore/network/send_buffer.cpp:35-39 | from its closing on, while referenced, the bytes of a buffer never change |
| `SendChunks.ResetIsAlone` | Server/ServerCore/network/send_buffer.cpp:41-53 | a chunk is reset only when no live buffer refers to it and no other thread can reach it |
| `SendChunks.OpenNeverFails` | Server/ServerCore/network/send_buffer.cpp:20-55 | for sizes up to a chunk `Open` is never null and no assertion fails |
| `SendTraces.OpensWhatIsDue` | Server/ServerCore/network/send_buffer.cpp:22-69 | over runs of any threads: a request for which its thread's chunk had room gets the bytes behind what was used of it then, any other the start of the chunk returned last or of a new one |
| `SendTraces.ClosesWhatIsWritten` | Server/ServerCore/network/send_buffer.cpp:10-39 | closing takes as much of the chunk as was written, and the buffer is closed with the bytes its thread wrote last |
| `MemoryManagers.MemoryManager.BuildTable` | Server/ServerCore/memory/memory.cpp:6-36 | the three loops give every index 0 to 4096 the pool of its class |
| `MemoryManagers.ClassFits` | Server/ServerCore/memory/memory.cpp:10-35 | a class is at least the size asked for and wastes less than 32, 128 or 256 bytes |
| `MemoryManagers.ClassIsNext` | Server/ServerCore/memory/memory.cpp:10-35 | the class is the next multiple of 32, 128 or 256 by range, and 32 for no bytes |
| `MemoryManagers.MemoryManager.Pop` | Server/ServerCore/memory/memory_pool.cpp:21-34 | one request alone: the block released last or a new one; a reused block is marked free |
| `MemoryManagers.MemoryManager.Push` | Server/ServerCore/memory/memory_pool.cpp:14-19 | one release alone: marks the block free, keeps it first and moves it between the counters |
| `MemoryManagers.MemoryManager.Allocate` | Server/ServerCore/memory/memory.cpp:46-61 | a block that is not live yet and large enough, from the pool of its class, which alone changes: its last free block or a new one |
| `MemoryManagers.MemoryManager.Release` | Server/ServerCore/memory/memory.cpp:63-77 | the block goes back to the front of the pool it came from, which alone changes; the size assertion never fires |
| `MemoryManagers.PoppedKeeps` | Server/ServerCore/memory/memory_pool.cpp:21-34 | a request keeps every block ever created in exactly one place, live or kept by its pool, and both counters exact |
| `MemoryManagers.PushedKeeps` | Server/ServerCore/memory/memory_pool.cpp:14-19 | and so does a release |
| `MemoryManagers.CountersAreCreations` | Server/ServerCore/memory/memory_pool.cpp:14-34 | the use and reserve counts of a pool together are the number of blocks it has ever created |
| `MemoryManagers.LastBackFirstOut` | Server/ServerCore/memory/memory_pool.cpp:14-34 | a request after a release gets the released block and leaves the pool as it was; an empty pool hands out a new block |
| `MemoryPools.InvAlways` | Server/ServerCore/memory/memory_pool.cpp:14-34 | places, headers and counters of all blocks hold after every interlocked operation, addition and header access of any threads |
| `MemoryPools.PoppedIsClear` | Server/ServerCore/memory/memory_pool.cpp:26-27 | in every interleaving a block taken from the list carries zero, so that the assertion never fires |
| `MemoryPools.ReleasedIsStamped` | Server/ServerCore/memory/memory.cpp:63-77 | a live block carries a positive size whose class is the pool that created it: the assertion of a release never fires and the block goes back there |
| `MemoryPools.BlockIsInOnePlace` | Server/ServerCore/memory/memory_pool.cpp:14-34 | every created block is at every moment live, with one thread, or once on its own pool's list |
| `MemoryPools.CountersAlways` | Server/ServerCore/memory/memory_pool.cpp:16-31 | both counters at every moment, up to exactly the threads that have not added or subtracted yet |
| `MemoryPools.QuiescentCountersAreExact` | Server/ServerCore/memory/memory_pool.cpp:16-31 | with no thread inside, the counters are the live and the kept blocks, together all that were ever created |
| `PoolTraces.StampedAsAsked` | Server/ServerCore/memory/memory.cpp:46-61 | over runs with their actions: a block is handed out with the number of bytes its thread asked for in its header |
| `PoolTraces.LinkedLastIsTakenFirst` | Server/ServerCore/memory/memory_pool.cpp:14-22 | a request looks into the list of its class and gets the block linked there last, by whichever thread |
| `Bytes.LittleEndianRoundTrip` | Tools/PKG1/WZSerializer.cs:471-490 | little-endian bytes read back as the number |
| `Bytes.XorTwice` | Tools/PKG1/WZReader.cs:594-622 | a mask applied twice gives the byte back |
| `WzFormat.XorIs` | Tools/PKG1/WZSerializer.cs:447-447 | the byte whose eight bits say where two bytes differ is their exclusive or |
| `WzFormat.IntBytes` | Tools/PKG1/WZSerializer.cs:471-476 | an integer from -127 to 127 is one byte modulo 256, any other 0x80 and the four bytes of its two's complement, lowest first |
| `WzFormat.LongBytes` | Tools/PKG1/WZSerializer.cs:485-490 | the same for longs with eight bytes |
| `WzFormat.EightBytes` | Tools/PKG1/WZSerializer.cs:487-487 | and these eight, lowest first |
| `WzFormat.SingleBytes` | Tools/PKG1/WZSerializer.cs:478-483 | a float is one byte if it is a whole number from -127 to 127 and otherwise 0x80 and its four bytes |
| `WzSingles.WholeOfIs` | Tools/PKG1/WZSerializer.cs:480-480 | the test finds exactly the whole numbers of IEEE 754 from -127 to 127, by sign, significand and power of two |
| `WzSingles.BitsOfIs` | Tools/PKG1/WZReader.cs:690-698 | the number read from one byte is the number the byte is |
| `WzFormat.StringBytes` | Tools/PKG1/WZSerializer.cs:425-439 | in front of the text stands its length: negated in one byte or behind 0x80 for one-byte text, in one byte or behind 127 for two-byte text |
| `WzFormat.NarrowText` | Tools/PKG1/WZSerializer.cs:445-447 | byte `i` of one-byte text is character `i`, or a question mark beyond ASCII, exclusive or (0xAA + i) modulo 256 |
| `WzFormat.WideText` | Tools/PKG1/WZSerializer.cs:451-459 | bytes `2 i` and `2 i + 1` of two-byte text are the halves of unit `i` exclusive or those of (0xAAAA + i) modulo 65536 |
| `WzFormat.RepairedAt` | Tools/PKG1/WZSerializer.cs:451-451 | exactly the surrogates that are not half of a pair are replaced, by U+FFFD |
| `WzFormat.NarrowRead` | Tools/PKG1/WZReader.cs:597-605 | character `i` read from one-byte text is byte `i` exclusive or (0xAA + i) modulo 256, or a question mark beyond ASCII |
| `WzFormat.WideRead` | Tools/PKG1/WZReader.cs:619-632 | unit `i` read from two-byte text is its two bytes without the halves of (0xAAAA + i) modulo 65536 |
| `WzFormat.ReadsNarrow` | Tools/PKG1/WZReader.cs:578-596 | whatever bytes follow the length of one-byte text are read as its characters, cut short by the end of the stream |
| `WzFormat.ReadsWide` | Tools/PKG1/WZReader.cs:578-596 | whatever bytes follow the length of two-byte text are read as its units, and a stream that ends inside them is an error |
| `WzFormat.PropertyBytes` | Tools/PKG1/WZSerializer.cs:89-89 | "Property" is F8 FA D9 C3 DD CB DD C4 C8 |
| `WzFormat.UolBytes` | Tools/PKG1/WZSerializer.cs:280-280 | "UOL" in bytes |
| `WzFormat.VectorBytes` | Tools/PKG1/WZSerializer.cs:268-268 | "Shape2D#Vector2D" in bytes |
| `WzFormat.ValueBytes` | Tools/PKG1/WZSerializer.cs:132-177 | the type byte of every kind of value and what follows it |
| `WzFormat.BlockBytes` | Tools/PKG1/WZSerializer.cs:178-189 | a block value is 9, the four bytes of the length of its block, and the block |
| `WzFormat.ExtendedBytes` | Tools/PKG1/WZSerializer.cs:259-283 | the bytes of a sub-property, a vector and a UOL around their children, coordinates and target |
| `WzFormat.NodesBytes` | Tools/PKG1/WZSerializer.cs:119-130 | children lie one behind the other, each as a zero, its name and its value; null ones leave no trace and are not counted |
| `WzFormat.ImageBytes` | Tools/PKG1/WZSerializer.cs:88-94 | an image is 0x73, "Property", two zeros, the count and the children |
| `WzFormat.KindsRead` | Tools/PKG1/PropertyResolvers.cs:99-129 | two further types read as 16-bit numbers, the values of bytes are read, and any unknown type is an error |
| `WzFormat.EntryBytes` | Tools/PKG1/WZSerializer.cs:198-211 | a directory entry is 4, the name, the escaped size, the escaped 123456789 and the code |
| `WzPrimitives.CompactReadsBack` | Tools/PKG1/WZReader.cs:706-724 | short or escaped integers of four and eight bytes read back |
| `WzPrimitives.SingleReadsBack` | Tools/PKG1/WZReader.cs:690-698 | a float reads back as the number its one byte or its four bytes stand for |
| `WzPrimitives.SingleStoredIff` | Tools/PKG1/WZSerializer.cs:478-483 | a float survives if and only if it is not a whole number from -127 to 127 with its sign bit set |
| `WzPrimitives.LengthReadsBack` | Tools/PKG1/WZSerializer.cs:423-439 | the length prefix reads back as text length and width |
| `WzPrimitives.StringReadsBack` | Tools/PKG1/WZSerializer.cs:423-463 | every string reads back as what the format can store of it |
| `WzPrimitives.StoredIffStorable` | Tools/PKG1/WZSerializer.cs:423-463 | a string survives if and only if it is 7-bit, or has a unit above 0xFF and is well-formed UTF-16 |
| `WzOrder.OrderedIsAscending` | Tools/PKG1/WZSerializer.cs:119-124 | children are written in ascending order of name |
| `WzOrder.OrderedHolds` | Tools/PKG1/WZSerializer.cs:119-124 | the ordered list holds exactly the children that are not null |
| `WzOrder.OrderedIsStable` | Tools/PKG1/WZSerializer.cs:121-122 | children whose names compare as equal keep their order |
| `WzOrder.SavedIsOrdered` | Tools/PKG1/WZSerializer.cs:117-191 | ordering a list and saving its children gives the list of the saved tree |
| `WzWriters.WzWriter.GetWzStringBytes` | Tools/PKG1/WZSerializer.cs:423-463 | appends exactly the string layout; the masks count up as `WzFormat.NarrowText` and `WzFormat.WideText` say |
| `WzWriters.WzWriter.MaskUnicode` | Tools/PKG1/WZSerializer.cs:449-460 | the loop masks every unit of the text |
| `WzWriters.WzWriter.WzIntToByte` | Tools/PKG1/WZSerializer.cs:471-476 | appends exactly the integer layout |
| `WzWriters.WzWriter.WzLongToByte` | Tools/PKG1/WZSerializer.cs:485-490 | appends exactly the long layout |
| `WzWriters.WzWriter.WzSingleToByte` | Tools/PKG1/WZSerializer.cs:478-483 | appends exactly the float layout: one byte for whole numbers from -127 to 127 |
| `WzWriters.WzWriter.PatchLength` | Tools/PKG1/WZSerializer.cs:184-188 | puts the length of what was written since into the four bytes before it and returns to the end |
| `WzWriters.WzWriter.BackPatched` | Tools/PKG1/WZSerializer.cs:178-189 | a type-9 value is its block preceded by exactly the block's length |
| `WzWriters.WzWriter.PropertyValue` | Tools/PKG1/WZSerializer.cs:132-189 | appends the layout of the saved value, by type; of a byte or sbyte the type alone |
| `WzWriters.WzWriter.PropertyList` | Tools/PKG1/WZSerializer.cs:117-191 | appends the layout of the saved list: count, then every child that is not null, by name |
| `WzWriters.WzWriter.Resolve` | Tools/PKG1/WZSerializer.cs:246-290 | appends the keyword and the body of an extended value |
| `WzWriters.WzWriter.SubProperty` | Tools/PKG1/WZSerializer.cs:465-469 | appends a zero and the list |
| `WzWriters.WzWriter.Image` | Tools/PKG1/WZSerializer.cs:76-95 | appends the layout of the saved image |
| `WzReaders.WzReader.NextCompact` | Tools/PKG1/WZReader.cs:706-724 | reads an integer and moves the cursor as specified |
| `WzReaders.WzReader.NextSingle` | Tools/PKG1/WZReader.cs:690-698 | reads a float and moves the cursor as specified |
| `WzReaders.WzReader.Unmask` | Tools/PKG1/WZReader.cs:619-632 | the in-place loop turns masked bytes into the text |
| `WzReaders.WzReader.NextString` | Tools/PKG1/WZReader.cs:578-635 | answers as the string specification, errors included; the masks count up as `WzFormat.NarrowRead` and `WzFormat.WideRead` say |
| `WzReaders.WzReader.NextBlock` | Tools/PKG1/WZReader.cs:397-415 | answers as the string-block specification, for strings in place and for those the next four bytes point to |
| `WzReaders.WzReader.NextShared` | Tools/PKG1/WZReader.cs:642-680 | reads the string at the signed offset from the start of the image and puts the cursor back |
| `WzReaders.WzReader.ExtendedProperty` | Tools/PKG1/PropertyResolvers.cs:119-123 | the block is read, the cursor put back, and the block skipped by its length |
| `WzReaders.WzReader.ParseExtendedProperty` | Tools/PKG1/PropertyResolvers.cs:419-467 | dispatches on the keyword and answers as specified |
| `WzReaders.WzReader.PropertyValue` | Tools/PKG1/PropertyResolvers.cs:97-131 | dispatches on the type byte and answers as specified |
| `WzReaders.WzReader.PropertyList` | Tools/PKG1/PropertyResolvers.cs:88-132 | the loop answers as the recursive list specification, null children past the end included |
| `WzReaders.WzReader.ImageChildren` | Tools/PKG1/PropertyResolvers.cs:57-77 | checks mark, keyword and zero, and answers with the children |
| `WzRoundTrip.ValueBack` | Tools/PKG1/PropertyResolvers.cs:97-131 | a written value without bytes in it reads back as what survives of it, and the cursor ends right behind it |
| `WzRoundTrip.WrappedBack` | Tools/PKG1/PropertyResolvers.cs:119-123 | a type-9 block without bytes in it is skipped by exactly its length, whatever follows |
| `WzRoundTrip.ListBack` | Tools/PKG1/PropertyResolvers.cs:88-132 | a written list without bytes in it reads back as what survives of it, whatever bytes follow |
| `WzSurvival.ListSurvives` | Tools/PKG1/PropertyResolvers.cs:88-132 | a list that survives the byte behind it reads back, at every nesting; one that does not does not, unless a name behind a byte looks like a de-duplicated one |
| `WzSurvival.NodesAhead` | Tools/PKG1/PropertyResolvers.cs:91-104 | read from its second byte on, a list is itself if it is nameless nulls and a zero follows, and only then unless a name looks like a de-duplicated one |
| `WzSurvival.ByteLosesTheRest` | Tools/PKG1/WZSerializer.cs:132-135 | an image in whose list anything but a nameless null follows a byte does not come back, unless a name looks like a de-duplicated one |
| `WzSurvival.ImageRoundTrip` | Tools/PKG1/PropertyResolvers.cs:57-132 | for every tree, before and after any bytes: an image reads back if its list survives the byte behind it, and only if, unless a name behind a byte looks like a de-duplicated one |
| `WzLookalikes.TwinComesBack` | Tools/PKG1/WZReader.cs:397-415 | why the exception is needed: 45-byte images, anywhere in a stream, that do not survive and come back, by a name that points to itself |
| `WzSurvival.MinusOneIsLost` | Tools/PKG1/WZSerializer.cs:478-483 | -1.0 is written as one byte and read back as 255.0 |
| `WzSurvival.NamedImageRoundTrip` | Tools/PKG1/WZSerializer.cs:76-191 | every tree without null children, bytes, negative whole floats, empty names and strings that cannot be stored reads back |
| `WzSurvival.NamelessNullIsLost` | Tools/PKG1/PropertyResolvers.cs:90-90 | one nameless null property at the end of the stream is lost |
| `WzSavedTrees.SavedTreeReadsBack` | Tools/PKG1/WZSerializer.cs:117-191 | any tree with storable values and nonempty names reads back as saved: without null children, in the writer's order |
| `WzSavedTrees.SavedIsPermutation` | Tools/PKG1/WZSerializer.cs:119-124 | saving loses and adds no child of a list |
| `WzOffset.OffsetReadsBack` | Tools/PKG1/WZReader.cs:727-738 | reading an offset undoes writing it, modulo 2^32, for every key, position and contents start |
| `WzOffset.CodeIsOfItsOffset` | Tools/PKG1/WZSerializer.cs:292-301 | and writing undoes reading: codes and offsets correspond one to one |
| `WzOffset.MaskIs` | Tools/PKG1/WZSerializer.cs:292-297 | the mask is (2^32 - 1 - position) * key - 0x581C3F6D in 32 bits, with the high part of as many bits as its five lowest say and the low part swapped |
| `WzOffset.CodeIs` | Tools/PKG1/WZSerializer.cs:292-301 | and the code is that mask exclusive or the offset less twice the contents start |
| `WzDirectory.EntryPatched` | Tools/PKG1/WZSerializer.cs:379-387 | the two patches of an entry change that entry's size and code and no other byte |
| `WzDirectory.EntriesBack` | Tools/PKG1/PropertyResolvers.cs:215-282 | entries read back one for one, each code decoded at the position it is stored at |
| `WzDirectory.DirectoryBack` | Tools/PKG1/PropertyResolvers.cs:215-282 | a patched directory reads back as its names, sizes and decoded offsets |
| `WzSerializers.WzSerializer.DirectoryChildren` | Tools/PKG1/WZSerializer.cs:193-212 | appends count and placeholder entries and remembers where each entry's tail is |
| `WzSerializers.WzSerializer.Flush` | Tools/PKG1/WZSerializer.cs:375-388 | one finished image is appended, its entry patched, and nothing else changes |
| `WzSerializers.LaidStep` | Tools/PKG1/WZSerializer.cs:375-388 | flushing keeps every earlier image in place and apart from the new one |
| `WzSerializers.WzSerializer.FlushAll` | Tools/PKG1/WZSerializer.cs:355-389 | true for every order in which images are finished |
| `WzSerializers.WzSerializer.Serialize` | Tools/PKG1/WZSerializer.cs:303-392 | the version hash comes first, and afterwards the reader lists every child with its size and the place of exactly its bytes, no two overlapping |
| `WzSerializers.ListedTreeReadsBack` | Tools/PKG1/WZSerializer.cs:303-392 | and a tree serialized as a child reads back at the offset listed for it if it survives the byte behind it, and only if, with the same exception |
| `MapInstances.CellIsInside` | Server/GameServer/game/objects/game_object.cpp:38-50 | with a left bound at or below zero every place on the map names a cell of the grid |
| `MapInstances.PlacedExactly` | Server/GameServer/game/objects/game_object.cpp:38-50 | which cell: column and row are the whole steps of 25 from the left bound, or as far left of zero right of a bound above zero, and from the origin in both directions |
| `MapInstances.CellsExactly` | Server/GameServer/game/map/map_instance.cpp:19-20 | a side has one cell more than whole steps of 25 |
| `MapInstances.KindsByRange` | Server/GameServer/game/objects/game_object.h:6-14 | the kind of an object is the range of ten million its id is in, and the ranges start again after 256 |
| `MapInstances.ColumnsInsideIff` | Server/GameServer/game/objects/game_object.cpp:42-46 | every place from bound to bound has its column in the grid if and only if the left bound is not above zero or even the rightmost place falls into the last column |
| `MapInstances.CellCanBeOutside` | Server/GameServer/game/objects/game_object.cpp:42-46 | a map that starts right of zero and whose left edge names a column beyond its grid |
| `MapInstances.PushAgrees` | Server/GameServer/game/map/map_instance.cpp:41-41 | pushing an unlisted object into its cell lists it there once and nowhere else |
| `MapInstances.EraseAgrees` | Server/GameServer/game/map/map_instance.cpp:54-54 | erasing it from its cell unlists it everywhere |
| `MapInstances.MapInstance.AddPlayer` | Server/GameServer/game/map/map_instance.cpp:32-45 | refused exactly for a known player id; grid, objects and tables keep agreeing, exactly unless a new player's cell is not in the grid |
| `MapInstances.MapInstance.RemoveObject` | Server/GameServer/game/map/map_instance.cpp:47-86 | the object is gone from every index; false exactly for an absent player; an absent monster is the one case the source does not handle |
| `MapInstances.MapInstance.OnPlayerMove` | Server/GameServer/game/map/map_instance.cpp:88-113 | the player's new cell lists it, whether or not the cell changed, exactly if that cell is in the grid |
| `MapInstances.MapInstance.MoveObject` | Server/GameServer/game/map/map_instance.cpp:115-123 | given the cell an object was in, the grid agrees again |
| `MapInstances.MapInstance.RespawnMobs` | Server/GameServer/game/map/map_instance.cpp:332-374 | after 15 seconds every spawn point has exactly one monster; what is new are monsters of spawn points that had none, at their places and listed in their cells; nothing else changes |
| `DxtDecoder.AlphaIsBetween` | Tools/PKG1/WZReader.cs:307-321 | interpolated alphas lie between the two end points |
| `DxtDecoder.AlphaIsNearestMean` | Tools/PKG1/WZReader.cs:307-321 | each alpha is the whole number nearest to its weighted mean of the end points, in sevenths or fifths; the last two of the fifths are 0 and 255 |
| `DxtDecoder.ExpandAlphaTableDxt5` | Tools/PKG1/WZReader.cs:307-321 | fills the table of eight alphas |
| `DxtDecoder.FieldDigit` | Tools/PKG1/WZReader.cs:323-336 | index bits taken from two 24-bit halves are the 3-bit digits of the 48-bit little-endian field |
| `DxtDecoder.IndexBits` | Tools/PKG1/WZReader.cs:323-336 | eight indexes of three bits fill three bytes from the lowest bit on |
| `DxtDecoder.ExpandAlphaIndexTableDxt5` | Tools/PKG1/WZReader.cs:323-336 | the loops extract all sixteen digits of the field |
| `DxtDecoder.ExpandAlphaTableDxt3` | Tools/PKG1/WZReader.cs:295-305 | four-bit alphas, spread to eight bits |
| `DxtDecoder.NibbleIsSpread` | Tools/PKG1/WZReader.cs:295-305 | the two alphas of a byte are its low and its high half, times 255/15 |
| `DxtDecoder.ExpandColorIndexTable` | Tools/PKG1/WZReader.cs:284-293 | two-bit colour indexes, a byte for each row |
| `DxtDecoder.RowOfIndexes` | Tools/PKG1/WZReader.cs:284-293 | the four indexes of a row make up its byte, lowest first |
| `DxtDecoder.SetPixel` | Tools/PKG1/WZReader.cs:259-266 | writes the four bytes of one pixel and touches no other pixel |
| `DxtDecoder.GetPixelData` | Tools/PKG1/WZReader.cs:151-223 | all accesses in bounds, and every pixel of the image is the one its block gives |
| `DxtDecoder.ShownIs` | Tools/PKG1/WZReader.cs:158-180 | what is shown at a point comes from the sixteen bytes of its block, blocks counted row by row |
| `DxtDecoder.BytesOfPixel` | Tools/PKG1/WZReader.cs:259-266 | the four bytes at 4 (y width + x) are blue, green, red and alpha |

## Left out

- Sockets, completion ports, databases, message parsing, template loading and console output: input and output.
- Threads, completions, the clock and the network are choices of the model's runs; nothing is assumed about fairness.
- `JobQueue::Clear`, which empties the queue without adjusting the counter, and the 32-bit overflow of `_job_count`.
- `TimedJobs.ReservedJobRunsOnce`: jobs have numbers given out when they are made, as job objects have identities; whether an owner is alive is a choice of the run.
- Jobs themselves: a job runs to its end and may push further jobs only through the modelled `Push`.
- Lock timeouts (a waiting thread stays waiting) and releases that do not come from guards.
- A write acquisition nested inside a read that is not under a write spins for ever and stays a waiting thread.
- Lock names are compared by address, as in the source; two locks of one name count as one.
- Reference counting as such: a chunk whose last reference is gone is pushed to the list once, some time later; buffers are always closed by the thread that opened them.
- `SendBuffers.MakeSendBufferInternal`: where the source writes out of bounds the model stops, because what happens then is undefined.
- `SendProtocol.SendsInOrder`: a refused batch counts as given to `WSASend`; the source drops it, and no other buffer is lost.
- `JobTimers.JobTimer.Top`: the heap inside the priority queue belongs to the standard library; any top it may choose is allowed.
- `MemoryManagers.MemoryManager.Allocate`: requests and releases are whole steps, likewise `Pop` and `Push`; `memory_pool.dfy` interleaves them, taking the system's interlocked list operations as atomic, for blocks that have a pool.
- Blocks are addresses with a size and a header; the bytes inside them and the guard-page allocator are not modelled.
- Encryption keys, the guessing of encryptions and versions, and the file header.
- Canvas, audio, Lua, raw-data and convex properties: image and compression libraries, and contents read as streams.
- `WzWriters.WzWriter.PropertyValue`: the property kinds above; a negative whole float becomes its byte modulo 256, as common runtimes convert it.
- `WzWriters.WzWriter.Resolve`: of the extended kinds sub-properties, vectors and UOLs.
- `WzReaders.WzReader.NextBlock`: the cache of de-duplicated strings, which answers what reading the place again would.
- `WzReaders.WzReader.PropertyValue`: the same extended kinds.
- `WzReaders.WzReader.ImageChildren`: the other encryptions of the keyword.
- `WzSurvival.ImageRoundTrip`: which trees with a name that looks like a de-duplicated one come back; that depends on what its text happens to point to.
- `WzOrder.OrderedIsAscending`: how two names compare is a parameter, because culture-sensitive comparison belongs to the runtime.
- `WzDirectory.EntriesBack`: as for `WzDirectory.DirectoryBack`, the first name must be printable.
- `WzDirectory.DirectoryBack`: the first name must be printable, because the reader starts guessing at encryptions when it is not.
- `WzSerializers.WzSerializer.DirectoryChildren`: takes the children in the order their names sort to.
- `WzSerializers.WzSerializer.Serialize`: nested directories and the parallel serialization itself; its result is any completion order.
- `WzReaders.WzReader.ParseExtendedProperty`: children are read at once, where the source reads them when they are first asked for.
- Strings are sequences of UTF-16 units, at most as long as the runtime allows.
- `MapInstances.CellIsInside`: coordinates are real numbers, so float rounding is not modelled, and cells are assumed to fit 16 bits.
- `MapInstances.MapInstance.OnPlayerMove`: after a grid access outside the grid the model stops, because the source leaves it undefined; likewise `AddPlayer` and `RemoveObject`.
- `MapInstances.MapInstance.RespawnMobs`: new object ids come from the caller, unused and of the monster range.
- Reviving, attacking, items, statistics and broadcasting on maps.
- Floating-point colour interpolation: `DxtDecoder` looks colours up in a palette function of the two end colours.
