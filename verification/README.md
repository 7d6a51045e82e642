# An engine's kernel and examples, modelled and proved in Dafny

This project models the core of a Rust game and application engine and proves
properties of that model. `dafny verify dfyconfig.toml` checks all of it.

- **Scheduling** (`Toposort`, `SystemAccess`, `Waves`, `WaveExecution`): the
  three-colour depth-first sort with its cycle report, the wave planner over
  declared read and write sets, and the meaning of a wave: whatever the order
  inside each wave, the outcome is the serial one.
- **Concurrent protocols** (`Barrier`, `ThreadPool`, `PoolQueue`, `SpscRing`): step machines
  whose steps are the single atomic accesses of the code, over all
  interleavings, with spurious wake-ups and wrapping words.
- **Offline-first replication** (`Packet`, `Wal`, `Replicator`,
  `ReplicatorRuns`, `SessionRules`, `PumpRules`, `Transmissions`,
  `CrashRecovery`, `SyncReplicator`): the wire format, the
  checksummed log as a byte sequence, and the replicator with its coalescing,
  retries, acknowledgements, crashes and restarts.
- **The entity-component store** (`Bits`, `Bitset`, `Entities`, `Storage`,
  `World`): generational handles, sparse-set storage with swap-remove, presence
  bits and queries, refined to one map from live handles to components.
- **Sudoku** (`Sudoku`, `SudokuOvershoot`, `Shuffles`, `SudokuGenerator`, `SudokuSession`):
  the solution counter and its limit, the puzzle generator built on it, and a
  game's moves and hints.
- **Voxels** (`Rectangles`, `Voxels`, `VoxelMesh`, `VoxelScene`, `ChunkBounds`,
  `StreamMesh`, `VoxelStream`): greedy meshing of terrain into quads, draw
  ranges, and the chunk streamer.
- **The cube** (`Cubies`, `Facelets`, `CubeGeometry`, `CubeState`, `RubikDriver`): 27 cubies with
  coordinates and orientations, the 54 facelets they show, history with undo
  and redo, and the animated driver.
- **Render batching** (`RenderManifest`): sorting instances into batches and
  preparing their draw commands.

Code that changes state in the source is a class or a method with a loop here.
Each such method is proved equal to a function of its inputs and the old state,
and the lemmas are about that function. The concurrent protocols and the
replicator's runs are sequences of steps on values.

## Where the code does not keep what one would expect

Each of these has a failing input that the code can receive and, beside it, the
exact condition under which the expected property holds.

- **A pool with two clients can hang.** `try_execute` calls `notify_one` after
  unlocking, on a condition variable that `wait_idle` shares, so the
  notification can go to a waiting client (src/platform/thread_pool.rs:105-106). A state
  with queued jobs, every worker parked and nobody able to act is reachable if
  and only if there are at least two clients
  (`ThreadPool.StuckExactlyWithSeveralClients`).
- **A torn log tail is never cut off**, so records appended after a crash that
  tore a record are not replayed (src/kernel/sync.rs:323-335). `Wal.AppendsAfterTornTail` says
  what replay does for every torn length: an error, or the silent loss of every
  later record; inside the checksum it is always an error (`Wal.TornTrailerFails`). Later records count if and only if nothing was torn
  (`Wal.AppendsMeanExactlyAtBoundary`).
- **The replayed log can be out of order.** A cumulative acknowledgement may
  cover packets that are still queued; coalescing one of them later writes it
  after its successors. The log rises throughout a run if and only if no
  coalescing meets a packet that was acknowledged out of the log while a later
  one is still in it (`CrashRecovery.OrderExactly`).
- **A restart can hand out a sequence number again**: it resumes after the last
  record still live, and acknowledged records are gone
  (`CrashRecovery.RestartCanRepeatSequences`, `CrashRecovery.RestartRepeatsSequence`).
- **The default log is too small for the default queues**: replay refuses more
  than 4096 live records, and the queues may hold 4096 + 128. Every honest run without
  drops stays replayable if and only if the log has room for the queue and for all
  that may stay in flight (`CrashRecovery.LogSufficesExactly`).
- **No log is large enough for a restart.** Recovery refuses more live records than
  the queue alone may hold (src/kernel/sync.rs:484-486), but what was in flight is live too. It
  succeeds if and only if the live records fit into `max_pending`
  (`CrashRecovery.RestartExactly`). Whenever a sent packet stays in flight at all, sending
  one and filling the queue again is a run whose restart is refused, however large the
  log (`CrashRecovery.RestartIsRefused`, `CrashRecovery.RestartsSufficeExactly`).
- **A hint can win a wrongly filled game**: `hint_at` looks for a full board,
  `make_move` for the right one (`SudokuSession.WinWithAWrongCell`). After a hint's win
  the board is the solution if and only if no cell is marked as an error.
- **The cube's history stops at 512 moves and its solver at 256.** Undo after a
  move restores the cube if and only if the history was not full or its last
  move happens to be the same (`CubeState.UndoRestoresExactly`); solving leaves
  all but the last 256 recorded moves in place (`RubikDriver.SolvingLeaves`).
- **The Linux barrier wakes at most 2^31 - 1 threads.** Everyone can be asleep
  at once if and only if more than that are to be woken (`Barrier.NeverAllAsleepExactly`).
- **A stale handle can come alive again.** Any live handle can die and be alive
  again after its index was handed out 2^32 more times
  (`Entities.StaleHandleComesBack`); a handle is alive if and only if its index is occupied and
  was handed out a multiple of 2^32 times since (`Entities.HandleIsAliveExactly`).
- **Counting solutions can overshoot its limit**, since each branch gets the whole
  limit again. For each limit from 2 to 254 there is a grid with a larger answer
  (`SudokuOvershoot.SomeGridOvershoots`). The answer is the number of completions capped at the
  limit, for every grid, if and only if the limit is 1 or 255
  (`SudokuOvershoot.CappedExactly`). Up to the limit it is always exact
  (`Sudoku.CountedIsCapped`), which is all that the generator relies on.

## Model

| member | source | states |
|---|---|---|
| SystemAccess.ConflictsIsSymmetric | src/kernel/subsystem.rs:81-89 | Whether two systems may share a wave does not depend on which of them is asked. |
| WaveExecution.ConflictsExactly | src/kernel/subsystem.rs:81-89 | Two systems that are not exclusive conflict if and only if some behaviour within the declared sets of one changes a value that the other touches. |
| Toposort.DepthFirst.ReportCycle | src/kernel/scheduler.rs:28-66 | The error names, in order and with the repeated node at both ends, the nodes of a real dependency cycle. |
| Toposort.DepthFirst.Visit | src/kernel/scheduler.rs:28-66 | A successful visit finishes the node and everything it needs, extends the order, restores the path and touches no node that was already coloured; a failed one reports a real cycle. |
| Toposort.TopologicalOrderMeansAcyclic | src/kernel/scheduler.rs:68-79 | A graph with a dependencies-first order of all of its nodes has no cycle. |
| Toposort.Sort | src/kernel/scheduler.rs:68-79 | The sort succeeds if and only if the graph is acyclic; the order has every node once, after all it depends on; a failure reports a real cycle. |
| Waves.AccessLevels | src/kernel/scheduler.rs:110-140 | Every dependency and every conflicting earlier node is on a strictly lower level, and each level above the first is forced by a predecessor exactly one below. |
| Waves.LevelsAreLeast | src/kernel/scheduler.rs:110-140 | No level assignment that separates dependencies and conflicts puts any node earlier. |
| Waves.AccessWaves | src/kernel/scheduler.rs:110-140 | The waves hold the nodes of each level in order, none is empty, and the levels are least among all valid ones. |
| Waves.BuildPlan | src/kernel/scheduler.rs:150-158 | A plan exists if and only if the dependencies are acyclic, and is then a topological order cut into least waves; otherwise a real cycle is reported. |
| WaveExecution.NonConflictingCommute | src/kernel/subsystem.rs:81-89 | Systems that do not conflict, and touch only what they declare, give the same store in either order. |
| WaveExecution.RearrangementIsSerial | src/kernel/scheduler.rs:110-140 | Any rearrangement of an order that keeps the direction of every conflict ends in the same store. |
| WaveExecution.WavesPartition | src/kernel/scheduler.rs:110-140 | The waves together hold each node of the order exactly once. |
| WaveExecution.WavesSeparate | src/kernel/scheduler.rs:110-140 | However each wave is permuted, every dependency and every conflicting earlier node still runs before, in a strictly earlier wave. |
| WaveExecution.WaveExecutionIsSerial | src/kernel/scheduler.rs:110-140 | Running the waves in order, each in any permutation, ends in the same state as the serial topological order. |
| Barrier.RunKeepsInv | src/platform/linux/threading.rs:100-121 | Every state of every run keeps the barrier's invariant: the count is the number of arrivals of this round, at most one thread resets, and, when one wake reaches all, no sleeper is missed. |
| Barrier.NobodyLeavesEarly | src/platform/linux/threading.rs:100-121 | If some thread has returned from k waits then every thread has arrived at k waits, in any interleaving of any length. |
| Barrier.WrappingSenseIsExact | src/platform/linux/threading.rs:100-121 | For a waiting thread, comparing the wrapping 32-bit sense says exactly whether its round is over, since the sense is at most one step past it. |
| Barrier.SleeperWaitsForACaller | src/platform/windows/threading.rs:74-112 | When no thread can act and somebody sleeps, some thread has not called wait for that round. |
| Barrier.NeverAllAsleep | src/platform/linux/threading.rs:100-121 | No reachable state has every thread asleep, when one wake call reaches everyone. |
| Barrier.EveryoneCanBeAsleep | src/platform/linux/threading.rs:83-122 | With more threads than one futex wake reaches, a run ends with every thread asleep. |
| Barrier.NeverAllAsleepExactly | src/platform/linux/threading.rs:83-122 | No reachable state has everyone asleep if and only if one wake call reaches every other thread. |
| Barrier.MovesAreFinite | src/platform/linux/threading.rs:100-121 | Without new calls and spurious wake-ups only boundedly many steps are possible from any state that keeps the invariant. |
| Barrier.RoundCompletes | src/platform/windows/threading.rs:74-112 | Once all threads have called wait k times, a run in which nobody can act any more has taken everyone through k rounds. |
| ThreadPool.RunKeepsInv | src/platform/thread_pool.rs:92-165 | Every run keeps mutual exclusion, the exact pending count, and each accepted job in exactly one of the queue, a worker and the finished jobs. |
| ThreadPool.PendingIsExact | src/platform/thread_pool.rs:92-165 | Whenever the lock is free, pending is the number of queued plus running jobs, also after panics. |
| ThreadPool.TrueMeansAllFinished | src/platform/thread_pool.rs:112-130 | Where wait_idle is about to return true, the finished jobs are exactly all accepted jobs, once each. |
| ThreadPool.OneClientIsServed | src/platform/thread_pool.rs:92-165 | With one client, a pool that can act no further has run every accepted job and the client is back from its call. |
| ThreadPool.MovesAreFinite | src/platform/thread_pool.rs:92-165 | The threads' own moves are bounded by a rank of the starting state, so a pool left alone comes to rest. |
| ThreadPool.TwoClientsCanBeStuck | src/platform/thread_pool.rs:92-110 | Failing run: with two clients a notification goes to the one in wait_idle, and jobs stay queued with all workers parked and nobody able to act. |
| ThreadPool.StuckExactlyWithSeveralClients | src/platform/thread_pool.rs:92-130 | Such a stuck state is reachable if and only if there are at least two clients, whatever the number of workers. |
| PoolQueue.AcceptedExactly | src/platform/thread_pool.rs:92-107 | A submission is refused if and only if the pool is stopping or 1024 jobs for each worker are queued; otherwise the queue gains exactly that job, at its end. |
| PoolQueue.QueueSizesExactly | src/platform/thread_pool.rs:42-46 | A state with n queued jobs is reachable if and only if n is at most 1024 for each worker. |
| PoolQueue.NewestIsTaken | src/platform/thread_pool.rs:139-150 | In every reachable state, a worker that finds jobs takes the one accepted last of all queued, and leaves the others. |
| SpscRing.WrapSubIsExact | src/kernel/bus.rs:200-217 | The wrapping difference of tail and head is the number of items in the ring. |
| SpscRing.AccessesAreSafe | src/kernel/bus.rs:200-231 | Whatever the interleaving of loads and stores, only an empty slot is written and only a filled one is read. |
| SpscRing.StepRefinesQueue | src/kernel/bus.rs:200-231 | Each single load or store either leaves the abstract bounded queue as it was or performs the push or pop it reports. |
| SpscRing.PopsArePrefixOfPushes | src/kernel/bus.rs:200-231 | In every run the popped values are a prefix of the pushed ones, and at most capacity are outstanding. |
| SpscRing.AnswersAreLinearizable | src/kernel/bus.rs:200-231 | At the moment of each answer, full means exactly capacity items are queued, empty means none, and a pop gives the oldest. |
| Packet.DecodeInvertsEncode | src/kernel/sync.rs:842-870 | Every packet within the limits is encoded, and both decoders give it back. |
| Packet.EncodeInvertsDecode | src/kernel/sync.rs:358-404 | Whatever bytes the decoder accepts are exactly the encoding of the packet it returns. |
| Packet.DecodersAgree | src/kernel/sync.rs:732-784 | The log's decoder and the wire's accept the same bytes with the same packet, namely the encodings of packets within the limit. |
| Packet.EnvelopeLayout | src/kernel/sync.rs:842-870 | The version, the kind codes and every byte of each little-endian field are at their offsets 0, 1, 2, 10, 18, 26 and 30. |
| Packet.WireErrorsExactly | src/kernel/sync.rs:732-784 | Which bytes are refused as malformed, as empty, or for their length, and which are taken. |
| Wal.ChecksumSeesEveryByte | src/kernel/sync.rs:349-356 | Changing the kind, or any one byte of the body, always changes the checksum. |
| Wal.WalChecksum | src/kernel/sync.rs:349-356 | The wrapping 32-bit loop computes the hash that the checksum lemmas are about. |
| Wal.KnownAnswers | src/kernel/sync.rs:349-356 | With kind 0 the checksum has the standard values of the 32-bit FNV-1a hash for no bytes and for one zero byte. |
| Wal.KindHidesInFirstByte | src/kernel/sync.rs:349-356 | The limit of what it sees: changing the kind and the first body byte by the same bits leaves the checksum as it was. |
| Wal.FrameLayout | src/kernel/sync.rs:337-347 | A record is "RKW1", the kind, the length, the body and the checksum, each little-endian byte at its offset. |
| Wal.ReplayOfPrefix | src/kernel/sync.rs:209-283 | For every list of records and every byte prefix of its printed log, replay gives the fold of exactly the records that are complete in that prefix. |
| Wal.ReplayOfLog | src/kernel/sync.rs:209-283 | Replaying a whole printed log is folding its records. |
| Wal.TamperingFailsClosed | src/kernel/sync.rs:250-253 | After any readable log, a complete record with its kind, one body byte or its checksum changed makes replay fail. |
| Wal.AppendAfterBoundary | src/kernel/sync.rs:323-347 | A record appended after a crash between records counts like any other. |
| Wal.AppendsAfterTornTail | src/kernel/sync.rs:323-347 | For every torn length and any later records, replay either fails or returns the records before the tear, and which of the two is told by the torn length and the spliced header; the only exception is a tear before the checksum whose spliced bytes end in their own checksum. |
| Wal.TornTrailerFails | src/kernel/sync.rs:244-253 | Records appended after a tear inside the checksum always make replay fail, even if the missing bytes happen to be replaced by equal ones. |
| Wal.AppendsMeanExactlyAtBoundary | src/kernel/sync.rs:323-347 | Later records that change the outcome are replayed if and only if nothing was torn. |
| Wal.LaterAcknowledgementIsLost | src/kernel/sync.rs:205-207 | Failing input: after any log with a packet torn behind its header, an acknowledgement that was reported as written is silently ignored by replay. |
| Wal.SyncWal.Append | src/kernel/sync.rs:194-203 | A packet within the limit becomes the log's last record; a larger one is refused and the log stays. |
| Wal.SyncWal.Acknowledge | src/kernel/sync.rs:205-207 | An acknowledgement always becomes the log's last record. |
| Wal.SyncWal.Replay | src/kernel/sync.rs:209-283 | Reading the file back gives the fold of the records written so far. |
| Wal.SyncWal.Compact | src/kernel/sync.rs:285-321 | The log becomes exactly the given packets if they fit the limits, and stays as it was otherwise. |
| Wal.ReplayBytes | src/kernel/sync.rs:209-283 | The reading loop over an arbitrary file, torn, damaged or whole, computes the replay function that the framing theorems are about. |
| Wal.CompactRoundTrip | src/kernel/sync.rs:285-321 | A file compacted to a list within the limits replays to that list if and only if no two of its packets share a sequence. |
| Wal.ReplayIsClean | src/kernel/sync.rs:209-283 | Replay of any file whatever, if it succeeds, returns distinct sequences, within the record limit, each packet one that the log accepts. |
| Wal.ReplayedIsCompactable | src/kernel/sync.rs:285-321 | Whatever list a replay of any file returned can be compacted, and replay then returns that list again. |
| ReplicatorRuns.RunConserves | src/kernel/sync.rs:614-727 | Over every run sent = in flight + acknowledged + dropped and queued + recovered = pending + sent, and queues and retries stay within their limits. |
| ReplicatorRuns.StartIsConserved | src/kernel/sync.rs:481-494 | Both constructors establish those equations, with what the log gave back as recovered. |
| ReplicatorRuns.AcceptedRise | src/kernel/sync.rs:712-730 | Within a session the accepted sequence numbers strictly rise and end at the last-received mark. |
| SessionRules.DeliveredExactly | src/kernel/sync.rs:712-730 | Within a session a received packet is delivered if and only if its payload is within the limits and it is newer than the mark at the start and than every such packet before it. |
| SessionRules.QueuedExactly | src/kernel/sync.rs:614-635 | A payload is queued, last in line and under the next number, if and only if it is within its limits, there is room and the log takes it; each refusal names its cause and leaves the queue. |
| SessionRules.CoalescedExactly | src/kernel/sync.rs:552-574 | A delta to a key that waits already takes no place and no number: only the payload of the first such packet changes. |
| ReplicatorRuns.ReplayIsLive | src/kernel/sync.rs:209-283 | Replay returns the live records if they stay within the limit at every moment, and fails otherwise. |
| CrashRecovery.EveryRunIsDurable | src/kernel/sync.rs:552-711 | After any run whatever, the log covers each pending or in-flight packet above all acknowledgements, with its latest payload. |
| CrashRecovery.EveryHonestRunIsIntact | src/kernel/sync.rs:552-711 | If every acknowledgement is of a number already given out and covers no packet that is still queued, the log stays in strictly rising order, covers both queues and, until a retry is dropped, holds exactly them. |
| CrashRecovery.CrashRecoversTheQueues | src/kernel/sync.rs:481-494 | After such a run replay succeeds with rising sequences and covers both queues; without drops it is exactly the in-flight then the pending packets, apart from their ack fields. A restart then queues just that if it fits into the queue, and is refused otherwise. |
| CrashRecovery.RestartExactly | src/kernel/sync.rs:481-494 | For any log, which of the two errors a restart gives, or exactly what it rebuilds: it succeeds if and only if the log always was within its record limit and the live records fit into the queue. |
| CrashRecovery.FirstStartIsIntact | src/kernel/sync.rs:481-494 | A replicator started on an empty log satisfies the hypotheses of the recovery theorems. |
| CrashRecovery.EveryLifeIsIntact | src/kernel/sync.rs:481-494 | Through any number of honest runs, crashes and restarts: every restart succeeds if and only if at each crash the log is within its limit and its live records fit into the queue, and recovery then holds again as after a first start. |
| CrashRecovery.PutRisesExactly | src/kernel/sync.rs:254-280 | Writing a packet into a rising log keeps it rising if and only if it replaces its own sequence or exceeds the last one. |
| CrashRecovery.OrderExactly | src/kernel/sync.rs:552-574 | Every log state of a run is in rising order if and only if no coalescing touches a queued packet already acknowledged out of the log while a later one is in it. |
| CrashRecovery.UndisorderedRunReplaysInOrder | src/kernel/sync.rs:552-711 | Without that, replay gives rising sequences and covers every packet above all acknowledgements, also when acknowledgements come early. |
| CrashRecovery.EarlyAckBreaksOrder | src/kernel/sync.rs:552-574 | Failing input: two deltas, an acknowledgement of both before they are sent, and a coalescing of the second, then the first, leave a log that replays out of order. |
| CrashRecovery.RestartCanRepeatSequences | src/kernel/sync.rs:481-494 | A restart never goes ahead of the numbers in use, and falls behind them if and only if a number was given out and the last live record is not the last one given out. |
| CrashRecovery.RestartRepeatsSequence | src/kernel/sync.rs:481-494 | Failing run: enqueue, send, acknowledge, restart, enqueue; the second packet gets the first one's number. |
| CrashRecovery.RoomForBothQueuesIsEnough | src/kernel/sync.rs:637-691 | A log with room for the queue and for what may stay in flight stays within its limit through every honest run without drops. |
| CrashRecovery.LogSufficesExactly | src/kernel/sync.rs:209-283 | Every such run from an empty log stays replayable if and only if the record limit is at least the queue limit plus what may stay in flight: the flight limit, or nothing if both the retry limit and the resend delay are 0. |
| CrashRecovery.DefaultLogIsTooSmall | src/kernel/sync.rs:169-170 | With the default limits some such run leaves a log that replay refuses. |
| CrashRecovery.RestartIsRefused | src/kernel/sync.rs:484-486 | Failing run, for every configuration that keeps packets in flight and every log with room for both queues: one packet sent and the queue full again, after which replay succeeds but the restart is refused. |
| CrashRecovery.RestartsSufficeExactly | src/kernel/sync.rs:481-494 | Every honest run without drops can be restarted after a crash if and only if sent packets never stay in flight and the log has room for the queue. |
| SyncReplicator.SyncReplicator.WithWal | src/kernel/sync.rs:481-494 | The object built from a log is the state that the recovery theorems start from, or the same error. |
| SyncReplicator.SyncReplicator.Enqueue | src/kernel/sync.rs:614-635 | The queue, the log and the counters change as in the run semantics, with the same result, and nothing changes when the log refuses. |
| SyncReplicator.SyncReplicator.EnqueueDelta | src/kernel/sync.rs:552-574 | A delta to a queued key replaces the payload in place after logging it, and is queued otherwise, as in the run semantics. |
| SyncReplicator.SyncReplicator.Pump | src/kernel/sync.rs:637-691 | The three loops over fresh sends, retries and expiry leave the queues, counters and report of the run semantics for any pattern of failing sends. |
| PumpRules.PumpExactly | src/kernel/sync.rs:637-691 | One pump, packet by packet: fresh packets leave the front up to the room or the first failing send; an item is sent again if and only if the delay since its last send is over, a retry is left and its attempt is answered; exactly the items without a retry left whose delay is over are given up, and the order stays. |
| Transmissions.SendsAreFewAndSpaced | src/kernel/sync.rs:637-691 | Over every run, no packet is transmitted more often than once and its retries, and two transmissions of one packet are at least the resend delay apart. |
| Transmissions.CountersCountSendings | src/kernel/sync.rs:637-691 | Over every run the counters of first and repeated sends count exactly the transmissions. |
| SyncReplicator.SyncReplicator.TryAcknowledge | src/kernel/sync.rs:696-710 | The released packets are exactly those up to the sequence, and only once the log has taken the acknowledgement. |
| SyncReplicator.SyncReplicator.Receive | src/kernel/sync.rs:712-730 | The mark and the piggy-backed acknowledgement follow the run semantics, and stale packets are dropped. |
| SyncReplicator.SyncReplicator.ReceiveBytes | src/kernel/sync.rs:732-784 | Bytes that do not decode leave the state alone, others act as their packet. |
| Bits.DropLowest | src/kernel/ecs/query.rs:22-40 | Masking a word with its predecessor clears exactly the lowest set bit, so the bit loop ends. |
| Bits.MaskIsResidue | src/kernel/bus.rs:200-217 | Masking an index with a power of two less one is the remainder by that power. |
| Bitset.WithBitBits | src/kernel/ecs/bitset.rs:58-64 | Setting an index adds exactly that index to the set, growing the words as needed. |
| Bitset.WithoutBitBits | src/kernel/ecs/bitset.rs:72-81 | Clearing an index removes exactly that index. |
| Bitset.Bitset.Set | src/kernel/ecs/bitset.rs:58-64 | The words become the set with the index added, and the answer tells whether it was new. |
| Bitset.Bitset.Clear | src/kernel/ecs/bitset.rs:72-81 | The words become the set without the index, and the answer tells whether it was there. |
| Bitset.OnesAreTheBits | src/kernel/ecs/world.rs:263-293 | The bit loop over one word yields its set bits, each once, in rising order. |
| Bitset.CollectOnes | src/kernel/ecs/world.rs:135-150 | The loop over all words yields exactly the members of the set in rising order. |
| Entities.CreateAddsOne | src/kernel/ecs/entity.rs:60-83 | Creation makes exactly one new handle alive, at an index nobody occupied, and leaves all other handles as they were. |
| Entities.DestroyRemovesOne | src/kernel/ecs/entity.rs:89-101 | Destruction makes exactly the given live handle dead; a dead one changes nothing. |
| Entities.CreateFailsExactly | src/kernel/ecs/entity.rs:60-83 | Creation fails if and only if no slot was given back and 2^32 - 1 are in use, and otherwise prefers one given back. |
| Entities.HandleIsAliveExactly | src/kernel/ecs/entity.rs:103-108 | A handle is alive if and only if its index is occupied and was reissued a multiple of 2^32 times since. |
| Entities.StaleHandleStaysDead | src/kernel/ecs/entity.rs:60-108 | Once dead, a handle stays dead in every later state of every run, short of 2^32 reuses of its index. |
| Entities.StaleHandleComesBack | src/kernel/ecs/entity.rs:60-101 | Failing run, for every live handle of every table: it dies, its index is handed out 2^32 more times, and it is alive again. |
| Entities.Entities.TryCreate | src/kernel/ecs/entity.rs:60-83 | The free list and generation vectors realise that creation, with the same handle or error. |
| Entities.Entities.TryDestroy | src/kernel/ecs/entity.rs:89-101 | The vectors realise that destruction, generation bump with wrap-around included. |
| Storage.InsertStoresOne | src/kernel/ecs/storage.rs:77-101 | Insertion makes the handle's value the given one, evicts at most another generation of its index and keeps all others, with sparse and dense in step. |
| Storage.SwapRemoveKeepsOthers | src/kernel/ecs/storage.rs:103-124 | Moving the last dense value into the hole keeps the sparse-dense bijection and every other index's value. |
| Storage.RemoveTakesOne | src/kernel/ecs/storage.rs:103-124 | Removal returns what the handle held, after which it holds nothing, and every other handle keeps its value and presence bit. |
| Storage.ComponentStorage.TryInsert | src/kernel/ecs/storage.rs:77-101 | The three vectors and the presence bits realise the insertion that the lemmas are about. |
| Storage.ComponentStorage.TryRemove | src/kernel/ecs/storage.rs:103-124 | They realise the removal, with the value taken. |
| Storage.ComponentStorage.Get | src/kernel/ecs/storage.rs:126-132 | A lookup answers only for the generation that was stored. |
| World.World.ContentsAreAlive | src/kernel/ecs/world.rs:107-123 | Only live handles hold components. |
| World.World.TrySpawn | src/kernel/ecs/world.rs:87-101 | The new handle was dead and holds no components, and every other handle's life is unchanged. |
| World.World.TryDespawn | src/kernel/ecs/world.rs:107-123 | Exactly that handle dies, and it loses its components of every type and nobody else loses any. |
| World.World.TryInsert | src/kernel/ecs/world.rs:181-220 | A live handle's component of that type becomes the value and nothing else changes; a dead handle is refused. |
| World.World.Get | src/kernel/ecs/world.rs:222-228 | The answer is the last value stored for exactly that type and live handle, and none for a dead or stale one. |
| World.World.Remove | src/kernel/ecs/world.rs:238-245 | The component is returned and gone, and every other one stays. |
| World.World.ForEachEntity | src/kernel/ecs/world.rs:135-150 | Exactly the live handles are visited, once each in rising index order. |
| World.World.CollectIntersection | src/kernel/ecs/world.rs:263-293 | The candidates are exactly the indices whose occupant has both components, in rising order. |
| World.World.PairForEach | src/kernel/ecs/query.rs:22-40 | The visitor runs over the matching candidates in order; over rising ones each matching handle ends with the first result in its first component and the second in its second, both made from the values before the call, and nothing else changes. |
| World.QueryVisitsExactly | src/kernel/ecs/query.rs:22-40 | Over rising candidates the visit meets exactly the current handles among them that hold both components, once each and in order. |
| World.QueryStoresExactly | src/kernel/ecs/query.rs:22-40 | Over rising candidates, folding the visitor over the visited handles stores each result where it belongs and leaves every other component alone. |
| Sudoku.ValidValueMeansNoPeer | examples/sudoku_game/model.rs:170-178 | The row, column and box loops accept a value for a blank if and only if no peer holds it. |
| Sudoku.CompletesByValue | examples/sudoku_game/model.rs:143-159 | A grid completes the board if and only if its value at a blank is valid there and it completes the board with that value. |
| Sudoku.FillsAreTheCompletions | examples/sudoku_game/model.rs:143-159 | The set that the search explores is exactly the set of legal completions. |
| Sudoku.CountSolutions | examples/sudoku_game/model.rs:143-159 | The board is restored, and the loop over values and branches gives the answer that the theorems on its limit are about: exact below the limit and never above the number of completions. |
| Sudoku.CountedIsCapped | examples/sudoku_game/model.rs:143-159 | For every grid and limit the answer is exact if there are at most that many completions; otherwise it is at least the limit and at most their number. |
| SudokuOvershoot.SomeGridOvershoots | examples/sudoku_game/model.rs:148-155 | Failing input: for each limit from 2 to 254, a grid on which the answer is larger than the limit. |
| SudokuOvershoot.CappedExactly | examples/sudoku_game/model.rs:143-159 | The answer is the number of completions capped at the limit on every grid if and only if the limit is 1 or 255. |
| SudokuGenerator.SolutionIsLegal | examples/sudoku_game/model.rs:7-17 | The built-in solution breaks no rule. |
| SudokuGenerator.BlankingMoreKeepsFills | examples/sudoku_game/model.rs:122-139 | Blanking more cells loses no completion. |
| Shuffles.ScrambledIsUndone | examples/sudoku_game/model.rs:104-109 | The generator step can be undone, so no two states have the same successor. |
| Shuffles.OneShuffleForEach | examples/sudoku_game/model.rs:118-121 | Every rearrangement comes out of the shuffle for exactly one sequence of choices, so with fair choices all orders are equally likely. |
| SudokuGenerator.PuzzleGenerator.Shuffle | examples/sudoku_game/model.rs:114-121 | The positions end in the order that the next 80 numbers of the generator choose, which is again each cell once. |
| SudokuGenerator.PuzzleGenerator.Dig | examples/sudoku_game/model.rs:122-139 | The puzzle is a blanking of the solution with no other completion and at most the wanted number of blanks; if it has fewer, every remaining clue is needed. |
| SudokuGenerator.PuzzleGenerator.Generate | examples/sudoku_game/model.rs:110-141 | For every seed and difficulty: the target is the one its first number chooses from the range, the cells are dug in the order that the next numbers choose, and the board is a puzzle in that sense. |
| SudokuGenerator.RangesFollow | examples/sudoku_game/model.rs:40-75 | The ranges of blanks follow on each other from 46 to 64, so an easier puzzle always asks for fewer. |
| SudokuSession.SolvedExactly | examples/sudoku_game/model.rs:241-274 | The board is the solution if and only if every cell is marked as given, right or hinted. |
| SudokuSession.GameSession.MakeMove | examples/sudoku_game/model.rs:241-274 | Which moves are accepted, how they mark the cell, which cost a life, and that a right move wins exactly on the solved board and a wrong one loses exactly on the last life. |
| SudokuSession.GameSession.Clear | examples/sudoku_game/model.rs:276-282 | Any cell but a given one becomes blank. |
| SudokuSession.GameSession.HintAt | examples/sudoku_game/model.rs:314-334 | A hint fills a blank with its solution and wins on any full board; that board is the solution if and only if no cell is marked as an error. |
| SudokuSession.WinWithAWrongCell | examples/sudoku_game/model.rs:314-334 | Failing input: for every puzzle with two blanks, a run from a new game that errs in one and takes a hint for the last ends in a win on an unsolved board. |
| Rectangles.RectsCoverExactly | examples/gpu_stress_3d/voxel_scene.rs:166-191 | Each filled cell is in exactly one rectangle, of its own material, and no empty cell is in any. |
| Rectangles.AreaIsFilled | examples/gpu_stress_3d/voxel_scene.rs:166-191 | The rectangles stay inside the mask and their area is its number of filled cells. |
| Rectangles.TakeRectangles | examples/gpu_stress_3d/voxel_scene.rs:166-191 | The loops that clear the mask in place return the greedy rectangles that the cover theorem is about and leave the mask empty. |
| Voxels.EdgeIsLeast | examples/gpu_stress_3d/voxel_state.rs:22-27 | The side is the least one whose square columns of eight hold the blocks, and at least 1. |
| Voxels.RegionsAgree | examples/gpu_stress_3d/voxel_state.rs:28-53 | Two regions give the same material for the same place in the world. |
| Voxels.ColumnIsLayered | examples/gpu_stress_3d/voxel_state.rs:36-53 | From the bottom up every column is stone, two dirt, one grass, and air from its height on. |
| Voxels.HeightByStrips | examples/gpu_stress_3d/voxel_state.rs:28-35 | In spite of the wrapping products, the height is 5 plus the carry-free sum of three octal digits: of the strip along x, of the strip along z counted backwards, and of the seed. |
| Voxels.TerrainRepeats | examples/gpu_stress_3d/voxel_state.rs:28-35 | The terrain repeats every 32 columns in either direction. |
| VoxelMesh.TileCovers | examples/gpu_stress_3d/voxel_scene.rs:44-96 | Within one slice of a chunk, each exposed face lies under exactly one quad of its direction and material, and no other face under any. |
| VoxelMesh.EveryFaceInOneQuad | examples/gpu_stress_3d/voxel_scene.rs:32-103 | For any terrain, the middle of each voxel side that shows, half a voxel from the voxel towards one of the six directions and placed at the region or centred on the edge, lies under exactly one quad of its direction, with its material; that of a hidden side under none. |
| VoxelMesh.FaceLiesBetween | examples/gpu_stress_3d/voxel_scene.rs:49-56 | That middle is half way between the centre of the voxel and the centre of the one beyond it, and the side shows if that one is air. |
| VoxelMesh.GroupArea | examples/gpu_stress_3d/voxel_scene.rs:44-96 | The total area of a direction's quads is the number of faces counted. |
| VoxelMesh.CounterCountsEachFaceOnce | examples/gpu_stress_3d/voxel_scene.rs:44-96 | The counter counts each exposed face of the world exactly once. |
| VoxelScene.DrawsTileTheBuffer | examples/gpu_stress_3d/voxel_scene.rs:104-117 | The draw ranges tile the instance buffer without gap or overlap, in rising direction order, each shows exactly its direction's quads and no nonempty direction is missed. |
| VoxelScene.MeshAreaIsExposedFaces | examples/gpu_stress_3d/voxel_scene.rs:32-132 | The reported number of exposed faces is the total area of all quads. |
| VoxelScene.BlocksAreSolid | examples/gpu_stress_3d/voxel_scene.rs:38-42 | The reported number of blocks is the number of voxels that are not air. |
| VoxelScene.ChunkIsWithinBudget | examples/gpu_stress_3d/voxel_scene.rs:134-140 | Meshing a streamed chunk never exceeds the byte budget. |
| VoxelScene.ChunkIgnoresBlocks | examples/gpu_stress_3d/voxel_scene.rs:134-140 | A chunk's mesh depends on its place and the seed only, not on the block count. |
| VoxelScene.BuildMesh | examples/gpu_stress_3d/voxel_scene.rs:32-132 | The nested loops give the mesh of the cover theorem if and only if its quads, at 80 bytes each, fit 4 MiB, and otherwise say which budget was exceeded. |
| VoxelScene.VoxelScene.BuildFrame | examples/gpu_stress_3d/voxel_scene.rs:32-132 | An unchanged world keeps its frame and revision; a changed one gets its mesh and the next revision; an error leaves the old frame. |
| ChunkBounds.ChunkHasFewQuads | examples/gpu_stress_3d/voxel_scene.rs:134-140 | Since terrain heights change only every four columns, no chunk needs more than 576 quads. |
| StreamMesh.NoSeams | examples/gpu_stress_3d/voxel_stream.rs:76-100 | In the composed frame each showing side of the endless terrain lies under exactly one quad if its chunk is resident, also along chunk borders, and under none otherwise. |
| StreamMesh.ComposedSize | examples/gpu_stress_3d/voxel_stream.rs:68-90 | The composed buffer has as many quads as the resident chunks together. |
| StreamMesh.DrawsReadBack | examples/gpu_stress_3d/voxel_stream.rs:80-90 | Reading a direction through a chunk's draws gives back that direction's quads. |
| VoxelStream.BuiltAreNearest | examples/gpu_stress_3d/voxel_stream.rs:43-53 | Every chunk built in a call is nearer, by the sum of the squares along x and z, than every chunk still missing, and of equally near ones it comes first along x, then z. |
| VoxelStream.PicksAlwaysFit | examples/gpu_stress_3d/voxel_stream.rs:53-64 | At every radius that the source allows, the byte budget never stops a call. |
| VoxelStream.CallsDrainByTwo | examples/gpu_stress_3d/voxel_stream.rs:22-117 | Each call at a fixed centre shrinks the missing set by two, or by what is left. |
| VoxelStream.EveryPlaceDrains | examples/gpu_stress_3d/voxel_stream.rs:22-117 | After 41 calls at one centre nothing is missing and the frame is that of the place alone, whatever was resident before. |
| VoxelStream.DrainedDependsOnlyOnPlace | examples/gpu_stress_3d/voxel_stream.rs:22-117 | Once nothing is missing, bytes and draws depend on seed, radius and centre only. |
| VoxelStream.ResidencyIsBounded | examples/gpu_stress_3d/voxel_stream.rs:38-42 | At most (2r + 1)^2 chunks are resident. |
| VoxelStream.FrameIsWithinBudget | examples/gpu_stress_3d/voxel_stream.rs:67-75 | The composed bytes stay within the budget that the residency check keeps. |
| VoxelStream.Compose | examples/gpu_stress_3d/voxel_stream.rs:76-100 | The loops over directions, chunks and draws give the composed mesh of the seam theorem. |
| VoxelStream.VoxelStream.Evict | examples/gpu_stress_3d/voxel_stream.rs:32-42 | Exactly the chunks out of reach, or all of them on another seed or radius, are dropped. |
| VoxelStream.VoxelStream.Stream | examples/gpu_stress_3d/voxel_stream.rs:22-117 | A call evicts, builds the two nearest missing chunks and shows the result; it fails exactly when they do not fit, never for an allowed radius, and then keeps the old frame. |
| Cubies.RotationsAgree | examples/rubik_3d/state.rs:252-275 | The rotation matrix and the coordinate rotation are the same map. |
| Cubies.TurnBack | examples/rubik_3d/state.rs:145-186 | A turn and its inverse cancel, in either order, on any cubies. |
| Cubies.FourTurnsRestore | examples/rubik_3d/state.rs:173-186 | Four equal turns are none. |
| Cubies.TurnsKeepCube | examples/rubik_3d/state.rs:173-186 | After any sequence of turns each cubie's coordinate is its orientation applied to its home, orientations are signed permutations, and the 27 coordinates are all different. |
| Cubies.TurnsDiffer | examples/rubik_3d/state.rs:173-186 | Two commands have the same effect on a cube only if they are the same command. |
| Facelets.ColoursFaceOutwards | examples/rubik_3d/state.rs:188-250 | A cubie's sticker is written if and only if it lies on the surface, and then where it faces. |
| Facelets.SlotsDiffer | examples/rubik_3d/state.rs:295-314 | Two surface places share a facelet number only if they are the same. |
| Facelets.EveryFaceletIsWritten | examples/rubik_3d/state.rs:188-206 | Each of the 54 facelets is written by some sticker. |
| Facelets.StickersDiffer | examples/rubik_3d/state.rs:188-206 | No facelet is written twice. |
| Facelets.CubeShowsNineOfEach | examples/rubik_3d/state.rs:188-250 | Every reachable cube shows no blank facelet and exactly nine of each of the six colours. |
| CubeGeometry.FaceletIsAt | examples/rubik_3d/state.rs:295-314 | Each facelet number is that of the place and direction that a table of rows and columns gives it. |
| CubeGeometry.SolvedIsUniform | examples/rubik_3d/state.rs:229-250 | A solved cube shows the colours 2, 5, 0, 3, 4 and 1, one on each face. |
| CubeGeometry.TurnCarriesFacelets | examples/rubik_3d/state.rs:173-206 | On every cube a turn carries each facelet of its layer to the place and direction that the rotation takes it to, and leaves every other facelet as it shows. |
| CubeGeometry.FaceTurnsOutwards | examples/rubik_3d/driver.rs:26-40 | Each of the nine moves turns exactly its layer, a right-handed quarter about the outward direction of its face, its inverse a left-handed one; a slice turns as the face on its left, below it or in front of it. |
| CubeState.CubeState.ApplyRaw | examples/rubik_3d/state.rs:173-186 | The cubies of the layer turn and the others stay, and the answer tells whether any moved. |
| CubeState.CubeState.SyncFacelets | examples/rubik_3d/state.rs:188-206 | The facelet array shows what the cubies show. |
| CubeState.CubeState.ApplyMove | examples/rubik_3d/state.rs:133-143 | The cube turns, the move is recorded while there is room, the redo list is emptied and the facelets follow. |
| CubeState.CubeState.Undo | examples/rubik_3d/state.rs:145-157 | The last recorded move is taken back and can be redone; an empty history changes nothing. |
| CubeState.CubeState.Redo | examples/rubik_3d/state.rs:159-171 | The last undone move is played and recorded again; an empty list changes nothing. |
| CubeState.UndoAndRedoInvert | examples/rubik_3d/state.rs:145-171 | Undo and redo invert each other on the whole state, in both orders. |
| CubeState.UndoRestoresExactly | examples/rubik_3d/state.rs:133-157 | Undo after a move restores the cube if and only if the history was not full or already ended with that move. |
| CubeState.FullHistoryBreaksUndo | examples/rubik_3d/state.rs:133-157 | Failing input: 512 equal moves from the solved cube and then a different one, which undo does not take back. |
| CubeState.HistoryKeepsExplaining | examples/rubik_3d/state.rs:133-171 | As long as the history is not full, playing it from the start gives the present cube, through moves, undo and redo. |
| RubikDriver.TickConserves | examples/rubik_3d/driver.rs:120-144 | A tick plays at most one move, the first in line, and no other move is lost, added or reordered. |
| RubikDriver.FullTicksDrain | examples/rubik_3d/driver.rs:120-144 | As many full ticks as moves waiting empty the queue and have played them all in order. |
| RubikDriver.TicksCommitExactly | examples/rubik_3d/driver.rs:120-144 | However the time is cut into ticks, one move is committed for each full quarter of a second as long as any waits. |
| RubikDriver.SolvingLeaves | examples/rubik_3d/driver.rs:196-206 | Playing the solution leaves exactly all but the last 256 recorded moves applied, so a shorter history is undone completely. |
| RubikDriver.SolvingAndTicking | examples/rubik_3d/driver.rs:120-206 | The same, for the driver: enqueueing the solution and ticking until it is drained. |
| RubikDriver.LongHistoryStaysTurned | examples/rubik_3d/driver.rs:196-206 | Failing input: 257 equal moves from the solved cube; after solving, it is still turned. |
| RubikDriver.RubikDriver.Enqueue | examples/rubik_3d/driver.rs:98-108 | One move, or two for a double, goes to the end of the queue if they all fit, and none otherwise. |
| RubikDriver.RubikDriver.Advance | examples/rubik_3d/driver.rs:120-144 | The loop over the elapsed time realises the tick: the timing, the queue and the cube change as its function says. |
| RubikDriver.RubikDriver.SolveHistory | examples/rubik_3d/driver.rs:196-206 | An idle driver gets the reversed inverses of the history, as many as fit; a busy one ignores the call. |
| RenderManifest.SortedIsUnique | src/subsystems/renderer.rs:1192-1243 | Two sorted arrangements of instances with distinct keys are equal, whatever sort made them. |
| RenderManifest.BatchesAreRuns | src/subsystems/renderer.rs:1192-1243 | The batches are the maximal runs of one mesh and material, and tile the instances. |
| RenderManifest.BatchesRise | src/subsystems/renderer.rs:1192-1243 | Over sorted instances the batches rise strictly, by mesh and then by material, so no group is split in two. |
| RenderManifest.BatchIsInEntityOrder | src/subsystems/renderer.rs:1192-1243 | Inside a batch the instances are in order of entity index and generation. |
| RenderManifest.CpuRenderManifest.Build | src/subsystems/renderer.rs:1192-1243 | On success the instances are a sorted permutation of the world's with their batches; it fails exactly on exceeded capacities or indices. |
| RenderManifest.BuildIsDeterministic | src/subsystems/renderer.rs:1192-1243 | With distinct entities, any input order gives the same instances and batches. |
| RenderManifest.GpuFramePreparation.Prepare | src/subsystems/renderer.rs:902-936 | A built manifest is never refused for an invalid range; it is refused for size exactly when over capacity, and for overflow exactly when it fits that and has 2^32 instances or more; otherwise it is copied completely. |
| RenderManifest.GpuFramePreparation.Validate | src/subsystems/renderer.rs:938-949 | A prepared frame passes if and only if every command stays inside the instances. |

## Left out

- SyncWal: no I/O errors; a write, a flush and an atomic replacement succeed, and a crash leaves a byte prefix of what was written.
- Wal.AppendsAfterTornTail: says nothing of a tear before the checksum whose spliced bytes happen to end in their own checksum; a 32-bit sum cannot exclude it.
- Wal.AppendsMeanExactlyAtBoundary: likewise, and is about later records that change the replayed queue, since records without effect cannot be missed.
- CrashRecovery.LogSufficesExactly: is about record limits below about 2^63, and runs without drops; with drops a log keeps records that no queue holds.
- World.World: holds its tables, storages and bitsets as values; the classes `Entities`, `Bitset` and `ComponentStorage` are proved against the same functions, but sharing them by reference is not part of the model.
- World.World.PairForEach: takes the visitor as a function from a pair of values to a new pair, in place of a closure with mutable views.
- CubeState.CubeState: holds the cubies as a sequence that is reassigned, not as an array updated in place, and derives face colours from a cubie's home, where the source stores them with it.
- Weak memory: the barrier, the pool and the ring take sequentially consistent steps; reorderings that acquire and release would forbid or allow are not modelled.
- `dependency_waves`, which groups by dependencies alone and repeats the simpler half of the access planner.
- `MpscRing` and `MessageBus` (publish drops an envelope that no inbox has room for), queue policies, pools and arenas.
- `superset_of` on bitsets, a summary that may answer true without a superset.
- Authenticated packets: the HMAC-SHA-256 tag comes from another library.
- Attaching a log to a replicator that already has packets, where the source does not keep sequences unique.
- Sequence numbers and statistics near 2^64: runs are assumed to stay below it.
- Payload limits so large that adding the 30-byte header overflows the machine word.
- Allocation failure: the error branches after `try_reserve` do not occur here.
- Floating point: quad corners are doubled integers, streaming distances are integer, and cameras, culling and transforms are absent.
- Streaming at a position that is not a number, and with radius 0, which the source sends to the finite scene.
- Machine-word overflow of world coordinates far from the origin.
- A streaming branch that the code cannot reach: the total upload budget is not exceeded once residency fits it.
- Library sorts stand as insertion sorts; the theorems name only the order of the result, and where keys tie, the tie.
- Game timers, notes, score, and the search that chooses which cell to hint.
- The random shuffle of the cube's driver, whose rejection loop ends only with probability one.
- Payload bytes of render instances, GPU calls, windows and input.
