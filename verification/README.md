# Verified models of the concurrency and memory exercises

This project models the hard cores of a collection of C exercises on operating systems and firmware:
lock-free rings, blocking queues, lock ordering, semaphore protocols, a two-level sparse set, a
log-structured store, byte-copying routines, submask enumeration and an intrusive free list.

Concurrent code is modelled as a machine: a state value, one program counter per thread, and a move
for each lock operation, semaphore operation or shared-memory access. A run is any sequence of states
linked by legal moves, for any number of threads. Each machine has an inductive invariant (`MoveInv` or
`StepInv`, lifted to all runs by `RunInv`), and the results are lemmas about every state of every run.
Sequential code is modelled as classes, arrays and loops whose contracts tie the new state to a plain
mathematical value (a set, a map, a moved memory, a partition of blocks).

Every module stands for one program, or for one family of programs with the same protocol:

- `PacketPool` — two rings pass 128 buffer indices between a producer and a consumer without locks.
- `SpscRing` — a single-producer single-consumer ring with acquire and release operations, under the
  coherence and synchronisation rules of sections 5.1.2.4 and 7.17.3 of ISO/IEC 9899:2011.
- `BoundedQueue` — a monitor with two condition variables, single signals, spurious wakeups and close.
- `LockOrder`, `VectorAdd`, `Transfer` — two locks per call, taken by address, by (id, address), or
  under a global acquisition lock.
- `ResourcePool`, `ReaderWriter`, `Barrier` — semaphore protocols.
- `ApproxCounter` — per-thread counts that are flushed to a global one.
- `SparseSet`, `LogStore`, `MemBasics`, `Submasks`, `BufferPool` — sequential data structures and loops.
- `ConcurrentClean` — the log store's clean beside puts.
- `Counting` — sums and counts over sequences, shared by the machines; `LockOrder` also says what it means
  that a mutex is owned by the thread inside.

`dafny verify dfyconfig.toml` checks everything.

## Where the code departs from its intent

Each of these is kept in the model, with the exact condition proved.

- The packet rings' full test flips bit 7 of the tail instead of adding 128. It misses a full ring whose
  tail has bit 7 set (`PacketPool.FullTestExact`, `PacketPool.FullTestMisses`). Safety comes from
  conservation of the indices instead.
- `rp_release` returns with the mutex locked when the id is unknown
  (`ResourcePool.ReleaseUnlocksIff`, `ResourcePool.LeakIsForever`).
- The global-lock `vector_add` locks a vector twice when a vector is added to itself
  (`VectorAdd.GlobalLockDeadlocksIff`).
- `ss_clear` zeroes only the first LEVEL_SIZE bytes of the page counts, and `ss_add` admits a value equal
  to the universe size (`SparseSet.IdSet.Clear`, `SparseSet.IdSet.Add`, `SparseSet.StaleCount`).
- Cleaning before each put keeps the log in bounds only if there are fewer keys than log entries
  (`LogStore.FitsIff`).
- `my_memset` writes nothing for values above 255 and a mixed pattern for most negative values
  (`MemBasics.MemsetFillsIff`, `MemBasics.MemsetMisses`).
- `buffer_pool_init` always links one entry beyond the blocks that fit
  (`BufferPool.CodedChainOverruns`), and it overwrites up to seven bytes past the pool when that few are
  left over (`BufferPool.SpillsIff`, `BufferPool.SpillExample`); `BufferPool.InitEnded` ends the list and
  the writing where they should end.
- `rp_release` of a slot that is not in use adds a permit (`ResourcePool.ReleaseKeepsPermitsIff`,
  `ResourcePool.PermitLaw`).
- `logstore_clean` copies outside the lock, so its switch undoes puts to keys the copy has passed
  (`ConcurrentClean.SwitchLosesIff`, `ConcurrentClean.LostPut`).
- The bounded queue is read with `q->mu`, `q->data[q->tail]` and one-argument signals in place of the
  slips on lines 40, 52, 72 and 76.

## Model

| member | source | states |
|---|---|---|
| PacketPool.FullTestExact | practiceQs/zerocopy_packet_processor_042926/packet_proc.c:59-65 | on 32-bit counters of a ring holding 0 to 128 entries, the full test is true iff the ring is full and bit 7 of the tail is clear; the empty test is true iff the ring is empty, wrap-around included |
| PacketPool.FullTestMisses | practiceQs/zerocopy_packet_processor_042926/packet_proc.c:59-61 | a concrete full ring that the test calls not full |
| PacketPool.PopOk | practiceQs/zerocopy_packet_processor_042926/packet_proc.c:236-238 | reading the slot at the tail gives the oldest entry, and bumping the 32-bit tail leaves the slots in agreement with the remaining contents |
| PacketPool.WriteOk | practiceQs/zerocopy_packet_processor_042926/packet_proc.c:248 | writing the slot at the head disturbs no live entry of a ring that is not full |
| PacketPool.PublishOk | practiceQs/zerocopy_packet_processor_042926/packet_proc.c:249 | publishing the written slot appends its index to the contents, across counter wrap |
| PacketPool.ProcessPacket | practiceQs/zerocopy_packet_processor_042926/packet_proc.c:75-83 | the loop adds the byte sum of the payload to the checksum in 64-bit arithmetic |
| PacketPool.CalcExpectedChecksum | practiceQs/zerocopy_packet_processor_042926/packet_proc.c:86-99 | the loop returns the sum of the low bytes of the dummy value times the packet count, modulo 2^64 |
| PacketPool.SumBytesReversed | practiceQs/zerocopy_packet_processor_042926/packet_proc.c:85-95 | reversing bytes does not change their sum, so the file's byte order does not matter |
| PacketPool.MoveConserves | practiceQs/zerocopy_packet_processor_042926/packet_proc.c:232-272 | no move of either side changes the multiset of indices in the two rings and the two hands |
| PacketPool.MoveInv | practiceQs/zerocopy_packet_processor_042926/packet_proc.c:232-272 | every move of either side, with any stale but coherent load, keeps rings, counters, conservation, payloads and checksum consistent |
| PacketPool.RunInv | practiceQs/zerocopy_packet_processor_042926/packet_proc.c:180-272 | that invariant holds in every state of every run |
| PacketPool.EveryIndexInOnePlace | practiceQs/zerocopy_packet_processor_042926/packet_proc.c:188-193 | in every interleaving each of the 128 indices is in exactly one of free ring, ready ring, producer's hand and consumer's hand, and nothing else is |
| PacketPool.HandsAreExclusive | practiceQs/zerocopy_packet_processor_042926/packet_proc.c:241-267 | producer and consumer never hold the same packet buffer |
| PacketPool.PushesAreSafe | practiceQs/zerocopy_packet_processor_042926/packet_proc.c:248-271 | a push never writes a live slot of either ring, and the pop that recycled the slot is already visible to the pusher |
| PacketPool.ReadsAreSafe | practiceQs/zerocopy_packet_processor_042926/packet_proc.c:236-267 | when a side reads a slot, fills a buffer or processes one, it has already seen the publication of that index, so plain memory holds what was written before |
| PacketPool.PacketsArriveInOrder | practiceQs/zerocopy_packet_processor_042926/packet_proc.c:102-108 | the n-th packet processed has the bytes of the n-th packet of the file |
| PacketPool.NeverBothSpin | practiceQs/zerocopy_packet_processor_042926/packet_proc.c:233-260 | producer and consumer are never both held by their busy-wait tests, and a side at either of its tests spins iff there is nothing for it to take |
| PacketPool.AlwaysAMove | practiceQs/zerocopy_packet_processor_042926/packet_proc.c:232-272 | a side with work left always has a legal move, where another turn of a busy-wait counts as one |
| PacketPool.ProducerTakes | practiceQs/zerocopy_packet_processor_042926/packet_proc.c:233-237 | a producer with a packet to send and an index free passes both tests and takes the index when its loads are current |
| PacketPool.ConsumerTakes | practiceQs/zerocopy_packet_processor_042926/packet_proc.c:259-263 | a consumer with a packet waiting passes both tests and takes it when its loads are current |
| PacketPool.FinalChecksum | practiceQs/zerocopy_packet_processor_042926/packet_proc.c:258-281 | on a file of the expected records, the consumer's final checksum is the value that calc_expected_checksum computes |
| PacketPool.ProgramChecksum | practiceQs/zerocopy_packet_processor_042926/packet_proc.c:256-281 | on the program's own file (bytes DE AD BE EF BA BA in each of 1000000 records) the consumer ends with 1196000000 |
| PacketPool.DummySum | practiceQs/zerocopy_packet_processor_042926/packet_proc.c:86-95 | the byte sum that calc_expected_checksum makes of the dummy value is 1196 |
| PacketPool.ChecksumFollowsFile | practiceQs/zerocopy_packet_processor_042926/packet_proc.c:75-83 | on any file of full records the checksum is at every moment the sum, modulo 2^64, of all payload bytes of the records processed so far |
| SpscRing.ModTenAgrees | practiceQs/spsc_040426/spsc.c:53-71 | within distance nine, the modulo-10 comparisons decide emptiness and fullness of the unbounded counters |
| SpscRing.ReadIsUnique | practiceQs/spsc_040426/spsc.c:54 | under the memory model only one write is readable at the consumer's slot: the one with the consumer's number |
| SpscRing.RunInv | practiceQs/spsc_040426/spsc.c:46-74 | the invariant of both loops holds in every state of every run, for every choice of delayed loads |
| SpscRing.ReadsCountUp | practiceQs/spsc_040426/spsc.c:51-58 | whatever is delayed, the consumer reads exactly 0, 1, 2, ... |
| SpscRing.ReadIsDetermined | practiceQs/spsc_040426/spsc.c:53-54 | a slot read can return a value iff it is the next expected one, so the read is neither ambiguous nor stuck |
| SpscRing.WriteNeverRaces | practiceQs/spsc_040426/spsc.c:68-72 | when the producer writes a slot, every earlier read of that slot happens before it and the consumer is not about to read it |
| SpscRing.ReadNeverRaces | practiceQs/spsc_040426/spsc.c:53-57 | when the consumer reads a slot, every write of that slot happens before it |
| SpscRing.NoUnreadOverwritten | practiceQs/spsc_040426/spsc.c:68-69 | a write never goes to a slot that holds an unread entry |
| SpscRing.NeverBothWait | practiceQs/spsc_040426/spsc.c:53-68 | with up-to-date views, one of the two waiting tests succeeds |
| SpscRing.FinalSum | practiceQs/spsc_040426/spsc.c:60 | after N items, N below 2^32, the 64-bit sum is N(N-1)/2 |
| SpscRing.NeverPastMax | practiceQs/spsc_040426/spsc.c:51-66 | neither counter ever exceeds max_count |
| SpscRing.ConsumerStopsIff | practiceQs/spsc_040426/spsc.c:51-59 | the consumer has no move left iff it has read and published exactly max_count items, and those are 0 to max_count - 1 |
| SpscRing.ProducerStopsIff | practiceQs/spsc_040426/spsc.c:66-74 | the producer has no move left iff it has written and published exactly max_count items |
| BoundedQueue.MoveInv | practiceQs/codexQs_052126/coding_challenges/thread_safe_bounded_queue.c:34-93 | every lock, wait, wake, signal, broadcast and update step keeps the mutex, ring and wakeup invariants |
| BoundedQueue.RunInv | practiceQs/codexQs_052126/coding_challenges/thread_safe_bounded_queue.c:34-93 | they hold in every state of every run, for any number of threads, spurious wakeups included |
| BoundedQueue.FirstInFirstOut | practiceQs/codexQs_052126/coding_challenges/thread_safe_bounded_queue.c:48-74 | the values popped followed by the queue's contents are the accepted pushes in order, and the count never exceeds 8 |
| BoundedQueue.RunRemembers | practiceQs/codexQs_052126/coding_challenges/thread_safe_bounded_queue.c:34-93 | in every run a thread's position belongs to its last call, carries that call's argument and says whether the call has stored or taken a value |
| BoundedQueue.QueueHoldsArguments | practiceQs/codexQs_052126/coding_challenges/thread_safe_bounded_queue.c:34-80 | the values popped followed by the contents are the arguments of the push calls that stored, in the order of storing; no other move accepts anything |
| BoundedQueue.ReturnCodes | practiceQs/codexQs_052126/coding_challenges/thread_safe_bounded_queue.c:43-79 | a push or pop about to return has code 0 iff the call has stored or taken its value, and -2 iff it has not |
| BoundedQueue.ClosedForGood | practiceQs/codexQs_052126/coding_challenges/thread_safe_bounded_queue.c:43-46 | once closed the queue stays closed and accepts nothing |
| BoundedQueue.RefusedForGood | practiceQs/codexQs_052126/coding_challenges/thread_safe_bounded_queue.c:43-46 | a push returns -2 only when the queue is closed, and nothing is accepted after that |
| BoundedQueue.DrainedForGood | practiceQs/codexQs_052126/coding_challenges/thread_safe_bounded_queue.c:67-70 | a pop returns -2 only once the queue is closed and every accepted value has been popped, for good |
| BoundedQueue.NoLostWakeup | practiceQs/codexQs_052126/coding_challenges/thread_safe_bounded_queue.c:39-76 | while open with a consumer asleep, the values are at most the consumers on their way plus signals about to be sent; dually for producers and free slots |
| BoundedQueue.NoLostWakeupWhenFree | practiceQs/codexQs_052126/coding_challenges/thread_safe_bounded_queue.c:39-76 | with the mutex free and a consumer asleep, the values are at most the consumers that have been woken; dually for producers and free slots |
| BoundedQueue.NobodySleepsAfterClose | practiceQs/codexQs_052126/coding_challenges/thread_safe_bounded_queue.c:82-93 | from the first state in which the queue is closed and no close has broadcasts left, nobody is asleep in any later state, later closes in mid-broadcast included |
| BoundedQueue.CloseWakesEverybody | practiceQs/codexQs_052126/coding_challenges/thread_safe_bounded_queue.c:87-91 | once any one close is past its two broadcasts, the queue is closed and nobody is asleep, for the rest of the run |
| BoundedQueue.SleepIsJustified | practiceQs/codexQs_052126/coding_challenges/thread_safe_bounded_queue.c:39-65 | if no thread can step, sleepers are consumers of an empty open queue or producers of a full open one |
| BoundedQueue.StepIsEnabled | practiceQs/codexQs_052126/coding_challenges/thread_safe_bounded_queue.c:52-76 | a signalling step always has a move: it wakes a waiter whenever one exists |
| LockOrder.SomeoneRuns | 32_ConcurrencyBugs/vector-global-order.c:13-22 | when every wanted lock is above all locks its thread holds, following "waits for the owner of" from any thread ends at one that is not blocked |
| VectorAdd.StepInv | 32_ConcurrencyBugs/vector-global-order.c:12-30 | every lock, element update and unlock keeps locks, thread logs and the simulation by the serial execution |
| VectorAdd.RunInv | 32_ConcurrencyBugs/vector-global-order.c:12-30 | that invariant holds in every state of every run of either protocol |
| VectorAdd.FinishedIsSerial | 32_ConcurrencyBugs/vector-global-order.c:12-30 | interleaved at single-element granularity, the final vectors are those of executing whole calls one at a time in an order that respects each thread's program |
| VectorAdd.UnlockedIsSerial | 32_ConcurrencyBugs/vector-global-order.c:24-29 | mid-run, a vector nobody has locked already equals its serial value |
| VectorAdd.AddIsIntSum | 32_ConcurrencyBugs/vector-global-order.c:25 | the element sum is in int range, differs from a + b by a multiple of 2^32, and is a + b whenever that fits |
| VectorAdd.IntSumIsUnique | 32_ConcurrencyBugs/vector-global-order.c:25 | no other number is such a sum |
| VectorAdd.FinishedIsSummed | 32_ConcurrencyBugs/vector-global-order.c:12-30 | the final vectors are reached from the initial ones by adding, call by call, the whole src to the whole dst with C int sums and changing nothing else, in an order that respects each thread's program |
| VectorAdd.OneCall | 32_ConcurrencyBugs/vector-global-order.c:12-30 | a program of one call whose sums fit leaves initial dst plus initial src in dst, element by element, and every other vector as it was |
| VectorAdd.LocksAreHeld | 32_ConcurrencyBugs/vector-global-order.c:13-25 | elements are updated only with both vectors locked, and between the two locks the one at the lower address is held (under the global lock: that lock and dst's) |
| VectorAdd.AddressOrderNeverDeadlocks | 32_ConcurrencyBugs/vector-global-order.c:13-29 | with an unfinished thread, some thread can step; dst equal to src included |
| VectorAdd.GlobalLockNeverDeadlocks | 32_ConcurrencyBugs/vector-avoid-hold-and-wait.c:16-28 | the same under the global acquisition lock when no call adds a vector to itself |
| VectorAdd.AloneCanStep | 32_ConcurrencyBugs/vector-avoid-hold-and-wait.c:18-20 | a thread on its own is blocked iff it is about to lock the same vector a second time |
| VectorAdd.GlobalLockDeadlocksIff | 32_ConcurrencyBugs/vector-avoid-hold-and-wait.c:16-28 | every reachable unfinished state has a step iff no call of the program adds a vector to itself |
| Transfer.StepInv | practiceQs/codexQs_052126/coding_challenges/deadlock_free_multi_lock_transfer.c:28-72 | every step of a transfer keeps locks, pending amounts, return codes and the simulation by the serial execution |
| Transfer.RunInv | practiceQs/codexQs_052126/coding_challenges/deadlock_free_multi_lock_transfer.c:28-72 | that invariant holds in every state of every run |
| Transfer.FinishedIsSerial | practiceQs/codexQs_052126/coding_challenges/deadlock_free_multi_lock_transfer.c:28-72 | final balances and every call's return code are those of a serial order that respects each thread's program |
| Transfer.FinishedIsTransferred | practiceQs/codexQs_052126/coding_challenges/deadlock_free_multi_lock_transfer.c:28-72 | the final balances are reached by whole calls in such an order: code -2 iff amount <= 0, -3 iff the amount is positive, the counters differ and the balance is below it, otherwise 0; on 0 between different counters exactly the amount moves and nothing else changes, in every other case nothing changes; each thread got those codes |
| Transfer.OneCall | practiceQs/codexQs_052126/coding_challenges/deadlock_free_multi_lock_transfer.c:28-72 | for a program of one transfer, the code and all final balances written out case by case |
| Transfer.LocksAreHeld | practiceQs/codexQs_052126/coding_challenges/deadlock_free_multi_lock_transfer.c:40-68 | both counters are locked while either is read or changed, and between the two locks the counter first by id, then by address, is held |
| Transfer.TotalIsConserved | practiceQs/codexQs_052126/coding_challenges/deadlock_free_multi_lock_transfer.c:67-68 | at every step the balances plus the amounts in flight are the initial total |
| Transfer.NeverOverflows | practiceQs/codexQs_052126/coding_challenges/deadlock_free_multi_lock_transfer.c:61-68 | from non-negative balances with total at most INT64_MAX, no balance goes negative and no addition overflows |
| Transfer.IdOrderNeverDeadlocks | practiceQs/codexQs_052126/coding_challenges/deadlock_free_multi_lock_transfer.c:42-59 | ordering by (id, address) never deadlocks, repeated ids included |
| ResourcePool.MarkFirstFree | practiceQs/codexQs_052126/coding_challenges/semaphore_resource_pool.c:49-56 | the loop marks the first free slot and no other; with none free it reports slot 0 and marks nothing |
| ResourcePool.FindId | practiceQs/codexQs_052126/coding_challenges/semaphore_resource_pool.c:70-79 | the loop returns the first slot with the id, and -1 iff there is none |
| ResourcePool.MoveInv | practiceQs/codexQs_052126/coding_challenges/semaphore_resource_pool.c:35-99 | every semaphore, mutex and table step keeps mutex, permit and id invariants |
| ResourcePool.RunInv | practiceQs/codexQs_052126/coding_challenges/semaphore_resource_pool.c:35-99 | they hold in every state of every run that releases only held ids |
| ResourcePool.PermitsAreConserved | practiceQs/codexQs_052126/coding_challenges/semaphore_resource_pool.c:40-85 | semaphore value, permits taken and unused, slots freed and unposted, and slots in use add up to 8 at every step, closed-path returns included |
| ResourcePool.ScanFindsAFreshId | practiceQs/codexQs_052126/coding_challenges/semaphore_resource_pool.c:49-57 | the scan always finds a free slot, and the id it hands out is in nobody's hands |
| ResourcePool.NoIdHeldTwice | practiceQs/codexQs_052126/coding_challenges/semaphore_resource_pool.c:53-81 | no id is out twice, and a slot is marked iff its id is out |
| ResourcePool.AcquireHandsOut | practiceQs/codexQs_052126/coding_challenges/semaphore_resource_pool.c:43-57 | the id that rp_acquire gives its caller is a pool id that was out nowhere and is then out once, the one id added to what clients hold; the first free slot goes from free to used and no other changes; an id is given out iff the pool is open |
| ResourcePool.ReleaseTakesBack | practiceQs/codexQs_052126/coding_challenges/semaphore_resource_pool.c:70-81 | the id given back was out once and is out no more; its slot goes from used to free and no other changes |
| ResourcePool.WaitingIsJustified | practiceQs/codexQs_052126/coding_challenges/semaphore_resource_pool.c:40-47 | if no thread can step and one waits for a permit, every id is held by a client |
| ResourcePool.ReleaseUnlocksIff | practiceQs/codexQs_052126/coding_challenges/semaphore_resource_pool.c:77-82 | in every run, whatever ids clients release, a release that scans goes on to unlock iff the pool has the id, and leaks the mutex iff it does not |
| ResourcePool.MutexLeaksIff | practiceQs/codexQs_052126/coding_challenges/semaphore_resource_pool.c:35-99 | in every run the mutex is leaked iff some release has scanned for an id that the pool does not have; until then its owner is exactly the thread inside |
| ResourcePool.UnknownReleaseLeaks | practiceQs/codexQs_052126/coding_challenges/semaphore_resource_pool.c:77-79 | releasing an unknown id leaves the mutex owned by a thread that is not in any call |
| ResourcePool.LeakIsForever | practiceQs/codexQs_052126/coding_challenges/semaphore_resource_pool.c:77-79 | from a leaked state on, whatever the threads do, it stays leaked and the table and the closed flag never change |
| ResourcePool.PermitLaw | practiceQs/codexQs_052126/coding_challenges/semaphore_resource_pool.c:40-85 | in every run, whatever clients release, the permits are RP_CAP plus the releases of slots not in use minus the scans that found nothing |
| ResourcePool.ReleaseKeepsPermitsIff | practiceQs/codexQs_052126/coding_challenges/semaphore_resource_pool.c:81-84 | releasing a pool id keeps the permits at RP_CAP iff its slot is in use |
| ResourcePool.ScanFindsUnlessIdleReleased | practiceQs/codexQs_052126/coding_challenges/semaphore_resource_pool.c:49-57 | until somebody releases a slot that is not in use, every scan of an open pool finds a free slot, discipline of the clients not assumed |
| ResourcePool.NothingAfterClose | practiceQs/codexQs_052126/coding_challenges/semaphore_resource_pool.c:43-46 | once a close is past its assignment the pool stays closed, no move hands out an id, and an acquire that gets to its scan is turned away; discipline of the clients not assumed |
| ReaderWriter.StepInv | 31_Semaphores/reader-writer.c:23-47 | every semaphore step keeps the token and reader counts |
| ReaderWriter.RunInv | 31_Semaphores/reader-writer.c:58-77 | the invariant holds in every state of every run of readers and writers |
| ReaderWriter.WriterExcludesAll | 31_Semaphores/reader-writer.c:23-47 | a writer inside excludes every reader and every other writer, though the write token may be taken by one reader and returned by another |
| ReaderWriter.NeverStuck | 31_Semaphores/reader-writer.c:23-77 | while a thread is unfinished some thread can step |
| ReaderWriter.FinalValue | 31_Semaphores/reader-writer.c:68-77 | value ends as num_writers times loops |
| Barrier.RunInv | 31_Semaphores/barrier.c:27-46 | the counting invariant holds in every state of every run of n threads |
| Barrier.NobodyThroughEarly | 31_Semaphores/barrier.c:35-46 | nobody passes the turnstile before all n threads have been counted |
| Barrier.OneTokenInTurnstile | 31_Semaphores/barrier.c:44-45 | once open, the turnstile's value plus the threads inside it is 1 |
| Barrier.NeverStuck | 31_Semaphores/barrier.c:35-46 | until every thread is past the barrier some thread can step |
| ApproxCounter.RunInv | 29_LockedDataStructures/approx_counter.c:35-53 | locals, locks and flushes stay consistent in every state of every run |
| ApproxCounter.ErrorIsBounded | 29_LockedDataStructures/approx_counter.c:35-53 | at every step the value is threshold times the number of flushes and lags the exact count by 0 to num_threads times threshold |
| ApproxCounter.FinalValueExactIff | 29_LockedDataStructures/approx_counter.c:35-53 | the final value equals the simple counter's, which is the sum of all threads' increments, iff each thread's number of increments is a multiple of the threshold |
| ApproxCounter.NeverStuck | 29_LockedDataStructures/approx_counter.c:36-44 | while a thread is unfinished some thread can step |
| SparseSet.IdSet.constructor | practiceQs/codexQs_052126/coding_challenges/sparse_set_for_huge_domain_ids.c:43-57 | a new set is empty, valid and has exact page counts |
| SparseSet.IdSet.Contains | practiceQs/codexQs_052126/coding_challenges/sparse_set_for_huge_domain_ids.c:59-69 | true iff the value is among the active values |
| SparseSet.IdSet.EnsurePage | practiceQs/codexQs_052126/coding_challenges/sparse_set_for_huge_domain_ids.c:83-88 | a new page changes no lookup |
| SparseSet.IdSet.Append | practiceQs/codexQs_052126/coding_challenges/sparse_set_for_huge_domain_ids.c:90-94 | the value becomes the last active one and its leaf entry is its position |
| SparseSet.IdSet.Add | practiceQs/codexQs_052126/coding_challenges/sparse_set_for_huge_domain_ids.c:71-98 | return code and new contents in each case; the set stays valid iff the page's 32-bit count does not wrap, which exact counts exclude |
| SparseSet.IdSet.SwapOut | practiceQs/codexQs_052126/coding_challenges/sparse_set_for_huge_domain_ids.c:107-121 | the last value moves into the hole and the leaf entries follow, also when the value is the last one |
| SparseSet.IdSet.Remove | practiceQs/codexQs_052126/coding_challenges/sparse_set_for_huge_domain_ids.c:100-130 | exactly the value is removed, all others stay active and findable, exact counts stay exact |
| SparseSet.IdSet.TakeOut | practiceQs/codexQs_052126/coding_challenges/sparse_set_for_huge_domain_ids.c:107-127 | the removal proper: swap, count and free, with the page freed only when it has no active value |
| SparseSet.IdSet.Clear | practiceQs/codexQs_052126/coding_challenges/sparse_set_for_huge_domain_ids.c:132-142 | the set becomes empty and stays usable; exact counts stay exact iff no value from 2^30 on was active |
| SparseSet.StaleCount | practiceQs/codexQs_052126/coding_challenges/sparse_set_for_huge_domain_ids.c:132-142 | a concrete set whose counts are wrong after a clear |
| SparseSet.History | practiceQs/codexQs_052126/coding_challenges/sparse_set_for_huge_domain_ids.c:43-142 | any history of adds, removes and clears in which fewer than 2^32 adds go in leaves a valid set that lists exactly the plain mathematical set of that history |
| SparseSet.MembersAreFound | practiceQs/codexQs_052126/coding_challenges/sparse_set_for_huge_domain_ids.c:59-69 | a value is active iff its leaf entry is not the marker, and the entry is then its dense position |
| SparseSet.NoDuplicates | practiceQs/codexQs_052126/coding_challenges/sparse_set_for_huge_domain_ids.c:26-29 | the dense array lists no value twice |
| SparseSet.DropIndexed | practiceQs/codexQs_052126/coding_challenges/sparse_set_for_huge_domain_ids.c:123-127 | freeing a page keeps every lookup right iff no active value is in the page |
| SparseSet.AddedCounts | practiceQs/codexQs_052126/coding_challenges/sparse_set_for_huge_domain_ids.c:95 | after the increment the counts cover the pages iff the count did not wrap, and exact counts stay exact |
| SparseSet.RemoveCounts | practiceQs/codexQs_052126/coding_challenges/sparse_set_for_huge_domain_ids.c:119-124 | after a removal the counts still cover every page, so a page is never freed while it has an active value |
| SparseSet.ClearedExact | practiceQs/codexQs_052126/coding_challenges/sparse_set_for_huge_domain_ids.c:140 | the counts that the byte-sized memset skips are zero iff no value from 2^30 on was active |
| LogStore.Store.constructor | practiceQs/log_structured_storage_041526/logstore.c:91-102 | a new store maps nothing |
| LogStore.Store.Put | practiceQs/log_structured_storage_041526/logstore.c:19-33 | the store's map is the old one with the key set to the value |
| LogStore.Store.Get | practiceQs/log_structured_storage_041526/logstore.c:36-49 | returns the mapped value, and -1 iff the key is unmapped or mapped to -1 |
| LogStore.Store.Compact | practiceQs/log_structured_storage_041526/logstore.c:59-72 | the copy never overruns the new log, maps the same, and has one entry per live key |
| LogStore.Store.Clean | practiceQs/log_structured_storage_041526/logstore.c:52-88 | with no put beside it, no read changes; below 80 percent nothing moves, otherwise head becomes the number of live keys |
| LogStore.Store.CleanAndPutAll | practiceQs/log_structured_storage_041526/logstore.c:19-88 | with fewer keys than entries, any history of clean-then-put stays in bounds and ends in the plain map of last values |
| LogStore.Injective | practiceQs/log_structured_storage_041526/logstore.c:28-30 | no two keys share a log entry |
| LogStore.PutView | practiceQs/log_structured_storage_041526/logstore.c:23-30 | appending an entry and redirecting its key updates the map at that key only |
| LogStore.LiveFitInLog | practiceQs/log_structured_storage_041526/logstore.c:65-72 | the live keys are no more than the log entries |
| LogStore.FitsIff | practiceQs/log_structured_storage_041526/logstore.c:19-56 | cleaning before each put keeps all histories in bounds iff the key range is below the capacity or empty |
| ConcurrentClean.MoveInv | practiceQs/log_structured_storage_041526/logstore.c:19-88 | puts, turns of the copying loop and the switch, in any order, keep log, index and the copy consistent |
| ConcurrentClean.RunInv | practiceQs/log_structured_storage_041526/logstore.c:19-88 | that invariant holds in every state of every run of puts beside cleans |
| ConcurrentClean.CopyNeverOverruns | practiceQs/log_structured_storage_041526/logstore.c:60-72 | the copy never overruns the new log although puts go on while it is made |
| ConcurrentClean.PassedIsSettled | practiceQs/log_structured_storage_041526/logstore.c:66-72 | once the loop has passed a key, what the key will read after the switch is what it read at that moment |
| ConcurrentClean.ReadsFollowPuts | practiceQs/log_structured_storage_041526/logstore.c:19-49 | while a clean copies, a read returns the last value put, or what it returned before |
| ConcurrentClean.SwitchLosesIff | practiceQs/log_structured_storage_041526/logstore.c:65-84 | the switch takes a read of a key back to the moment the loop passed it, so it changes the read iff the key was put after that and the last such put is not the copied value |
| ConcurrentClean.LostPut | practiceQs/log_structured_storage_041526/logstore.c:65-84 | a concrete run in which a put of 9 is read before the switch and lost after it |
| MemBasics.MyMemcpy | practiceQs/codexQs_052126/coding_challenges/mem_basics.c:29-53 | dst gets the old bytes of src and nothing else changes, word loop and tail loop, for disjoint ranges and for every overlap with dst at or below src; NULL and zero length change nothing |
| MemBasics.MyMemmove | practiceQs/codexQs_052126/coding_challenges/mem_basics.c:55-82 | the same for every overlap of any distance |
| MemBasics.MoveMore | practiceQs/codexQs_052126/coding_challenges/mem_basics.c:37-51 | moving k bytes and then m more, each group read before it is written, is moving k + m, although the ranges overlap |
| MemBasics.MoveOneBack | practiceQs/codexQs_052126/coding_challenges/mem_basics.c:72-76 | the same towards lower addresses when src lies below dst |
| MemBasics.MyMemset | practiceQs/codexQs_052126/coding_challenges/mem_basics.c:85-109 | the n bytes become the word pattern followed by low bytes; byte by byte, every address outside them keeps its value; NULL and values above 255 change nothing |
| MemBasics.MemsetBytes | practiceQs/codexQs_052126/coding_challenges/mem_basics.c:90-106 | byte i of the whole words is the or of the value's bytes 0 to i mod 4; the bytes after the last whole word are its lowest byte |
| MemBasics.MemsetFillsIff | practiceQs/codexQs_052126/coding_challenges/mem_basics.c:84-109 | every byte becomes the low byte of value, on every memory, iff n is 0, or value is at most 255 and n is below 4 or the value's higher bytes add no bits to its low byte |
| MemBasics.MemsetMisses | practiceQs/codexQs_052126/coding_challenges/mem_basics.c:86-92 | two concrete calls that do not fill |
| Submasks.CountBits | practiceQs/codexQs_052126/coding_challenges/bitmask_backtracking.c:42-47 | clearing lowest set bits counts the set bits |
| Submasks.ClearLowestCounts | practiceQs/codexQs_052126/coding_challenges/bitmask_backtracking.c:45 | i & (i - 1) has one set bit less |
| Submasks.NextRank | practiceQs/codexQs_052126/coding_challenges/bitmask_backtracking.c:59 | stepping to (s - 1) & mask lowers the compressed bits of s, read as a number, by exactly one |
| Submasks.RankInjective | practiceQs/codexQs_052126/coding_challenges/bitmask_backtracking.c:56-60 | different submasks have different ranks, so none is visited twice |
| Submasks.RankedIsComplete | practiceQs/codexQs_052126/coding_challenges/bitmask_backtracking.c:53-60 | a list with falling ranks and 2^k entries holds every submask once and nothing else |
| Submasks.ListSubmasks | practiceQs/codexQs_052126/coding_challenges/bitmask_backtracking.c:53-60 | the loop writes all 2^k submasks without repeats, strictly falling after the leading 0, and nothing beyond |
| Submasks.GenerateSubmasks | practiceQs/codexQs_052126/coding_challenges/bitmask_backtracking.c:25-64 | all return codes and counts, NULL cases included; -3 iff the capacity is below 2^k; on success the complete list within the capacity |
| BufferPool.WriteLinks | practiceQs/bare_metal_packet_buffer_pool_allocation_051926/main.c:33-44 | the loop writes the coded link at every block start below the pool's end; no word outside the pool changes; no byte outside changes unless one to seven bytes are left over, and then the word the pool ends in is overwritten with INVALID |
| BufferPool.SpillsIff | practiceQs/bare_metal_packet_buffer_pool_allocation_051926/main.c:36-43 | some 8-byte store starts in the pool and crosses its end iff the remainder after the blocks that fit is one to seven bytes, and it is the store after the last block that fits |
| BufferPool.SpillExample | practiceQs/bare_metal_packet_buffer_pool_allocation_051926/main.c:36-43 | a concrete pool whose init overwrites bytes past its end |
| BufferPool.CapacityIff | practiceQs/bare_metal_packet_buffer_pool_allocation_051926/main.c:35-37 | block i fits iff i is below floor((pool_end - head) / block_size) |
| BufferPool.Pool.Coded | practiceQs/bare_metal_packet_buffer_pool_allocation_051926/main.c:22-45 | init as coded: head is the first multiple of 64 from raw on, the block size is a multiple of 64 from max(requested, 8) on and less than 64 above it; the list of links, and what happens to memory outside the pool, overwritten end included |
| BufferPool.CodedChainOverruns | practiceQs/bare_metal_packet_buffer_pool_allocation_051926/main.c:36-44 | for every pool the coded list visits each block that fits and then an entry that does not: the pool's end when the blocks fill it, the head when it is past the end, otherwise a start inside the pool that ends the list |
| BufferPool.BlocksAreOk | practiceQs/bare_metal_packet_buffer_pool_allocation_051926/main.c:22-45 | the blocks that fit are 64-byte aligned, disjoint and inside the pool |
| BufferPool.EndedChain | practiceQs/bare_metal_packet_buffer_pool_allocation_051926/main.c:39-42 | ending the coded list at the last block that fits makes it a list of exactly those blocks |
| BufferPool.WriteEndedLinks | practiceQs/bare_metal_packet_buffer_pool_allocation_051926/main.c:33-44 | the loop ended at the last block that fits writes exactly that list and no byte outside the pool |
| BufferPool.InitEnded | practiceQs/bare_metal_packet_buffer_pool_allocation_051926/main.c:22-45 | init with that loop: head and block size as above, a valid pool with all blocks free in address order, every block aligned and holding the requested bytes clear of the others and inside the pool, and no byte outside the pool changed |
| BufferPool.BlocksServe | practiceQs/bare_metal_packet_buffer_pool_allocation_051926/main.c:28-31 | blocks at least the requested size apart each hold the requested bytes inside the pool without overlap |
| BufferPool.BlocksExample | practiceQs/bare_metal_packet_buffer_pool_allocation_051926/main.c:22-45 | 200-byte blocks in 1024 bytes from address 64 are at 64, 320, 576 and 832 |
| BufferPool.Pool.Alloc | practiceQs/bare_metal_packet_buffer_pool_allocation_051926/main.c:49-57 | NULL iff nothing is free, otherwise the front block moves from free to held; the list stays acyclic and free plus held partition the pool |
| BufferPool.Pool.Free | practiceQs/bare_metal_packet_buffer_pool_allocation_051926/main.c:60-64 | a held block returns to the front; only its first word changes; the pool stays valid |
| BufferPool.Pool.ClientWrite | practiceQs/bare_metal_packet_buffer_pool_allocation_051926/main.c:47-57 | any store inside a held block leaves the pool valid and its list unchanged |
| BufferPool.Pool.Drain | practiceQs/bare_metal_packet_buffer_pool_allocation_051926/main.c:49-57 | allocating until NULL hands out every free block exactly once, in list order |
| BufferPool.WriteKeepsChain | practiceQs/bare_metal_packet_buffer_pool_allocation_051926/main.c:7-11 | links live inside the free blocks, so a write inside a held block breaks no link |

## Left out

- Process, file, network and timing programs (5_processAPI, 19_TLBs, 21_SwappingMechanisms, 33_EventBasedConcurrency, 39_FilesAndDirectories): system calls and I/O.
- Creating and mapping the packet file, forking and timestamps: the file is a sequence of records and the two sides are two machines over shared state.
- thread_pool_shutdown.c, completion_vs_timeout_race.c and implement_rdwrlock.c: their key functions are missing.
- worker_queue_shutdown.c, power_of_two_ring_buffer.c and isr_to_task_event_queue.c: the same shapes as the bounded queue and the two rings.
- interger_parser_with_overflow_checks.c, register and field helpers, validators, small state guards and the broken lab snippets: each is settled by reading one branch or is not meant to work.
- vector-deadlock.c, vector-try-wait.c, vector-nolock.c, rendezvous.c and fork-join.c: counterexamples or finite protocols.
- The machines are values, not classes: the concurrent programs' updates in place appear as moves of the machine, and aliasing between the shared objects is expressed by their indices.
- Fairness and starvation: the progress results say that some thread can step, not which one does.
- malloc failure and the NULL-pointer returns of the queue, pool and transfer functions.
- Alignment and strict-aliasing rules for the 32-bit accesses of the copy routines; the word layout is little-endian.
- SpscRing.FinalSum: for fewer than 2^32 items, because the model's 64-bit sum is exact there and the C counters are narrower still.
- PacketPool.PacketsArriveInOrder: speaks of the bytes a record's length covers; what the buffer holds beyond them is left over from its previous packet, as in the code.
- LogStore.Store.Clean: no put beside it; ConcurrentClean has the puts, one clean at a time, with one turn of the copying loop as one move.
- LogStore.Store.Put: asks for room in the log and a key in range, which the code leaves to its caller.
- ResourcePool.RunInv: clients release only ids they hold; what an unknown id does is stated by UnknownReleaseLeaks.
- SparseSet.IdSet.EnsurePage: pages are values in an array of leaves, so freeing a page is setting it to NULL and use after free is not expressible.
- MemBasics.MyMemcpy: asks that an overlapping destination does not lie above the source, while section 7.24.2.1 of ISO/IEC 9899:2011 leaves every overlap undefined.
- Submasks.GenerateSubmasks: at most 30 set bits, because the shift 1 << k is undefined on a 32-bit int beyond that.
- BufferPool.Pool.Free: the pointer must be a held block, which the code leaves to its caller; addresses do not wrap around 2^64.
- ApproxCounter.ErrorIsBounded: counters do not overflow, and locals start at 0 although the code leaves them uninitialised.
