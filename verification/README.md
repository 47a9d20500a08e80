# A model of the Uwuntu kernel's core, in Dafny

This project models the parts of the Uwuntu kernel where many steps have to fit together, and
proves what those parts promise. `dafny verify dfyconfig.toml` checks the whole project.

Each file is one part of the kernel:

| file | models |
|---|---|
| `RwLock.dfy`, `Mutex.dfy` | the writer-preferring read/write lock and the recursive mutex |
| `Sched.dfy` | per-CPU priority run queues, switching, work stealing and idle threads |
| `WaitQueue.dfy` | wait queues and the list of sleepers with a deadline |
| `Semaphore.dfy` | System V semaphore arrays with rollback and removal |
| `Region.dfy`, `Slab.dfy`, `PageTree.dfy` | the free-range list, the slab allocator and the page tree of memory files |
| `Zones.dfy` | changing the protection of a range of a process's memory |
| `Pipe.dfy` | the ring buffer and the blocking pipe over it |
| `Tcp.dfy` | sequence numbers and byte streams of a TCP connection |
| `DeviceTree.dfy` | the flattened device tree parser (section 5.4 of the Devicetree Specification) |
| `InitStack.dfy` | the first user stack with arguments, environment and auxiliary vector |
| `SymbolHash.dfy` | symbol lookup through the System V and GNU hash tables |
| `WordString.dfy`, `Checksum.dfy` | string routines a word at a time, and the Internet checksum |
| `Base.dfy` | small facts about lists that several files share |

Code that changes things in place is modelled by classes with the fields of the C structures. A
method is proved equal to a function of the old state, and the properties are proved about those
functions. Protocols are state machines: an event is one stretch of code that runs under a lock,
up to its return or its sleep. A thread that has been woken and has not yet run again is a state of
its own. Addresses, thread identities, clock readings, fresh memory and failures of calls below the
modelled code are parameters or events.

Where the code does not do what its design promises, the code is modelled as it is. Each such case
has a lemma that says exactly when the promise holds:

- `rwlock_unlock` takes every caller that is not the writer for a reader (`RwLock.UnlockIsForHolders`).
- `mutex_unlock` does not look at who calls it (`Mutex.UnlockIsForHolders`).
- A deadline that comes to zero, as a negative timeout can, is put on the timeout list, and a wake-up
  does not take it off; the timeout check does, and finds the thread on no queue
  (`WaitQueue.WaitKeepsInv`, `WaitQueue.UntimelyHitsNull`).
- `SETALL` stores values past `SEMVMX`, which `SETVAL` refuses (`Semaphore.RunsKeepLimitExactly`).
- `IPC_RMID` can leave a waiter asleep on a removed set (`Semaphore.RemovalEmptiesExactly`, `Semaphore.RemovalStrands`).
- `vm_region_alloc` does not check the end of a requested block, reads an emptied list as all free, and
  leaves two ranges in the wrong order when the first block is taken from the middle
  (`Region.RunsAreSound`, with the runs `Region.OverrunIsGranted`, `Region.EmptiedGrantsTwice` and
  `Region.MiddleFirstHides`).
- `sma_alloc` can free a meta page that is still linked, also with no block in use
  (`Slab.DanglesExactly`, `Slab.DanglesWithNothingFull`).
- `get_page` can leave a freed page in its slot (`PageTree.DanglesExactly`), `rm_page` does not
  adjust the counters (`PageTree.DestroyBalance`), and the size wraps at the last index of 64 bits, which
  no caller asks for (`PageTree.GateExact`).
- `vm_space_protect` makes an empty zone when asked to protect no bytes inside a zone
  (`Zones.EmptyRangeExact`, `Zones.EmptyRangeLeavesEmptyZone`), and does not advance the
  file offset of a piece cut from the middle, even when it then fails (`Zones.OffsetsExact`, `Zones.OffsetLostOnFailure`).
- The SYN-ACK carries `lisn + 1` where section 3.5 of RFC 9293 has the initial sequence number. So a
  client of the same kernel expects one byte too many, and refuses the first data segment
  (`Tcp.SynAckExact`, `Tcp.OwnSynAckIsAhead`, `Tcp.ServerIsNeverInStep`, `Tcp.RefusedExactly`).
- `elf_hash` adds a char that may be signed (`SymbolHash.FindSysv`, `SymbolHash.HighByteLookup`).
- The Bloom test rejects a name only when both of its bits are clear; this is weaker than the usual
  filter and equally safe (`SymbolHash.PresentIsReached`).

The argument count on the first user stack takes an int where a word was counted. The assertion that
compares the two sizes holds on every machine of the kernel (`InitStack.EveryPortIsSound`);
`InitStack.PortIsSoundExactly` says what a new port has to meet.

## Model

| member | source | states |
|---|---|---|
| `RwLock.RwLock.RdLock` | kern/rwlock.c:21-39 | one turn of the read-lock loop: enter, or queue at the tail and sleep |
| `RwLock.RwLock.TryRdLock` | kern/rwlock.c:41-60 | the read lock is taken exactly when no writer owns the lock or waits for it |
| `RwLock.RwLock.WrLock` | kern/rwlock.c:62-72 | one turn of the write-lock loop: take a wholly free lock, or sleep |
| `RwLock.RwLock.TryWrLock` | kern/rwlock.c:74-88 | the write lock is taken without sleeping |
| `RwLock.RwLock.Release` | kern/rwlock.c:90-109 | the unlock of a writer or a reader, and whom it wakes: one writer first, else all readers |
| `RwLock.StepKeepsInv` | kern/rwlock.c:21-109 | every lock, unlock, wake and resume step keeps the lock word true to who holds it and keeps every sleeper accounted for |
| `RwLock.RunsKeepInv` | kern/rwlock.c:21-109 | the same over every interleaving in which only holders unlock |
| `RwLock.MutualExclusion` | kern/rwlock.c:21-88 | in every reachable state a writer is the only holder, and holds the lock once |
| `RwLock.FreeLockHasNoSleepers` | kern/rwlock.c:90-109 | a free lock with no woken writer on its way has both wait queues empty |
| `RwLock.ReadersYieldToWriters` | kern/rwlock.c:21-60 | a reader is admitted exactly when no writer owns the lock or is queued |
| `RwLock.WritersNeedAFreeLock` | kern/rwlock.c:62-88 | a writer is admitted exactly when nobody holds the lock |
| `RwLock.UnlockIsForHolders` | kern/rwlock.c:90-109 | unlock keeps the lock word true exactly when its caller holds the lock |
| `RwLock.DrainStepIsLighter` | kern/rwlock.c:21-109 | every unlock or resume of the threads inside makes a well-founded weight smaller |
| `RwLock.DrainIsBounded` | kern/rwlock.c:21-109 | letting the threads inside finish takes a bounded number of steps in any order |
| `RwLock.StuckMeansServed` | kern/rwlock.c:90-109 | where no such step is left, the lock is free and nobody is blocked: no lost wake-up |
| `RwLock.EveryoneIsServed` | kern/rwlock.c:21-109 | so from every reachable state every drain is bounded and ends with everyone served |
| `Mutex.KMutex.Lock` | kern/mutex.c:30-56 | one turn of the lock loop: acquire, go one level deeper, sleep or panic |
| `Mutex.KMutex.SpinLock` | kern/mutex.c:58-86 | the same without sleeping |
| `Mutex.KMutex.Release` | kern/mutex.c:113-137 | one level released; the last one frees the mutex and wakes the head of its queue |
| `Mutex.StepKeepsInv` | kern/mutex.c:30-137 | every step keeps owner and depth true to who holds the mutex, and every thread in one place |
| `Mutex.RunsKeepInv` | kern/mutex.c:30-137 | the same over every run |
| `Mutex.OneHolder` | kern/mutex.c:30-86 | at most one thread holds the mutex and it must unlock exactly as often as it locked |
| `Mutex.NoLostWakeup` | kern/mutex.c:113-137 | an unowned mutex has sleepers only while a woken contender is still to look at it |
| `Mutex.PanicsExactly` | kern/mutex.c:30-137 | the panics fire exactly when the holder of a non-recursive mutex asks for it again |
| `Mutex.UnlockIsForHolders` | kern/mutex.c:113-137 | an unlock goes through and keeps owner and depth true exactly when its caller holds the mutex |
| `Mutex.DrainIsBounded` | kern/mutex.c:30-137 | letting the threads inside finish takes a bounded number of steps in any order |
| `Mutex.StuckMeansServed` | kern/mutex.c:113-137 | where no such step is left, the mutex is free and nobody holds it, sleeps or is on the way |
| `Mutex.EveryoneIsServed` | kern/mutex.c:30-137 | so from every reachable state every drain is bounded and ends with everyone served |
| `Sched.Scheduler.RunqEnqueue` | kern/sched.c:33-54 | a thread enters a run queue behind the threads of its priority |
| `Sched.Scheduler.SchedDequeue` | kern/sched.c:61-70 | a thread leaves the queue its runq field names |
| `Sched.Scheduler.FindRunqThread` | kern/sched.c:162-195 | the first thread of a queue this CPU may run, taken off it |
| `Sched.Scheduler.ScanBetter` | kern/sched.c:215-256 | the scan of a queue for a thread no worse than a given one, and where its choice stands |
| `Sched.Scheduler.FindBetterRunqThread` | kern/sched.c:215-256 | the same, no worse than a given thread |
| `Sched.Scheduler.StealThread` | kern/sched.c:197-213 | the search of the other CPUs, in order |
| `Sched.Scheduler.FindThread` | kern/sched.c:197-213 | own queue, then the others, then the own idle thread |
| `Sched.Scheduler.FindBetterThread` | kern/sched.c:258-276 | a better thread from the own queue or from others |
| `Sched.Scheduler.SchedSwitch` | kern/sched.c:102-160 | the switch: the old thread is queued if it can still run, the new one is current |
| `Sched.Scheduler.TestBetterThread` | kern/sched.c:72-77 | a reschedule switches to a better thread if there is one and else changes nothing |
| `Sched.Scheduler.TestPausedThread` | kern/sched.c:278-290 | a CPU whose thread stopped always finds another: the panic is not reached |
| `Sched.Scheduler.Run` | kern/sched.c:93-100 | a thread made runnable is queued where it last waited, and the calling CPU, if it is idle, looks for a better thread at once |
| `Sched.PickBetterIsBest` | kern/sched.c:215-256 | stopping at the first worse thread loses nothing: the choice is the best eligible one |
| `Sched.PickIsFirst` | kern/sched.c:162-195 | the choice from a queue is the eligible thread first in priority and then in arrival order |
| `Sched.OwnQueueFirst` | kern/sched.c:197-213 | a CPU that lost its thread serves the best thread of its own queue before stealing |
| `Sched.FindThreadFinds` | kern/sched.c:197-213 | find_thread never comes back empty-handed |
| `Sched.TestPausedKeepsInv` | kern/sched.c:278-290 | so test_paused_thread never panics and keeps the invariant |
| `Sched.SwitchKeepsInv` | kern/sched.c:123-160 | a switch keeps the invariant |
| `Sched.StepIsSafe` | kern/sched.c:33-296 | no sleep, wake, tick, reschedule, clone, stop or exit step panics, and each keeps the invariant |
| `Sched.RunsAreSafe` | kern/sched.c:33-296 | the same over every run |
| `Sched.BootedInv` | kern/cpu.c:286-297 | the state after boot, with a pinned idle thread current on each CPU and the init thread queued on the first, satisfies it |
| `Sched.ReachableInv` | kern/sched.c:33-296 | so every state that some run from boot reaches satisfies it |
| `Sched.BusyRun` | kern/cpu.c:286-297 | a run from boot on two CPUs in which init starts and clones itself twice, the other CPU steals one clone, and the other clone and both idle threads wait on queues |
| `Sched.OneCpuPerThread` | kern/sched.c:123-160 | in every state with the invariant, so in every reachable one, a thread is current on one CPU at most, and then on no queue |
| `Sched.IdleIsCurrentOrQueued` | kern/sched.c:278-290 | in every such state each idle thread is current on its CPU or PAUSED on that CPU's own queue |
| `Sched.ReschedRunsTheBest` | kern/sched.c:258-296 | after a reschedule in any such state no eligible thread on the own queue is strictly better than the current one |
| `Sched.NestedThreadsStay` | kern/sched.c:215-276 | whatever the step, a thread nested in the kernel becomes current only on the CPU whose queue it was on or on which it slept |
| `Sched.SleeperGivesWayTo` | kern/sched.c:197-213 | and likewise when the current thread sleeps |
| `Sched.ExitIsSafe` | kern/proc.c:1622-1640 | a thread that ends never panics the scheduler and leaves every other thread where the invariant wants it |
| `WaitQueue.TimespecIsNanos` | net/include/time.h:131-165 | comparing and adding normalised times is comparing and adding nanoseconds |
| `WaitQueue.WaitKeepsInv` | kern/waitq.c:87-105 | for any timeout and clock, going to sleep keeps the lists true to who waits exactly when the sum of the two is not the zero that stands for no deadline |
| `WaitQueue.UntimelyStaysListed` | kern/waitq.c:25-45 | with that sum zero, a wake-up leaves the thread on the timeout list though it no longer waits |
| `WaitQueue.UntimelyHitsNull` | kern/waitq.c:47-68 | and the next timeout check with a clock past zero comes to a thread that is on no queue |
| `WaitQueue.NeverHitsNull` | kern/waitq.c:47-68 | which it never does while the lists are true to who waits |
| `WaitQueue.NegativeTimeouts` | kern/waitq.c:87-105 | a negative timeout reaches zero at any clock |
| `WaitQueue.WakeupThreadKeepsInv` | kern/waitq.c:25-45 | waking a sleeper keeps them true |
| `WaitQueue.WakeupThreadWakesOne` | kern/waitq.c:25-45 | and wakes that thread and no other |
| `WaitQueue.SignalWakesHead` | kern/waitq.c:189-205 | a signal wakes exactly the head of the queue |
| `WaitQueue.BroadcastWakesAll` | kern/waitq.c:207-223 | a broadcast wakes all its watchers in order and nobody else |
| `WaitQueue.CheckTimeoutWakesDue` | kern/waitq.c:47-68 | the timeout check ends, having woken in deadline order the due prefix of the list |
| `WaitQueue.DueIsPast` | kern/waitq.c:47-68 | the due threads are exactly those whose deadline is strictly past |
| `WaitQueue.CheckTimeoutIsExact` | kern/waitq.c:47-68 | a sleeper is woken exactly when it has a deadline before the sampled clock |
| `WaitQueue.Step` | kern/waitq.c:25-223 | every wait, signal, broadcast, wake and timeout step keeps: WAITING exactly when once on the watcher list its field names; the timeout list sorted and holding exactly the waiters with a deadline |
| `WaitQueue.Run` | kern/waitq.c:25-223 | the same over every run |
| `WaitQueue.WaitQueues.AddWaitingThread` | kern/waitq.c:70-85 | the insertion before the first later deadline |
| `WaitQueue.WaitQueues.WaitOn` | kern/waitq.c:87-105 | a running thread becomes WAITING at the head or tail of a queue, with its deadline listed if it has one; the lists stay true exactly when that is not zero |
| `WaitQueue.WaitQueues.DoWakeup` | kern/waitq.c:25-34 | the thread leaves its queue and carries the reason it was woken for |
| `WaitQueue.WaitQueues.DoWakeupThread` | kern/waitq.c:36-45 | and leaves the timeout list if it was on it |
| `WaitQueue.WaitQueues.CheckTimeouts` | kern/waitq.c:47-68 | the loop over the timeout list |
| `WaitQueue.WaitQueues.SignalOne` | kern/waitq.c:189-205 | waitq_signal; the tests that would skip a watcher never fire |
| `WaitQueue.WaitQueues.BroadcastAll` | kern/waitq.c:207-223 | waitq_broadcast and the number it wakes |
| `Semaphore.SemSet.ProcessSops` | kern/ipc.c:949-986 | the operations in turn, up to the first that cannot pass |
| `Semaphore.SemSet.RollbackSops` | kern/ipc.c:988-997 | undoing the first n, last one first |
| `Semaphore.SemSet.Attempt` | kern/ipc.c:1052-1068 | one round of semop applies everything or nothing |
| `Semaphore.SemSet.Waiting` | kern/ipc.c:1069-1080 | the counter a waiter keeps raised |
| `Semaphore.SemSet.SetAll` | kern/ipc.c:1239-1271 | SETALL, and whether it changed a value |
| `Semaphore.ProcessInRange` | kern/ipc.c:949-986 | no operation makes a value negative or too wide, or takes one past SEMVMX that was not past it |
| `Semaphore.RollbackUndoes` | kern/ipc.c:988-997 | rollback restores every value, also when a semaphore occurs several times |
| `Semaphore.ProcessIsNet` | kern/ipc.c:949-986 | the values reached are the starting ones plus the net effect, and processing stops exactly at the first operation that fails |
| `Semaphore.SemopMeaning` | kern/ipc.c:949-986 | semop passes exactly when every operation passes in turn, and moves each semaphore by the sum of its operations |
| `Semaphore.StepKeepsInv` | kern/ipc.c:1052-1081 | every step keeps: sleepers are blocked at the current values, and ncnt and zcnt count them |
| `Semaphore.RunsKeepInv` | kern/ipc.c:1052-1081 | over every run no thread sleeps on operations that could go through |
| `Semaphore.RemovalEmptiesExactly` | kern/ipc.c:1137-1146 | IPC_RMID sends every waiter away exactly when none had been woken to retry and not yet run |
| `Semaphore.RemovalIsFinal` | kern/ipc.c:1137-1146 | then it stays so and the values never change again |
| `Semaphore.RemovalStrands` | kern/ipc.c:1052-1081 | otherwise a waiter that retries in vain sleeps on a removed set, with nobody left to retry if it was the only one |
| `Semaphore.RemovedIsStuck` | kern/ipc.c:1052-1146 | then the values are final over every run, and the same threads sleep until one is interrupted |
| `Semaphore.StrandingIsReachable` | kern/ipc.c:1052-1081 | a concrete run that gets there |
| `Semaphore.LimitHoldsExactly` | kern/ipc.c:1239-1271 | a step takes a value past SEMVMX exactly when it is a SETALL with such a value, which SETVAL would refuse |
| `Semaphore.RunsKeepLimitExactly` | kern/ipc.c:949-1305 | over every run the values stay within SEMVMX throughout exactly when no such SETALL occurs |
| `Region.CanonicalUnique` | mem/region.c:33-276 | a sorted list of free ranges with gaps between them is determined by the addresses it covers |
| `Region.AllocExact` | mem/region.c:77-147 | a granted request takes exactly its block out of the free set and leaves such a list, exactly unless the block runs past its range or uses up the only range |
| `Region.AllocTakes` | mem/region.c:77-147 | exactly the block is taken, and the rest stays sorted with gaps, exactly unless the block runs past its range, also when nothing is left |
| `Region.AllocComplete` | mem/region.c:77-147 | a well-formed request is refused only when it cannot be met |
| `Region.FreshExact` | mem/region.c:46-76 | the first allocation is right exactly when the block lies at an end of the region and is not all of it |
| `Region.MergeAdds` | mem/region.c:163-276 | wherever the block belongs, the edit adds exactly it and merges with its neighbours |
| `Region.FreeExact` | mem/region.c:149-276 | freeing a block in use, also with nothing else free, adds exactly the block and leaves such a list |
| `Region.AllocFreeRoundTrip` | mem/region.c:33-276 | allocating and freeing again gives back the very same list, also when the allocation emptied it |
| `Region.StepKeepsInv` | mem/region.c:33-276 | an allocation or free keeps: the list sorted with gaps and aligned, blocks in use apart, and free addresses exactly those of the start that are in no block; exactly unless a request is met past its range or from an emptied list |
| `Region.RunsKeepInv` | mem/region.c:33-276 | the same over every run |
| `Region.BackToStart` | mem/region.c:33-276 | once every block of such a run has been given back, in whatever order, the list is the first one again |
| `Region.FirstTakeExactly` | mem/region.c:46-76 | the first block from the list of vm_region_init leaves such a list exactly when it is not everything and lies at an end |
| `Region.StepIsSound` | mem/region.c:33-314 | so from vm_region_init on a step is sound exactly when a guard holds that its caller can check |
| `Region.RunsAreSound` | mem/region.c:33-314 | and every state of a run from vm_region_init is sound exactly when every step is safe |
| `Region.BackToWhole` | mem/region.c:33-314 | a safe run from vm_region_init that gives every block back ends with the whole region as one range |
| `Region.EmptiedGrantsTwice` | mem/region.c:46-76 | a run of four calls from vm_region_init after which one page belongs to two blocks |
| `Region.OverrunIsGranted` | mem/region.c:78-121 | a run of two calls from vm_region_init after which two blocks overlap |
| `Region.MiddleFirstHides` | mem/region.c:64-76 | a first block in the middle, after which a free page is refused |
| `Region.VmRegion.TakeFrom` | mem/region.c:88-119 | a range is replaced by what is left of it |
| `Region.VmRegion.AllocAt` | mem/region.c:78-121 | the scan for a requested address |
| `Region.VmRegion.AllocAnywhere` | mem/region.c:122-142 | the first fit |
| `Region.VmRegion.AllocFirst` | mem/region.c:46-76 | the first allocation, from an end or from the middle |
| `Region.VmRegion.AllocBlock` | mem/region.c:33-147 | vm_region_alloc: the list it leaves and the address, or an error and no change |
| `Region.VmRegion.Merge` | mem/region.c:163-276 | the scan and the edit of vm_region_free |
| `Region.VmRegion.FreeBlock` | mem/region.c:149-276 | vm_region_free: the list it leaves, or an error and no change |
| `Region.VmRegion.Test` | mem/region.c:278-290 | vm_region_test answers whether no address of the block is free |
| `Slab.LiveBlocksDisjoint` | kern/sma.c:246-281 | distinct live blocks never overlap |
| `Slab.TakePartialKeepsInv` | kern/sma.c:246-281 | taking from a partial slab keeps lists, bitmaps, first-free hints and counts in agreement |
| `Slab.TakeEmptyKeepsInv` | kern/sma.c:246-281 | and from an empty one |
| `Slab.AddMetaKeepsInv` | kern/sma.c:141-159 | and adding a meta page |
| `Slab.GiveBackKeepsInv` | kern/sma.c:184-212 | and giving a block back |
| `Slab.AllocGrants` | kern/sma.c:283-315 | sma_alloc returns a block that was not live and overlaps no live one |
| `Slab.NullExactly` | kern/sma.c:246-281 | get_free_block fails exactly when every slab is full, or none is partial and the empty one it would take needs memory that cannot be had |
| `Slab.DanglesExactly` | kern/sma.c:161-182 | the path that frees a meta page still linked is taken exactly when nothing can be had that way, a page can and memory for its first slab cannot |
| `Slab.DanglesWithNothingFull` | kern/sma.c:161-182 | an allocator with no block in use gets there |
| `Slab.FindsTheSlab` | kern/sma.c:317-347 | the search finds the slab and the index of a block |
| `Slab.FreeExact` | kern/sma.c:349-374 | sma_free frees exactly the live blocks and changes no other |
| `Slab.DoubleFreeExact` | kern/sma.c:349-374 | the double-free panic fires exactly on a block of a slab in use that is not live |
| `Slab.AllocFreeRoundTrip` | kern/sma.c:283-374 | allocating and freeing restores the set of live blocks |
| `Slab.Step` | kern/sma.c:98-374 | every allocation and free keeps the invariant or panics |
| `Slab.Run` | kern/sma.c:98-374 | over every run: each slab is on the list its state names, the state is what its bitmap says, first_free is the least clear bit, only the head of an empty list keeps memory, and ncurrent counts the set bits |
| `Slab.ScanFirstFree` | kern/sma.c:214-244 | the word and bit loops find the least clear bit |
| `Slab.SlabCache.TakeFromPartial` | kern/sma.c:246-281 | a block from a partial slab |
| `Slab.SlabCache.TakeFromEmpty` | kern/sma.c:246-281 | a block from an empty slab |
| `Slab.SlabCache.GetBlock` | kern/sma.c:246-281 | get_free_block: a partial slab before an empty one, in meta order, or nothing |
| `Slab.SlabCache.FindPtrSlab` | kern/sma.c:329-347 | find_ptr_slab: the first slab in use whose memory holds the pointer |
| `Slab.SlabCache.AddMetaPage` | kern/sma.c:141-159 | a meta page with its empty slabs is linked in front |
| `Slab.SlabCache.AllocBlock` | kern/sma.c:283-315 | sma_alloc: a block, with a new meta page if need be; or out of memory and nothing changed; or a freed meta page left linked |
| `Slab.SlabCache.FreeBlock` | kern/sma.c:349-374 | sma_free: done, refused or panicked |
| `Slab.SlabCache.Return` | kern/sma.c:184-212 | clearing the bit and moving the slab between lists |
| `Slab.SlabCache.constructor` | kern/sma.c:429-462 | a new allocator is empty and sound |
| `PageTree.SlotInBounds` | kern/ramfile.c:124-188 | every slot index the recursion computes is in bounds |
| `PageTree.GetIsUpdate` | kern/ramfile.c:124-188 | get_page changes what is found at its own offset only |
| `PageTree.GetFinds` | kern/ramfile.c:124-188 | a page that was there is returned, a new one is counted, and only then |
| `PageTree.RmIsRemoval` | kern/ramfile.c:85-122 | rm_page removes exactly its own offset |
| `PageTree.GetAddsBlocks` | kern/ramfile.c:124-188 | exactly the blocks that were allocated are in the tree besides the old ones, and the counter counts them |
| `PageTree.AddedOnce` | kern/ramfile.c:124-188 | no block is added twice |
| `PageTree.GetCountsPages` | kern/ramfile.c:124-188 | and so does the page counter |
| `PageTree.GetAddsPage` | kern/ramfile.c:124-188 | only the new page is added |
| `PageTree.RmCounts` | kern/ramfile.c:85-122 | what rm_page takes out of the tree |
| `PageTree.DanglesExactly` | kern/ramfile.c:124-188 | a slot is left naming a freed page exactly when clearing a new page fails |
| `PageTree.PlacesAreDistinct` | kern/ramfile.c:244-306 | every index below the maximum has its own place, inside its tree |
| `PageTree.GetPageIsUpdate` | kern/ramfile.c:280-306 | ramfile_getpage is an update of a map from indices to pages |
| `PageTree.GateExact` | kern/ramfile.c:280-287 | the size test hides no page afterwards, exactly unless index 2^64 - 1 is asked for and a page above 0 exists |
| `PageTree.LastIndexHides` | kern/ramfile.c:280-287 | asking for it hides every page above 0 |
| `PageTree.RmPageIsRemoval` | kern/ramfile.c:244-278 | ramfile_rmpage is a removal from it |
| `PageTree.GetPageKeepsInv` | kern/ramfile.c:280-306 | getting a page keeps tree shape, counters, no page twice, no block twice and no page hidden, exactly unless the size wraps |
| `PageTree.RmPageKeepsInv` | kern/ramfile.c:244-278 | removing one does too, but for the counters it does not touch |
| `PageTree.RunsKeepInv` | kern/ramfile.c:244-306 | the same over every run |
| `PageTree.DestroyBalance` | kern/ramfile.c:195-221 | after any run destroying frees each page and each block once and leaves on the counters exactly the pages rmpage took out |
| `PageTree.RamFile.GetNode` | kern/ramfile.c:124-188 | get_page with its counters |
| `PageTree.RamFile.RmNode` | kern/ramfile.c:85-122 | rm_page empties the slot of one offset |
| `PageTree.RamFile.FreeBlocks` | kern/ramfile.c:35-83 | the pages and the blocks below a node, each freed once, and the counters run down by them |
| `PageTree.RamFile.FetchPage` | kern/ramfile.c:280-306 | ramfile_getpage finds or makes the page of an index in the tree the index belongs to |
| `PageTree.RamFile.DropPage` | kern/ramfile.c:244-278 | ramfile_rmpage empties the place of an index |
| `PageTree.RamFile.Destroy` | kern/ramfile.c:195-221 | every page and every block freed once, every tree empty, and the counters down to the pages rmpage took out |
| `Pipe.SizesAgree` | kern/ringbuf.c:127-155 | the four sizes agree: read and write sizes fill the ring but for one byte, and a contiguous one is zero only with its whole |
| `Pipe.ChunkAppends` | net/include/ringbuf.h:34-37 | a chunk copied to the write position and the advance append it |
| `Pipe.ChunkDrops` | net/include/ringbuf.h:44-47 | reading a chunk and the advance drop it |
| `Pipe.Ring.constructor` | kern/ringbuf.c:7-25 | a new ring is empty |
| `Pipe.Ring.Write` | kern/ringbuf.c:35-51 | as much as fits is appended |
| `Pipe.Ring.Read` | kern/ringbuf.c:53-69 | the oldest bytes leave in order |
| `Pipe.Ring.Peek` | kern/ringbuf.c:71-77 | the same bytes, and the ring as before |
| `Pipe.StepKeepsInv` | kern/pipebuf.c:26-156 | every open, release, read, write, fault, interrupt and resume step conserves bytes in order and keeps: a sleeping reader has an empty ring and an open writer, a sleeping writer a full ring and an open reader |
| `Pipe.RunsKeepInv` | kern/pipebuf.c:26-156 | over every run the bytes delivered followed by those held are those held at first followed by those accepted |
| `Pipe.StreamIsFaithful` | kern/pipebuf.c:26-156 | from a new pipe on, the bytes read are a prefix of the bytes written and the ring holds the rest |
| `Pipe.NobodySleepsInVain` | kern/pipebuf.c:26-156 | after any run from a new pipe a sleeping reader has an empty ring and an open writer, a sleeping writer a full ring and an open reader, and never both |
| `Pipe.NeverBothAsleep` | kern/pipebuf.c:26-156 | a corollary of the invariant: readers and writers are never asleep together |
| `Pipe.ReadExact` | kern/pipebuf.c:26-87 | for one call: when a read returns end of file, EAGAIN, sleeps or delivers |
| `Pipe.WriteAccounts` | kern/pipebuf.c:98-156 | for one call: a write accepts a prefix, returns its length, and sleeps with exactly the rest |
| `Pipe.BlockingWriteIsWhole` | kern/pipe.c:51-62 | a blocking write returns short only for want of readers |
| `Pipe.ReleaseStepKeeps` | kern/pipe.c:64-105 | closing an end wakes the other side and loses no byte |
| `Pipe.PipeBuf.constructor` | kern/pipebuf.c:7-19 | a new pipe is empty |
| `Pipe.PipeBuf.ReadLocked` | kern/pipebuf.c:26-87 | the read loop over chunks of at most PIPE_BUF bytes is one step of the pipe |
| `Pipe.PipeBuf.WriteLoop` | kern/pipebuf.c:98-156 | and so is the write loop after its first test |
| `Pipe.PipeBuf.WriteAtFull` | kern/pipebuf.c:107-145 | what a writer does at a full ring; it sleeps at the head once it has written something |
| `Pipe.PipeBuf.Close` | kern/pipe.c:64-105 | the counts and broadcasts of pipe_release |
| `Tcp.Socket.OnSyn` | net/tcp.c:989-1084 | handle_syn: the child's numbers and its SYN-ACK |
| `Tcp.Socket.OnSynAck` | net/tcp.c:854-904 | handle_synack: the tests in order, then the four numbers and an acknowledgement |
| `Tcp.Socket.OnPkt` | net/tcp.c:906-987 | handle_pkt: the tests in order, the payload, the FIN and the acknowledgements |
| `Tcp.Socket.FlushOut` | net/tcp.c:1470-1498 | send_data empties outbuf into segments of at most 1000 bytes |
| `Tcp.FlushIsOutbuf` | net/tcp.c:1445-1498 | those segments are outbuf cut into pieces of 1 to 1000 bytes |
| `Tcp.StepKeepsInv` | net/tcp.c:854-1084 | every dial, delivery, send and receive step keeps both directions' sequence numbers, acknowledgements and bytes in agreement, through the handshake |
| `Tcp.RunsKeepInv` | net/tcp.c:854-1084 | the same over every run on an ordered lossless channel without wrap or refusal for room |
| `Tcp.HandshakeOpens` | net/tcp.c:854-1084 | three deliveries take fresh sockets to an open connection |
| `Tcp.ClientIsInStep` | net/tcp.c:906-987 | the client's lseq is the server's rseq plus payload in flight, and bytes taken from outbuf are those arrived followed by those in flight, so what the server has read is a prefix of them; likewise the server's when its SYN-ACK carries its initial number |
| `Tcp.AcksAreHonest` | net/tcp.c:1397-1419 | no acknowledgement covers a byte not in inbuf; with this code's SYN-ACK the client's claim one too many |
| `Tcp.RackNeverFalls` | net/tcp.c:916-926 | over every run of an open connection rack never decreases |
| `Tcp.SynAckExact` | net/tcp.c:880-884 | client and server agree exactly when the SYN-ACK carries the server's initial sequence number |
| `Tcp.OwnSynAckIsAhead` | net/tcp.c:1421-1443 | the SYN-ACK of this code carries lseq instead, so its ends disagree by one |
| `Tcp.ServerIsNeverInStep` | net/tcp.c:906-987 | so with its own server that direction is never in step, and what is missing is exactly the refused front of the stream |
| `Tcp.RefusedExactly` | net/tcp.c:927-931 | a segment from that server is refused exactly until the first one with data has been |
| `Tcp.RoomExact` | net/tcp.c:932-945 | a direction in step stays so on delivery exactly when the segment fits inbuf |
| `Tcp.WrapExact` | net/tcp.c:916-926 | an in-order segment is accepted exactly when its acknowledgement does not wrap |
| `DeviceTree.GetU8` | kern/fdt.c:155-172 | reads one byte and never passes the end |
| `DeviceTree.GetU32` | kern/fdt.c:174-191 | reads one big-endian word and never passes the end |
| `DeviceTree.Align` | kern/fdt.c:193-207 | stops at a multiple of four within the end |
| `DeviceTree.ParseNode` | kern/fdt.c:225-332 | parsing terminates on any input with the position advanced and not past the end |
| `DeviceTree.LayoutReads` | kern/fdt.c:225-332 | any layout of a tree at an aligned place, with any NOPs and padding, parses to that tree and stops just after its END_NODE |
| `DeviceTree.RoundTrip` | kern/fdt.c:225-332 | the standard serialisation of any tree is read back as itself |
| `DeviceTree.NopsDoNotMatter` | kern/fdt.c:272-273 | layouts that differ in NOPs, padding or interleaving parse alike |
| `DeviceTree.NodeWritten` | kern/fdt.c:225-332 | conversely, whatever parses is a layout of the tree returned |
| `DeviceTree.RootsRead` | kern/fdt.c:382-411 | a forest closed by END or by the end of the block is read back whole |
| `DeviceTree.RootsWritten` | kern/fdt.c:382-411 | conversely, whenever the loop succeeds the block is such a forest of the nodes it lists |
| `DeviceTree.Parser.ReadByte` | kern/fdt.c:155-172 | parser_getu8: the byte and the advance, or neither |
| `DeviceTree.Parser.ReadWord` | kern/fdt.c:174-191 | parser_getu32: the word and the advance, or neither |
| `DeviceTree.Parser.SkipPad` | kern/fdt.c:193-207 | the loop of parser_align |
| `DeviceTree.Parser.ReadName` | kern/fdt.c:241-259 | the loop over the name |
| `DeviceTree.Parser.ReadProp` | kern/fdt.c:274-305 | a property and the loop over its bytes |
| `DeviceTree.Parser.ReadBody` | kern/fdt.c:263-323 | the token loop collects what the grammar says |
| `DeviceTree.Parser.ReadNode` | kern/fdt.c:225-332 | parse_node, recursively |
| `DeviceTree.Parser.ReadRoots` | kern/fdt.c:382-411 | the loop of fdt_init |
| `DeviceTree.CheckCompatible` | kern/fdt.c:527-546 | found exactly when the string is one of the NUL-separated strings of the property |
| `Zones.ProtectMeaning` | mem/space.c:331-445 | for every address: covered before exactly when after, the new protection in the range and the old one outside, and even when a call fails midway only the old or the new one |
| `Zones.ProtectSorted` | mem/space.c:331-445 | a range that is not empty leaves zones sorted, disjoint and not empty |
| `Zones.EmptyRangeExact` | mem/space.c:408-441 | a range of no bytes does so exactly unless it is strictly inside a zone with another protection and two pieces can be allocated |
| `Zones.EmptyRangeLeavesEmptyZone` | mem/space.c:408-441 | the zone of no bytes that such a call leaves |
| `Zones.OffsetsExact` | mem/space.c:346-442 | whether or not the call succeeds, a covered address keeps its file offset exactly unless it is cut from the middle of a zone |
| `Zones.OffsetLostOnFailure` | mem/space.c:408-441 | so an offset is lost even by a call that then fails |
| `Zones.Space.Head` | mem/space.c:360-382 | protecting the head of a zone |
| `Zones.Space.Tail` | mem/space.c:386-407 | protecting its tail |
| `Zones.Space.Middle` | mem/space.c:408-441 | splitting it in three |
| `Zones.Space.One` | mem/space.c:346-442 | the four cases for one zone |
| `Zones.Space.Walk` | mem/space.c:339-443 | the traversal that splits zones in place |
| `Zones.Space.ProtectRange` | mem/space.c:331-445 | vm_space_protect with its error returns |
| `Zones.Space.Find` | mem/space.c:447-462 | the zone that covers an address, if there is one |
| `InitStack.SizeExact` | kern/proc.c:425-469 | the bytes used are the bytes counted exactly when the argument count is in a register or an int for it ends in the same alignment unit as the word that was counted |
| `InitStack.PortIsSoundExactly` | kern/proc.c:425-577 | on a machine this holds of all arguments, wherever the stack is, exactly when at least four parameters go in registers or an int is a word |
| `InitStack.EveryPortIsSound` | sys/i386/include/arch.h:15-17 | so it holds of all arguments on i386, amd64, arm, aarch64 and riscv |
| `InitStack.SomePortIsNot` | kern/proc.c:517-520 | and would not with 64-bit words and three registers, even for a single empty argument |
| `InitStack.StackHolds` | kern/proc.c:471-535 | argv is pre_argv followed by argv, each pointer the address of its own NUL-terminated string, arrays ended by NULL, envp likewise, and the auxiliary pairs in order |
| `InitStack.StackReads` | kern/proc.c:471-535 | where addresses fit in a word, a program that loads and follows the pointers finds every string, both NULLs and every auxiliary pair |
| `InitStack.StackAligned` | kern/proc.c:521-523 | before the return slot the size is a multiple of the alignment, and so is the address if that of the top is |
| `InitStack.DecEnc` | kern/proc.c:403-412 | a word written to the stack reads back as its value |
| `InitStack.ArraySize` | kern/proc.c:384-390 | the bytes of an array of strings with their NULs |
| `InitStack.CountArgs` | kern/proc.c:425-469 | the counted size, rounded up to the alignment |
| `InitStack.Builder.PushArray` | kern/proc.c:392-401 | strings pushed from the last lie in order |
| `InitStack.Builder.PushPointers` | kern/proc.c:403-412 | pointers pushed while stepping over the same strings again |
| `InitStack.Builder.PushAuxv` | kern/proc.c:414-423 | the auxiliary pairs |
| `InitStack.Builder.PushArrays` | kern/proc.c:482-503 | the strings and the three arrays, and where each begins |
| `InitStack.Builder.Forge` | kern/proc.c:471-535 | forge_init_args leaves exactly the image and returns where the arrays begin |
| `InitStack.Lay` | kern/proc.c:559-570 | the call of forge_init_args: the arrays it leaves, what a program reads there, and whether the bytes used are those counted |
| `InitStack.PushInitArgs` | kern/proc.c:537-577 | mem_push_init_args: E2BIG exactly when too big; else the image holds what the program was given at the addresses returned, readable as such where addresses fit in a word, and the assertion holds exactly when the stack pointer is its lowest byte, always on the machines of the kernel |
| `SymbolHash.FindGnu` | kern/ksym.c:94-129 | on a well-formed GNU table the lookup answers as a plain search would |
| `SymbolHash.FindSysv` | kern/ksym.c:72-92 | on a well-formed System V table it answers as a plain search when its hash picks the bucket of the ABI's hash, and else finds nothing, which is right only if no symbol matches |
| `SymbolHash.OneAnswer` | kern/ksym.c:54-70 | with unique global names all correct searches give the same answer |
| `SymbolHash.Scan` | kern/ksym.c:54-70 | the plain search through test_sym |
| `SymbolHash.PresentIsReached` | kern/ksym.c:106-112 | the Bloom test never rejects a present name, whose bucket starts at or before it |
| `SymbolHash.Get` | kern/ksym.c:278-292 | the lookup by name answers right through the GNU table, and through the other where char is unsigned or the name is ASCII |
| `SymbolHash.OneSymbolSysv` | kern/ksym.c:72-92 | well-formed System V tables exist |
| `SymbolHash.OneSymbolGnu` | kern/ksym.c:94-129 | well-formed GNU tables exist |
| `SymbolHash.WalkChain` | kern/ksym.c:81-91 | a chain walk ends and finds what its chain holds |
| `SymbolHash.WalkBucket` | kern/ksym.c:113-128 | a bucket walk ends and answers for the whole table |
| `SymbolHash.ElfHash` | kern/ksym.c:31-44 | the loop of elf_hash |
| `SymbolHash.GnuHashOf` | kern/ksym.c:46-52 | the loop of gnu_hash |
| `SymbolHash.HashTop` | kern/ksym.c:31-44 | an ELF hash has 28 bits |
| `SymbolHash.AsciiHash` | kern/ksym.c:31-44 | on ASCII names elf_hash is the ABI's hash whatever the sign of char |
| `SymbolHash.SignedHashDiffers` | kern/ksym.c:31-44 | on the name of one byte 128 it is not where char is signed |
| `SymbolHash.HighByteTable` | kern/ksym.c:72-92 | a well-formed table that holds that name, in another bucket than the signed hash picks |
| `SymbolHash.HighByteLookup` | kern/ksym.c:72-92 | so its lookup misses the symbol exactly where char is signed |
| `SymbolHash.Nearest` | kern/ksym.c:294-324 | the nearest defined symbol at or below an address, the first of equals |
| `WordString.HasZeroExact` | kern/string.c:4-5 | haszero is true exactly when some byte of the word is zero |
| `WordString.HasByteExact` | kern/string.c:4-5 | with a filled word it tells exactly whether some byte equals c |
| `WordString.Memcpy` | kern/string.c:29-47 | memcpy, for a destination not above an overlapping source |
| `WordString.Memmove` | kern/string.c:79-101 | for every two ranges of one memory the destination becomes what the source was and nothing else changes |
| `WordString.Memchr` | kern/string.c:103-126 | the first place of c |
| `WordString.Memrchr` | kern/string.c:128-151 | the last place of c |
| `WordString.Strlen` | kern/string.c:190-209 | the place of the first NUL |
| `WordString.Strchr` | kern/string.c:429-462 | the first c up to and including the NUL |
| `WordString.Strlcpy` | kern/string.c:300-336 | the length of the source, and as much of it as fits before a NUL, with nothing written beyond |
| `Checksum.IpChecksum` | net/ip4.c:211-228 | ip_checksum with its 32-bit accumulator |
| `Checksum.FoldLoop` | net/ip4.c:225-227 | folding terminates |
| `Checksum.FoldExact` | net/ip4.c:225-227 | and keeps the sum modulo 65535 |
| `Checksum.FoldUnique` | net/ip4.c:225-227 | so it gives the one number from 1 to 65535 that does |
| `Checksum.NoOverflow` | net/ip4.c:211-228 | no packet of up to 65535 bytes overflows the accumulator, even on top of a pseudo-header |
| `Checksum.StoredVerifies` | net/ip4.c:211-228 | storing the result in its zeroed, even-aligned field makes a second checksum zero, with any initial sum, and neither sum of a packet overflows |
| `Checksum.SendAndVerify` | net/ip4.c:211-228 | with the 32-bit accumulator on both sides, any packet of up to 65535 bytes stamped by the sender verifies as zero |
| `Checksum.PseudoHeader` | net/tcp.c:676-697 | a pseudo-header summed first counts as if it stood before the data |
| `Checksum.ByteOrder` | net/ip4.c:211-228 | the two bytes stored do not depend on the byte order of the machine (section 2 of RFC 1071) |

## Left out

- `sched_yield`, `mutex_trylock`, `ramfile_resize`, `sma_move` and `cpu_sync` are not modelled.
- Signals, tracing, `vfork` and an exit that ends other threads are not modelled; a thread that ends itself is the event Exit of the scheduler.
- Drivers, ACPI, file systems, system call wrappers, address translation and the physical page allocator are not modelled: they would add members without adding protocol.
- Spinlocks and the big kernel lock are not modelled; each stretch of code under them is one step.
- Permission checks, `SEM_UNDO` and the 16-bit width of `ncnt` and `zcnt` are not modelled.
- RwLock.RunsKeepInv: covers runs in which only holders unlock; RwLock.UnlockIsForHolders says what the others do.
- Mutex.RunsKeepInv: covers runs in which only holders unlock; Mutex.UnlockIsForHolders says what the others do.
- WaitQueue.Run: covers runs whose deadlines are not zero; WaitQueue.UntimelyStaysListed says what the others do. Seconds are unbounded.
- Region: getting a node may take from the list while freeing, but not while allocating; blocks are given back whole.
- Slab: 64-bit machines are not covered. A bitmap word has 32 bits here, as where size_t is as wide as int; with 64 bits the int-wide mask of bit 31 would set bits 31 to 63.
- Slab: what happens to a freed meta page that is still linked is not followed any further. Constructor and destructor callbacks of slabs are not modelled.
- PageTree: a tree is a value in which each block carries its address; a block has 512 slots.
- PageTree.RunsKeepInv: covers runs in which clearing a new page succeeds and the size does not wrap; PageTree.DanglesExactly and PageTree.GateExact say what the others do.
- Pipe.PipeBuf.ReadLocked: models copies that succeed; a copy that faults partway is the event ReadFault of the state machine.
- Pipe.PipeBuf.WriteLoop: models copies that succeed; a copy that faults partway is the event WriteFault of the state machine.
- Pipe: polling is not modelled.
- Tcp.RunsKeepInv: covers an ordered lossless channel, sequence numbers that do not wrap and segments that fit; Tcp.RoomExact and Tcp.WrapExact say what happens otherwise.
- Tcp: socket lookup, ports, failures to send, window sizes, retransmission and IPv6 are not modelled; no code of this kernel sends a FIN or a RST.
- DeviceTree: failures of memory allocation, and the lookup of a property's name in the strings block, are not modelled.
- Zones.Space.ProtectRange: gives one error for a failed allocation and a failed page-table change.
- InitStack: mapping the user's pages into the kernel is not modelled; the stack is the bytes from the stack pointer up to its top.
- SymbolHash.FindSysv: takes a well-formed table, as the loop of the code would not end on a cyclic one.
- SymbolHash.FindGnu: takes a well-formed table, as the code reads on until a low bit is set.
- SymbolHash: a word of the Bloom filter is the set of its bits.
- WordString.Strlen: takes memory that goes on to the end of the word the NUL is in, as pages do.
- WordString.Strchr: takes the same.
- WordString.Strlcpy: takes a destination apart from the source.
- WordString: a word is eight bytes, least significant first.
- Checksum.PseudoHeader: covers the IPv4 pseudo-header as any even number of bytes; the IPv6 one is not modelled apart from that.
