# A verified model of the mockos kernel

mockos is a small Linux-0.12-style kernel. This project models the parts of it whose correctness depends on whole runs
and proves, for all inputs and all interleavings, what those parts are for.

* **Copy-on-write paging** (`Paging`, `PagingInvariant`, `PagingSteps`, `PagingShare`, `PagingFork`, `CopyOnWrite`,
  `PagingFacts`, `MappedPages`, `FreeFrames`, `TaskStructures`, `MemoryManager`). Physical memory is 4096 frames of 1024
  words; the page directory is frame 0 and page tables are ordinary frames. Main results: over every run of forks, user
  stores and kernel stores, lazy sharing shows every slot what eager copying would show it, no panic or wild access is
  reached, and `mem_map` counts references exactly; eighteen tasks besides slot 0 never run out of frames.
* **Sleeping, waking, mutexes and scheduling** (`WaitQueue`, `Sleepers`, `KernelMutex`, `RoundRobin`, `DrainTime`,
  `Scheduler`). A step machine with one place and one saved `tmp` per task. Main results: the pointers hidden on kernel
  stacks always form an exact, acyclic list of the sleepers; one runnable waiter drains a queue under every schedule,
  within a bounded number of calls of `schedule`; mutual exclusion without lost wakeups; bounded waiting.
* **The buffer cache** (`BufferProtocol`, `BufferAnswers`, `BufferRequests`, `BufferLinks`, `BufferIndex`, `BufferInit`,
  `BufferCache`). `getblk` as a protocol of many tasks interleaving at its sleeps, and below it the linked
  representation. Main results: one buffer per block, no buffer in use, dirty or locked is rebound, the hash index
  agrees with linear search, the ring stays one circle of all buffers.
* **Fork bookkeeping** (`ProcessTable`, `Segments`). Pid search, slot search, family tree, descriptors and address
  windows.
* **The formatter** (`Printer`, `Formatter`, `Conversions`). `number`, `skip_atoi` and the directive loop of `vsprintf`.
  Main results: printed numbers read back, a format means what its conversion specifications say, and each conversion
  character and flag shows what it should.

Each imperative routine is a method on arrays (or a loop over cursors) proved equal to a pure function of the old state;
the theorems are about those functions. A pointer to a frame, task structure or buffer header is its index. Bit masks on
page-table entries are arithmetic; descriptors are 32-bit vectors. `dafny verify dfyconfig.toml` checks everything.

## What is assumed

* A free page exists whenever `get_free_page` is called; a fork needs three, a store one. `EighteenTasks` shows that this
  holds over every run with at most eighteen forks, `OutOfFrames` what happens otherwise.
* Forks go to an empty slot. That the limit is 640 KB in every task, and that all pages below it are mapped in every live
  slot, is proved (`CopyMemNeverPanics`, `ReadyRuns`); `RunRefines` itself takes any limit up to the 64 MB window (4 MB for
  slot 0) and any mapped stack page.
* Low frames stay writable in the source of a copy (`mm/memory.c:84-85`), and the kernel keeps its variables in some. The
  refinement names a set of *hot* frames below 640 KB, the page directory among them: the kernel and slot 0 may store to hot
  frames at any time, and slot 0 to any other page of its own that no other slot maps. Pages that show a hot frame are the
  only ones the refinement says nothing about. `LowPageLeak` says exactly when another slot sees a store by slot 0,
  `LowPageLeaks` that this happens, and `StackPageStaysOwn` that slot 0's stack page never becomes such a page.
* Task 0 never sleeps and stays runnable; then `schedule` resumes only tasks in state TASK_RUNNING (`ResumesRunnable`). The
  code between two calls of `schedule` is atomic with respect to the same queue or mutex; `sys_kunlock` is two steps.
* Tasks switch inside `getblk` only at its sleeps (and, for generality, at `repeat`). Device numbers are 1 to
  0xffff. The byte `b_count` wraps; nothing ever releases a buffer.
* A `struct buffer_head` has 36 bytes, and the buffer headers do not start in the first 1024 bytes of memory, so the block
  pointer of `buffer_init` never runs below 0.

## Model

| member | source | states |
|---|---|---|
| CopyOnWrite.RunRefines | mm/memory.c:30-130 | Copy-on-write refines eager copying: over every run of enabled forks, user stores and kernel stores no panic or wild access occurs, the paging invariant holds, and every page of every slot that does not show a hot frame reads as in the model that copies all pages at fork; a page that stops showing one, by a store or as a forked stack, counts from then on |
| CopyOnWrite.StepRefines | mm/memory.c:30-130 | One fork, user store or kernel store preserves the invariant and the agreement with the eager model |
| CopyOnWrite.ForkStep | kernel/fork.c:49-106 | A fork leaves every other slot's views alone, gives the child the parent's pages inside the limit and nothing else, for every page that does not show the page directory, shows the directory as it leaves it to a child whose parent shows it, and makes the child's stack page a writable pool frame; its stores to kernel variables are steps of their own |
| CopyOnWrite.UserStoreStep | mm/memory.c:98-130 | A store, through the fault handler if the page is read-only, changes the one word of the one view and no other view of any slot |
| CopyOnWrite.StoreMoves | mm/memory.c:98-130 | After a store every entry of slots 1 and up is as before, or is the one stored to and maps a pool frame |
| CopyOnWrite.StoreOwns | mm/memory.c:98-130 | After its store a slot from 1 on has the page on a pool frame of its own, so the refinement speaks of it, also if it showed a hot frame before |
| CopyOnWrite.HotCopied | kernel/fork.c:99-106 | The child's copy of a low frame, private stack page included, is the frame as the fork leaves it |
| CopyOnWrite.HotStoreStep | mm/memory.c:84-85 | A store to a hot frame keeps the invariant and is seen only where a hot frame is shown |
| CopyOnWrite.WriterIsAlone | mm/memory.c:80-85 | Exclusive writer: a writable entry of slots 1 and up maps a pool frame of count 1 that no other entry shows and that is no page table |
| CopyOnWrite.CopyStage | mm/memory.c:43-58 | Forking into an empty slot reaches neither the alignment nor the "already exist" panic, and copies exactly the window |
| CopyOnWrite.StackStage | kernel/fork.c:103-106 | `un_wp_page(lin2phy(...))` resolves the child's own stack entry and changes no view |
| CopyOnWrite.DirsForCovers | mm/memory.c:52-52 | The directory entries copied are exactly those whose 4 MB begin below the limit |
| PagingSteps.AllocStep | mm/swap.c:15-27 | The allocator returns a pool frame nobody refers to, which is no page table, and keeps the invariant with that frame pending |
| PagingShare.ShareEntry | mm/memory.c:75-90 | Sharing one entry keeps the invariant: the child's entry is the parent's with bit 1 cleared and every other bit as it was, the parent's too if it maps a pool frame, and no other entry or page changes |
| PagingShare.CopyEntriesStep | mm/memory.c:73-90 | The inner loop maps the first nr pages of the parent's table into the child's and nothing else |
| PagingFork.CopyDirsStep | mm/memory.c:55-91 | The outer loop never panics in an empty window, keeps the invariant, and uses at most one frame a turn |
| PagingFork.UnWpStep | mm/memory.c:110-130 | After `un_wp_page` the faulting entry is a writable pool frame, every view of every slot is as before, and no other entry moved, on both branches; a frame of its own is reused with bit 1 set and every other bit as it was, a fresh one is entered with the bits present, writable and user |
| PagingFacts.UserModeMayUse | mm/memory.c:70-82 | In every reachable state every non-empty entry of slots 1 and up, and the directory entry of its table, has the user bit: forks and faults never take it away |
| TaskStructures.StepKeepsImages | kernel/fork.c:49-106 | No fork, user store or kernel store writes a task structure in use, and a fork leaves its child the structure it was given |
| TaskStructures.RunKeepsImages | mm/memory.c:30-130 | Over every run of these steps a task structure in use keeps its frame and its contents |
| TaskStructures.BusyWindowPanics | mm/memory.c:56-58 | `copy_page_tables` to the window of a live slot panics, in every reachable state, for every size above 0 |
| PagingInvariant.RefsMove | mm/memory.c:84-89 | Retargeting one reference moves exactly one unit of count |
| PagingInvariant.AtMost63 | mm/memory.c:88-88 | No pool frame has more than 63 references, so the byte count never wraps |
| PagingFacts.Conservation | mm/memory.c:76-89 | `mem_map` of a pool frame is its number of references; it is 0 exactly when nobody refers to the frame |
| MappedPages.ReachableFromBoot | mm/memory.c:14-130 | Every state reachable from the initial one by forks, stores inside the limit and kernel stores, with free frames, has all pages below the limit mapped, exact counts of at most 63 and the views of eager copying on every page that shows no hot frame; nothing about mappings is assumed |
| MappedPages.ReadyRuns | kernel/fork.c:18-33 | A run whose steps need only a live parent, an empty slot, addresses inside the 640 KB limit and free frames is enabled throughout, and keeps every live slot fully mapped |
| MappedPages.ReadyIsEnabled | kernel/fork.c:49-106 | Empty slot, stack inside the limit and three free frames suffice for a fork; a free frame and an address inside the limit for a store |
| MappedPages.MappedStep | mm/memory.c:75-90 | Every fork and store keeps all pages below the limit mapped in every live slot |
| FreeFrames.EighteenTasks | mm/swap.c:10-27 | From the initial state, with at most eighteen forks and any stores inside the limit, `get_free_page` always finds a frame, and the refinement holds without any assumption on frames |
| FreeFrames.FewForksAreReady | mm/swap.c:10-27 | The same from every state with small windows, counting the live slots |
| FreeFrames.FreeBound | mm/memory.c:76-89 | Free frames plus 162 for every live slot from 1 on are at least 3072, the size of the pool |
| FreeFrames.NarrowStep | kernel/fork.c:99-106 | Every step keeps windows to one table with entries below 160, and only a fork adds a live slot |
| FreeFrames.OutOfFrames | mm/swap.c:15-19 | The scan ends at index -1 if and only if nothing is free; what is then claimed lies outside `mem_map` and frame 255 would be zeroed; the result is never 0, so the tests of its callers never fire |
| PagingFacts.BootInv | boot/head.s:293-319 | The identity map with a free pool satisfies the invariant |
| PagingFacts.BootCanFork | kernel/fork.c:37-55 | The first fork, with the 640 KB limit, is enabled for every stack inside it and every empty slot |
| PagingFacts.StackPageIsPrivate | kernel/fork.c:103-106 | After a fork the child's stack page equals the parent's at the fork and survives any store to the parent's page, also when the parent is slot 0, if and only if that page is not the page directory |
| PagingFacts.StackPageStaysOwn | kernel/fork.c:103-106 | Over every run in which slot 0 forks with its stack in one page, no slot ever maps that page's frame, so slot 0 may store to it for ever unseen |
| PagingFacts.LowPageLeak | mm/memory.c:84-85 | A store by slot 0 reaches another slot if and only if that slot maps the low frame and the word changes |
| PagingFacts.ChildMapsParentFrames | mm/memory.c:73-85 | After every fork the child maps, below 640 KB, exactly the frames of its parent, but for its stack page |
| MappedPages.ChildMapsLowPages | mm/memory.c:73-85 | After every fork by slot 0 the child maps each of the parent's 160 low frames, the page directory included, but for its stack page |
| MappedPages.LowPageLeaks | mm/memory.c:84-85 | So a changing store by slot 0 to any such page from 5 on changes what that child reads |
| PagingFacts.FirstPageStable | mm/memory.c:70-82 | Another slot's fork leaves a slot's first page unchanged if and only if it is not the page directory's frame |
| PagingFacts.FirstPageInherited | mm/memory.c:70-82 | A child reads in its first page what the parent had there at the fork if and only if that is not the page directory's frame |
| Paging.FreeIndex | mm/swap.c:15-17 | The scan yields the highest free index, -1 exactly when nothing is free |
| Paging.Lin2PhyIsTheWalk | include/linux/mm.h:20-22 | For every address `lin2phy` names the entry `do_wp_page` walks to |
| MemoryManager.Memory.MemInit | mm/memory.c:14-28 | Exactly the frames of [start, end) are free, all others USED |
| MemoryManager.MemInitBoots | mm/memory.c:14-28 | `mem_init(4 MB, 16 MB)` over the boot tables establishes the paging invariant |
| MemoryManager.Memory.GetFreePage | mm/swap.c:10-27 | In place: claims the highest free frame, zeroes it, touches nothing else |
| MemoryManager.Memory.CopyPage | mm/memory.c:5-6 | In place: the target frame becomes the source frame, all others unchanged |
| MemoryManager.Memory.ShareEntry | mm/memory.c:76-89 | In place: one turn of the inner loop computes the pure `CopyEntry`, which `PagingShare.ShareEntry` states bit by bit |
| MemoryManager.Memory.CopyTable | mm/memory.c:75-90 | In place: the inner loop computes `CopyEntries` |
| MemoryManager.Memory.CopyOneDir | mm/memory.c:56-90 | In place: one turn of the outer loop, with its panic |
| MemoryManager.Memory.CopyPageTables | mm/memory.c:30-94 | In place: `copy_page_tables` computes the pure function the refinement is about, panics exactly when it does |
| MemoryManager.Memory.UnWpPage | mm/memory.c:110-130 | In place: both branches compute the pure `UnWpPage`, which `UnWpStep` states bit by bit |
| MemoryManager.Memory.DoWpPage | mm/memory.c:98-108 | In place: the walk resolves the entry of the faulting address |
| MemoryManager.Memory.UnWpAddress | kernel/fork.c:106-106 | In place: `un_wp_page(lin2phy(address))` |
| MemoryManager.Memory.CopyProcess | kernel/fork.c:49-106 | In place: task structure, window and stack page as one fork step |
| WaitQueue.WaitListExact | kernel/sched.c:151-181 | From a state without sleepers, after every interleaving, walking `*p` and the saved `tmp` values meets exactly the sleepers of each queue, each once |
| WaitQueue.ChainsOverRuns | kernel/sched.c:151-204 | The chains of all queues are kept over every run |
| WaitQueue.ChainIsWalk | kernel/sched.c:161-162 | The chain is what walking the pointers finds, and its members are exactly the sleepers |
| WaitQueue.SleepPushes | kernel/sched.c:161-164 | Going to sleep puts the task in front of its queue's chain and leaves other queues alone; what happens to the states is `StepStates` |
| WaitQueue.ResumePops | kernel/sched.c:170-180 | A resumed task leaves from the front or leaves every chain as it is |
| WaitQueue.NeverWarns | kernel/sched.c:175-177 | The NULL warning is unreachable |
| Sleepers.StepStates | kernel/sched.c:161-204 | The state of every task after every event: going to sleep sets exactly the sleeper's state to the given one; a task that resumes behind the head sets the head running and itself uninterruptible, one that leaves sets its saved `tmp` running; a wake-up sets the head running; nobody else's state changes |
| Sleepers.SleepersAreStill | kernel/sched.c:151-204 | Over every run in which nobody goes to sleep in state TASK_RUNNING, a sleeper is runnable if and only if a wake-up, a poke or a hand-over has reached it since it last went (or went back) to sleep |
| WaitQueue.DrainStep | kernel/sched.c:170-180 | With no new sleepers every resumption of a waiter uses up one unit of potential (length plus runnable waiters behind the head), a live chain stays live, and only a poke adds a unit |
| WaitQueue.Drains | README.MD:365-365 | Once any waiter, head or not, is runnable and nobody new arrives, under every schedule the queue is empty after at most Potential (plus pokes) resumptions, and until then some waiter is runnable |
| DrainTime.DrainsInTime | kernel/sched.c:118-181 | Once a waiter is runnable and nobody new arrives, 64 calls of `schedule` for each unit of potential and each poke empty the queue, whatever tasks do between the calls |
| DrainTime.CallCounts | kernel/sched.c:118-181 | A call of `schedule` resumes a waiter, or brings a runnable one nearer |
| KernelMutex.MutexSafety | kernel/sched.c:14-26 | Over every run in which only holders unlock, at most one task holds a mutex, and a free mutex with waiters has a runnable waiter or an unlock between its two statements |
| KernelMutex.InvOverRuns | kernel/sched.c:14-26 | The mutex invariant holds over every run |
| KernelMutex.StepKeepsInv | kernel/sched.c:14-26 | Every step keeps exact chains, "locked exactly when held by one task" and no lost wakeup |
| KernelMutex.StepLosesNoWakeup | kernel/sched.c:23-26 | No step loses a wakeup, also between the two statements of an unlock |
| KernelMutex.FreeMutexIsTaken | kernel/sched.c:16-19 | A resumption at a free mutex takes it, or leaves the head runnable with one runnable waiter fewer behind it |
| KernelMutex.LockedStops | kernel/sched.c:14-21 | `sys_klock` on a locked mutex, or a waiter that finds it locked again, leaves the task asleep and uninterruptible; nobody else's state changes but that of the next in line |
| KernelMutex.FreeRunIsShort | kernel/sched.c:14-26 | Over every run in which a mutex stays free its waiters are resumed at most as often as there are runnable ones behind the head, plus pokes: one resumption more and somebody has taken it |
| KernelMutex.FreeStep | kernel/sched.c:14-26 | A step that leaves the mutex free keeps its list, and a resumption uses up one runnable waiter behind the head |
| KernelMutex.UnlockSafeIff | kernel/sched.c:23-24 | `sys_kunlock` checks no owner: "locked exactly when held" survives if and only if no other task holds the mutex |
| KernelMutex.StrayUnlockBreaksExclusion | kernel/sched.c:14-26 | A stray unlock followed by a lock gives the mutex two owners |
| RoundRobin.ScanFindsFirst | kernel/sched.c:127-135 | The scan stops at the first runnable slot, at the current one only when no other is runnable |
| RoundRobin.NextIsFirst | kernel/sched.c:118-136 | `schedule` picks the runnable task nearest after the current one; it stays exactly when there is no other |
| RoundRobin.ResumesRunnable | kernel/sched.c:118-136 | While task 0 is runnable, a call by any other task switches, and to a runnable task |
| RoundRobin.BoundedWait | kernel/sched.c:118-136 | A task runnable at every call is current after at most (its slot - current slot) mod 64 calls, whatever the others do |
| Scheduler.Kernel.Schedule | kernel/sched.c:118-136 | In place: both loops terminate and switch to that task |
| Scheduler.Kernel.GoToSleep | kernel/sched.c:158-164 | In place: `__sleep_on` up to `schedule`; task 0 panics; the task's state is set as `StepStates` says |
| Scheduler.Kernel.Resume | kernel/sched.c:170-180 | In place: what follows `schedule`, with its retry and its warning |
| Scheduler.Kernel.WakeUp | kernel/sched.c:194-204 | In place: the head becomes runnable, nothing else changes |
| Scheduler.Kernel.TryLock | kernel/sched.c:14-21 | In place: take a free mutex or go to sleep; task 0 panics at a locked one |
| Scheduler.Kernel.ResumeLock | kernel/sched.c:16-19 | In place: a waiter resumes and tests the lock again |
| Scheduler.Kernel.Unlock | kernel/sched.c:24-24 | In place: first statement of `sys_kunlock` |
| Scheduler.Kernel.FinishUnlock | kernel/sched.c:25-25 | In place: second statement of `sys_kunlock` |
| BufferRequests.OneBufferPerBlock | fs/buffer.c:115-191 | Over every interleaving no two buffers are bound to one block; and if no block is asked for 256 times, all tasks that asked for a block were given the same buffer, and it is still bound to it |
| BufferRequests.CountWraps | fs/buffer.c:124-124 | The bound is tight: a run of 256 requests for one block wraps the count to 0, and the next miss rebinds the buffer under all 256 holders |
| BufferRequests.ServedOverRuns | fs/buffer.c:115-191 | With fewer than 256 requests for every block, all waited-for and given buffers keep their blocks over every run |
| BufferRequests.AskedStep | fs/buffer.c:115-191 | Only a new request adds to a block's requests |
| BufferProtocol.InvOverRuns | fs/buffer.c:115-191 | The protocol invariant holds over every run, counts wrapping freely, and no run is cut short by an ill-formed state |
| BufferProtocol.InvIsWellformed | fs/buffer.c:118-131 | Under the invariant every place refers to a buffer, so every possible event can be taken |
| BufferProtocol.StepKeepsInv | fs/buffer.c:115-191 | Every step keeps it: ring a permutation, bindings unique, each byte count the number of users modulo 256 |
| BufferProtocol.StepKeepsServed | fs/buffer.c:118-131 | While no buffer has 256 users, everyone keeps the block asked for |
| BufferProtocol.InUseIsNeverRebound | fs/buffer.c:168-190 | A buffer whose users are no multiple of 256 keeps its device and block through every step of every task; the count shows 0 exactly at multiples of 256 |
| BufferProtocol.RecheckSucceeds | fs/buffer.c:126-131 | The recheck after waiting for a found buffer succeeds exactly if the buffer is still bound to the block, which it is while everybody is served |
| BufferProtocol.VictimIsBest | fs/buffer.c:147-162 | No victim exactly when all buffers are in use, else the earliest unused buffer of least badness |
| BufferAnswers.VictimPreference | fs/buffer.c:147-162 | The victim is unused; it is dirty only if every unused buffer is, and locked only if every equally dirty one is |
| BufferAnswers.PassMeans | fs/buffer.c:138-191 | What a pass from `repeat` does, on the headers: a bound buffer gets one more user and is returned, or waited for if locked; with all buffers in use the task waits for any; else the best unused buffer is waited for if locked, tried again if dirty, and returned otherwise; only a returned buffer changes the cache |
| BufferAnswers.WokenMeans | fs/buffer.c:168-181 | After a wait for a victim: wait on if locked; start again, nothing changed, if it is in use or dirty or the block has come in meanwhile; else it is returned |
| BufferAnswers.FoundMeans | fs/buffer.c:124-131 | After a wait for a found buffer: wait on if locked, return it if it still holds the block, else give its use back and start again |
| BufferAnswers.RebindingIsSafe | fs/buffer.c:169-190 | No data is lost: over every interleaving a buffer whose binding changes in a step was unused, clean and unlocked before it, and afterwards is in use once, clean and not up to date, returned to the task that ran |
| BufferAnswers.FlagsStay | fs/buffer.c:124-191 | A buffer that keeps its binding keeps its lock, dirty and update flags through every turn of every task |
| BufferAnswers.ReturnedIsUnlocked | fs/buffer.c:124-191 | A buffer returned by a hit or a miss is bound to the block asked for and unlocked |
| BufferAnswers.CleanBufferSuffices | fs/buffer.c:147-191 | A miss with a clean, unlocked, unused buffer returns in one pass without sleeping |
| BufferAnswers.RingOrder | fs/buffer.c:182-190 | A hit leaves the ring order alone; a completed miss cuts the victim out of its position and puts it last, all others in their order; a miss that waits or retries changes nothing. The pointer side is `ReboundStep` |
| BufferLinks.RemoveStep | fs/buffer.c:52-76 | `remove_from_queues` takes a header out of ring and chain, whether head, inner or only element, and leaves all other lists well formed |
| BufferLinks.InsertStep | fs/buffer.c:78-101 | `insert_into_queues` puts a detached header at the end of the ring and at the front of its bucket's chain, an unbound one on no chain |
| BufferLinks.ReboundStep | fs/buffer.c:182-190 | Unlinking, binding and relinking the victim in the pointers is `Rebind` of the abstract cache |
| BufferLinks.UnlinkRingStep | fs/buffer.c:69-75 | The ring of at least two becomes the ring without the element, the list head moved on if needed |
| BufferLinks.LinkRingStep | fs/buffer.c:80-84 | A ring r becomes r + [b] |
| BufferLinks.LonelyRing | fs/buffer.c:69-84 | On a ring of one, unlinking and linking change nothing |
| BufferLinks.HashRemoved | fs/buffer.c:54-62 | The chain loses exactly the header; all other chains and the index of all other headers stay exact |
| BufferLinks.HashInserted | fs/buffer.c:86-100 | The chain gains the header in front, with mutually inverse links, and every header is indexed |
| BufferLinks.BoundIsOnChain | fs/buffer.c:104-112 | A bound header is on the chain its device and block hash to |
| BufferLinks.XorBit | fs/buffer.c:21-23 | A bit of the hashed value is set where exactly one of device and block has it |
| BufferLinks.HashIsRemainder | fs/buffer.c:21-24 | The bucket is the remainder of that value modulo 307 |
| BufferLinks.FindIsThe | fs/buffer.c:104-112 | With unique bindings the linear search finds the one bound header |
| BufferLinks.RingIsPermutation | fs/buffer.c:64-84 | The ring holds every header exactly once |
| BufferIndex.IndexAgrees | fs/buffer.c:104-112 | From `buffer_init` on, after any sequence of bindings and changes of counts and flags, walking the hash chain and searching all headers agree, bindings are unique and the ring holds every header once |
| BufferIndex.LinksOverRuns | fs/buffer.c:52-101 | Ring, chains and unique bindings are kept over every such sequence, and the pointers follow the abstract cache |
| BufferIndex.LookupIsFind | fs/buffer.c:104-112 | The chain walk equals the linear search |
| BufferCache.Buffers.constructor | fs/buffer.c:200-242 | `buffer_init` establishes the representation invariant and unique bindings: ring in header order, all unused, empty hash table |
| BufferCache.Buffers.RemoveFromQueues | fs/buffer.c:52-76 | In place: computes `Removed` |
| BufferCache.Buffers.InsertIntoQueues | fs/buffer.c:78-101 | In place: computes `Inserted` |
| BufferCache.Buffers.FindBuffer | fs/buffer.c:104-112 | The chain walk returns a header bound to the block, NULL exactly when there is none, and agrees with linear search over all headers |
| BufferCache.Buffers.ScanRing | fs/buffer.c:147-162 | The do-while scan yields the victim of the protocol; the headers it looks at are a prefix of the ring, each once, the whole ring unless it stops at a clean victim |
| BufferCache.Buffers.BindVictim | fs/buffer.c:182-190 | In place: the representation invariant is kept and the abstract cache is rebound |
| BufferCache.Buffers.TakeVictim | fs/buffer.c:169-191 | In place: the protocol's step after waiting for a victim, which `WokenMeans` spells out, bindings kept unique |
| BufferCache.Buffers.TakeHit | fs/buffer.c:124-130 | In place: the protocol's step after waiting for a found buffer, which `FoundMeans` spells out, bindings kept unique |
| BufferCache.Buffers.Attempt | fs/buffer.c:138-191 | In place: `getblk` from `repeat` to its next sleep, `repeat` or return is the protocol's step, which `PassMeans` spells out, and keeps representation and unique bindings |
| BufferCache.Buffers.ChangeFlags | include/linux/fs.h:103-109 | In place: lock, dirty and update flags change at any time without touching lists or bindings |
| BufferInit.Layout | fs/buffer.c:200-232 | For every start and end the data blocks are pairwise disjoint, clear of every header and below the end; they avoid [0xa0000, 0x100000) if and only if `HoleIsClear`: the end is outside the hole and aligned above it, or memory runs out before the block that would reach into it |
| BufferInit.UsesAllMemory | fs/buffer.c:200-232 | For every start and end the first block ends at the end (at 0xa0000 if that is 0x100000), each further one 1024 below the one before (below 0xa0000 after the one at 0x100000), and after the last there is no room for one more header of 36 bytes and block |
| BufferInit.BlocksFill | fs/buffer.c:212-232 | The same for the loop from any top and any number of headers |
| BufferInit.HeadersAvoidHole | fs/buffer.c:212-232 | All headers end below 0xa0000 if and only if those of the blocks above 1 MB do |
| BufferInit.BlocksDescend | fs/buffer.c:212-232 | Blocks descend without overlap and clear all headers |
| BufferInit.HoleIff | fs/buffer.c:212-232 | The same for the loop from any top and any number of headers |
| BufferInit.Fill | fs/buffer.c:212-237 | The fill loop makes one unused header for each block of the layout that `UsesAllMemory` states address by address, and joins them into the ring |
| BufferInit.FreshCache | fs/buffer.c:234-241 | The result represents an empty cache |
| ProcessTable.SomeCandidateIsFree | kernel/fork.c:151-165 | Pigeonhole: at most 128 consecutive candidates can be taken, so the search ends from every task table |
| ProcessTable.CandidatesDiffer | kernel/fork.c:155-157 | Candidates less than 2^31 - 1 apart differ, across the wrap to 1 |
| ProcessTable.FreshPid | kernel/fork.c:151-165 | The pid found is positive and nobody's pid or process group |
| ProcessTable.FirstEmpty | kernel/fork.c:166-170 | The first empty slot from 1 on, or -EAGAIN exactly when there is none |
| ProcessTable.ForksKeepFamily | kernel/fork.c:131-138 | Over every run of forks pids stay pairwise distinct and the family pointers describe one tree |
| ProcessTable.FamilyGrows | kernel/fork.c:131-138 | Adding a child puts it first in its parent's list and keeps every list exact, youngest first, with `p_ysptr` the inverse of `p_osptr` |
| ProcessTable.AddChildFields | kernel/fork.c:54-66 | The child has the fresh pid, its parent's process group, no children and the parent's youngest child as older sibling; only that sibling's, the parent's and the child's own entries change |
| ProcessTable.PidsStayDistinct | kernel/fork.c:54-58 | A child with a fresh pid keeps pids distinct |
| ProcessTable.KidsAreTheChildren | kernel/fork.c:131-138 | A parent's list holds exactly the tasks whose parent pointer names it |
| ProcessTable.AncestorsLeadToTask0 | kernel/fork.c:131-131 | Parent pointers are acyclic but for task 0: from every task they lead there |
| ProcessTable.InitialFamily | include/linux/sched.h:215-215 | `INIT_TASK` alone satisfies the invariant |
| ProcessTable.Processes.FindEmptyProcess | kernel/fork.c:151-171 | In place: the goto loop terminates with that pid in `last_pid`, and the slot search follows |
| ProcessTable.Processes.LastPidTaken | kernel/fork.c:158-164 | The rejection loop finds whether some task has the pid as pid or group |
| ProcessTable.Processes.FirstEmptySlot | kernel/fork.c:166-170 | The slot loop finds the first empty slot |
| ProcessTable.Processes.AddToFamily | kernel/fork.c:131-138 | In place: links the child into its family as `AddChild` says |
| Segments.BaseRoundTrip | kernel/sched.c:57-70 | `get_base` reads back what `set_base` wrote; limit and attribute bits are untouched |
| Segments.BaseFields | kernel/sched.c:64-70 | `set_base` puts bytes 0 and 1 of the base in the upper half of the first word, byte 2 lowest and byte 3 highest in the second |
| Segments.LimitIsInherited | kernel/fork.c:18-33 | After any line of forks a descriptor has the limit and attribute bits it began with and the base last written |
| Segments.CopyMemNeverPanics | kernel/fork.c:18-27 | In every descendant of `INIT_TASK` the code and data descriptors have one base and the limit 640 KB: neither panic of `copy_mem` is reached |
| Segments.WindowsAreDisjoint | kernel/fork.c:29-33 | The sixteen directory entries of a slot serve its addresses and no other slot's |
| Segments.Descriptor.SetBase | kernel/sched.c:64-70 | In place: the three masked assignments |
| Printer.ParseRender | kernel/vsprintf.c:55-131 | Round trip: for every 32-bit value, base 2 to 36, width, precision and flag set, reading the output gives the value back, signed or unsigned as printed |
| Printer.RenderLength | kernel/vsprintf.c:55-131 | The output has exactly max(width, sign + prefix + max(precision, digits)) characters |
| Printer.AtMost32Digits | kernel/vsprintf.c:58-95 | At most 32 of the 36 slots of `tmp` are used |
| Printer.Number | kernel/vsprintf.c:55-131 | On 32-bit width and precision the loops of `number` write that text; a base out of range gives none; the result is undefined exactly when the padding counter leaves 32 bits |
| Printer.CounterFitsWidely | kernel/vsprintf.c:78-129 | That needs a precision within 6 of 2^31 or a width below -1 |
| Printer.FillDigits | kernel/vsprintf.c:88-95 | In place: the `do_div` loop leaves the digits in `tmp`, least significant first |
| Printer.Emit | kernel/vsprintf.c:99-129 | The six writing loops put padding, sign, prefix, zeros and digits in the order the flags ask for |
| Printer.Pad | kernel/vsprintf.c:101-103 | A padding loop writes max(size, 0) characters and leaves the counter below 0 or one lower |
| Printer.SkipAtoi | kernel/vsprintf.c:13-21 | The leading digits as a 32-bit int, wrapping, and the cursor moved past exactly them |
| Printer.AtoiReadsDigits | kernel/vsprintf.c:13-21 | The digits of n in base ten followed by a non-digit read as n |
| Printer.DecimalWraps | kernel/vsprintf.c:17-19 | Wrapping at every digit equals wrapping once at the end |
| Formatter.FormatIsMeaning | kernel/vsprintf.c:141-284 | For every sequence of characters, `%%` and conversion specifications, `*` included, and all arguments, the output for their spelling is what they mean, each conversion taking the next argument; one with a `*` shows `%*` and its own leftover, as the code does |
| Conversions.NumberShown | kernel/vsprintf.c:235-263 | Every number conversion with all flags, widths, precisions and qualifiers: base 8 for `o`, 16 for `x`, `X` and `p`, 10 for `u`, `d` and `i`; `d` and `i` signed, the others unsigned; small letters for `x` only; `+` and blank put that sign, `#` the prefix 0, 0x or 0X; blanks fill the width in front, behind with `-`, and `0` fills it with zeros instead; zeros fill the precision; no other leading zeros |
| Conversions.PlainNumber | kernel/vsprintf.c:235-263 | Without flags, width and precision: a minus sign for a negative `%d` or `%i`, and digits that read back as the value in the conversion's own base |
| Conversions.AllFlagsMean | kernel/vsprintf.c:162-172 | Each flag character sets its own flag and no other, in any order and number |
| Conversions.CharShown | kernel/vsprintf.c:209-216 | `%c` shows the character whose code is the low byte, blanks in front up to the width, or behind with `-` |
| Conversions.StringShown | kernel/vsprintf.c:218-233 | `%s` shows the string cut to the precision (to nothing by a lone dot), with the same blanks |
| Conversions.CountShown | kernel/vsprintf.c:265-268 | `%n` shows nothing and stores the number of characters written before it; later counts include them |
| Conversions.UnknownShown | kernel/vsprintf.c:270-279 | Any other character after `%` is shown with the `%`, and no argument is taken |
| Conversions.PercentAtEnd | kernel/vsprintf.c:270-279 | A format that ends after `%` shows the `%` |
| Formatter.DirectiveBack | kernel/vsprintf.c:162-206 | A spelled specification without `*` is read as its own flags, width, precision and kind, the qualifier skipped |
| Formatter.ReadAsItselfIff | kernel/vsprintf.c:174-206 | A specification is read up to its own conversion character if and only if neither its width nor its precision is a `*` |
| Formatter.StarWidthShown | kernel/vsprintf.c:178-185 | A `*` width, whatever follows, takes an argument, shows `%*` and leaves what follows as plain format |
| Formatter.StarPrecisionShown | kernel/vsprintf.c:193-196 | The same for a `*` precision after an optional width |
| Formatter.StarItem | kernel/vsprintf.c:178-196 | The output of every specification with a `*` |
| Formatter.NumberBack | kernel/vsprintf.c:174-177 | A width or precision below 2^31 is read as itself |
| Formatter.Vsprintf | kernel/vsprintf.c:141-284 | The loop writes the text of `Format`, stores its counts and returns its length, also for formats no specification spells |
| Formatter.VsprintfInto | kernel/vsprintf.c:141-284 | In place: the loop writes that text and a NUL into the buffer, touches nothing behind them, stores the `%n` counts and returns the length |
| Formatter.TakeDirective | kernel/vsprintf.c:162-206 | The cursor code from `%` to the conversion character reads the directive |
| Formatter.ShowAt | kernel/vsprintf.c:208-280 | From the conversion character on: text added, cursor and argument position after it, unknown conversions and a format that ends early included |
| Formatter.Convert | kernel/vsprintf.c:208-268 | The switch on the conversion character, the store of `%n` included; what each character shows is stated by `Conversions.NumberShown`, `CharShown`, `StringShown` and `CountShown` |
| Formatter.ConvertString | kernel/vsprintf.c:218-233 | A string cut to the precision and padded to the width on the side the flags ask for |
| Formatter.ConvertChar | kernel/vsprintf.c:209-216 | A character padded to the width |
| Formatter.PadTo | kernel/vsprintf.c:227-228 | The padding loop of `%s` writes max(width - len, 0) blanks and leaves the counter one below where it stopped |
| Formatter.PadBefore | kernel/vsprintf.c:211-212 | The padding loop of `%c` writes max(width - 1, 0) blanks |

## Where the code falls short of a law

* `get_free_page` without a free page (`mm/swap.c:15-19`): `OutOfFrames` is the failing input, `EighteenTasks` a bound below
  which it never occurs. The comment above the function promises 0, which it never returns.
* 256 requests for one block wrap its `b_count` to 0, and the buffer is taken from its holders: `CountWraps`, and
  `OneBufferPerBlock` for one request fewer.
* Slot 0's low pages are shared without protection: `LowPageLeak` is the exact condition and `LowPageLeaks` the input.
* The first page of a child of slot 0 is the page directory itself (`ChildMapsLowPages`), so later forks show in it:
  `FirstPageInherited` and `FirstPageStable` are the exact conditions, and the directory is always hot in `RunRefines`.
* `buffer_init` with an end that is not aligned, or lies inside video memory, can hand out blocks there: `Layout`.
* `sys_kunlock` by a task that does not hold the mutex: `UnlockSafeIff`, `StrayUnlockBreaksExclusion`.
* A `*` width or precision takes an argument but the format pointer stays at the `*`, which is then taken for the
  conversion (`kernel/vsprintf.c:178-185`, `193-196`): `StarWidthShown`, `StarPrecisionShown`, and `ReadAsItselfIff` for the
  exact condition.
* `remove_from_queues` tests `b_prev_free` twice (`fs/buffer.c:65`); with a well-formed ring neither pointer is NULL, so the
  panic is not part of the model.

## Left out

- CopyOnWrite.RunRefines: says nothing of a page while it shows a hot frame, because `FirstPageInherited`, `FirstPageStable` and `LowPageLeak` show that it changes; which low frames hold kernel variables is a parameter, and the kernel's stores to them are not tied to the code that makes them.
- WaitQueue.WaitListExact: does not model a NULL queue address, TASK_STOPPED and TASK_ZOMBIE, which no code sets.
- BufferAnswers.CleanBufferSuffices: promises progress only with a clean candidate, because a dirty victim makes `getblk` retry with no write-back.
- BufferCache.Buffers.Attempt: the sleeps are states of the protocol and are not tied to the `WaitQueue` module.
- Formatter.Vsprintf: formats and string arguments contain no NUL; arguments of the wrong kind, missing arguments and overflowing counters give no output, since C leaves them undefined.
- Printer.Number: no conformance to section 7.19.6.1 of ISO C99 is claimed: zero with precision 0 and the 0 flag with a precision are handled differently by the code.
- The result of `copy_page_tables`, which `copy_mem` ignores; the file and inode counts, registers, TSS and FPU image that `copy_process` fills in.
- The TLB, supervisor stores that bypass write protection, gates, descriptors of the GDT.
- Signals, task exit (a stub: slots are never freed), `sys_pause`.
- The block driver, the elevator order, the serial log buffer, `printk`, the string routines in assembly, the image builder.
