# Verified models of the VeaOS kernel

VeaOS is an NT-style 32-bit kernel. This project models the parts of it that are state machines over linked
structures and shared words, and proves what they keep. `dafny verify dfyconfig.toml` checks everything. A module
follows one component of the kernel; values and their lemmas stand beside the classes whose methods do in place what
the kernel does in place.

- **Pool allocator** (`PoolHeap`, `PoolHistory`, `PoolLists`, `BigPageTable`, `UlPool`, `Sums`). Boundary-tag blocks in
  pages, segregated free lists, splitting, two-sided coalescing, page release, and the open-addressing table of big
  allocations. `PoolHeap` says what a heap is and what each operation does to its live blocks; `PoolHistory` shows that the
  heap depends on the live blocks alone; `UlPool.Pool` is the allocator itself with its lists, headers, table and counters.
- **Guarded mutex** (`GuardedMutex`). One interlocked operation is one step; any number of threads; every interleaving.
- **Dispatcher** (`DispatcherState`, `DispatcherKinds`, `Dispatcher`, `DispatcherRuns`). Events, semaphores, mutants and
  timers, waits for any or all of several objects, and the single pass that releases waiters; `DispatcherKinds` says what a
  pass means for each kind of object and in which order waiters are served, `DispatcherRuns` what runs of calls conserve.
- **Physical frames** (`FrameLists`, `FrameDatabase`). Frame lists threaded through an array, reference counts, contiguous
  runs, locking and zeroing.
- **Kernel virtual ranges** (`AvlTree`, `VirtualRanges`). The balanced tree of ranges and first fit over it.
- **VeaKey hive** (`VeaKeyStore`, `VeaKeyNames`, `VeaKeyBins`, `VeaKeyHive`, `VeaKeyRuns`). Keys and values as cells in bins,
  chained by offset; `VeaKeyNames` says what comparing and walking names comes to, `VeaKeyRuns` what sequences of calls add
  up to.
- **Object namespace** (`Namespace`, `NamespaceAnswers`, `ObjectManager`). Directories, symbolic links, name lookup with
  reparse, name printing; `NamespaceAnswers` says what lookups answer without following their steps.
- **Timers, scheduler, access check** (`Timers`, `Scheduler`, `AccessCheck`).

What the outside decides is a parameter: how many pages the pool or the virtual allocator can supply, the current time,
the time between ticks, the answers of foreign parse routines. Constants are those of the kernel's headers
(`sdk/include/ndk`).

Results about the code that its comments do not say:

- `KsReleaseGuardedMutex` (veakrnl/ks/gmutex.c:64) signals without comparing with the expected word. That step keeps the
  protocol's invariant exactly when the word found is the expected one or zero (`GuardedMutex.LooseHandSafe`). Mutual
  exclusion survives it in every run (`GuardedMutex.MixedExclusion`); wake-ups do not: a run of three threads leaves one
  asleep on a free mutex, and nothing can wake it again (`GuardedMutex.LooseLosesWakeup`, `GuardedMutex.LostForever`). The
  results on wake-ups are about the release at lines 89-111.
- A value whose name is empty can be set but never read back (`VeaKeyRuns.SetThenQuery`): the lookup refuses an empty name
  (veakrnl/vk/vkmgr.c:116) and the setter does not.
- The limit check at veakrnl/mm/virt.c:217 is right exactly when its 32-bit sum does not wrap (`VirtualRanges.AcceptedOK`).
  Two calls from an empty tree are enough to make it wrap and to place a range above the limit
  (`VirtualRanges.TwoAllocations`).
- `VkpAllocateStableCell` ignores the status at veakrnl/vk/vkobject.c:823. A cell handed out then keeps the layout of the
  hive exactly when it ends inside the last bin (`VeaKeyBins.PlaceStableExactly`,
  `VeaKeyHive.Hive.AllocateStableCell`); two writes to an almost empty hive are enough to get one that does not
  (`VeaKeyRuns.OverrunReached`).
- A lookup never leaves a symbolic link exactly when its text is relative and the caller gave no starting directory or gave
  the link itself (`Namespace.LinkLeft`); then it ends with the reparse limit (`Namespace.RelativeLinkLoops`).
- A link met behind another link is replaced inside the buffer that still holds the rest of the name. That is right for
  every rest exactly when the text, with the slash, fits in front of it (`Namespace.LaterLinkRight`). With a link a to
  `"/x"` and a link x to `"/yz"`, the name `"/x/r"` is looked up rightly, but `"/a/r"` leads to the directory yz instead of
  its entry r (`Namespace.LaterLinkSpoilt`).
- A lookup for an object of any type can still end with a type mismatch: exactly when it stops at an object that is no
  directory and has no parse routine (veakrnl/ob/obdirectory.c:1035), as `"/x/y"` does with x such an object
  (`NamespaceAnswers.UntypedMismatch`, `NamespaceAnswers.MismatchWithoutType`). It never does exactly in a namespace without
  such objects (`NamespaceAnswers.NoMismatchExactly`).
- A semaphore release by zero breaks the dispatcher exactly when the count is zero and somebody waits for any
  (`DispatcherState.ZeroReleaseBreaks`, `DispatcherState.ZeroReleaseFails`).
- Waking a wait for any of several objects breaks it exactly when another object of the wait is a mutant
  (`DispatcherState.WakeAssignsAll`, `DispatcherState.MutantTakenAway`), and a whole pass breaks it exactly when it wakes
  such a wait (`DispatcherState.PassAssignsAll`).
- `MmProbeAndLockPages` references frames without looking at their state. Unlocking restores the database exactly when
  somebody held the frame: a reserved frame ends up on the free list, and a free one is listed twice, which makes the list
  a circle (`FrameDatabase.Database.LockUnlock`).
- A pool request for zero bytes asks for a block of one unit, which leaves the heap consistent exactly when it is served
  from a free block of two units (`PoolHeap.CarveOneUnit`).

## Model

| member | source | states |
|---|---|---|
| `PoolHeap.Ordered` | veakrnl/mm/ulpool.c:536-582 | Two blocks of one page never overlap: the one at the lower offset ends at or before the other. |
| `PoolHeap.Covered` | veakrnl/mm/ulpool.c:711-778 | Every unit of a pool page below its end marker lies in some block, found by walking from the page start. |
| `PoolHeap.TilesExactly` | veakrnl/mm/ulpool.c:536-582 | Each unit of a page lies in exactly one block: the blocks tile the page up to the end marker. |
| `PoolHeap.AddPageInv` | veakrnl/mm/ulpool.c:426-464 | A fresh page (one free block of 511 units tagged eerF and the end marker behind it) keeps the boundary-tag invariant of the whole heap and every live block. |
| `PoolHeap.CarveInv` | veakrnl/mm/ulpool.c:553-582 | Splitting a free block and handing its front out keeps the invariant: tags match, no two free neighbours, blocks of two units or more. |
| `PoolHeap.CarveLive` | veakrnl/mm/ulpool.c:553-582 | Carving adds exactly one live block of the requested size, or one unit more when the rest would be too small; all others stay. |
| `PoolHeap.CarveOneUnit` | veakrnl/mm/ulpool.c:536-582 | A request for no bytes, one unit, keeps the invariant exactly when it is served from a block of two units, which is handed out whole. |
| `PoolHeap.CoalesceInv` | veakrnl/mm/ulpool.c:711-760 | Merging a freed block with its free left and right neighbours keeps the invariant. |
| `PoolHeap.CoalesceLive` | veakrnl/mm/ulpool.c:711-760 | Merging removes exactly the freed block from the live blocks. |
| `PoolHeap.ReleaseInv` | veakrnl/mm/ulpool.c:711-778 | Freeing, with the page given back when it is wholly free, keeps the invariant. |
| `PoolHeap.ReleaseLive` | veakrnl/mm/ulpool.c:711-778 | Freeing removes exactly the freed block from the live blocks and changes no other. |
| `PoolHeap.ReleaseNoIdle` | veakrnl/mm/ulpool.c:762-778 | After a free no page without a live block stays mapped. |
| `PoolHeap.LiveDeterminesHeap` | veakrnl/mm/ulpool.c:711-778 | History independence: two settled heaps with the same live blocks have the same pages, blocks, sizes and boundary tags. |
| `PoolHistory.FreeOrderIrrelevant` | veakrnl/mm/ulpool.c:711-778 | Freeing a set of live blocks in any two orders ends with the same pages, the same blocks and the same sizes and neighbour sizes in every header. |
| `PoolHistory.FreeingAllUnmapsAll` | veakrnl/mm/ulpool.c:762-778 | Freeing every live block, in any order, unmaps every pool page. |
| `PoolHistory.AllocateSettles` | veakrnl/mm/ulpool.c:536-582 | An allocation, with a new page or without, ends settled again and adds exactly one live block. |
| `PoolHistory.FreeUndoesAllocate` | veakrnl/mm/ulpool.c:711-778 | Freeing a block that was just allocated restores pages, blocks and headers from before the allocation, new page included. |
| `PoolLists.RingSpells` | veakrnl/mm/ulpool.c:217-297 | From the list head the forward links lead through the entries in order and back to the head, the backward links through them in reverse. |
| `PoolLists.Splice` | veakrnl/mm/ulpool.c:271-297 | Relinking around a new entry turns the ring that spells a list into the ring that spells the list with the entry inserted. |
| `PoolLists.Unsplice` | veakrnl/mm/ulpool.c:217-241 | Relinking around an entry turns the ring into the ring without it. |
| `PoolLists.FreeLists.InsertTail` | veakrnl/mm/ulpool.c:271-283 | The entry goes last on its list; every other list is unchanged and all links still spell the lists. |
| `PoolLists.FreeLists.InsertHead` | veakrnl/mm/ulpool.c:285-297 | The entry goes first on its list; every other list is unchanged. |
| `PoolLists.FreeLists.RemoveHead` | veakrnl/mm/ulpool.c:243-259 | The first entry leaves its list; every other list is unchanged. |
| `PoolLists.FreeLists.RemoveEntry` | veakrnl/mm/ulpool.c:217-241 | The entry leaves its list wherever it is; every other list is unchanged. |
| `BigPageTable.ProbeMeets` | veakrnl/mm/ulpool.c:494-517 | Linear probing from any home slot meets every slot exactly once in 1024 steps. |
| `BigPageTable.InsertRepresents` | veakrnl/mm/ulpool.c:494-517 | Filling the first empty or tombstoned slot of the probe adds exactly that address to the map the table stands for. |
| `BigPageTable.RemoveRepresents` | veakrnl/mm/ulpool.c:600-650 | Tombstoning the entry removes exactly that address and leaves every other one findable. |
| `BigPageTable.Table.Insert` | veakrnl/mm/ulpool.c:494-517 | Refines map update; tracking fails exactly when all 1024 slots are live. |
| `BigPageTable.Table.Remove` | veakrnl/mm/ulpool.c:600-650 | Refines map lookup and removal: missing, wrong tag and removed are told apart exactly, with the recorded size, tag and pool. |
| `UlPool.PointerRoundTrip` | veakrnl/mm/ulpool.c:584-591 | The pointer of a small block is 8-aligned, never page aligned, and gives its header back, so small and big blocks are told apart. |
| `UlPool.UnitsSuffice` | veakrnl/mm/ulpool.c:482-486 | The rounded unit count holds the request with less than one unit to spare, and is at least two exactly when a byte or more is asked for. |
| `UlPool.UnitsIs` | veakrnl/mm/ulpool.c:482-502 | A request takes (bytes + 15) / 8 units, and goes to the lists exactly up to 4080 bytes. |
| `UlPool.ChecksPass` | veakrnl/mm/ulpool.c:299-348 | In a consistent pool the header check never stops the system. |
| `UlPool.CarveExact` | veakrnl/mm/ulpool.c:553-582 | After a carve the free list of size k holds exactly the free blocks of size k, for every k. |
| `UlPool.CoalesceExact` | veakrnl/mm/ulpool.c:711-760 | After a merge the free lists again hold exactly the free blocks of their sizes. |
| `UlPool.CarveAccounts` | veakrnl/mm/ulpool.c:560-582 | The byte counters equal the sum of live block sizes and live big allocations after an allocation. |
| `UlPool.ReleaseAccounts` | veakrnl/mm/ulpool.c:694-778 | The byte and page counters equal those sums after a free. |
| `UlPool.Pool.Expand` | veakrnl/mm/ulpool.c:426-464 | Adds one page as one free block at the tail of the largest list, or changes nothing. |
| `UlPool.Pool.FirstClass` | veakrnl/mm/ulpool.c:536-552 | Finds the smallest non-empty size class that is large enough. |
| `UlPool.Pool.Take` | veakrnl/mm/ulpool.c:553-582 | Serves the head of that class and puts the rest on the list of its own size. |
| `UlPool.Pool.AllocateSmall` | veakrnl/mm/ulpool.c:536-592 | Fails exactly when every adequate class is empty and no page can be had; otherwise serves the smallest adequate class first, and after a new page the retry always succeeds. |
| `UlPool.Pool.AllocateBig` | veakrnl/mm/ulpool.c:488-534 | Fails exactly when no range can be had or the table is full; otherwise records address, tag, pages and bytes. |
| `UlPool.Pool.Allocate` | veakrnl/mm/ulpool.c:468-592 | Never refused for its size up to 0xFFFFFFF0 bytes. Up to 4080 bytes it fails exactly when every class of (bytes + 15) / 8 units or more is empty and no page can be had, and gets a block of that many units or one more; above, exactly when there are no pages or no free slot. Every other allocation is unchanged. |
| `UlPool.Pool.FreeSmall` | veakrnl/mm/ulpool.c:668-778 | The argument checks stop the system in exactly the stated cases; otherwise the heap is the released one and one live block is gone. |
| `UlPool.Pool.FreeBig` | veakrnl/mm/ulpool.c:600-666 | Unknown addresses and wrong tags stop the system; otherwise exactly that entry is gone. |
| `UlPool.Pool.Free` | veakrnl/mm/ulpool.c:596-779 | A pointer is freed exactly when its block is live, not tagged as free, and the tag matches or is zero, a page address exactly when the table knows it under the tag; all other outcomes are told apart and change nothing. |
| `UlPool.AllocateThenFree` | veakrnl/mm/ulpool.c:468-779 | What an allocation returned is freed under its own tag, and all live blocks and big allocations are those from before. |
| `GuardedMutex.InitInv` | veakrnl/ks/gmutex.c:20-27 | The initial word satisfies the protocol invariant. |
| `GuardedMutex.InvStep` | veakrnl/ks/wait.c:379-422 | Every enabled interlocked step of any thread keeps the invariant: census of slow threads, gate, owner, hands, wake-up. |
| `GuardedMutex.CensusStep` | veakrnl/ks/wait.c:379-422 | Threads in the slow path number waiter count plus woken bit, and the woken bit is set exactly when one wake credit exists. |
| `GuardedMutex.GateStep` | veakrnl/ks/gate.c:31-104 | The gate queue holds exactly the threads asleep, and it is empty while the gate is open. |
| `GuardedMutex.ReachableInv` | veakrnl/ks/gmutex.c:75-132 | The invariant holds in every state any run can reach, for any number of threads. |
| `GuardedMutex.MutualExclusion` | veakrnl/ks/gmutex.c:75-132 | In every reachable state at most one thread is between taking the lock bit and giving it back, the bit is clear exactly when one is, and the holder is the owner. |
| `GuardedMutex.TakenWhenFree` | veakrnl/ks/gmutex.c:75-132 | A thread outside that tries gets the mutex exactly when no other thread has it; otherwise the one that tries once leaves everything as it was, and the other goes on to wait. |
| `GuardedMutex.FreeAgain` | veakrnl/ks/gmutex.c:89-111 | Giving the lock bit back always leaves the mutex with nobody. |
| `GuardedMutex.SignalsNeverMerge` | veakrnl/ks/gate.c:77-104 | A signaller never finds the gate open and is alone, so two wake-ups never become one. |
| `GuardedMutex.NoStuckWaiter` | veakrnl/ks/gmutex.c:89-111 | While a thread sleeps on the gate another thread is inside the protocol and awake: no wake-up is lost. |
| `GuardedMutex.NeverBlocked` | veakrnl/ks/gmutex.c:75-132 | Every thread that does not sleep always has a next step. |
| `GuardedMutex.LooseHandSafe` | veakrnl/ks/gmutex.c:48-71 | The release that signals without comparing keeps the invariant exactly when the word found is the expected one or zero. |
| `GuardedMutex.LooseLosesWakeup` | veakrnl/ks/gmutex.c:48-71 | The compare-less release loses a wake-up: a run ends with the mutex free, one thread asleep on the gate and nobody else inside the protocol. |
| `GuardedMutex.LostForever` | veakrnl/ks/gmutex.c:48-71 | From such a state no run of either release ever wakes that thread. |
| `GuardedMutex.MixedExclusion` | veakrnl/ks/gmutex.c:48-71 | With both releases in use, in any interleaving, at most one thread has the mutex and the holder is the owner. |
| `DispatcherState.MutantHeldOnce` | veakrnl/ks/mutant.c:81-125 | A mutant is unsignalled exactly when some thread holds it, and never two do. |
| `DispatcherState.SatisfyInv` | veakrnl/ks/wait.c:175-209 | Satisfying one waiter keeps signals in range, owners and mutant lists consistent, and the queues exact. |
| `DispatcherState.WaitTestQuiet` | veakrnl/ks/wait.c:213-248 | One FIFO pass over the signalled object leaves no thread waiting whose wait could be satisfied. |
| `DispatcherState.WaitTestConserves` | veakrnl/ks/wait.c:84-112 | In one pass the signal drops by exactly the number of satisfied waits that consumed it. |
| `DispatcherKinds.PassKeepsSignal` | veakrnl/ks/wait.c:18-21 | A pass leaves every notification event, thread and process exactly as it was, whoever it lets go. |
| `DispatcherKinds.PassLetsOneGo` | veakrnl/ks/wait.c:84-112 | A signalled synchronization event, timer or mutant lets at most one thread go, and is signalled afterwards exactly when it let none go. |
| `DispatcherKinds.OnlySatisfied` | veakrnl/ks/wait.c:130-171 | A pass lets only those go that wait for any, the object among theirs, or for all with every one signalled. |
| `DispatcherKinds.FirstServed` | veakrnl/ks/wait.c:213-248 | The first waiter on the list whose wait can be satisfied is let go. |
| `DispatcherKinds.NotOvertaken` | veakrnl/ks/wait.c:213-248 | First come, first served: of two waiters on the list, the one behind is let go only after one in front that waits for any. |
| `DispatcherKinds.InOrder` | veakrnl/ks/wait.c:213-248 | In front of the one thread that an event, timer or mutant lets go stand only threads that wait for all and lack another object. |
| `DispatcherKinds.TakenOwned` | veakrnl/ks/wait.c:116-126 | A thread that a pass lets go owns the mutants it waited for, and a mutant nobody took keeps its owner. |
| `DispatcherState.ZeroReleaseBreaks` | veakrnl/ks/semaphore.c:54-80 | A release by zero keeps the dispatcher consistent exactly when the count is positive or nobody queued on the semaphore waits for any; then it changes nothing. |
| `DispatcherState.ZeroReleaseFails` | veakrnl/ks/semaphore.c:54-80 | A consistent, quiet dispatcher with one thread blocked on an empty semaphore: a release by zero lets it through and breaks the invariant. |
| `DispatcherState.SweepIsWaitTest` | veakrnl/ks/wait.c:213-248 | On a signalled object the loop as written, which looks at the signal only behind a satisfied wait, is the specified pass. |
| `DispatcherState.WakeAssignsAll` | veakrnl/ks/wait.c:202-203 | Waking a wait-any keeps signals, owners and mutant lists consistent exactly when no object of the wait but the signalled one is a mutant. |
| `DispatcherState.PassAssignsAll` | veakrnl/ks/wait.c:202-248 | A whole pass from any consistent dispatcher leaves signals, owners and mutant lists consistent exactly when no thread it woke waited for any with another mutant among its objects. |
| `DispatcherState.MutantTakenAway` | veakrnl/ks/wait.c:202-203 | A thread waits for an event or a mutant that another thread holds: setting the event takes the mutant away and puts it on both threads' lists. |
| `Dispatcher.AddLongTests` | veakrnl/ks/semaphore.c:56-66 | The two comparisons of the wrapped sum refuse exactly negative adjustments and sums above the limit, for every LONG adjustment. |
| `Dispatcher.PassBooks` | veakrnl/ks/wait.c:213-248 | Charged with the waits that a pass satisfied, the books still balance: the count is initial plus released minus satisfied. |
| `Dispatcher.KernelDispatcher.SatisfyThread` | veakrnl/ks/wait.c:175-209 | Consumes, assigns and unblocks exactly as the specification of one satisfied wait. |
| `Dispatcher.KernelDispatcher.RunWaitTest` | veakrnl/ks/wait.c:213-248 | The loop over the wait list computes the specified pass. |
| `Dispatcher.KernelDispatcher.Wait` | veakrnl/ks/wait.c:267-375 | Satisfied at once exactly when any (the lowest index is taken) or all of up to three objects have a positive signal: synchronization events, timers, semaphores and mutants it takes lose one, mutants become its own, notification events, threads and processes keep theirs. Else queued behind every list; the dispatcher stays valid exactly unless the thread blocks for any of several objects with a mutant among them. |
| `Dispatcher.KernelDispatcher.SetEvent` | veakrnl/ks/event.c:63-109 | A notification event ends signalled, and nobody who waits for it is left but those who wait for all and lack another object; a synchronization event lets at most one thread go, the first on the list that can, and ends signalled exactly when it let none go. Nobody goes on whose wait is not satisfied; the ledger gains exactly the waits that ended. |
| `Dispatcher.KernelDispatcher.ResetEvent` | veakrnl/ks/event.c:43-59 | Clears the signal and returns the previous state. |
| `Dispatcher.KernelDispatcher.SignalTimer` | veakrnl/ks/time.c:251-255 | A timer that goes off lets at most one thread go, the first on the list that can, and stays signalled exactly when it let none go; the ledger gains exactly the waits that ended. |
| `Dispatcher.KernelDispatcher.ReleaseSemaphore` | veakrnl/ks/semaphore.c:46-93 | Stops the system exactly when the limit would be passed or the adjustment is negative; else the count rises by the adjustment and drops by one for each thread that is let go, nobody goes on whose wait is not satisfied and, with units left, nobody stays whose wait is; valid afterwards exactly unless nothing was added to an empty semaphore with a wait-any waiter. |
| `Dispatcher.KernelDispatcher.ReleaseMutant` | veakrnl/ks/mutant.c:81-125 | Denied exactly to non-owners; otherwise the mutant goes to the one thread that is let go, the first on the list that can, or is free; the ledger gains exactly the waits that ended. |
| `DispatcherRuns.Perform` | veakrnl/ks/wait.c:130-375 | Any call: everything is in order afterwards, nobody satisfiable is left waiting, and each semaphore gained what was released and lost one for every wait that the call satisfied and that used it. |
| `DispatcherRuns.RunConserves` | veakrnl/ks/wait.c:130-375 | Over every run of calls the count of a semaphore is what it was, plus all tokens released, minus all waits satisfied by it, and stays between zero and the limit. |
| `FrameLists.InsertHeadChain` | veakrnl/mm/pip.c:37-82 | Inserting at the head of a chain of frames gives the chain with the frame in front, links inverse and acyclic. |
| `FrameLists.InsertTwice` | veakrnl/mm/pip.c:71-82 | A frame put in front of a list that it is on already leaves links that spell out no list. |
| `FrameLists.UnlinkChain` | veakrnl/mm/pip.c:51-68 | Unlinking a frame anywhere gives the chain without it and touches no state or count. |
| `FrameDatabase.HeldNotListed` | veakrnl/mm/pip.c:357-435 | A frame with an owner or a lock is on neither list, and no frame is on both. |
| `FrameDatabase.Database.LinkFree` | veakrnl/mm/pip.c:287-304 | The boot loop links exactly the free frames, in ascending order. |
| `FrameDatabase.Database.AllocatePage` | veakrnl/mm/pip.c:357-387 | Fails exactly when the free list is empty, else hands out its head, at 4096 bytes a frame, to an owner it did not have. |
| `FrameDatabase.Database.FreePage` | veakrnl/mm/pip.c:391-435 | Unaligned, unknown and inactive addresses change nothing; the owner goes, and the frame is freed exactly when no lock is left; the database survives exactly unless the frame is active without an owner. |
| `FrameDatabase.Database.Reference` | veakrnl/mm/pip.c:88-98 | One count more on exactly that frame, whatever it is; the database survives exactly when somebody held the frame. |
| `FrameDatabase.Database.Dereference` | veakrnl/mm/pip.c:102-122 | One lock less, and the frame reaches the free list exactly at the last release when the owner is gone; an uncounted frame is left alone; the database survives exactly unless the count was the owner's alone. |
| `FrameDatabase.Database.LockUnlock` | veakrnl/mm/pip.c:88-122 | Locking and unlocking a frame restores everything exactly when somebody held it; a reserved frame can be allocated afterwards, and with a free one the free list becomes a circle. |
| `FrameDatabase.Database.AllocateContiguous` | veakrnl/mm/pip.c:439-480 | Returns the lowest run of n frames that are all on the free list, or 0 exactly when n is 0 or there is none; exactly that run leaves the free list. |
| `FrameDatabase.Database.FreeContiguous` | veakrnl/mm/pip.c:484-493 | Exactly the owned frames of the run lose their owner, those without locks become free; inactive frames, missing ones and unaligned runs are passed over. |
| `FrameDatabase.Database.BeginZeroing` | veakrnl/mm/pip.c:510-527 | The zeroing thread takes the head of the free list, if any, without counting it. |
| `FrameDatabase.Database.EndZeroing` | veakrnl/mm/pip.c:535-540 | The zeroed frame joins the zeroed list. |
| `FrameDatabase.Database.LockPages` | veakrnl/mm/mapping.c:169-232 | Each frame gains as many references as the list of pages names it, nothing else changes, and the list records the frames; the database survives exactly when somebody held every one of them. |
| `FrameDatabase.Database.UnlockPages` | veakrnl/mm/mapping.c:236-263 | Each frame loses as many locks as the list names it; the frames that become free are those of the list nobody else holds. |
| `AvlTree.RebalanceOK` | sdk/lib/rtl/avltree.c:118-149 | One rebalancing step at a node whose subtrees differ by two restores the balance and keeps the order. |
| `AvlTree.DepthBound` | sdk/lib/rtl/avltree.c:29-149 | What the balance is for: a tree of depth h holds at least F(h + 2) - 1 ranges (F the Fibonacci numbers), so the way down is logarithmic; and the heights kept in the nodes are the true ones. |
| `AvlTree.Insert` | sdk/lib/rtl/avltree.c:76-150 | Insertion keeps every node balanced and grows the height by at most one. |
| `AvlTree.InsertItems` | sdk/lib/rtl/avltree.c:76-150 | In order, insertion puts the new range at its sorted place and moves nothing else. |
| `AvlTree.Remove` | sdk/lib/rtl/avltree.c:165-257 | Removal keeps every node balanced and shrinks the height by at most one. |
| `AvlTree.RemoveItems` | sdk/lib/rtl/avltree.c:165-257 | In order, removal takes out exactly the range with that start. |
| `VirtualRanges.CheckSound` | veakrnl/mm/virt.c:217-217 | The 32-bit limit check keeps ranges below the limit exactly when the sum does not wrap. |
| `VirtualRanges.PutOK` | veakrnl/mm/virt.c:224-227 | A range put into a free run keeps all ranges inside the window and disjoint. |
| `VirtualRanges.AcceptedOK` | veakrnl/mm/virt.c:217-227 | A range the check accepts keeps the ranges in the window and disjoint exactly as long as the sum of its end did not wrap. |
| `VirtualRanges.Kernel.Find` | veakrnl/mm/virt.c:137-156 | Finds a range that contains the page exactly when there is one. |
| `VirtualRanges.Kernel.FindGap` | veakrnl/mm/virt.c:161-186 | The first gap that fits is the lowest place where the pages are free; without one, so is the page behind the last range. |
| `VirtualRanges.Kernel.Allocate` | veakrnl/mm/virt.c:190-232 | Takes the lowest page of the window from 0xC1000 with n unused pages, every lower run meeting a range, or answers 0 when the end of the run is refused; exactly that range is added. The ranges stay right exactly when the 32-bit sum did not wrap. |
| `VirtualRanges.TwoAllocations` | veakrnl/mm/virt.c:190-232 | Two calls from an empty tree end with a range above the limit. |
| `VirtualRanges.Kernel.Free` | veakrnl/mm/virt.c:236-286 | Only from the start of a range: that range goes and no other, exactly its mapped pages are unmapped in ascending order, and what is given back for each is the frame it was mapped to. |
| `VirtualRanges.FramesCounted` | veakrnl/mm/virt.c:255-281 | Each frame is given back exactly as often as it was mapped in the range, so no frame twice when no two pages shared one. |
| `VirtualRanges.Kernel.PageCount` | veakrnl/mm/virt.c:290-313 | The page count of the range that starts there, 0 exactly when none does. |
| `VeaKeyStore.UnpackPack` | veakrnl/vk/vkobject.c:404-412 | Up to four bytes packed into the offset field unpack to the same bytes. |
| `VeaKeyNames.PackIs` | veakrnl/vk/vkobject.c:404-412 | Inline bytes lie in the field lowest first, as in the memory of the machine. |
| `VeaKeyStore.NoneMissing` | veakrnl/vk/vkapi.c:262-355 | A path that leads somewhere needs no new key. |
| `VeaKeyNames.SizeIs` | sdk/include/ndk/vktypes.h:43-67 | A key takes 30 bytes and its name, a value node 26 and its name, a payload 4 and its bytes; a write asks for a node only for a new name, and for a payload only for more than four bytes that the old value has no room for. |
| `VeaKeyNames.SameNameIs` | sdk/lib/rtl/string.c:714-737 | The comparison of names means equal lengths, and equal characters wherever no NUL comes before. |
| `VeaKeyNames.SamePlain` | sdk/lib/rtl/string.c:714-737 | With a name that holds no NUL, on either side, it is equality. |
| `VeaKeyNames.WalkIs` | veakrnl/vk/vkapi.c:262-355 | A walk along a path is one subkey lookup after the other, and leads nowhere from the first that fails. |
| `VeaKeyNames.WalkedNames` | veakrnl/vk/vkobject.c:29-120 | Walking is the inverse of climbing: the path of the key that a walk along NUL-free names ends at is that of the key it started from and the names walked. |
| `VeaKeyNames.PathTextIs` | veakrnl/vk/vkobject.c:62-120 | A printed path is the names in order, each behind a slash. |
| `VeaKeyStore.FindInUnique` | veakrnl/vk/vkmgr.c:58-151 | With unique names, looking a member's name up finds that member. |
| `VeaKeyStore.ValueReplaced` | veakrnl/vk/vkapi.c:724-807 | Replacing a value, in place or elsewhere, changes the answer for exactly that name of that key. |
| `VeaKeyStore.ValueAdded` | veakrnl/vk/vkapi.c:880-928 | A new value answers for exactly its own name; every other value of every key is unchanged. |
| `VeaKeyStore.StoreReplaced` | veakrnl/vk/vkapi.c:724-807 | Replacing a value keeps chains, names, payload ownership and tree intact. |
| `VeaKeyStore.StoreAdded` | veakrnl/vk/vkapi.c:880-928 | Appending a value keeps the value chains acyclic, exact and unique in names. |
| `VeaKeyStore.StoreGrown` | veakrnl/vk/vkobject.c:843-955 | Attaching a subkey keeps sibling chains acyclic, names unique and the subkey counter equal to the chain length. |
| `VeaKeyStore.GrownLookup` | veakrnl/vk/vkobject.c:843-955 | A new subkey is found under its name; every other subkey and every value stays. |
| `VeaKeyStore.PathLeadsBack` | veakrnl/vk/vkobject.c:29-120 | Walking the names from the root to a key leads back to that key. |
| `VeaKeyStore.PathsDistinct` | veakrnl/vk/vkobject.c:29-120 | No two keys have the same path. |
| `VeaKeyStore.TokensOfPath` | veakrnl/vk/vkapi.c:262-300 | Splitting a printed path gives back its names. |
| `VeaKeyStore.PrintedPathLeadsBack` | veakrnl/vk/vkobject.c:29-120 | The printed path of a key, split and walked from the root, is that key. |
| `VeaKeyBins.GrowStable` | veakrnl/vk/vkhv.c:67-109 | A new stable bin keeps the bins tiling the hive and every cell in place. |
| `VeaKeyBins.PlaceStable` | veakrnl/vk/vkobject.c:804-839 | A stable cell at the free offset overlaps no other and lies in the last bin. |
| `VeaKeyBins.PlaceVolatile` | veakrnl/vk/vkobject.c:503-543 | A volatile cell at the free offset overlaps no other and lies in the last volatile bin. |
| `VeaKeyBins.PlaceStableExactly` | veakrnl/vk/vkobject.c:820-835 | A cell handed out at the free offset without a look at the end of the bin keeps the layout exactly when it ends inside the bin. |
| `VeaKeyBins.OneBinEach` | veakrnl/vk/vkobject.c:503-543 | Requests for cells one after the other are all met when there is a bin for each, and use no more than that. |
| `VeaKeyBins.MorePool` | veakrnl/vk/vkobject.c:503-543 | A larger pool meets every run of requests that a smaller one met, with the same layout. |
| `VeaKeyBins.CellResolves` | veakrnl/vk/vkobject.c:457-496 | Every cell resolves to one bin with all its bytes inside, behind the bin header. |
| `VeaKeyBins.CellsDisjoint` | veakrnl/vk/vkobject.c:457-496 | Cells at different offsets resolve to memory that does not overlap. |
| `VeaKeyHive.Hive.constructor` | veakrnl/vk/vkinit.c:71-109 | A loaded image, with whatever keys and values it holds, becomes one full stable bin whose root key stands behind the first block header. |
| `VeaKeyHive.Hive.GetCellPointer` | veakrnl/vk/vkobject.c:457-496 | Resolves an offset to the bin that contains it, and every cell to a bin. |
| `VeaKeyHive.Hive.AllocateVolatileCell` | veakrnl/vk/vkobject.c:503-543 | Fails exactly when a bin is needed and none of the 32 can be had; otherwise one new cell at the free offset of the last bin, or behind the 24 bytes of header of a new one; all others unchanged. |
| `VeaKeyHive.Hive.AllocateStableCell` | veakrnl/vk/vkobject.c:804-839 | Succeeds exactly when the cell fits or a bin can be had, with the cell at the free offset, or behind the 24 bytes of header of a new bin; otherwise, with a free offset in use, the cell is handed out all the same and runs past the end of its bin. The layout survives exactly in the other cases. |
| `VeaKeyHive.Hive.NamesMatch` | sdk/lib/rtl/string.c:714-737 | True exactly when the lengths agree and every position without a NUL in front of it agrees; for a name without a NUL, exactly when the names are equal. |
| `VeaKeyHive.Hive.FindSubkey` | veakrnl/vk/vkmgr.c:58-105 | For a name without a NUL: the key with this parent and exactly that name, or 0 exactly when there is none or the name is empty. |
| `VeaKeyHive.Hive.FindValueNode` | veakrnl/vk/vkmgr.c:109-151 | For a name without a NUL: the value node of this key with exactly that name, or 0 exactly when there is none or the name is empty. |
| `VeaKeyHive.Hive.QueryValue` | veakrnl/vk/vkobject.c:361-446 | For a name without a NUL: not found exactly when the key has no value of exactly that name; else type and length of that value and as many of its bytes as fit, and too small a buffer is told apart exactly. |
| `VeaKeyHive.Hive.ReplaceValue` | veakrnl/vk/vkapi.c:724-807 | All three ways of overwriting set exactly that value. It fails exactly without a buffer for more than four bytes, or when the bytes do not fit the old payload and no cell can be had; inline and in-place writes never need one. |
| `VeaKeyHive.Hive.AddValue` | veakrnl/vk/vkapi.c:810-931 | A new value is set exactly when the node, and a payload for more than four bytes, can be had one after the other; else nothing a query can see changes. |
| `VeaKeyHive.Hive.SetValue` | veakrnl/vk/vkapi.c:683-931 | Each status has its exact condition in the cells the write needs, none for a value that fits where it is. Success sets exactly one value, for both storage classes; failure leaves every answer; no lookup of a key changes. |
| `VeaKeyHive.Hive.AttachSubkey` | veakrnl/vk/vkobject.c:550-659 | Invalid name, bad parent and collision are told apart exactly; a name without a NUL collides exactly when the directory has a key of exactly that name. All else depends on whether the cell can be had. Success appends the key and counts it; every key keeps its name and parent, and no other lookup changes. |
| `VeaKeyHive.Hive.EnsureKeyPath` | veakrnl/vk/vkapi.c:235-358 | Succeeds exactly when the names are short and the missing keys can be had one after the other; ends at the key the path names; no lookup of a key changes but those of missing links of this path, and no value changes. |
| `VeaKeyRuns.SetValues` | veakrnl/vk/vkapi.c:683-931 | A sequence of calls on any keys, failed ones included: each call ends as foretold from the last writes and the room alone, and every name of every key reads as the last successful call for it left it. |
| `VeaKeyRuns.AmpleSucceeds` | veakrnl/vk/vkapi.c:683-931 | With room for two bins a call, every call of a sequence succeeds. |
| `VeaKeyRuns.OverrunReached` | veakrnl/vk/vkobject.c:820-835 | Two writes to a hive that holds only its root key: the second is handed a cell that runs past the end of its bin. |
| `VeaKeyRuns.SetThenQuery` | veakrnl/vk/vkapi.c:683-931 | With two bins to be had, and a buffer for a long value, the write succeeds; what was set reads back, type and bytes, exactly when its name is not empty; a failed set leaves the answer. |
| `VeaKeyRuns.QueryAround` | veakrnl/vk/vkapi.c:683-931 | Whatever comes of a write, a query of any other NUL-free name of that key, or of any NUL-free name of another key, answers afterwards as before. |
| `VeaKeyRuns.EnsureTwice` | veakrnl/vk/vkapi.c:235-358 | With a bin for each name the first call succeeds; ensuring the same path again then ends at the same key, creates nothing and changes no cell. |
| `VeaKeyRuns.EnsureThenPrint` | veakrnl/vk/vkapi.c:235-358 | The key that an ensured path of names without slash or NUL ends at prints as the path of the key it started from followed by that very path, exactly when that has at most 64 names and fits 512 bytes. |
| `VeaKeyHive.Hive.KeyPath` | veakrnl/vk/vkobject.c:31-120 | Builds the prefix and the names from the root; fails exactly beyond 64 components or 512 characters. |
| `Namespace.FindUnique` | veakrnl/ob/obdirectory.c:858-901 | Under case-insensitive uniqueness an entry's name finds that entry, case-sensitively or not. |
| `Namespace.StepDecreases` | veakrnl/ob/obdirectory.c:905-1102 | Each turn of the lookup loop uses up a reparse or shortens the remaining name. |
| `Namespace.StepDown` | veakrnl/ob/obdirectory.c:1041-1081 | At a directory whose entry the next token names, the lookup moves to that entry behind the token. |
| `Namespace.PrintedNameResolves` | veakrnl/ob/obdirectory.c:905-1102 | The names of a path joined by backslashes resolve from the root to the object at its end, exactly when the type expected is its own or none is; otherwise the lookup ends with a type mismatch. |
| `Namespace.FullNameOfPath` | veakrnl/ob/obmanager.c:407-518 | The full name of an object on a path is the path's names, each behind a backslash. |
| `Namespace.NameRoundTrip` | veakrnl/ob/obmanager.c:353-519 | The printed name of an object without parse routine, looked up from the root, gives that object, exactly when the type expected is its own or none is; else a type mismatch. |
| `Namespace.LinkLeft` | veakrnl/ob/obdirectory.c:1008-1027 | A turn at a link with a text stays on the link exactly when the text is relative and the caller gave no directory or gave the link. |
| `Namespace.RelativeLinkLoops` | veakrnl/ob/obdirectory.c:934-1027 | A lookup that stays on a link always ends with the reparse limit. |
| `Namespace.LinkResumes` | veakrnl/ob/obdirectory.c:650-711 | Otherwise the lookup goes on with the link's text, a slash if one is missing, and the rest of the name, cut to 511 characters, from the root when the text is absolute, else from the caller's directory. |
| `Namespace.LinkTextIs` | veakrnl/ob/obdirectory.c:650-711 | The first link of a lookup is replaced by its text, a slash if one is missing, and the rest of the name, cut to the buffer. |
| `Namespace.LaterLinksSkipped` | veakrnl/ob/obdirectory.c:905-1102 | Every later link of a lookup is met with the rest of the name behind its slashes. |
| `Namespace.LaterLinkRight` | veakrnl/ob/obdirectory.c:664-697 | A later link is replaced in the same way, whatever the buffer holds, exactly when its text, with the slash, fits in front of the rest of the name. |
| `Namespace.LaterLinkSpoilt` | veakrnl/ob/obdirectory.c:664-697 | In a directory with a link a to "/x", a link x to "/yz" and an entry r of yz, the name "/x/r" leads to r, but "/a/r" leads to yz. |
| `NamespaceAnswers.ExpectedType` | veakrnl/ob/obdirectory.c:905-1102 | The type expected only turns a find into a mismatch: the answer is that of the lookup for any type, but for an object found with another type. |
| `NamespaceAnswers.UntypedMismatch` | veakrnl/ob/obdirectory.c:1035-1041 | A lookup for any type ends with a mismatch exactly when it stops at an object that is no directory and has no parse routine. |
| `NamespaceAnswers.NoMismatchExactly` | veakrnl/ob/obdirectory.c:1035-1041 | In a namespace no such lookup ends with a mismatch exactly when the namespace has no such object. |
| `NamespaceAnswers.MismatchWithoutType` | veakrnl/ob/obdirectory.c:1035-1041 | "/x/y" with x such an object: looked up for any type, the answer is a type mismatch, not a missing name. |
| `NamespaceAnswers.BehindObject` | veakrnl/ob/obdirectory.c:1035-1041 | A name that goes on behind such an object ends with a mismatch, whatever type is expected. |
| `NamespaceAnswers.NameMissing` | veakrnl/ob/obdirectory.c:1043-1064 | A name that a directory does not have is not found, or the place for a new object exactly in insert mode with nothing at all behind the name. |
| `NamespaceAnswers.StartsAt` | veakrnl/ob/obdirectory.c:923-941 | A name is looked up in the directory the caller gave, slashes in front of it or not, and in the root without one. |
| `NamespaceAnswers.LastName` | veakrnl/ob/obdirectory.c:1066-1092 | The last name ends at a directory or plain object of the expected type; a link or an object with a parse routine is still asked, with nothing left of the name. |
| `NamespaceAnswers.ParsedAnswers` | veakrnl/ob/obdirectory.c:949-1033 | A parse routine decides: nothing, an object (refused with another type), its own status, or a text, with which the lookup goes on at most 32 times from the root or from the caller's directory. |
| `NamespaceAnswers.TargetFollowed` | veakrnl/ob/obdirectory.c:969-991 | A link to an object is followed with the rest of the name; the 33rd reparse ends the lookup. |
| `NamespaceAnswers.MatchesIs` | veakrnl/ob/obdirectory.c:830-854 | Names match when equally long and equal character by character, a letter A to Z taken for its lower-case one exactly when case is ignored. |
| `NamespaceAnswers.FullNameIs` | veakrnl/ob/obmanager.c:407-518 | What is printed: a backslash for the root, else the name behind a backslash behind what is printed for its directory, three dots for a directory without a name. |
| `ObjectManager.Context.SkipSlashes` | veakrnl/ob/obdirectory.c:1068-1074 | Drops exactly the leading slashes, of either kind, of the remaining name. |
| `ObjectManager.Context.NextToken` | veakrnl/ob/obdirectory.c:782-826 | Behind the leading slashes, cuts the characters up to the next slash, a NUL or the end; without any nothing remains. |
| `ObjectManager.Context.ParseSymbolicLink` | veakrnl/ob/obdirectory.c:650-711 | Rewrites the remaining name in the reparse buffer exactly as specified, overlapping copies included. |
| `ObjectManager.MatchToken` | veakrnl/ob/obdirectory.c:830-854 | Decides whether token and entry name are equally long and equal character by character, up to the case of A to Z when case is ignored. |
| `ObjectManager.LookupEntry` | veakrnl/ob/obdirectory.c:858-901 | Returns the first matching entry, skipping nameless objects; none exactly when no entry matches. |
| `ObjectManager.LookupObjectName` | veakrnl/ob/obdirectory.c:905-1102 | Terminates on every namespace, cyclic links included, with the answer of the specified resolution; what is found exists and has the type expected, if any is. |
| `ObjectManager.SameFolded` | veakrnl/ob/obdirectory.c:94-117 | Decides equality of names up to the case of A to Z. |
| `ObjectManager.Space.InsertDirectory` | veakrnl/ob/obdirectory.c:68-139 | Collides exactly when an entry has the same name up to the case of A to Z; otherwise appends the object and keeps all directories unique. |
| `ObjectManager.Space.QueryNameString` | veakrnl/ob/obmanager.c:353-519 | Both passes agree: the name exactly fills the computed length; too long and too small are told apart exactly. |
| `ObjectManager.NameThenLookup` | veakrnl/ob/obmanager.c:353-519 | Asking for the name of an object and looking that name up from the root ends at the object, or with a mismatch exactly when another type is expected, whenever the name fits; and that is exactly when the query succeeds. |
| `Timers.QueuedSorted` | veakrnl/ks/time.c:131-155 | Inserting before the first timer due strictly later keeps the queue in due order. |
| `Timers.GoneIffDue` | veakrnl/ks/time.c:226-273 | The timers that go off are exactly the armed ones due by then, each once. |
| `Timers.TimerList.InsertSorted` | veakrnl/ks/time.c:131-155 | The loop inserts at the specified place: behind every timer due no later. |
| `Timers.TimerList.Set` | veakrnl/ks/time.c:159-199 | Re-arms with the absolute due time, a negative one counting from now; the timer stands behind exactly those due no later and the others keep their order; returns whether it was armed. |
| `Timers.TimerList.Cancel` | veakrnl/ks/time.c:203-222 | Disarms and unlinks; returns whether it was armed. |
| `Timers.RemovedIs` | veakrnl/ks/time.c:203-222 | Taking a timer off the queue leaves the others in their order. |
| `Timers.TimerList.CheckExpiration` | veakrnl/ks/time.c:226-273 | Exactly the armed timers due by then are signalled, in queue order, and their calls queued; one with period p is armed again for the time plus 10000 p, the others are off the queue; no other timer changes. Of equal due times those that did not go off stand first. |
| `Timers.TwoChecks` | veakrnl/ks/time.c:226-273 | A timer of period p that went off at one check does not go off at a later one within 10000 p units. |
| `Timers.StableOrder` | veakrnl/ks/time.c:226-273 | Timers queued again one by one keep their order among equal due times. |
| `Timers.CallsInOrder` | veakrnl/ks/time.c:256-262 | The deferred calls come in the order in which the timers went off, one for each that has one. |
| `Scheduler.ShiftRecovered` | veakrnl/pt/ptcfs.c:6-26 | The tick reads back the shift that the priority put into the weight. |
| `Scheduler.ShiftIs` | veakrnl/pt/ptcfs.c:6-26 | Priorities 8k to 8k + 7 have shift k up to 5, those from 40 on have 5, negative ones 0. |
| `Scheduler.FairShare` | veakrnl/pt/ptscheduler.c:201-247 | Each thread's virtual run time is its share of the total up to the bound. |
| `Scheduler.ServedBound` | veakrnl/pt/ptscheduler.c:201-247 | Nobody starves: the processor time of two threads, each divided by the shifts in force, differs at most by the longest step and one unit per charge. |
| `Scheduler.PairBound` | veakrnl/pt/ptscheduler.c:201-247 | Any two threads' run times differ by at most the longest step charged so far. |
| `Scheduler.RunQueue.SetPriority` | veakrnl/pt/ptcfs.c:6-26 | Eight priorities a step: the weight is 1024 for priorities below 8 and doubles with every eight up to 32768 from 40 on; negative priorities count as 0. The queue stays fair. |
| `Scheduler.RunQueue.ReadShift` | veakrnl/pt/ptscheduler.c:212-222 | How often the weight can be halved before it is down to 1024, five at most, weight by weight. |
| `Scheduler.RunQueue.Tick` | veakrnl/pt/ptscheduler.c:201-247 | Charges the running thread the time divided by 1, 2, 4, 8, 16 or 32 by its weight and nobody else; it gives way exactly when the first of the queue has run strictly less, and goes behind all that have run no longer; nobody has run less than the thread that runs. The exact processor time served is kept beside the rounded run time. |
| `Scheduler.RunQueue.Yield` | veakrnl/pt/ptscheduler.c:103-123 | The first of the queue runs; the old thread goes behind exactly those that have run no longer, and the others keep their order. |
| `AccessCheck.MappedMeaning` | veakrnl/sf/acheck.c:5-31 | Under a mapping to specific rights, mapping yields the specific rights requested and those the generic ones stand for. |
| `AccessCheck.MapGenericMask` | veakrnl/sf/acheck.c:5-31 | Without a mapping nothing changes; where rights 28 to 31 stand only for rights below 28, the result holds the rights below 28 requested and what the others stand for; under any mapping a right is in the result exactly when it was asked for and is not generic, or a generic right that is reached brings it in. |
| `AccessCheck.MatchSid` | veakrnl/sf/acheck.c:35-56 | Decides whether the identity is the token's user or one of its groups. |
| `AccessCheck.DecisionPrefix` | veakrnl/sf/acheck.c:98-135 | What the first entries decide about a right, no later entry changes. |
| `AccessCheck.GrantedIs` | veakrnl/sf/acheck.c:98-135 | A right is granted exactly when an entry for the caller allows it and no entry for the caller in front of that one denies it. |
| `AccessCheck.Check` | veakrnl/sf/acheck.c:60-149 | Granted exactly when for every requested right some entry for the caller allows it and none in front of that one denies it; the granted mask is then the mapped request. |

## Left out

Pool:
- UlPool.Pool.Allocate: asks for at least one byte, since a request for zero bytes can make a block of one unit, which cannot hold a list entry (`PoolHeap.CarveOneUnit` says exactly when).
- UlPool.Pool.Free: takes only pointers into mapped pool pages at block starts, or page addresses; memory the pool never owned is not part of the model.
- Counters are unbounded, so their 32-bit wrap-around is not modelled; the per-tag tracker and the counts of running operations are left out.
- Spin locks and the race between expanding and retrying: each call is one critical section.
- The encoding bit of list links, and the tag left in the header of a split remainder.

Guarded mutex:
- The word is an unbounded integer, so overflow of the waiter count is not modelled; IRQL and APC state are left out.

Dispatcher:
- Dispatcher.KernelDispatcher.Wait: the objects of one wait are distinct.
- The other operations start from a valid dispatcher, so they claim nothing after one of the two calls that make it invalid (see above); `DispatcherState.PassAssignsAll` alone starts from any consistent one.
- DispatcherRuns.RunConserves: the runs leave those two calls out.
- Releases that keep the dispatcher lock for a following wait, time-outs of waits, queues, abandoned mutants and creation of objects while running.

Frames and ranges:
- FrameDatabase.Database.FreeContiguous: active frames of the run belong to the caller (`FrameDatabase.Database.FreePage` says what becomes of one that does not).
- FrameDatabase.Database.LockPages: page faults and copy-on-write are left out; each page's frame is given.
- Reading the memory map, placing the database, mapping it, the free-page event, and the bitmap.
- AvlTree.Insert: the tree is a value rebuilt along the path; parent pointers, the cached leftmost node and node reuse are not captured, and the in-order walk runs over the sequence of ranges.
- VirtualRanges.Kernel.Allocate: where tree nodes come from is a parameter; calls after one whose sum wrapped are not modelled.
- Ranges chosen by callers in section.c.

VeaKey:
- VeaKeyHive.Hive.AllocateStableCell: what lies behind the bin, where the writes into a cell that runs past its end go, is not modelled.
- VeaKeyHive.Hive.constructor: the image is laid out and linked consistently, as the tool that builds it leaves it; the failing loads are left out.
- VeaKeyHive.Hive.SetValue: a node and a payload each fit one fresh bin, and the buffer holds exactly the stated number of bytes; handed a cell that runs past the end of its bin, the model stops with `Overrun` in front of the first write into it, where the source goes on.
- VeaKeyHive.Hive.AttachSubkey: models the stable and the volatile variant in one method, on cells the hive contains; offsets that point elsewhere are not modelled.
- Cells are a map by offset; `VeaKeyBins.CellsDisjoint` is what makes that faithful to memory.
- Dirty tracking, saving, the checks for corrupt chains, opening and creating keys through handles, links between keys, and the two functions that attach a value without overwriting.
- VeaKeyStore.PrintedPathLeadsBack: the names hold no slash and no NUL, as those made by walking a path do.

Namespace:
- Reference counts, handles, access masks and locks; objects whose type prints its own name.
- The parse routines of other types are an arbitrary function; `Namespace.Closed` asks that they answer with existing objects and texts that fit the buffer.
- Namespace.NameRoundTrip: is for objects whose type has no parse routine and whose chain of named directories reaches the root.

Timers, scheduler, access check:
- Times are unbounded and never negative, so the mix of signed and unsigned comparison is not modelled; waiters of a timer are tested in the dispatcher model.
- Scheduler.RunQueue.Tick: the threads are fixed and always runnable; waking, sleeping, yielding by hand, the idle thread and the queue's task and weight totals are left out. The run queue is a sequence in run-time order (sdk/lib/rtl/rbtree.c:187-208 puts equal keys behind).
- AccessCheck.Check: masks are sets of bit numbers, since the code combines them by bitwise operations only; entries are a sequence, so their byte sizes are left out.

Not modelled at all: hardware and I/O, boot, page faults, context switches, handle table, section and driver loading, string helpers and the FAT32 reader.
