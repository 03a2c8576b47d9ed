# OS/161 and System/161, modelled in Dafny

Dafny models of the parts of the OS/161 teaching kernel, its C library and the System/161
MIPS simulator where correctness is an argument rather than a glance, with proofs that hold
for every input, every reachable state or every run.

`dafny verify dfyconfig.toml` checks everything.

| file | what it models |
|---|---|
| `Prelude.dfy` | what several of the others share |
| `IndexList.dfy` | singly linked lists threaded through index arrays, shared by the heap and the clock |
| `KHeap.dfy`, `KHeapAllocator.dfy`, `KHeapRuns.dfy` | the kernel heap: free lists inside pages, page lists, page return; clients over whole runs |
| `Queue.dfy` | the ring buffer that grows itself by mutual recursion |
| `Threads.dfy`, `ThreadRuns.dfy`, `ThreadSystem.dfy` | threads and the multilevel feedback scheduler, as a state machine, over runs, and as the code runs |
| `ThreadExits.dfy`, `ThreadInstances.dfy` | when threads can exit without memory; runs from boot that need memory they should not |
| `Semaphores.dfy`, `SemaphoreWaits.dfy` | `P` and `V`, on top of the thread state machine and as they run; who waits and for how long |
| `Bowls.dfy` | the cat and mouse monitor, one statement of one thread at a time |
| `Mips.dfy`, `MipsCpu.dfy`, `MipsInstances.dfy` | TLB, mode stack, unaligned access, the fetch cycle with its cached pages, and programs that outrun them |
| `Clock.dfy` | simulated time: event pool, sorted queue, re-entrant callbacks |
| `Disk.dfy` | disk geometry, rotational delays in 32 bits, the request state machine |
| `Random.dfy` | the additive-feedback generator and its saved states |
| `Printf.dfy` | `printf` number formatting and `atoi` |
| `LoadElf.dfy` | `copyin`/`copyout`, `uiomove`, ELF segment loading |

## How the models are built

Code that updates state is a class whose methods keep the source's loops and branches. Each
method is proved against a function on values, or states outright what it finds or changes;
the invariants and whole-run theorems are lemmas about those values.

- Each `splhigh` section of the kernel is one atomic step. A `P` that sleeps spans steps of
  other threads, so `P`, `V` and the thread operations are also steps of a state machine, and
  the theorems quantify over all sequences of steps.
- Memory allocation is a parameter: a flag or a number says how many of the allocations a call
  needs succeed, an address what `alloc_kpages` answers. For requests below a page that answer
  is a page nobody has; for larger ones it can be anything but the start of a run in use, and
  the heap stays sound exactly for some of them (`Kmalloc`). `KHeapRuns` puts the page allocator
  of `dumbvm.c` underneath, with its 32-bit arithmetic.
- The heap's memory is a map from addresses to words, each address a cell of its own: a free-list
  link takes one cell, and a client's word at the last byte of its block does not spill beyond it.
- Time, interrupts, wall-clock readings, input errors, seek times, the jitter of event delays
  and the effect of ordinary instructions on registers are parameters.
- Callbacks of the event clock are given as the list of delays they schedule, zero included;
  those beyond the list schedule nothing, so every terminating run of `check_queue` is covered.
- `dd_timedop`, which `disk_init` leaves unset, starts at false.
- `mips_init` resets one TLB entry past the end of the table; the entry that lies there, the
  TLB entry register, is what the model resets.
- Arguments missing from a `printf` call read as 0 or a null string.

## Where the code falls short of what it says

Each of these is proved, with the exact condition under which the promise holds.

- Rounding a request up to pages wraps for the top 4095 sizes, and then asks for no pages
  (`PagesForCovers`). The page allocator answers that with an address and keeps nothing for it, so
  the block returned has no memory and the next grant lies inside it (`LargestRequest`,
  `LargestInstance`); a large block is sound exactly up to that size (`LargeBlockExactly`). The page
  allocator's own test wraps too, and its answer is memory exactly if it does not (`StealExactly`).
- A ring preallocated to n slots takes n - 1 pointers without memory, not n (`FitsWithoutMemory`).
  So `thread_fork`'s preallocation does not make `make_runnable` safe: after a fork it still needs
  memory exactly when all other live threads are ready at the thread's level and there are as many
  live threads as slots (`YieldNeedsMemory`, `WakeupNeedsMemory`), as when the boot thread forks 31
  threads and yields (`OneSlotShort`), or when all 32 sleep and an interrupt wakes them
  (`WakeupFromInterrupt`).
- `thread_exit` can need memory after a fork, in two ways. The room for zombies, once it is for more
  than 16, is given back at the next dispatch of a thread that has run before (`ZombieRoomGivenBack`),
  as after 16 forks and two yields (`ExitAfterGiveBack`). And a fork makes room for the living
  only, not for the zombies there are, and new threads destroy none: threads that fork one successor
  each and exit fill it, with three alive at most (`ExitAmongZombies`). A fork makes room for everybody
  exactly if what it preallocates for the living also holds the zombies (`ForkMakesRoom`); these two are
  the only steps that lose it (`RoomStep`), and without them no exit needs memory (`ExitsSafe`). While no
  room is made or given back, the exit that fails is the one after as many as there was room for
  (`ExitPanicsExactly`), and if only new threads are dispatched everybody can exit in turn exactly if
  there is room for everybody, alive or dead (`EverybodyCanExit`).
- `array_preallocate` allocates even when there is room (`PtrArray.Preallocate`).
- The bowl-number check passes every number from 2^31 up (`ArgumentCheck`, `TooLargeAccepted`), and
  the monitor's invariant is lost exactly then (`Call`).
- Nested exceptions more than two deep lose the interrupted mode unless it was kernel mode
  with interrupts off (`ModeRestored`, `ThreeDeep`; of the machine itself, `ModesRestored`).
- The pages cached for fetching are looked up again on every change of mode or TLB but two. Writing
  user mode into the status register leaves each page right exactly if its address is a user address
  and it was right before (`SetStatus`); user mode is unchecked exactly from such a write to the next
  exception or RFE (`Run`), as in the program of `StaleStatus`. Writing the address space id
  leaves a page right exactly if it needs no TLB entry or both ids find the same frame (`MoveTo0`,
  `FreshExactly`), as in kseg2 it need not (`StaleFrame`).
- The time slept in `clock_waitirq` is a second too long whenever the microseconds wrap
  (`SleptExactlyWhen`, `SleptInstance`, `WaitStep`).
- A tick moves virtual time on before it fires events, a wait afterwards. So an event fires within a clock
  below and one percent above its delay if it is asked for in a tick and fires in one, or neither; else it
  is a clock early or late, and in that window exactly if the stretch allows (`WindowExactly`), as in
  `EarlyInstance` and `LateInstance`.
- Abandoned disk requests, whenever they are taken back, leave their tries behind, and ten of them send the next request into
  the "geometry modeling fault" fallback (`FallbackReachable`, `Undisturbed`).
- `setstate` on the current state does not resume it, against its comment, unless turning the table
  from the rear pointer's saved place to its present one changes nothing (`StaleRearPointer`); the
  library's own initial state, after one number, is an instance (`StaleInstance`).
- `%-0Nd` pads with zeros on the right, so that `atoi` reads a different number
  (`PrintThenRead`, `ZerosOnTheRight`).
- `copyin` and `copyout` of zero bytes always fail (`CopyOut`, `CopyIn`).
- `uiomove` never compares a chunk with `uio_resid`: with less left than asked it moves too much and
  the count wraps (`UioMove`, `UioTake`). So `uiomovezeros` stops at that count only if it is a multiple
  of 16 (`UioMoveZeros`).

## Model

| member | source | states |
|---|---|---|
| `KHeap.PackingIsLossless` | os161-1.11/kern/lib/kheap.c:70-82 | page address and block type come back unchanged out of the one word they share |
| `KHeap.LiveBlocksDisjoint` | os161-1.11/kern/lib/kheap.c:350-577 | in every consistent heap two live blocks do not overlap, over their whole capacity |
| `KHeap.FreeBlocksNotLive` | os161-1.11/kern/lib/kheap.c:350-540 | no live block overlaps a block on any free list |
| `KHeap.InsideRun` | os161-1.11/kern/lib/kheap.c:545-563 | every live block lies inside the pages granted for it and is at least as large as was asked |
| `KHeap.BlockAligned` | os161-1.11/kern/lib/kheap.c:332-348 | blocks of every size start on a 16-byte boundary |
| `KHeap.FullListHoldsAll` | os161-1.11/kern/lib/kheap.c:526-534 | a free list is as long as the page has blocks exactly when it holds every block of the page |
| `KHeap.FreshListBlocks` | os161-1.11/kern/lib/kheap.c:440-450 | the list laid out in a fresh page has no repeats and holds exactly the blocks of the page |
| `KHeap.TakeBlockKeeps` | os161-1.11/kern/lib/kheap.c:380-406 | popping a free block keeps the whole heap invariant, and the block was not live |
| `KHeap.AddPageKeeps` | os161-1.11/kern/lib/kheap.c:414-459 | listing a freshly carved page keeps the whole heap invariant |
| `KHeap.PutBlockKeeps` | os161-1.11/kern/lib/kheap.c:507-526 | pushing a live block on its free list keeps the whole heap invariant |
| `KHeap.DropPageKeeps` | os161-1.11/kern/lib/kheap.c:528-534 | a page all of whose blocks are free can leave the lists and go back without harm to the invariant |
| `KHeap.TakePagesExactly` | os161-1.11/kern/lib/kheap.c:552-559 | a run of pages with a block over it keeps the heap invariant exactly if it is aligned, nobody else's, not empty and as large as the block |
| `KHeap.ReturnPagesKeeps` | os161-1.11/kern/lib/kheap.c:565-577 | giving a whole-page grant back keeps the heap invariant |
| `KHeap.ClientWriteKeeps` | os161-1.11/kern/lib/kheap.c:350-577 | a client writing anywhere in its own block cannot break the heap |
| `KHeapAllocator.PagesForCovers` | os161-1.11/kern/lib/kheap.c:552-554 | 32-bit rounding up covers the request exactly when it does not wrap, and asks for no pages when it does |
| `KHeapAllocator.LargeBlockExactly` | os161-1.11/kern/lib/kheap.c:546-560 | for an answer of the page allocator that is nobody else's, a large block keeps the invariant exactly up to 2^32 - 4096 bytes |
| `KHeapAllocator.LargestRequest` | os161-1.11/kern/lib/kheap.c:546-560 | kmalloc of 2^32 - 1 bytes: the invariant is lost, the same page can be granted again, and every block cut from it lies inside the one returned |
| `KHeapAllocator.SizeListsPush` | os161-1.11/kern/lib/kheap.c:452-453 | putting a page on its per-size list keeps the lists a partition of the page list by block size |
| `KHeapAllocator.SizeListsUnlink` | os161-1.11/kern/lib/kheap.c:307-330 | unlinking a page does too |
| `KHeapAllocator.OwnerIsIssuer` | os161-1.11/kern/lib/kheap.c:481-497 | looking an address up by page finds the pageref its block came from and no other |
| `KHeapAllocator.FullPageIff` | os161-1.11/kern/lib/kheap.c:528-534 | the free count reaches the blocks per page exactly when no block of the page is live |
| `KHeapAllocator.Heap.constructor` | os161-1.11/kern/lib/kheap.c:104-108 | the empty heap satisfies the invariant |
| `KHeapAllocator.Heap.FindBlockType` | os161-1.11/kern/lib/kheap.c:332-348 | the smallest block size that fits; the panic after the loop is unreachable |
| `KHeapAllocator.Heap.AllocPageRef` | os161-1.11/kern/lib/kheap.c:110-133 | claims the lowest free pageref, or fails exactly when all are in use |
| `KHeapAllocator.Heap.FreePageRef` | os161-1.11/kern/lib/kheap.c:135-148 | clears that flag and no other |
| `KHeapAllocator.Heap.FindRoom` | os161-1.11/kern/lib/kheap.c:372-378 | a page of this size with a free block, or none exactly when all are full |
| `KHeapAllocator.Heap.PopBlock` | os161-1.11/kern/lib/kheap.c:380-406 | the head of the page's free list, with offset and count brought up to date |
| `KHeapAllocator.Heap.CarvePage` | os161-1.11/kern/lib/kheap.c:440-450 | threads all blocks of a fresh page on one list through their first words, writing nothing outside the page |
| `KHeapAllocator.Heap.LinkPage` | os161-1.11/kern/lib/kheap.c:431-456 | the page heads both lists, which stay well formed |
| `KHeapAllocator.Heap.SubpageKmalloc` | os161-1.11/kern/lib/kheap.c:350-460 | a block of its own, not live before; it is the head of the free list of a page of the smallest size that fits, if any such page has a free block, else it comes from a new page of that size; fails exactly if all those pages are full and there is no page or no pageref, leaving the heap as it was; other live blocks keep their bytes |
| `KHeapAllocator.Heap.FindOwner` | os161-1.11/kern/lib/kheap.c:481-489 | the listed page that contains the address, or none exactly when no page does |
| `KHeapAllocator.Heap.FillDeadbeef` | os161-1.11/kern/lib/kheap.c:6-16 | every word of the block is the poison value and nothing else changes |
| `KHeapAllocator.Heap.PushBlock` | os161-1.11/kern/lib/kheap.c:507-526 | the block heads the free list through its first word, the rest of it is poisoned, and nothing outside it changes |
| `KHeapAllocator.Heap.UnlinkSame` | os161-1.11/kern/lib/kheap.c:307-321 | the page leaves the list of its size, which holds it; the search cannot run off the end |
| `KHeapAllocator.Heap.UnlinkAll` | os161-1.11/kern/lib/kheap.c:322-330 | the page leaves the list of all pages, order kept |
| `KHeapAllocator.Heap.SubpageKfree` | os161-1.11/kern/lib/kheap.c:462-540 | -1 exactly for pointers from the page allocator; otherwise the block is free and poisoned, and its page goes back exactly if it was the last live one |
| `KHeapAllocator.Heap.LargeKmalloc` | os161-1.11/kern/lib/kheap.c:548-560 | the answer of the page allocator is the block; the invariant holds exactly if that answer is a run of pages nobody has |
| `KHeapAllocator.Heap.Kmalloc` | os161-1.11/kern/lib/kheap.c:545-563 | the invariant holds exactly if a small block was asked for, nothing was granted, or what was granted is memory for the block; a new pointer, for small blocks from where `SubpageKmalloc` says; live blocks keep their bytes |
| `KHeapAllocator.Heap.Kfree` | os161-1.11/kern/lib/kheap.c:565-577 | exactly that pointer stops being live, and goes back, poisoned if small, to the allocator that issued it |
| `KHeapAllocator.Heap.ClientStore` | os161-1.11/kern/lib/kheap.c:350-577 | what clients do between calls keeps the invariant |
| `KHeapRuns.StealExactly` | os161-1.11/kern/arch/mips/mips/ram.c:63-78 | what the page allocator answers is memory nobody has exactly if pages were asked for and its 32-bit test did not wrap |
| `KHeapRuns.MallocFrom` | os161-1.11/kern/arch/mips/mips/dumbvm.c:42-52 | kmalloc on top of that allocator: the heap is unsound afterwards exactly if a large request was granted although the test wrapped; a small one takes a page exactly if no listed page of its size has a free block |
| `KHeapRuns.LargestInstance` | os161-1.11/kern/arch/mips/mips/dumbvm.c:42-52 | a new heap asked for 2^32 - 1 bytes has one live block, without memory, and is unsound |
| `KHeapRuns.HeldApart` | os161-1.11/kern/lib/kheap.c:545-577 | blocks in clients' hands share no byte |
| `KHeapRuns.Run` | os161-1.11/kern/lib/kheap.c:545-577 | any script of allocations, stores and frees: as long as no request wraps, clients hold exactly the live blocks, no two overlap, and each holds what was stored in it; requests that leave room for all of memory never wrap |
| `Queue.Ring.constructor` | os161-1.11/kern/lib/queue.c:53-68 | an empty ring of n slots |
| `Queue.Ring.GrownSize` | os161-1.11/kern/lib/queue.c:31-36 | the first doubling of the size that reaches the target |
| `Queue.Ring.Refill` | os161-1.11/kern/lib/queue.c:41-48 | the new ring holds the old contents in order; no add in the loop finds it full, so growth never nests |
| `Queue.Ring.Grow` | os161-1.11/kern/lib/queue.c:17-51 | contents kept in order; fails exactly without memory and then changes nothing |
| `Queue.Ring.AddTail` | os161-1.11/kern/lib/queue.c:90-108 | appends; grows exactly when full; fails only if that growth does, with the contents unchanged |
| `Queue.Ring.Preallocate` | os161-1.11/kern/lib/queue.c:70-81 | at least n slots, contents unchanged |
| `Queue.Ring.RemHead` | os161-1.11/kern/lib/queue.c:110-121 | the oldest pointer, and the rest in order |
| `Queue.Ring.Empty` | os161-1.11/kern/lib/queue.c:83-88 | true exactly for an empty queue |
| `Queue.Ring.Run` | os161-1.11/kern/lib/queue.c:17-121 | any script of calls on the ring gives the results of the same script on a plain sequence |
| `Queue.FirstInFirstOut` | os161-1.11/kern/lib/queue.c:90-121 | over any script, what was queued or accepted equals what came out followed by what is left |
| `Queue.FitsWithoutMemory` | os161-1.11/kern/lib/queue.c:70-108 | without memory n more pointers are accepted exactly if one slot stays empty: a ring of n slots holds n - 1 |
| `PtrArrays.PtrArray.constructor` | os161-1.11/kern/lib/array.c:15-26 | an empty array without storage |
| `PtrArrays.PtrArray.Preallocate` | os161-1.11/kern/lib/array.c:42-65 | elements kept; room for n; allocates even when there is room already |
| `PtrArrays.PtrArray.Clear` | os161-1.11/kern/lib/array.c:67-89 | no elements; a large array gives its storage back |
| `PtrArrays.PtrArray.Add` | os161-1.11/kern/lib/array.c:99-114 | appends; needs memory exactly when full |
| `PtrArrays.PtrArray.Remove` | os161-1.11/kern/lib/array.c:116-127 | that element goes, the later ones keep their order |
| `Threads.BootInv` | os161-1.11/kern/thread/thread.c:190-251 | the state after bootstrap satisfies the invariant |
| `Threads.ExactlyOnePlace` | os161-1.11/kern/thread/thread.c:384-468 | every thread is in exactly one of: current, one run queue, sleepers, zombies; and nothing else is in any |
| `Threads.DeadIsInert` | os161-1.11/kern/thread/thread.c:121-137 | a zombie, and a thread that does not exist, is not current and on no list from which a thread could run |
| `Threads.NumThreadsCounts` | os161-1.11/kern/thread/thread.c:274-379 | numthreads is the number of running, ready and sleeping threads |
| `Threads.PreallocatedAll` | os161-1.11/kern/thread/scheduler.c:183-198 | preallocation, given its memory, leaves every ring at least that many slots |
| `Threads.StepInv` | os161-1.11/kern/thread/thread.c:274-587 | every step (fork, yield, sleep, exit, wakeup, dispatch) keeps the invariant, rings included |
| `Threads.DispatchInv` | os161-1.11/kern/thread/thread.c:384-468 | picking the next thread keeps the invariant and never fails an assertion |
| `Threads.ZombiesDestroyable` | os161-1.11/kern/thread/thread.c:89-137 | every zombie meets the assertions of thread_destroy when it is exorcised |
| `ThreadRuns.RunInv` | os161-1.11/kern/thread/thread.c:190-587 | the invariant holds after every run of steps from any good state |
| `ThreadRuns.ZombiesStayDead` | os161-1.11/kern/thread/thread.c:477-516 | on every run, after every part of it, a thread that was a zombie is a zombie or destroyed, and not running, ready or asleep, unless its id is given to a new thread |
| `ThreadRuns.PanicsOnlyForMemory` | os161-1.11/kern/thread/thread.c:274-587 | a step panics exactly if it needed an allocation that was refused; a yield needs one exactly when its level holds one thread less than it has slots |
| `ThreadRuns.GrowthsByLevel` | os161-1.11/kern/thread/scheduler.c:307-315 | the allocations that making threads runnable takes are the doublings that the final lengths of the queues ask for |
| `ThreadRuns.YieldNeedsMemory` | os161-1.11/kern/thread/thread.c:419-441 | after a fork, making the current thread ready needs memory exactly when all other live threads are ready at its level and fill it |
| `ThreadRuns.WakeupNeedsMemory` | os161-1.11/kern/thread/thread.c:559-587 | after a fork, a wakeup needs memory exactly when it makes every live thread ready at one level with no more slots than that |
| `ThreadRuns.WakeupByThread` | os161-1.11/kern/thread/thread.c:559-587 | after a fork, a wakeup by a running thread never needs memory |
| `ThreadRuns.FewThreads` | os161-1.11/kern/thread/scheduler.c:307-315 | with fewer than 32 live threads neither yielding nor waking needs memory |
| `ThreadRuns.ForkFits` | os161-1.11/kern/thread/thread.c:317-344 | once its preallocations have succeeded, fork never fails for want of memory |
| `ThreadRuns.ForkBears` | os161-1.11/kern/thread/thread.c:274-379 | a fork that has its memory adds its thread, never run, at the tail of the normal level, and nothing else but room |
| `ThreadRuns.DispatchTakes` | os161-1.11/kern/thread/scheduler.c:233-305 | a dispatch runs the longest waiting thread of the highest level, one level lower; the zombies go exactly if it has run before |
| `ThreadInstances.OneSlotShort` | os161-1.11/kern/thread/thread.c:317-344 | a run from boot in which preallocation is one slot short: 31 forks, then a yield that panics without memory |
| `ThreadRuns.ZombieRoomGivenBack` | os161-1.11/kern/thread/thread.c:121-137 | once there is room for more than 16 zombies, the next dispatch of a thread that has run before leaves none, so that its exit needs memory |
| `ThreadInstances.WakeupFromInterrupt` | os161-1.11/kern/thread/thread.c:559-587 | a run from boot: 31 forks, all 32 threads go to sleep, and the interrupt that wakes them panics without memory |
| `ThreadExits.RoomForExit` | os161-1.11/kern/thread/thread.c:419-441 | with room for everybody, alive or dead, an exit needs no memory |
| `ThreadExits.ForkMakesRoom` | os161-1.11/kern/thread/thread.c:320-336 | a fork makes that room exactly if its preallocation for the living also holds the zombies there are; always if there are none |
| `ThreadExits.RoomStep` | os161-1.11/kern/thread/thread.c:121-137 | the room is lost exactly by a fork that does not make it and by destroying zombies when there is room for more than 16 |
| `ThreadExits.ExitsSafe` | os161-1.11/kern/thread/thread.c:477-516 | on every run without such steps, nobody who exits needs memory |
| `ThreadExits.ExitPanicsExactly` | os161-1.11/kern/thread/thread.c:477-516 | on every run that neither makes room nor destroys zombies, the exit that panics is the one after as many as there was room for, and no other |
| `ThreadExits.DieOutExactly` | os161-1.11/kern/thread/thread.c:477-516 | if all who are ready are new, k threads can exit in turn without memory exactly if there is room for k more zombies |
| `ThreadExits.EverybodyCanExit` | os161-1.11/kern/thread/thread.c:317-344 | and with nobody asleep, all threads can exactly if there is room for everybody |
| `ThreadInstances.ExitAfterGiveBack` | os161-1.11/kern/thread/thread.c:121-137 | runs from boot: with 17 to 31 threads alive and none dead, the boot thread runs again and cannot exit without memory |
| `ThreadInstances.ExitAmongZombies` | os161-1.11/kern/thread/thread.c:320-336 | a run from boot: threads that fork a successor and exit fill the room for zombies, and the seventh cannot exit without memory |
| `ThreadRuns.SleepNeverAllocates` | os161-1.11/kern/thread/thread.c:544-553 | after a successful fork, sleeping needs no memory |
| `ThreadRuns.SleepSafeOnEveryRun` | os161-1.11/kern/thread/thread.c:544-553 | on every run from boot, from the first successful fork on, no sleep fails for want of memory |
| `ThreadRuns.ForkedStays` | os161-1.11/kern/thread/thread.c:274-379 | room in sleepers, once made, is never lost on any run |
| `ThreadRuns.WaitStep` | os161-1.11/kern/thread/scheduler.c:233-315 | a step other than its own dispatch leaves a ready thread waiting, and each dispatch lowers its potential |
| `ThreadRuns.BoundedWaiting` | os161-1.11/kern/thread/scheduler.c:233-315 | while a ready thread waits, dispatches are at most the threads ahead of it plus how far others stand above its level, plus forks at the lowest level |
| `RunQueues.Levels.constructor` | os161-1.11/kern/thread/scheduler.c:159-181 | four empty rings of 32 slots |
| `RunQueues.Levels.Add` | os161-1.11/kern/thread/scheduler.c:307-315 | the thread joins the tail of that level and no other changes; the ring doubles exactly when full, and fails exactly if it cannot |
| `RunQueues.Levels.RemHead` | os161-1.11/kern/thread/scheduler.c:289-297 | the head of that level comes out |
| `RunQueues.Levels.AnyReady` | os161-1.11/kern/thread/scheduler.c:244-257 | true exactly if some level has a thread |
| `RunQueues.Levels.Top` | os161-1.11/kern/thread/scheduler.c:281-288 | the highest level that has a thread |
| `RunQueues.Levels.Preallocate` | os161-1.11/kern/thread/scheduler.c:183-198 | grows the levels in turn, up to the first that cannot be; fails exactly if memory runs out |
| `ThreadSystem.Kernel.constructor` | os161-1.11/kern/thread/thread.c:190-251 | rings, arrays and the boot thread, which together are the abstract boot state |
| `ThreadSystem.Kernel.MakeRunnable` | os161-1.11/kern/thread/scheduler.c:307-315 | the thread joins the tail of the ring of its own priority; fails exactly when that is full and there is no memory |
| `ThreadSystem.ScanIsWakeup` | os161-1.11/kern/thread/thread.c:559-587 | removing while scanning wakes exactly the sleepers on that address, in order, and leaves the others in order |
| `ThreadSystem.Kernel.Wakeup` | os161-1.11/kern/thread/thread.c:559-587 | the abstract wakeup on rings and arrays; fails exactly when a ring has to grow and cannot |
| `ThreadSystem.Kernel.Scheduler` | os161-1.11/kern/thread/scheduler.c:233-305 | the head of the ring of the highest non-empty level, one level lower |
| `ThreadSystem.Kernel.Exorcise` | os161-1.11/kern/thread/thread.c:121-137 | all zombies destroyed, nothing else changed |
| `ThreadSystem.Kernel.IdleLoop` | os161-1.11/kern/thread/scheduler.c:244-257 | interrupts are served until a thread is ready, or one of them runs out of memory |
| `ThreadSystem.Kernel.Yield` | os161-1.11/kern/thread/thread.c:521-531 | the abstract yield, idling and dispatch, in that order |
| `ThreadSystem.Kernel.Sleep` | os161-1.11/kern/thread/thread.c:544-553 | the abstract sleep, idling and dispatch, in that order; after a successful fork the sleep itself never panics |
| `ThreadSystem.Kernel.Exit` | os161-1.11/kern/thread/thread.c:477-516 | the abstract exit, idling and dispatch, in that order |
| `ThreadSystem.Kernel.MakeRoom` | os161-1.11/kern/thread/thread.c:320-336 | the preallocations in turn, up to the first that fails, and the allocations left over |
| `ThreadSystem.Kernel.ForkThread` | os161-1.11/kern/thread/thread.c:274-379 | the abstract fork on rings and arrays, including what a failure half way leaves behind |
| `ThreadSystem.EndsWell` | os161-1.11/kern/thread/thread.c:384-468 | however a call that gives up the processor ends, short of a panic, the invariant holds |
| `SemaphoreObjects.SemObject.constructor` | os161-1.11/kern/thread/synch.c:17-37 | the given count, no Ps and no Vs yet |
| `SemaphoreObjects.SemObject.TurnOfP` | os161-1.11/kern/thread/synch.c:62-83 | takes a unit exactly if there is one, else puts the caller to sleep: the abstract P on the running kernel; its assertion holds |
| `SemaphoreObjects.SemObject.V` | os161-1.11/kern/thread/synch.c:85-95 | the abstract V on the running kernel; fails exactly when that does |
| `Semaphores.EveryRun` | os161-1.11/kern/thread/synch.c:62-95 | over every interleaving: counts never negative, initial count plus Vs equals count plus Ps, and nobody sleeps on a semaphore with units left |
| `Semaphores.OpKeeps` | os161-1.11/kern/thread/synch.c:62-95 | each single operation or kernel step keeps all of that |
| `Semaphores.UnitsBounded` | os161-1.11/kern/thread/synch.c:17-95 | on every run from boot a count is its initial value plus the Vs less the Ps that went through, which never exceed the Vs by more than that value |
| `Semaphores.RecordCounts` | os161-1.11/kern/thread/synch.c:62-95 | the numbers of Ps and Vs on record are those a run performed |
| `Semaphores.FailureIsExternal` | os161-1.11/kern/thread/synch.c:62-95 | P fails exactly if sleeping needs memory that is refused, V exactly on counter overflow or if the rings need more memory than there is; after a fork, by a thread, only the overflow is left |
| `SemaphoreWaits.PTakesOrWaits` | os161-1.11/kern/thread/synch.c:62-83 | a P takes a unit and goes on, or leaves its thread asleep on that very semaphore, exactly if there is none |
| `SemaphoreWaits.StaysAsleep` | os161-1.11/kern/thread/synch.c:62-83 | on every run without a V of the semaphore, whoever sleeps on it goes on sleeping on it |
| `SemaphoreWaits.VWakes` | os161-1.11/kern/thread/synch.c:85-95 | a V makes everybody who sleeps on the semaphore ready, each at its own priority, and keeps nobody asleep on it |
| `SemaphoreWaits.FirstVWakes` | os161-1.11/kern/thread/synch.c:62-95 | so after the first V on any run such a thread is ready |
| `SemaphoreWaits.WaitsForV` | os161-1.11/kern/thread/synch.c:62-95 | a P without a unit to take: its thread waits through any run without a V and is ready after the first one |
| `Bowls.ArgumentCheck` | os161-1.11/kern/asst1/bowls.c:150-156 | the argument check is exact below 2^31 and passes every larger number |
| `Bowls.TooLargeAccepted` | os161-1.11/kern/asst1/bowls.c:150-156 | whatever the number of bowls, 2^31 is accepted as one |
| `Bowls.Monitor.constructor` | os161-1.11/kern/asst1/bowls.c:101-129 | all bowls empty, both counters zero, the mutex free |
| `Bowls.Monitor.Call` | os161-1.11/kern/asst1/bowls.c:150-156 | panics exactly for a bowl number out of range and below 2^31; larger ones get in, and only they break the invariant |
| `Bowls.Monitor.Acquire` | os161-1.11/kern/asst1/bowls.c:160-160 | P(mutex): the thread enters its first or second critical section |
| `Bowls.Monitor.CheckIn` | os161-1.11/kern/asst1/bowls.c:162-176 | panics exactly on a broken rule; otherwise the assertions hold and the right counter goes up by one |
| `Bowls.Monitor.Mark` | os161-1.11/kern/asst1/bowls.c:177-177 | exactly that bowl gets the animal's letter |
| `Bowls.Monitor.Release` | os161-1.11/kern/asst1/bowls.c:186-186 | V(mutex): on to eating, or out |
| `Bowls.Monitor.Uncount` | os161-1.11/kern/asst1/bowls.c:196-198 | the assertions on the way out hold and the right counter goes down by one |
| `Bowls.Monitor.Clear` | os161-1.11/kern/asst1/bowls.c:199-199 | exactly that bowl is empty again |
| `Bowls.Monitor.Run` | os161-1.11/kern/asst1/bowls.c:150-292 | on every interleaving up to a panic or a bowl number from 2^31 up, the counters are the numbers of marked bowls whenever the mutex is free; each event performs the next statement of its thread and nothing else |
| `Bowls.Monitor.Tick` | os161-1.11/kern/asst1/bowls.c:160-199 | the statement the thread is at is performed, or the thread waits for the mutex; no other thread moves |
| `Bowls.GoesIn` | os161-1.11/kern/asst1/bowls.c:160-186 | a thread that nothing forbids and nobody disturbs is eating after four statements, its bowl marked and its kind counted once more |
| `Bowls.VisitRestores` | os161-1.11/kern/asst1/bowls.c:150-205 | after four more it is gone and bowls, counters and mutex are as they were |
| `Bowls.NeverTogether` | os161-1.11/kern/asst1/bowls.c:150-292 | animals eating at once are of one kind and at different bowls |
| `Bowls.CountersExclude` | os161-1.11/kern/asst1/bowls.c:150-292 | bowls are never marked for both kinds, and the counters say so |
| `MipsTlb.NoDupsIffUnambiguous` | sys161-1.14/mipseb/mips.c:387-425 | the duplicate test passes exactly if no lookup whatever matches two entries |
| `MipsTlb.OrderIrrelevant` | sys161-1.14/mipseb/mips.c:427-452 | without duplicates, any matching entry is the one the scan finds |
| `MipsTlb.DebuggerAgrees` | sys161-1.14/mipseb/mips.c:647-788 | the debugger's translation gives a physical address exactly when translatemem does, and the same one |
| `MipsTlb.PageAtATime` | sys161-1.14/mipseb/mips.c:647-726 | translation depends on the page only; the offset is carried over |
| `MipsTlb.NextInPage` | sys161-1.14/mipseb/mips.c:904-942 | the next word of a page translates to the next word |
| `MipsModes.ModeRestored` | sys161-1.14/mipseb/mips.c:520-552 | a balanced nest of exceptions and RFEs restores the interrupted mode exactly if it is at most two deep or that mode was kernel with interrupts off |
| `MipsModes.ThreeDeep` | sys161-1.14/mipseb/mips.c:520-641 | an instance: user mode three exceptions deep comes back as kernel mode |
| `MipsModes.BalancedHistory` | sys161-1.14/mipseb/mips.c:582-641 | what any balanced history of a given depth leaves of the three-level stack |
| `MipsUnaligned.UnalignedLoad` | sys161-1.14/mipseb/mips.c:991-1022 | LWL at a then LWR at a + 3 loads the big-endian word at a, for every alignment |
| `MipsUnaligned.UnalignedStore` | sys161-1.14/mipseb/mips.c:1065-1100 | SWL at a then SWR at a + 3 writes the four bytes from a |
| `MipsUnaligned.UnalignedStoreFrame` | sys161-1.14/mipseb/mips.c:1065-1100 | and changes no other byte |
| `MipsUnaligned.UnalignedRoundTrip` | sys161-1.14/mipseb/mips.c:991-1100 | an unaligned store followed by an unaligned load is the identity |
| `MipsCpu.OnlyFullopRfe` | sys161-1.14/mipseb/mips.c:2409-2456 | the one word the fetch code treats as RFE is the one the decoder does |
| `MipsCpu.Cpu.constructor` | sys161-1.14/mipseb/mips.c:243-297 | reset state: both pages in place and fresh, no duplicate TLB entries |
| `MipsCpu.Cpu.FindTlb` | sys161-1.14/mipseb/mips.c:427-452 | the first matching entry or -1 |
| `MipsCpu.Cpu.LookUp` | sys161-1.14/mipseb/mips.c:647-726 | the physical address or the fault of the translation, recording only the page number |
| `MipsCpu.Cpu.TranslateMem` | sys161-1.14/mipseb/mips.c:647-726 | a fault raises exactly its own exception, with the bad address and at the vector for misses on user addresses or the general one; otherwise nothing but the entry's page number changes |
| `MipsCpu.Cpu.Exception` | sys161-1.14/mipseb/mips.c:582-641 | pushes the mode stack, records cause and address, and lands on the vector, whose own translations cannot fail |
| `MipsCpu.ContextPoints` | sys161-1.14/mipseb/mips.c:580-640 | the context register keeps the page table base and points at the entry of the bad page |
| `MipsCpu.VectorLayout` | sys161-1.14/mipseb/mips.c:580-640 | the vector for misses on user addresses is 0x80 below the general one, at the start of RAM after boot |
| `MipsCpu.Cpu.PrecomputePc` | sys161-1.14/mipseb/mips.c:904-922 | the cached page is a fresh translation of pc exactly if the lookup finds memory, else the exception is taken |
| `MipsCpu.Cpu.PrecomputeNextPc` | sys161-1.14/mipseb/mips.c:924-942 | the same for nextpc |
| `MipsCpu.Cpu.DoRfe` | sys161-1.14/mipseb/mips.c:520-552 | pops the mode stack and goes on at the next two words, both pages fresh in the new mode, exactly if that mode finds them; else the exception, with the next word as the address to return to |
| `MipsCpu.Cpu.ABranch` | sys161-1.14/mipseb/mips.c:1107-1139 | aims nextpc, deferring the lookup exactly when the delay slot is an RFE; an exception exactly if the target is misaligned or its lookup fails |
| `MipsCpu.Cpu.Advance` | sys161-1.14/mipseb/mips.c:2474-2553 | steps pc and nextpc; the cache stays valid within a page and across pages |
| `MipsCpu.Cpu.CheckTlbDups` | sys161-1.14/mipseb/mips.c:387-425 | reports exactly a clash of the written entry with another |
| `MipsCpu.Cpu.WriteTlb` | sys161-1.14/mipseb/mips.c:479-509 | writes that entry; reports exactly the writes that make a lookup ambiguous; refreshes both cached pages |
| `MipsCpu.Cpu.PhonyException` | sys161-1.14/mipseb/mips.c:561-580 | restarts at expc with a fresh cache, or stops the machine |
| `MipsCpu.Cpu.EntryPoint` | sys161-1.14/mipseb/mips.c:2787-2803 | the word the address is in and the one after are next, found afresh, or an exception there; complains exactly of an address not aligned or not to be found |
| `MipsCpu.Cpu.AccessMem` | sys161-1.14/mipseb/mips.c:790-844 | the word is written in RAM or nowhere; a bus error exactly where nothing answers |
| `MipsCpu.Cpu.DoMem` | sys161-1.14/mipseb/mips.c:890-902 | translation fault, bus error or access, in that order; a read that a write will follow is translated as a write; memory changes only by a store that succeeds |
| `MipsCpu.Cpu.StorePart` | sys161-1.14/mipseb/mips.c:1028-1103 | the stores of part of a word: read and write back, nothing written unless both are possible |
| `MipsCpu.StoreReaches` | sys161-1.14/mipseb/mips.c:790-902 | a store that takes no exception leaves its word where a fetch of that address would read it, and nothing else |
| `MipsCpu.Cpu.SetStatus` | sys161-1.14/mipseb/mips.c:1184-1197 | the modes written are the current ones; entering user mode this way leaves the page of pc, and that of nextpc, right exactly if it was right and the address is a user address |
| `MipsCpu.Cpu.SetEntry` | sys161-1.14/mipseb/mips.c:1384-1405 | writing the address space id leaves each cached page right exactly if its address needs no TLB entry or both ids find the same frame |
| `MipsCpu.Cpu.ProbeTlb` | sys161-1.14/mipseb/mips.c:454-477 | the index of the first entry that matches, or the failure bit and the index as it was |
| `MipsCpu.Cpu.MoveTo0` | sys161-1.14/mipseb/mips.c:1382-1405 | which register each number writes, bits and all; what becomes of the cached page when the address space id is written; an unknown register is reserved |
| `MipsCpu.EntryReadsBack` | sys161-1.14/mipseb/mips.c:299-346 | what is written into either half of the entry register is read back, and the other half stays |
| `MipsCpu.StatusReadsBack` | sys161-1.14/mipseb/mips.c:1168-1197 | the modes written into the status register are read back |
| `MipsCpu.Cpu.MoveFrom0` | sys161-1.14/mipseb/mips.c:1357-1380 | reading changes nothing but the range of the random register; an unknown register is reserved |
| `MipsCpu.Cpu.Coprocessor0` | sys161-1.14/mipseb/mips.c:2409-2456 | what each TLB instruction does; ambiguity can arise only where it is reported; user mode becomes unchecked exactly by writing it into status |
| `MipsCpu.Cpu.BeginCycle` | sys161-1.14/mipseb/mips.c:2465-2504 | the address to return to is the branch when in a delay slot; an interrupt is taken exactly when enabled and pending |
| `MipsCpu.Cpu.Cycle` | sys161-1.14/mipseb/mips.c:2458-2676 | the fetch is through a real page, the one its address was last looked up on; when it becomes unchecked and for how long, exactly; an RFE returns from the exception or faults as the popped mode has it, and in user mode is refused; the mode stack moves exactly by interrupt, RFE, exception and status write; inside a page, what every other instruction does to control state and memory |
| `MipsCpu.Cpu.Run` | sys161-1.14/mipseb/mips.c:2458-2676 | on whole runs every fetch is so; it is unchecked exactly from a status write to the next exception or RFE; as long as no duplicate is reported no lookup is ambiguous at any fetch; the mode stack is what interrupts, exceptions, RFEs and status writes make of it cycle by cycle, and without status writes that is the run of the events alone |
| `MipsCpu.ModesRestored` | sys161-1.14/mipseb/mips.c:520-552 | so on a run whose exceptions and RFEs are balanced the machine is back in its mode exactly if they nest at most two deep or that mode was kernel with interrupts off |
| `MipsCpu.FreshExactly` | sys161-1.14/mipseb/mips.c:2458-2676 | a fetch reads where its address translates to now exactly if the mode may use the address and the current address space id finds the frame of the last lookup |
| `MipsCpu.PromisedFetches` | sys161-1.14/mipseb/mips.c:2458-2676 | so every checked fetch in user mode and every kernel fetch from kseg0 or kseg1 does |
| `MipsCpu.StaleKernelFetch` | sys161-1.14/mipseb/mips.c:2458-2676 | and no fetch from a kernel address in user mode does |
| `MipsInstances.StaleStatus` | sys161-1.14/mipseb/mips.c:1184-1197 | two cycles of a kernel from its entry point: it writes user mode into status, and the next fetch is not where its address translates to |
| `MipsInstances.StaleFrame` | sys161-1.14/mipseb/mips.c:1384-1405 | seven cycles: a kernel maps a page of kseg2, jumps there and changes the address space id, and the next fetch is not where its address translates to |
| `MipsCpu.LocatedFrame` | sys161-1.14/mipseb/mips.c:850-888 | an address found under one id is found in the same place under another exactly if it needs no entry or both find the same frame |
| `EventOrder.InsertOrdered` | sys161-1.14/main/clock.c:128-139 | inserting behind everything due no later keeps the queue ordered by time and, among ties, by arrival |
| `EventOrder.EachExactlyOnce` | sys161-1.14/main/clock.c:92-140 | an ordered list as long as the number of events scheduled has each event exactly once |
| `Clock.FiresOnceOnTime` | sys161-1.14/main/clock.c:92-140 | an event fires at most once, at its own clock; once the clock is past, it has fired; firing order is by time, then first come first served |
| `Clock.AllDueFired` | sys161-1.14/main/clock.c:92-107 | after a check of the queue every event due by now has fired |
| `Clock.SleptExactlyWhen` | sys161-1.14/main/clock.c:350-361 | the time slept is right exactly when the microseconds did not wrap, else one second too long |
| `Clock.SleptInstance` | sys161-1.14/main/clock.c:350-361 | 0.2 s across the turn of a second is taken for 1.2 s |
| `Clock.Events.constructor` | sys161-1.14/main/clock.c:78-86 | all nodes in the pool, nothing pending |
| `Clock.Events.AcAlloc` | sys161-1.14/main/clock.c:57-68 | a node from the pool, or failure exactly when it is empty |
| `Clock.Events.AcFree` | sys161-1.14/main/clock.c:70-76 | the node heads the pool |
| `Clock.Events.FindSlot` | sys161-1.14/main/clock.c:132-136 | behind every event due no later, before the first due later |
| `Clock.Events.LinkNode` | sys161-1.14/main/clock.c:138-139 | the node is in the queue at that place; queue and pool stay disjoint lists |
| `Clock.Events.Schedule` | sys161-1.14/main/clock.c:109-140 | one more event, due after its delay in whole clocks, the rest dropped; queue and pool still partition the nodes; a head that is firing stays the head |
| `Clock.Events.RunCallback` | sys161-1.14/main/clock.c:92-107 | a callback may schedule any events, at once or later, while its own node heads the queue, each due after its own delay; fails exactly if there are fewer nodes than events |
| `Clock.Events.DropHead` | sys161-1.14/main/clock.c:103-105 | the head, and no other event, has fired now |
| `Clock.Events.CheckQueue` | sys161-1.14/main/clock.c:92-107 | the invariant holds through re-entrant callbacks; nothing due now is left; all that fires does so at this clock, and the callbacks that ran have scheduled exactly their events; does not fail with nodes enough for them |
| `Clock.Events.ClockAdvance` | sys161-1.14/main/clock.c:172-191 | virtual time moves by exactly the given nanoseconds |
| `Clock.Events.Tick` | sys161-1.14/main/clock.c:267-272 | 40 ns later, and one clock unless the pool ran out, no pending event is overdue |
| `Clock.Events.DoWait` | sys161-1.14/main/clock.c:287-301 | idle time is accounted exactly and the "queue screwed up" alarm cannot sound |
| `Clock.Events.WaitStep` | sys161-1.14/main/clock.c:331-368 | waiting goes exactly to the next event, which then fires, with virtual time in step with the clock; with none pending, time moves by what the host says, a second more if the microseconds wrapped |
| `Clock.Events.Run` | sys161-1.14/main/clock.c:92-368 | any sequence of scheduling, ticking and waiting: every event fires at most once, at its own clock, by the time that clock is past and in order; virtual time is the clocks run plus what was idled away; the "queue screwed up" alarm never sounds; every event fires as many nanoseconds after it was asked for as its clocks make, plus what was idled away, give or take a tick under way |
| `Clock.WindowExactly` | sys161-1.14/main/clock.c:109-191 | when that is more than the delay less 40 and at most the delay and one percent |
| `Clock.LateInstance` | sys161-1.14/main/clock.c:267-272 | an event without delay, asked for outside a tick, fires in the next one, 40 ns later |
| `Clock.EarlyInstance` | sys161-1.14/main/clock.c:331-368 | an event with a delay of 40 ns, asked for in a tick, fires in the wait after it with no time gone by |
| `Clock.HistoryRight` | sys161-1.14/main/clock.c:92-140 | that is what the event queue's history means |
| `DiskGeometry.LocateFindsSector` | sys161-1.14/bus/dev_disk.c:411-438 | the sector at the track and offset found is the sector looked for |
| `DiskGeometry.SectorLocated` | sys161-1.14/bus/dev_disk.c:411-438 | and every track and offset is found from its sector number |
| `DiskGeometry.LocateSector` | sys161-1.14/bus/dev_disk.c:411-438 | finds them; fails exactly for a sector beyond the last |
| `DiskTiming.RevBounds` | sys161-1.14/bus/dev_disk.c:599-609 | every accepted rpm gives a revolution of more than zero and at most a second |
| `DiskTiming.NextIsLeast` | sys161-1.14/bus/dev_disk.c:479-483 | the turning loop stops at the first passage not before the given time, at most a revolution later |
| `DiskTiming.WriteDelayBound` | sys161-1.14/bus/dev_disk.c:510-547 | a write waits at least the sector time and less than a revolution plus the sector time |
| `DiskTiming.ReadDelayBound` | sys161-1.14/bus/dev_disk.c:454-508 | a read waits at most a revolution |
| `DiskTiming.WriteWaitsForSector` | sys161-1.14/bus/dev_disk.c:510-547 | a write waits for the first time its sector starts under the head, and for the sector to pass |
| `DiskTiming.ReadWaitsForEnd` | sys161-1.14/bus/dev_disk.c:454-508 | a read does not wait exactly if the end of its sector has passed under the head since it got to the track, and else waits until the first time it does |
| `DiskTiming.WriteRotDelay` | sys161-1.14/bus/dev_disk.c:510-547 | in 32-bit arithmetic, the exact time until the sector has passed under the head |
| `DiskTiming.ReadRotDelay` | sys161-1.14/bus/dev_disk.c:454-508 | in 32-bit arithmetic, the exact time until the sector is in the track buffer, none if it has passed |
| `DiskMachine.EveryRun` | sys161-1.14/bus/dev_disk.c:649-908 | whatever the guest writes and whenever: at most one timer, exactly while timedop is set; the interrupt follows the completion bit; only real sectors are transferred |
| `DiskMachine.Undisturbed` | sys161-1.14/bus/dev_disk.c:649-864 | a request on a quiet disk ends after at most three timers with exactly one transfer, of that sector and direction, and an interrupt; the status word is completion, direction, and a media error exactly if the host failed that transfer; the fallback is taken exactly if old and new tries exceed ten |
| `DiskMachine.ServiceTime` | sys161-1.14/bus/dev_disk.c:649-818 | with punctual timers it is done exactly after the seek, if its track is another, and then for a write the cache and the wait for its sector, for a read the wait for its sector's end and the copy |
| `DiskMachine.NoFallback` | sys161-1.14/bus/dev_disk.c:705-725 | with at most six tries left over, the fallback is never taken |
| `DiskMachine.AbandonedTries` | sys161-1.14/bus/dev_disk.c:837-864 | every request taken back before its first timer leaves a try behind, whenever it is started, taken back and its timer expires |
| `DiskMachine.FallbackReachable` | sys161-1.14/bus/dev_disk.c:705-725 | ten abandoned writes, at any moments, make the next request take the fallback |
| `DiskMachine.InvalidSector` | sys161-1.14/bus/dev_disk.c:697-703 | a request on a quiet disk is refused at once, with completion, direction and the invalid-sector bit as its status and no transfer, exactly for a sector off the disk |
| `DiskMachine.DiskDevice.constructor` | sys161-1.14/bus/dev_disk.c:554-631 | a quiet disk on track 0 |
| `DiskMachine.DiskDevice.DoWork` | sys161-1.14/bus/dev_disk.c:674-818 | the device does the abstract step; its sector search never fails |
| `DiskMachine.DiskDevice.DoUpdate` | sys161-1.14/bus/dev_disk.c:821-833 | the same with the interrupt line set or cleared |
| `DiskMachine.DiskDevice.DoSetStatus` | sys161-1.14/bus/dev_disk.c:837-864 | the abstract status write; hangs exactly on an illegal value |
| `DiskMachine.DiskDevice.Callback` | sys161-1.14/bus/dev_disk.c:649-672 | the abstract expiry of a seek or a wait |
| `DiskMachine.DiskDevice.Perform` | sys161-1.14/bus/dev_disk.c:649-908 | any guest write or timer expiry on the device is the abstract step; hangs exactly on an illegal status, and its internal faults never show |
| `DiskMachine.DiskDevice.Play` | sys161-1.14/bus/dev_disk.c:649-908 | any script of them in order of time, up to an illegal status, is the abstract run, so `EveryRun` holds of the device |
| `RandomStream.RegisterHoldsStream` | os161-1.11/lib/libc/random.c:413-442 | the shift register always holds the latest deg words of the stream |
| `RandomStream.StreamRecurrence` | os161-1.11/lib/libc/random.c:413-442 | every produced word is the sum, modulo 2^32, of those deg and sep places back |
| `RandomStream.WindowStep` | os161-1.11/lib/libc/random.c:427-439 | adding the rear word into the front word and advancing both pointers is one shift of the register |
| `Random.OutputsFollowTrinomial` | os161-1.11/lib/libc/random.c:413-442 | the k-th number returned is the k-th word of that stream, halved |
| `Random.StaleRearPointer` | os161-1.11/lib/libc/random.c:344-372 | setstate on the current state resumes the same generator exactly if turning the table from the saved rear pointer to the present one leaves it the same |
| `Random.StaleUnlessBack` | os161-1.11/lib/libc/random.c:344-372 | when the words differ, exactly if the rear pointer is back where it was saved |
| `Random.StaleInstance` | os161-1.11/lib/libc/random.c:170-183 | the library's initial generator, asked for one number and set to its own state, is not where it was |
| `Random.WholeTurns` | os161-1.11/lib/libc/random.c:243-246 | whole turns bring a pointer back to the start |
| `Random.Package.constructor` | os161-1.11/lib/libc/random.c:170-216 | the static initial state is a valid, resumable generator of type 3 |
| `Random.Package.Advance` | os161-1.11/lib/libc/random.c:431-439 | both pointers move one place round and stay sep apart, though the rear one is compared only if the front one did not wrap |
| `Random.Package.RandomFeedback` | os161-1.11/lib/libc/random.c:423-440 | one shift of the register; the new word without its lowest bit |
| `Random.Package.RandomUnlocked` | os161-1.11/lib/libc/random.c:413-442 | one step of whichever generator is current |
| `Random.Package.Run` | os161-1.11/lib/libc/random.c:413-453 | n calls return the first n numbers of the generator |
| `Random.Package.FillSeed` | os161-1.11/lib/libc/random.c:239-241 | the linear congruential table of the seed |
| `Random.Package.WarmUp` | os161-1.11/lib/libc/random.c:242-245 | ten times deg shifts, after which the rear pointer is at 0 |
| `Random.Package.SrandomUnlocked` | os161-1.11/lib/libc/random.c:230-247 | the generator of that seed and the current type |
| `Random.Package.Save` | os161-1.11/lib/libc/random.c:295-298 | a saved state, resumed, is the generator it was |
| `Random.Package.InitState` | os161-1.11/lib/libc/random.c:281-332 | the best type that fits, seeded, saved; the previous state saved; null exactly below eight bytes |
| `Random.BestTypeFits` | os161-1.11/lib/libc/random.c:299-320 | the type chosen is the largest whose state fits the bytes given |
| `Random.Package.SetState` | os161-1.11/lib/libc/random.c:353-394 | the saved generator resumes and the current one is saved; null exactly for a negative remainder |
| `Random.Package.Interlude` | os161-1.11/lib/libc/random.c:353-394 | away to another state, any numbers from it, and back: the first sequence goes on where it was |
| `Numerals.ReadsNumeral` | os161-1.11/lib/libc/atoi.c:42-63 | reading the decimal digits of any 32-bit number gives the number |
| `Numerals.ZerosChange` | os161-1.11/lib/libc/atoi.c:42-63 | appending decimal zeros changes a 32-bit number modulo 2^32 unless it is zero |
| `Atoi.Read` | os161-1.11/lib/libc/atoi.c:20-72 | blanks, a sign, then digits up to the first other character, modulo 2^32 |
| `Printf.PrintsNumber` | os161-1.11/lib/libc/__printf.c:461-553 | a single integer conversion with any modifiers prints exactly its padded number |
| `Printf.PrintsInBase` | os161-1.11/lib/libc/__printf.c:461-553 | %u, %o and %x print the digits of the number in decimal, octal and hexadecimal, with the prefix of C for # and %p |
| `Numerals.NumeralValue` | os161-1.11/lib/libc/__printf.c:378-432 | the digits printed in a base have that value in that base |
| `Printf.WidthRead` | os161-1.11/lib/libc/__printf.c:149-206 | a decimal field width of any size is read as the number it spells |
| `Printf.PrintThenRead` | os161-1.11/lib/libc/__printf.c:213-456 | for every int and every flags and width, atoi reads %d output back exactly unless the field is left-aligned, zero-filled, wider than the number, and the number is not zero |
| `Printf.ZerosOnTheRight` | os161-1.11/lib/libc/__printf.c:330-369 | an instance where it does not |
| `Printf.Pf.constructor` | os161-1.11/lib/libc/__printf.c:535-547 | nothing printed, no field open |
| `Printf.Pf.EndField` | os161-1.11/lib/libc/__printf.c:124-138 | all modifiers forgotten |
| `Printf.Pf.Modifier` | os161-1.11/lib/libc/__printf.c:149-206 | the effect of each modifier; its assertion holds |
| `Printf.Pf.GetNum` | os161-1.11/lib/libc/__printf.c:213-276 | magnitude and sign of the argument, the most negative int included |
| `Printf.Pf.SetBase` | os161-1.11/lib/libc/__printf.c:288-308 | the base and whether a prefix is due |
| `Printf.Pf.FillOut` | os161-1.11/lib/libc/__printf.c:313-322 | that many fill characters |
| `Printf.Pf.PrintStuff` | os161-1.11/lib/libc/__printf.c:330-369 | prefixes, padding and text in the order the alignment and fill ask for |
| `Printf.Pf.Digits` | os161-1.11/lib/libc/__printf.c:378-432 | the digits of the number in its base, in a buffer of 12 characters that they never overrun |
| `Printf.Pf.PrintNum` | os161-1.11/lib/libc/__printf.c:378-456 | the padded number with its prefixes |
| `Printf.Pf.Send` | os161-1.11/lib/libc/__printf.c:461-528 | one format character does the abstract step |
| `Printf.Vprintf` | os161-1.11/lib/libc/__printf.c:535-553 | the whole format, and the count of characters printed |
| `UserCopy.CopyCheck` | os161-1.11/kern/lib/copyinout.c:76-103 | passes exactly blocks that start in user space and do not wrap; the length is cut at USERTOP |
| `UserCopy.Memory.CopyOut` | os161-1.11/kern/lib/copyinout.c:148-175 | succeeds exactly for a non-empty block in mapped user space, and then writes it; never a byte elsewhere |
| `UserCopy.Memory.CopyIn` | os161-1.11/kern/lib/copyinout.c:112-139 | succeeds exactly for such a block, with its bytes |
| `UserCopy.CopyStr` | os161-1.11/kern/lib/copyinout.c:193-213 | the string and its length if it ends in time; EFAULT exactly at the end of user space, else ENAMETOOLONG |
| `UserIo.UioMove` | os161-1.11/kern/userprog/uio.c:11-82 | moves as much as block and data allow, or nothing if nothing is left to move, or fails and changes only the block; panics exactly if the block ends before the data and the residual count does not end with it |
| `UserIo.UioTake` | os161-1.11/kern/userprog/uio.c:11-82 | the other direction: exactly those bytes of the block, or failure with the uio as it was |
| `UserIo.UioMoveZeros` | os161-1.11/kern/userprog/uio.c:84-108 | for any count: how many zeros are written, 16 at a time, exactly when it fails and exactly when uiomove complains of a short block; nothing beyond them changes |
| `LoadElf.VopRead` | os161-1.11/kern/userprog/loadelf.c:61-64 | a read in blocks of any size delivers the file's bytes up to its end |
| `LoadElf.LoadSegment` | os161-1.11/kern/userprog/loadelf.c:35-82 | on success the segment is the file's bytes then zeros, all below USERTOP; in any case no other byte changes; it succeeds whenever file, memory and device allow |

## Left out

- KHeapAllocator.Heap.Kfree: requires a live pointer or NULL, because the source does not detect a double free.
- KHeapAllocator.Heap.SubpageKfree: requires a live pointer, for the same reason.
- KHeapAllocator.Heap.Kmalloc: requires that the page allocator does not answer with the start of a run still in use, and for small blocks that it answers with a page nobody has; `KHeapRuns` proves both of dumbvm's.
- KHeapAllocator.Heap.AllocPageRef: the in-use bitmap is an array of flags scanned word by word; the bit operations on a word are not modelled.
- KHeapAllocator.Heap.FreePageRef: clears a flag of that array; the bit mask is not modelled.
- Queue.Ring.AddTail: sizes are unbounded integers; the source's check that doubling did not overflow is not modelled.
- Queue.Ring.GrownSize: the same.
- Queue.Ring.RemHead: requires a non-empty queue, as the source's assertion does; Queue.Ring.Run models that assertion as a panic.
- ThreadSystem.Kernel.ForkThread: process ids, stacks and the machine context of the new thread are not modelled; it starts where interrupts go off.
- SemaphoreObjects.SemObject.TurnOfP: one turn of P's loop, because other threads run between its turns; whole Ps are runs of such turns in `Semaphores`.
- MipsCpu.Cpu.Cycle: general registers and arithmetic instructions are not modelled; an instruction's effect on control and memory is a parameter.
- MipsCpu.Cpu.StorePart: the merged word is a parameter; `MipsUnaligned` has what is merged for an unaligned store.
- MipsCpu.Cpu.MoveFrom0: the values read go to general registers, which are not modelled; `EntryReadsBack` and `StatusReadsBack` have those of the registers that translation depends on.
- MipsCpu.Cpu.AccessMem: the devices behind the bus registers are a success flag.
- Clock.Events.Schedule: 64-bit overflow of the clock and the guest setting the time are not modelled.
- Clock.Events.WaitStep: one round of the loop, whose end depends on an interrupt line.
- Clock.Events.DoWait: the sleep that keeps the simulator in step with the host's clock is not modelled.
- DiskTiming.ReadRotDelay: requires that time has not gone back since the head reached its track.
- DiskMachine.DiskDevice.constructor: track sizes and seek times, which the source computes in floating point, are arbitrary; the disk image file is a success flag.
- DiskMachine.DiskDevice.DoWork: which sector is transferred and in which direction is modelled, its bytes are not.
- Random.Package.SetState: requires that a word 0 below 2^31 holds a rear pointer inside the table, because the source does not check it.
- Random.Package.constructor: that the static table equals the one seeding with 1 produces is not proved.
- Printf.WidthRead: widths are unbounded integers; the source's overflow beyond int is not modelled.
- Printf.Vprintf: field widths are unbounded integers.
- LoadElf.LoadSegment: the header parsing and the loop over segments in load_elf are not modelled.
- copyinstr and copyoutstr, apart from the check and the copy they share; the setjmp and longjmp recovery is a fault flag per address.
- File tables and open files, which are unfinished in the source; locks, condition variables, address spaces and the cat and mouse threads, which are stubs.
- thread_shutdown and the process-id pool.
- The gdb stub, console, network, emulated file system, tracing, disassembly and statistics of the simulator: input and output only.
- String functions, the bitmap, and the file system utilities: they would only add easy members.
