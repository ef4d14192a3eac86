# RT-Thread kernel core and motor control: a model and its proofs

This project models the RT-Thread 4.0.2 kernel of a robot firmware, and two small pieces of its
motor control, in Dafny: the four allocators, the timer queue, the scheduler, the IPC objects, the
bounded printer, the PID controller and the encoder count. It is configured as rtconfig.h
configures the firmware: one processor, 32 priorities, alignment to words of 4 bytes. One function
lies outside that configuration: rtconfig.h defines RT_USING_CPU_FFS, so that the firmware has an
`__rt_ffs` in assembler, and the portable one of kservice.c, modelled in `ReadyBits`, is for
processors without such an instruction.

Code that changes state in place is a class whose methods change the same fields, in the same
branches. What such a method does is stated as a function or a predicate of the state before it,
and what the kernel promises is proved about those.

| files | what they model |
|---|---|
| `HeapChain`, `SmallMem` | mem.c. Headers and payloads lie in one array of words, so that a header written in the wrong place would show as a changed payload. `HeapChain` is the theory of an arena tiled by blocks: split, join, take, free |
| `FreeRing`, `MemHeap` | memheap.c on the same theory, with the second ring through the free blocks |
| `PageRuns`, `PageList`, `SizeClass`, `SlabZone`, `SlabState`, `SlabPages`, `SlabAlignment`, `Slab` | slab.c: the page list kept in the free pages, the size classes, one zone, all zones with the page table, what becomes of pages and zones, and how what is handed out is aligned |
| `MemPool` | mempool.c, with the threads that wait for a block |
| `TimerRows`, `TimerState`, `TimerSweep`, `TimerEnds`, `Timer` | timer.c: the rows of the skip list on wrap-around ticks, start, stop, and the timer interrupt with timeout functions that start and stop any timers. `TimerSweep` is what a run of rt_timer_check does, as a function, `TimerEnds` when it ends |
| `WaitList`, `WaitTurn`, `Semaphore`, `MutexState`, `MutexHold`, `MutexObject`, `EventState`, `EventObject`, `MailBox`, `MessageQueueState`, `MessageQueueTurns`, `MessageQueue` | ipc.c. `WaitTurn` says in which order waiting threads are resumed, `MutexHold` how long a mutex is owned. A step is one section with interrupts disabled; the theorems are about every sequence of steps of all threads. Timeouts are steps that may happen at any time |
| `SchedulerState`, `SchedulerEffects`, `ReadyBits`, `Scheduler` | scheduler.c from its initialization on, the parts of thread.c that change ready queues, and `__rt_ffs`; `SchedulerEffects` says what each operation does to threads and queues, apart from the state machine |
| `RtList`, `WaitNodes` | the intrusive list under all of these, and the waiting lists and ready queues as rings of its nodes |
| `NumberText`, `FormatText`, `DirectiveText`, `ConversionText`, `FormatPieces`, `Printer` | print_number and rt_vsnprintf; `DirectiveText` is a grammar of directives and what each says, `ConversionText` how what it prints looks and reads, `FormatPieces` a format as the pieces it is made of |
| `Pid`, `Encoder` | pid_calc and get_moto_measure |

`Lists`, `LinkedList`, `Division`, `Align`, `MemCopy` and `Wrappers` hold what several of them share.

An operation that the kernel interrupts is a method for each of its critical sections, and each
such method is proved to be one event of a state machine (`MessageQueue` of `MessageQueueState`,
and so on). The invariants, and what they mean over whole histories, are proved about the state
machine. Ghost parameters and fields carry what the C code does not store, for instance where the
blocks start or which thread holds which slot.

## Where the code does not do what it promises

The model follows the code. For each of these there is the exact condition, or a concrete input.

- mem.c: an allocation fails although a block fits if and only if every block that fits is the
  last of the arena and fits without remainder (`FailsOnlyOnExactTail`; a fresh heap in
  `ExactTailRefused`). Shrinking by realloc can leave a free block below the hint `lfree`, which is
  then not found: exactly if the hint lies behind the block and is not the free block next to it
  (`Heap.Realloc`, `Heap.Strands`; reached by calls in `StrandedByRealloc`).
- memheap.c: the comparison with `available_size` is strict; a fitting block is turned down if and
  only if it is all the free memory and fits exactly (`RefusedOnlyIfAll`; a fresh pool in
  `AllRefused`).
- slab.c: its comment promises that power-of-2 sizes are aligned to themselves. What rt_malloc
  returns for one is so aligned if and only if the first page of the block that serves it is, which
  can be told before the call, and surely if the size is at most a page (`Slab.Malloc`, `Serves`,
  `ServesOnce`). Above a page the promise fails for every power of 2, in the first call on a heap
  twice as large (`FirstCallMisaligned`): 8192 bytes in a heap of four pages lie at page 1. The same
  comment says that malloc(0) returns a block; the code returns RT_NULL, and so does the model.
- timer.c: a timer that has just fired is pending but flagged inactive, so that rt_timer_stop does
  not find it, if and only if it is a one-shot timer that its own timeout function started last
  (`FiredFlags`); it stays so for the rest of the run if and only if no timer fired later starts it
  (`FlagsOverRun`; both cases in `LostOrNot`). rt_timer_stop leaves its timer pending if and only if
  the last call an interrupt makes for it, before the flag is cleared, starts it
  (`StopInterrupted`). rt_timer_start enables interrupts in between, and if an interrupt starts the
  same timer there it is linked twice, which breaks queue and list, and does so in this case only
  (`Finish`, `LinkExactly`, `InsertExactly`; for every queue in `StartInterrupted`, a concrete one
  in `StartedTwice`). The loop of rt_timer_check does not end if a periodic timer without delay is
  due and nobody stops it (`Endless`), and ends if periodic ones stop themselves and no circle of
  timers start each other without delay (`RankedEnds`).
- ipc.c: priority inheritance reaches one mutex far. `InversionExactly` says exactly when an owner
  can end up weaker than a waiter. Priorities are given back correctly over a run if and only if no
  mutex was ever handed to a boosted thread (`OriginalsExactly`, `GivenBackExactly`). A boost
  outlasts its cause exactly if a last release restores a priority that was itself boosted, or a
  waiter gives up, also with a single mutex (`WarrantedExactly`, `WarrantedRunExactly`; reached in
  `NestedKeepsBoost` and `ExpiryKeepsBoost`).
- thread.c: the comment on rt_thread_yield says that the thread yields the processor; without the
  yield flag, which only the tick sets, the scheduler stays with it as long as no stronger thread
  is ready (`SwitchesExactly`).
- kservice.c: `%o` prints hexadecimal digits (`OctalExactly`). A number printed with precision 0
  leaves no digits, so that only 0 reads back (`ReadsBackExactly`).
- packageProcess.c: a step of exactly half a turn is counted right only in the direction in which
  the reported angle does not wrap (`StepExactly`).

## Model

| member | source | states |
|---|---|---|
| HeapChain.Conservation | rt-thread/src/mem.c:349-369 | at any block, the extents of the used blocks from there on and those of the free ones add up to what is left of the arena: nothing is lost or counted twice |
| HeapChain.LiveDisjoint | rt-thread/src/mem.c:311-347 | two live payloads never overlap, a whole header lies between them, and both lie inside the arena |
| HeapChain.Predecessor | rt-thread/src/mem.c:182-193 | the prev link of a header leads to the block that ends where it starts |
| HeapChain.PayloadClear | rt-thread/src/mem.c:329-348 | no header word lies inside a payload, so that writing headers cannot change a payload |
| HeapChain.SplitChain | rt-thread/src/mem.c:329-348 | the four header writes of a split turn one tiling of the arena into the tiling with one more header |
| HeapChain.SplitUnnoticed | rt-thread/src/mem.c:329-348 | splitting a free block changes no live payload, neither its extent nor its words |
| HeapChain.SplitNoticed | rt-thread/src/mem.c:478-491 | cutting a used block is noticed by its owner alone, who keeps the words in front of the cut |
| HeapChain.Carved | rt-thread/src/mem.c:316-354 | split and take in one: one payload is new, all others are as they were, no two free blocks become neighbours, and the sum of the heap moves by the weight of the parts |
| HeapChain.Taken | rt-thread/src/mem.c:355-370 | the same for a block taken as a whole |
| HeapChain.Freed | rt-thread/src/mem.c:590-604 | a freed block removes one payload, and free neighbours exist around it only |
| HeapChain.MergeChain | rt-thread/src/mem.c:170-181 | joining a block with the free block behind it leaves a tiling with one header less |
| HeapChain.Merged | rt-thread/src/mem.c:170-193 | joining two free blocks is noticed by nobody, and exactly the second one is no longer free |
| HeapChain.MergedBack | rt-thread/src/mem.c:182-193 | joining to the left after joining to the right leaves no two free neighbours anywhere |
| HeapChain.NoticedMoved | rt-thread/src/mem.c:499-509 | allocate, copy and free the old block together amount to moving one payload with its contents, noticed by nobody else |
| SmallMem.Heap.constructor | rt-thread/src/mem.c:204-257 | the heap starts as one free block, with nothing used and the hint at it; the invariant holds |
| SmallMem.Heap.PlugHoles | rt-thread/src/mem.c:156-194 | joins a free block with its free neighbours on either side: no live payload changes, no two free blocks are neighbours any more, the hint stays a free block or the end, and stays the lowest one if it was; when the block in front is used, where exactly the hint ends up |
| SmallMem.Heap.FirstFit | rt-thread/src/mem.c:305-311 | the search ends, and finds the lowest free block at or above the hint that can hold the request and starts below the strict loop bound, or there is none |
| SmallMem.Heap.Malloc | rt-thread/src/mem.c:272-410 | keeps the invariant (tiling, links, no two free neighbours, used_mem the sum of the used blocks, max_mem above it) and the hint lowest; hands out the lowest block that holds the requested bytes; the payload has at least as many bytes and, unless what is left over would be less than a header and a minimal payload, less than a word more; every other payload is the same; max_mem is the larger of itself and used_mem; a failed call changes nothing, and means that no block holds so many bytes |
| SmallMem.Heap.Free | rt-thread/src/mem.c:546-609 | removes the one payload and nothing else, lowers used_mem by its extent, keeps the invariant and the hint lowest; a null pointer changes nothing |
| SmallMem.Heap.Shrink | rt-thread/src/mem.c:471-497 | giving back a tail keeps the invariant and the first words of the payload, and says where the hint is afterwards |
| SmallMem.Heap.Realloc | rt-thread/src/mem.c:421-510 | which of the outcomes (refused, freed, allocated, kept, cut, moved) happens for which request; the payload keeps its first min(old, new) words and nobody else notices; after a cut, what is free and where the hint is; max_mem when old and new are both allocated in between; an address outside the heap comes back unchanged; and exactly when the hint stays lowest; what fits and what is handed out is said in bytes |
| Align.Words | rt-thread/src/mem.c:289-289 | rounding up to whole words: the fewest words that hold the bytes |
| SmallMem.FitInBytes | rt-thread/src/mem.c:305-311 | the lowest block with the words of a request is the lowest one that holds its bytes |
| SmallMem.Heap.MallocAligned | rt-thread/src/mem.c:421-510 | the call of rt_malloc from rt_realloc, with a size aligned already, in bytes |
| SmallMem.StrictBoundMissesExactTail | rt-thread/src/mem.c:305-307 | the strict bound of the search loop leaves out, of the free blocks that fit, exactly the one that ends the arena and fits without remainder |
| SmallMem.FailsOnlyOnExactTail | rt-thread/src/mem.c:305-311 | with a lowest hint, an allocation fails if and only if every free block that could hold it is that exact tail |
| SmallMem.ExactTailRefused | rt-thread/src/mem.c:305-311 | a fresh heap of ten words: a request for all ten is refused, one for nine is not |
| SmallMem.StrandedTail | rt-thread/src/mem.c:471-497 | a concrete heap in which shrinking by realloc leaves a free block below the hint that malloc then does not find |
| SmallMem.StrandedByRealloc | rt-thread/src/mem.c:421-510 | the same reached by calls: on a fresh heap of ten words rt_malloc of nine, rt_realloc to one, and a last rt_malloc is refused although a search from the start of the arena would find a block |
| FreeRing.Unlinked | rt-thread/src/memheap.c:215-219 | unlinking a block from the doubly linked free ring leaves a ring of the others in the same order |
| FreeRing.Pushed | rt-thread/src/memheap.c:221-225 | linking a block in front leaves a ring with it first |
| MemHeap.FreeIsSummed | rt-thread/src/memheap.c:155-180 | a free block is never larger than the sum of all free blocks |
| MemHeap.RefusedOnlyIfAll | rt-thread/src/memheap.c:155-155 | the strict comparison with available_size turns a fitting block down if and only if it is all the free memory there is and fits without remainder |
| MemHeap.AllRefused | rt-thread/src/memheap.c:155-155 | a fresh heap of ten words, all of them free: the comparison turns a request for all ten down |
| MemHeap.JoinedRight | rt-thread/src/memheap.c:559-578 | joining with the right neighbour: the tiling, coalescing, free blocks, live payloads and the sum of free sizes afterwards, for a free and for a used block alike |
| MemHeap.Pool.constructor | rt-thread/src/memheap.c:50-121 | the pool starts as one free block on the free ring and a used tail; the invariant holds and the counters say so |
| MemHeap.Pool.FindFit | rt-thread/src/memheap.c:169-180 | the search along the free ring ends at its first block that is large enough, or at the list header if there is none |
| MemHeap.Pool.Alloc | rt-thread/src/memheap.c:138-281 | keeps the invariant: the free ring holds exactly the free blocks of the address ring, each once; no two free blocks are neighbours; available_size is the sum of the free sizes. Fails exactly if as much is not free or not in one block, takes the first block of the free ring that fits, and max_used_size rises to what is used now if that is more; all of it said in bytes: what is refused, which block serves, and that the payload holds the requested bytes and, where it is cut, less than a word more |
| MemHeap.Pool.AllocCut | rt-thread/src/memheap.c:188-236 | the splitting branch: one payload of the requested size, rings and coalescing kept, the sum of free sizes smaller by payload and header; the block leaves the free ring, and what is cut off goes to the front of it |
| MemHeap.Pool.Settle | rt-thread/src/memheap.c:538-591 | joining a freed block on both sides and inserting it in the free ring: rings agree, nothing free next to another, available_size the sum, no live payload changed; a free block behind leaves the free ring, and the freed block goes to its front unless it became part of a free one in front of it; the others keep their order |
| MemHeap.Pool.Free | rt-thread/src/memheap.c:495-595 | removes the one payload and nothing else; keeps the invariant; available_size does not fall; what is free now comes first on the free ring, unless it was joined to a free block in front of it, and the others keep their order |
| MemHeap.Pool.Grow | rt-thread/src/memheap.c:350-393 | growing in place into the free block behind: the payload has exactly the new size and all its old words, nobody else notices, available_size falls by the growth, max_used_size follows, the invariant holds |
| MemHeap.Pool.Shrink | rt-thread/src/memheap.c:432-491 | giving back a tail, joined with a free block behind it: the payload has exactly the new size and its first words, the invariant holds |
| MemHeap.Pool.Realloc | rt-thread/src/memheap.c:284-492 | in place if and only if the block need not grow or can grow into the one behind; refused exactly if neither and no free block fits; otherwise moved with its contents; max_used_size counts old and new block while both are allocated; nobody else notices and the invariant holds; fitting, growing and what is handed out are said in bytes |
| MemHeap.Pool.RefusedInBytes | rt-thread/src/memheap.c:155-180 | refusal in words is refusal in bytes: as many bytes are not free, or not in one block |
| MemHeap.FirstInBytes | rt-thread/src/memheap.c:169-180 | the first block of the ring with the words of a request is the first one that holds its bytes |
| TimerRows.StopAtFilter | rt-thread/src/timer.c:345-367 | in every upper row the search stops right behind those timers of the row that a linear search of the bottom row passes |
| TimerRows.StepDown | rt-thread/src/timer.c:368-369 | stepping down from where the search stopped never starts behind the place to find in the row below |
| TimerRows.FilterIns | rt-thread/src/timer.c:342-391 | inserting into each row where its own search stops is inserting into the bottom row as a linear search would, seen from that row |
| TimerRows.PassesByKey | rt-thread/src/timer.c:359-366 | while deadlines lie within half the tick range, the wrap-around comparison orders them by their distance from the present |
| TimerRows.InsSorted | rt-thread/src/timer.c:359-366 | the place the search finds keeps the row sorted by deadline and, among equals, by the order of starting |
| TimerRows.SortedUnique | rt-thread/src/timer.c:342-391 | there is only one list of the pending timers in that order: the bottom row is the stable sorted list |
| TimerRows.SearchRows | rt-thread/src/timer.c:342-370 | the search through all rows, each from where the one above left off, ends inside every row, and if the bottom row is in order finds in each the place a search of that row alone would |
| TimerRows.InsRows | rt-thread/src/timer.c:376-391 | the timer is linked, at the places found, into the bottom row, and one row further up for each pair of zero bits of the insertion counter, for any number of rows and any counter |
| TimerRows.TopRowExactly | rt-thread/src/timer.c:376-391 | a timer is linked into k rows above the last one if and only if the insertion counter can be divided by 4 to the k, and by no higher power of 4 unless there are no more rows |
| TimerRows.LeveledIns | rt-thread/src/timer.c:376-391 | afterwards each upper row still is the bottom row without the timers too low for it |
| TimerState.LinkKeeps | rt-thread/src/timer.c:342-391 | linking a timer that was not pending keeps rows, order and half-range window, and puts it where a linear stable insert would |
| TimerState.LinkExactly | rt-thread/src/timer.c:324-396 | linking a timer with a deadline ahead leaves rows, order and window right if and only if it was not in the queue already |
| RtList.InsertExactly | rt-thread/include/rtservice.h:58-65 | on the nodes: the links set by rt_list_insert_after make a ring of all nodes if and only if the node was not in the list already |
| Timer.TimerQueue.constructor | rt-thread/src/timer.c:679-687 | nothing is pending, for any number of rows from one on; the invariant holds |
| Timer.TimerQueue.Start | rt-thread/src/timer.c:296-412 | a timer, pending or not, gets deadline now + init_tick modulo 2^32, is taken off the queue and inserted where a linear stable sorted insert would, and is flagged active; nothing else changes |
| Timer.TimerQueue.Begin | rt-thread/src/timer.c:309-315 | the first critical section: the timer is off every row and flagged inactive, the others keep their order |
| Timer.TimerQueue.Finish | rt-thread/src/timer.c:324-396 | the second critical section, whatever happened to tick and timers since the deadline was computed, as long as it still lies ahead: the invariant holds afterwards if and only if nobody else has started this timer, and then it is linked where a linear stable insert would put it; it is active in either case |
| Timer.TimerQueue.StartInterrupted | rt-thread/src/timer.c:309-396 | for every queue and timer: an interrupt between the critical sections that starts the same timer leaves the queue broken |
| Timer.StartedTwice | rt-thread/src/timer.c:309-396 | so in the first tick of a queue with a single timer |
| Timer.TimerQueue.Stop | rt-thread/src/timer.c:422-447 | an active timer is taken off every row and flagged inactive; an inactive one is left alone and the call fails |
| Timer.TimerQueue.Unlink | rt-thread/src/timer.c:121-129 | a timer is taken off every row, the others keep their order |
| Timer.TimerQueue.Fire | rt-thread/src/timer.c:518-543 | one timer fires: its timeout function starts and stops whatever timers it does, then the timer is started again if it is periodic and still active, and is flagged inactive otherwise; of the timers still due, exactly those that were neither started nor stopped stay, in front, and those started without delay are put behind them |
| Timer.TimerQueue.Check | rt-thread/src/timer.c:494-553 | if after some number of rounds nothing is due any more, it ends; with timeout functions that start and stop any timers, with or without delay, what fires in which order, what is pending, and every deadline and flag are those of the sequential sweep; afterwards nothing is due |
| Timer.TimerQueue.Increase | rt-thread/src/clock.c:72-100 | with one call for each tick, across the wrap-around, the due timers are exactly those whose deadline is this tick, or the one before if started with no delay; they fire as the sweep says, and none is overdue or due afterwards, so that no deadline is missed |
| Timer.DuesOnTime | rt-thread/src/clock.c:72-100 | what is due when the tick has advanced are exactly the pending timers whose deadline is this tick or the one before, in order |
| Timer.DiffByKey | rt-thread/src/timer.c:516-516 | the test of the loop tells due timers from future ones |
| TimerSweep.SweepFires | rt-thread/src/timer.c:510-553 | after any number of rounds, every timer that was due has fired or is still to fire, but for those that another one, fired before, started or stopped |
| TimerSweep.SweepInOrder | rt-thread/src/timer.c:510-553 | what fires comes in the order of the queue: first what was due before, then what timeout functions and periodic timers put back without delay, in the order of these calls; and nothing else fires |
| TimerEnds.RankedEnds | rt-thread/src/timer.c:494-553 | the loop ends if no circle of timers start each other without delay: given any ranking along which such starts go down, and if periodic timers without delay are stopped by their own functions |
| TimerEnds.LaterEnds | rt-thread/src/timer.c:532-543 | in particular if no timeout function of a due timer starts one without delay, and no periodic timer without delay is left active: a condition on each timer alone |
| TimerEnds.Endless | rt-thread/src/timer.c:532-543 | a periodic timer without delay that nobody stops is still due after any number of rounds: the loop never ends |
| TimerSweep.SweepActive | rt-thread/src/timer.c:532-543 | if every active timer is pending before, every active timer is pending afterwards, whatever the timeout functions do |
| TimerSweep.OwnSweep | rt-thread/src/timer.c:510-553 | if timeout functions concern their own timers only, and none is due again at once, exactly the due timers fire; each is pending, rearmed for now + init_tick, and active exactly as its flags and its own calls say; the others are untouched |
| TimerSweep.FiredFlags | rt-thread/src/timer.c:532-543 | whatever timeout functions do, a timer that has just fired is pending but flagged inactive if and only if it is a one-shot timer that its own timeout function started last |
| TimerSweep.FiredAgain | rt-thread/src/timer.c:518-543 | it is pending again if and only if its function started it last, or it is periodic and its function left it alone; then its deadline is now + init_tick; and it is active if and only if it is periodic and pending |
| TimerSweep.FlagsOverRun | rt-thread/src/timer.c:510-553 | over a whole run it ends up so if and only if, at its last firing, it was such a timer and no timer fired later starts it |
| TimerSweep.LostElsewhere | rt-thread/src/timer.c:510-553 | a timer that does not fire stays so if and only if no timer that fires starts it, and never becomes so |
| TimerSweep.LostOrNot | rt-thread/src/timer.c:532-543 | two one-shot timers that both start the first: fired alone it is pending but inactive, with the other one fired after it, it is not |
| TimerSweep.StopInterrupted | rt-thread/src/timer.c:434-446 | the flag is cleared after interrupts are enabled again: whatever is called in between, the timer is inactive afterwards, and off the queue if and only if the last call that concerns it is not a start |
| Timer.DueAtOnce | rt-thread/src/timer.c:319-324 | a timer just started is due at once if and only if its init_tick is zero |
| WaitList.PlaceKeepsOrder | rt-thread/src/ipc.c:92-117 | with RT_IPC_FLAG_PRIO the list of waiters stays ordered by priority, and a thread goes behind all of its own priority |
| WaitList.Suspend | rt-thread/src/ipc.c:80-123 | the search puts the thread there, or at the end with RT_IPC_FLAG_FIFO: with RT_IPC_FLAG_PRIO nobody in front of it is weaker, and whoever is behind it is; the others keep their order |
| WaitList.PlaceOf | rt-thread/src/ipc.c:80-123 | the place is the right one, in terms of the priorities themselves |
| WaitTurn.NoOvertaking | rt-thread/src/ipc.c:133-146 | over any history of a waiting list that is resumed from the front only: if a thread that has waited all along is resumed, every thread that stood in front of it and did not give up was resumed before |
| MessageQueueState.InvInit | rt-thread/src/ipc.c:1781-1831 | after initialization every slot is free, once, and the invariant holds |
| MessageQueueState.InvNext | rt-thread/src/ipc.c:1975-2384 | every critical section of send, urgent send, receive, timeout and reset keeps the invariant: each slot in exactly one of free list, queue and one thread's hands, entry the length of the queue, slots in hands hold their messages, no wake-up lost |
| MessageQueueState.InvRun | rt-thread/src/ipc.c:1975-2384 | so it holds in every state of every interleaving |
| MessageQueueState.SlotCount | rt-thread/src/ipc.c:1975-2384 | free slots, queued slots and threads holding one add up to the size of the pool |
| MessageQueueState.DequeNext | rt-thread/src/ipc.c:1975-2384 | the messages in the queue change as a deque: linking appends the message itself, urgent linking puts it in front, taking removes the first, everything else leaves them alone |
| MessageQueueState.DeliveredOnce | rt-thread/src/ipc.c:1975-2384 | over every run the messages linked are those taken, those thrown away by resets and those still queued: none twice, none from nowhere |
| MessageQueueState.FirstInFirstOut | rt-thread/src/ipc.c:1975-2384 | without urgent messages and resets they are taken in the order they were linked in |
| MessageQueueState.UrgentNext | rt-thread/src/ipc.c:2155-2225 | an urgent message is the next one taken, and leaves the rest of the queue as it was |
| MessageQueueState.Untouched | rt-thread/src/ipc.c:2354-2358 | between its two critical sections a thread's slot is touched by nobody: what it copies out, however late, is the message it took |
| MessageQueueState.NoLostWakeUp | rt-thread/src/ipc.c:2273-2376 | in every reachable state, if receivers are suspended and none is on its way, there is nothing to receive; likewise for senders and free slots |
| MessageQueue.Queue.constructor | rt-thread/src/ipc.c:1781-1831 | the free list threaded through the pool holds every slot, in the order rt_mq_init leaves |
| MessageQueue.Queue.SendEnter | rt-thread/src/ipc.c:2003-2083 | a free slot is taken, the thread suspends itself in its place, or gives up, as free list and timeout say: each one event of the state machine; the slot taken is the first free one, and the thread that suspends itself is put in its right place |
| MessageQueue.Queue.CopyIn | rt-thread/src/ipc.c:2085-2088 | the slot holds the message in front, and is full |
| MessageQueue.Queue.Link | rt-thread/src/ipc.c:2091-2122 | head, tail and next fields afterwards are those of the queue with the slot at its end; if receivers are suspended, the first one is resumed and the others keep their places |
| MessageQueue.Queue.LinkFirst | rt-thread/src/ipc.c:2195-2222 | the same with the slot in front; the first suspended receiver is resumed likewise |
| MessageQueue.Queue.RecvEnter | rt-thread/src/ipc.c:2263-2352 | the first slot is taken off the queue, the thread suspends itself, or gives up, as entry and timeout say; the thread that suspends itself is put in its right place |
| MessageQueue.Queue.CopyOut | rt-thread/src/ipc.c:2354-2355 | the buffer gets the message that was taken, as far as its size allows |
| MessageQueue.Queue.Release | rt-thread/src/ipc.c:2358-2379 | the slot is first on the free list again; if senders are suspended, the first one is resumed and the others keep their places |
| MessageQueue.Queue.ResetAll | rt-thread/src/ipc.c:2397-2445 | all queued slots are on the free list, every suspended thread is resumed |
| MessageQueue.FreedIs | rt-thread/src/ipc.c:2416-2432 | freeing the queue slot by slot puts it on the free list in reverse |
| MessageQueueTurns.ResumedIs | rt-thread/src/ipc.c:2109-2111 | a message linked resumes the first suspended receiver, a slot freed the first suspended sender (2366), and no other event resumes any |
| MessageQueueTurns.LeavesHow | rt-thread/src/ipc.c:2003-2445 | a thread leaves its waiting list only by being resumed so, when its time is up, or in a reset |
| MessageQueueTurns.InTurn | rt-thread/src/ipc.c:2003-2445 | in every run no receiver is resumed before one that stood in front of it and did not give up, and no sender either |
| MutexState.BooksRun | rt-thread/src/ipc.c:654-881 | over every run value 1, no owner and hold 0 coincide, waiters imply an owner, an owner does not wait for its own mutex, and each suspended thread is on the list of exactly the mutex it waits for |
| MutexState.InversionExactly | rt-thread/src/ipc.c:654-881 | an event keeps every owner at least as strong as each of its waiters if and only if a condition on the state before it holds: on waiting, that the owner is not itself suspended behind a weaker one; on the last release, that the restored priority is enough for the other mutexes and the first waiter is a strongest one |
| MutexState.DisciplineKeeps | rt-thread/src/ipc.c:654-881 | with one mutex a thread and waiters in priority order the condition always holds |
| MutexState.InheritanceRun | rt-thread/src/ipc.c:654-881 | so over every such run no owner is weaker than a waiter, and a thread that owns no mutex has its own priority back |
| MutexState.InitHolds | rt-thread/src/ipc.c:530-550 | mutexes as initialized satisfy all of this: the books, no inversion, right originals and no boost |
| MutexState.FifoInverts | rt-thread/src/ipc.c:841-860 | with RT_IPC_FLAG_FIFO a reachable state has an owner weaker than a waiter |
| MutexState.NestedInverts | rt-thread/src/ipc.c:833-839 | so it has with priority order and a thread that owns two mutexes |
| MutexState.OriginalsExactly | rt-thread/src/ipc.c:654-881 | that each mutex will restore its owner's own priority, and each thread without a mutex has it, is kept by an event if and only if the mutex it hands out, if any, goes to a thread that runs at its own priority: a test on the state before the event |
| MutexState.GivenBackExactly | rt-thread/src/ipc.c:654-881 | so over a whole run of any threads and mutexes priorities are given back correctly if and only if no mutex was ever handed to a boosted thread |
| MutexState.WarrantedExactly | rt-thread/src/ipc.c:654-881 | that every boost has a waiter that calls for it is kept by an event unless, and only unless, a last release restores a priority that was itself boosted and is no longer called for, or a waiter gives up whose priority the owner was given |
| MutexState.WarrantedRunExactly | rt-thread/src/ipc.c:654-881 | the same over whole runs |
| MutexState.NestedKeepsBoost | rt-thread/src/ipc.c:697-700 | the first of these, reached from fresh mutexes: a thread that takes a second mutex while boosted ends with no mutex and the boosted priority |
| MutexState.ExpiryKeepsBoost | rt-thread/src/ipc.c:716-760 | the second, with a single mutex: the waiter gives up, and the owner keeps its priority |
| MutexObject.MutexObject.Take | rt-thread/src/ipc.c:654-779 | taking, recursive taking, giving up and waiting with priority inheritance are the event of the state machine; when each outcome is returned; field by field: a free mutex is held once, a recursive take adds one to hold and changes nothing else, a waiter goes to its right place and the owner's priority becomes the stronger of the two, a timeout changes nothing |
| MutexObject.MutexObject.Release | rt-thread/src/ipc.c:790-881 | releasing is the event of the state machine: only the owner may, and the last release hands the mutex to the first waiter, which is resumed; field by field: hold falls by one while it was more than one, else owner, original priority, hold, value, waiters and both priorities are as the hand-off says; a thread that is not the owner changes nothing |
| MutexObject.MutexObject.Expire | rt-thread/src/thread.c:807-829 | a waiter whose time is up leaves the list of its mutex, and the others keep their order |
| MutexObject.MutexObject.HandOn | rt-thread/src/ipc.c:841-870 | owner, original priority, hold count and list after a hand-off, or an available mutex |
| MutexHold.OwnedNext | rt-thread/src/ipc.c:681-881 | one event: hold moves by the owner's takes and releases, and ownership ends exactly when that makes it 0 |
| MutexHold.OwnedExactly | rt-thread/src/ipc.c:654-881 | over every run, counted from the events: a thread stays the owner if and only if at no point it has released the mutex as often as it has taken it, and hold is the difference |
| MutexHold.GainedOnce | rt-thread/src/ipc.c:698-881 | a thread becomes the owner exactly by taking a free mutex, or as the first waiter at the last release of the owner, and then hold is 1 |
| MutexHold.UntilMatched | rt-thread/src/ipc.c:654-881 | so from the event that makes a thread the owner, it stays so, and no other thread gets the mutex, exactly until the release that matches this take |
| MutexHold.TurnNext | rt-thread/src/ipc.c:841-870 | the mutex goes to the waiter in front and the others keep their order; a waiter leaves the list only as the new owner or when its time is up |
| EventState.ScanQuiet | rt-thread/src/ipc.c:1054-1101 | after a scan nobody it leaves suspended could be satisfied by the bits it leaves |
| EventState.ScanParts | rt-thread/src/ipc.c:1054-1101 | a scan resumes each thread at most once and loses none |
| EventState.WokenExactly | rt-thread/src/ipc.c:1054-1101 | the thread in each place is resumed if and only if the bits left by those before it satisfy it, and it receives just those of its bits |
| EventState.BitsConserved | rt-thread/src/ipc.c:1087-1092 | the bits set before are still set or were taken by a resumed thread with RT_EVENT_FLAG_CLEAR |
| EventState.TakenOnce | rt-thread/src/ipc.c:1087-1092 | no bit that a thread cleared is received by a later one |
| EventState.GotBelow | rt-thread/src/ipc.c:1064-1082 | what a resumed thread receives was set, was asked for, and is all of it (AND) or some of it (OR) |
| EventState.BitByBit | rt-thread/src/ipc.c:1064-1092 | bit by bit, what satisfies a thread with RT_EVENT_FLAG_AND and RT_EVENT_FLAG_OR, what it receives, and what it takes away with RT_EVENT_FLAG_CLEAR only |
| EventState.QuietRun | rt-thread/src/ipc.c:1029-1237 | in every reachable state the event set satisfies no suspended thread |
| EventState.BeforeOrAfter | rt-thread/src/ipc.c:1029-1237 | for a thread that goes to the end of the list, whoever waits there already: waiting first or sending first makes no difference to what it receives, what remains set and who still waits |
| EventState.OrderMatters | rt-thread/src/ipc.c:1029-1237 | a concrete event set and a stronger thread, which goes in front of the one that waits: there the order decides who gets the bit |
| EventObject.EventObject.Send | rt-thread/src/ipc.c:1029-1111 | sets the bits, wakes exactly the threads a sequential scan with its clearing would, and gives each what satisfied it |
| EventObject.EventObject.Recv | rt-thread/src/ipc.c:1127-1237 | when the result is the bits, invalid, a timeout or suspension; what is received and what remains set; a thread that suspends itself is put in its right place |
| EventObject.EventObject.WakeFiring | rt-thread/src/ipc.c:1054-1101 | the loop that unlinks threads while it walks the list computes the scan |
| EventObject.EventObject.ResetAll | rt-thread/src/ipc.c:1249-1277 | nobody is suspended and nothing is set |
| Semaphore.Conserved | rt-thread/src/ipc.c:324-471 | over any run value and successful takes make up the initial value and the releases; threads wait only at value 0 |
| Semaphore.TurnNext | rt-thread/src/ipc.c:433-471 | a release resumes the thread in front of the list, if there is one, and nothing else resumes any; the others keep their order |
| Semaphore.InTurn | rt-thread/src/ipc.c:324-471 | in every run no thread is resumed before one that stood in front of it, unless that one's time was up |
| Semaphore.SemaphoreObject.Take | rt-thread/src/ipc.c:324-409 | which outcome happens when, and the state after it |
| Semaphore.SemaphoreObject.Release | rt-thread/src/ipc.c:433-471 | the first waiter is resumed with the semaphore and the others keep their order, or the value is raised |
| MailBox.InOrder | rt-thread/src/ipc.c:1442-1757 | over any interleaving, resets included, mails leave in the order they were posted in, none twice and none from nowhere |
| MailBox.NoneLost | rt-thread/src/ipc.c:1726-1757 | only a reset loses any: without one every mail that leaves was fetched |
| MailBox.BoxRuns | rt-thread/src/ipc.c:1472-1555 | if receivers are suspended and none is on its way the mailbox is empty; if senders are, it is full |
| MailBox.ReceiversTurn | rt-thread/src/ipc.c:1544-1555 | a mail posted resumes the first suspended receiver, and nothing else resumes any; the others keep their order |
| MailBox.SendersTurn | rt-thread/src/ipc.c:1693-1704 | a mail fetched resumes the first suspended sender likewise |
| MailBox.WindowPost | rt-thread/src/ipc.c:1535-1542 | writing at in_offset appends to the words between out_offset and in_offset, around the end of the pool |
| MailBox.Box.constructor | rt-thread/src/ipc.c:1294-1322 | the mailbox is empty |
| MailBox.Box.Send | rt-thread/src/ipc.c:1442-1561 | the mail is appended, or the thread suspended in its place, or refused, as room and timeout say; the first suspended receiver is resumed when it is appended |
| MailBox.Box.Receive | rt-thread/src/ipc.c:1590-1714 | the first mail is fetched, or the thread suspended, or refused; the first suspended sender is resumed when it is fetched |
| MailBox.Box.Reset | rt-thread/src/ipc.c:1726-1757 | the mailbox is empty and nobody waits |
| SchedulerState.OkNext | rt-thread/src/scheduler.c:246-538 | launch, startup, suspend, resume, priority change, yield, end of slice and scheduler lock keep it true that bit p of the ready group is set if and only if queue p is not empty, and each ready thread is in exactly the queue of its priority, once, and the running one in none |
| SchedulerState.FreshOk | rt-thread/src/scheduler.c:191-240 | it holds in the state that rt_system_scheduler_init leaves, in which no thread is started and none runs |
| SchedulerState.LaunchOk | rt-thread/src/scheduler.c:246-270 | rt_system_scheduler_start takes the strongest thread that was started off its queue and makes it the running one: the invariant holds, and no ready thread is stronger |
| SchedulerState.Reached | rt-thread/src/scheduler.c:191-538 | so the invariant holds in every state reached from initialization, by starting threads, launching the scheduler and all operations before and after; and there is a running thread, or one just suspended, if and only if it was launched |
| SchedulerState.FirstReady | rt-thread/src/scheduler.c:162-184 | the lowest bit of the group names the queue of the strongest ready threads |
| SchedulerState.StrongestRuns | rt-thread/src/scheduler.c:428-471 | after a schedule that is not locked out no ready thread is stronger than the running one |
| SchedulerState.SwitchesExactly | rt-thread/src/scheduler.c:439-471 | a schedule switches away from a running thread if and only if a stronger one is ready, or an equal one is and the yield flag is set; so rt_thread_yield (rt-thread/src/thread.c:473-478), which does not set the flag, does not hand over to an equal thread |
| SchedulerState.OneTurn | rt-thread/src/clock.c:83-96 | one time slice rotates the running thread and its ready peers by one place, and leaves every other queue alone |
| SchedulerState.TurnsRotate | rt-thread/src/clock.c:83-96 | n slices rotate them by n places, and run them in the order of the queue |
| SchedulerState.RoundRobin | rt-thread/src/scheduler.c:439-471 | with k ready peers and nobody stronger, k + 1 slices run each of the k + 1 threads once, in order, and restore the queues |
| ReadyBits.SetBitIs | rt-thread/src/scheduler.c:733-737 | setting a bit of the group word sets that bit and no other |
| ReadyBits.ClearBitIs | rt-thread/src/scheduler.c:822-830 | clearing it clears that bit and no other |
| ReadyBits.TableIs | rt-thread/src/kservice.c:1286-1304 | every entry of the bitmap table is the place of the lowest one bit |
| ReadyBits.FfsIsLow | rt-thread/src/kservice.c:1316-1330 | searching by bytes finds the lowest one bit of the word, counted from 1 |
| ReadyBits.FfsFindsFirst | rt-thread/src/scheduler.c:168-183 | so __rt_ffs minus one is the strongest priority in the group, and it is 0 only if there is none |
| Scheduler.Scheduler.constructor | rt-thread/src/scheduler.c:191-240 | all queues are empty, nobody runs; the invariant holds |
| Scheduler.Scheduler.Launch | rt-thread/src/scheduler.c:246-270 | the first thread of the strongest queue leaves it and runs, as the strongest; every other thread and queue is as before |
| Scheduler.Scheduler.Insert | rt-thread/src/scheduler.c:708-742 | queue and group word afterwards are those of the state machine |
| Scheduler.Scheduler.Remove | rt-thread/src/scheduler.c:805-835 | likewise, with the bit cleared exactly if the queue is empty then |
| Scheduler.Scheduler.Highest | rt-thread/src/scheduler.c:162-184 | the first thread of the strongest queue that is not empty |
| Scheduler.Scheduler.Schedule | rt-thread/src/scheduler.c:418-538 | does what the state machine's schedule does, and keeps the invariant; while the scheduler is not locked, the first of the strongest ready threads takes over exactly if some thread is to preempt the running one, which then is the last of its own queue with its yield flag cleared; else nothing changes |
| Scheduler.Scheduler.Suspend | rt-thread/src/thread.c:715-754 | a ready or running thread is suspended and in no queue any more, the others stay where they are, in their order; any other is refused and nothing changes |
| Scheduler.Scheduler.Resume | rt-thread/src/thread.c:764-798 | a suspended thread becomes ready, is the last of the queue of its priority, whose bit is set, or runs if it is the current one; every other thread and queue is as before; any other thread is refused |
| Scheduler.Scheduler.Start | rt-thread/src/thread.c:289-321 | a new thread gets its initial priority, loses its flags, is ready and the last of the queue of that priority; every other thread and queue is as before |
| Scheduler.Scheduler.ChangePriority | rt-thread/src/thread.c:620-702 | the priority is the new one; a ready thread leaves its queue and is the last of that of its new priority, the others stay in their order; nothing else changes |
| Scheduler.Scheduler.EndSlice | rt-thread/src/clock.c:83-96 | the yield flag is set and the next thread scheduled |
| Scheduler.Scheduler.EnterCritical | rt-thread/src/scheduler.c:878-893 | the lock nests |
| Scheduler.Scheduler.ExitCritical | rt-thread/src/scheduler.c:940-965 | and leaving the outermost one schedules, before which it only counts down |
| SchedulerEffects.ResumptionIs | rt-thread/src/thread.c:764-798 | what resuming a thread does to status, queues, bits and the other threads, said of the states before and after |
| SchedulerEffects.SuspensionIs | rt-thread/src/thread.c:715-754 | what suspending one does |
| SchedulerEffects.StartupIs | rt-thread/src/thread.c:289-321 | what starting one does |
| SchedulerEffects.ReprioritizeIs | rt-thread/src/thread.c:620-702 | what changing its priority does |
| SchedulerEffects.ElectedIs | rt-thread/src/scheduler.c:418-538 | what a schedule does: who takes over, where the thread goes that it takes over from, and that nothing happens otherwise |
| SchedulerEffects.EffectNext | rt-thread/src/scheduler.c:418-965 | every event of the state machine has the effect so described |
| SchedulerEffects.UrgentNext | rt-thread/src/scheduler.c:418-538 | a ready thread that is stronger than all other ready and running ones stays so over every event that does not concern it or let an equally strong one compete, and runs after the first of them that schedules while the scheduler is not locked |
| SchedulerEffects.ResumedRuns | rt-thread/src/scheduler.c:418-538 | so in every run of such events a resumed thread that is stronger than all others is the one that runs after the next schedule that is not locked out |
| RtList.InsertRing | rt-thread/include/rtservice.h:58-80 | setting the four links makes the ring with the new node in its place |
| RtList.RemoveRing | rt-thread/include/rtservice.h:86-92 | taking a node out makes the ring of the others and a ring of the node alone |
| RtList.Nodes.Init | rt-thread/include/rtservice.h:47-50 | a node alone is a ring |
| RtList.Nodes.InsertAfter | rt-thread/include/rtservice.h:58-65 | the node comes right behind |
| RtList.Nodes.InsertBefore | rt-thread/include/rtservice.h:73-80 | the node comes right in front, at the end of the list if that is in front of its head |
| RtList.Nodes.Remove | rt-thread/include/rtservice.h:86-92 | the others stay a ring in their order |
| RtList.Nodes.RemoveAlone | rt-thread/include/rtservice.h:86-92 | removing a node that is in no list changes nothing |
| WaitNodes.FindWeaker | rt-thread/src/ipc.c:98-112 | on the nodes, the search ends at the first thread weaker than the one that waits, or at the list head |
| WaitNodes.SuspendNode | rt-thread/src/ipc.c:80-123 | the ring of nodes of a waiting list afterwards is the list with the thread at the place the model computes, for both flags |
| WaitNodes.ResumeFirst | rt-thread/src/ipc.c:133-146 | the first thread of the list is returned, and the ring is that of the rest |
| WaitNodes.Append | rt-thread/src/scheduler.c:726-729 | a thread joins a ready queue: its node is the last of the ring |
| WaitNodes.Leave | rt-thread/src/thread.c:807-829 | a thread leaves a list from any place, the others keep their order |
| PageRuns.Canonical | rt-thread/src/slab.c:236-322 | sorted, coalesced page lists with the same free pages are the same list |
| PageRuns.FitIsLowest | rt-thread/src/slab.c:244-266 | first fit finds the lowest run of free pages long enough, if and only if there is one |
| PageRuns.TakenFree | rt-thread/src/slab.c:249-262 | exactly the pages handed out are no longer free |
| PageRuns.GivenWell | rt-thread/src/slab.c:286-317 | giving pages back leaves the list sorted, disjoint and fully coalesced |
| PageRuns.GivenFree | rt-thread/src/slab.c:286-317 | exactly the pages given back are free in addition |
| PageRuns.TakeGive | rt-thread/src/slab.c:236-322 | giving back what was just taken restores the very same list |
| PageList.PageList.constructor | rt-thread/src/slab.c:327-334 | all pages are free, in one run |
| PageList.PageList.Alloc | rt-thread/src/slab.c:236-270 | the lowest run of npages free pages, or none exists; pages are conserved, the list stays sorted and coalesced, and the headers in the pages are that list |
| PageList.PageList.Release | rt-thread/src/slab.c:272-322 | the pages are free again, joined with the runs on either side; the headers are the new list |
| SizeClass.ZoneIndex | rt-thread/src/slab.c:401-459 | in every branch, the index of the smallest chunk the request fits into, and its size; less than an eighth of the request is wasted but for small ones |
| SizeClass.FitsUnique | rt-thread/src/slab.c:401-459 | index and chunk size determine each other |
| SizeClass.ChunkFits | rt-thread/src/slab.c:401-459 | asked for a whole chunk, the index is that of the chunk itself |
| SizeClass.ChunksGrow | rt-thread/src/slab.c:133-144 | chunk sizes grow strictly with the index |
| SlabZone.TakenOk | rt-thread/src/slab.c:556-568 | a zone with free chunks hands out one that is not handed out already |
| SlabZone.TakenFirst | rt-thread/src/slab.c:556-568 | a chunk never used is taken before any that was given back, and of those the last one first |
| SlabZone.GivenOk | rt-thread/src/slab.c:830-842 | a chunk given back is free again, and only that |
| SlabZone.AllCounted | rt-thread/src/slab.c:854-854 | z_nfree counts the chunks never used and those given back; it equals z_nmax if and only if nothing is handed out |
| SlabZone.FreshOk | rt-thread/src/slab.c:625-648 | a new zone has room for its header and at least three chunks, as many as fit, and hands out its first |
| SlabZone.BaseIsLowest | rt-thread/src/slab.c:628-638 | its chunks begin at the lowest place behind the header that is a multiple of their size if that is a power of 2, else of 8 |
| SlabZone.ChunkPage | rt-thread/src/slab.c:219-220 | the page a chunk lies in is a page of its zone, so that the page table leads back to it |
| SlabZone.ChunksApart | rt-thread/src/slab.c:556-568 | different chunks do not overlap |
| SlabZone.AlignedExactly | rt-thread/src/slab.c:631-644 | a chunk whose size is a power of 2, in a zone whose chunks begin where the allocator sets them up, is aligned to it if and only if its zone is |
| SlabAlignment.ObjectAligned | rt-thread/src/slab.c:152-153 | whatever is handed out for a power of 2, a chunk or whole pages, is aligned to it exactly as the first page of its block is, wherever the heap starts; up to a page it always is |
| SlabAlignment.ServesOnce | rt-thread/src/slab.c:478-667 | which block serves a request can be told from the state before it, and is one only: the lowest run of free pages, or, for a chunk, the first zone of its class with free chunks, else the first spare zone, else the lowest run that makes a zone |
| SlabAlignment.LowestMisaligned | rt-thread/src/slab.c:244-266 | for each power of 2 above a page, in a heap twice as large, the lowest fitting pages do not begin at a multiple of it |
| Slab.FirstCallMisaligned | rt-thread/src/slab.c:152-153 | so for every such power of 2 the very first rt_malloc of it, in a heap twice as large, is misaligned |
| SlabState.ObjectsApart | rt-thread/src/slab.c:478-667 | no two objects handed out overlap, chunks and page runs alike |
| SlabState.OneAt | rt-thread/src/slab.c:478-667 | no two objects have the same address |
| SlabState.FindsBlock | rt-thread/src/slab.c:795-827 | the page table recovers the block of any object from its address |
| SlabState.TakeChunkOk | rt-thread/src/slab.c:539-577 | taking a chunk keeps the invariant: zone arrays list exactly the zones with free chunks, at most two spare zones, pages owned once |
| SlabState.TakePagesOk | rt-thread/src/slab.c:596-652 | so does making a zone of new pages |
| SlabState.TakeSpareOk | rt-thread/src/slab.c:590-595 | and making one of a spare zone |
| SlabState.GiveChunkOk | rt-thread/src/slab.c:825-846 | and giving back a chunk |
| SlabState.PutAwayOk | rt-thread/src/slab.c:854-901 | and putting away a zone that is all free: zone_free_cnt is at most 2 afterwards |
| SlabState.PutAwaySame | rt-thread/src/slab.c:854-901 | which takes nothing from anybody |
| SlabState.GiveChunkLoses | rt-thread/src/slab.c:825-846 | giving back a chunk removes that object only |
| SlabPages.PutAwayIs | rt-thread/src/slab.c:854-901 | a zone is put away if and only if all its chunks are free and another zone of its class has free ones; it becomes the first spare zone, or its pages become free if there are two spare ones |
| SlabPages.GiveLargeKeeps | rt-thread/src/slab.c:797-820 | giving back whole pages loses no page: each is free or in a block, as before |
| SlabPages.GiveChunkKeeps | rt-thread/src/slab.c:825-901 | nor does giving back a chunk, and if no class had two zones that are all free, none has afterwards |
| SlabPages.TakeChunkKeeps | rt-thread/src/slab.c:539-577 | both hold of taking a chunk |
| SlabPages.TakeSpareKeeps | rt-thread/src/slab.c:590-595 | and of using a spare zone |
| SlabPages.TakePagesKeeps | rt-thread/src/slab.c:596-652 | and of making a zone of new pages |
| SlabPages.TakeLargeKeeps | rt-thread/src/slab.c:493-521 | and of taking whole pages |
| Slab.Slab.constructor | rt-thread/src/slab.c:344-395 | nothing is handed out; the page table takes the first pages, all others are free; heaps up to 64 megabytes have a zone limit of 8192 bytes; every page behind the page table is accounted for |
| Slab.Slab.ZoneSize | rt-thread/src/slab.c:374-377 | the zone size is the one between 32 and 128 kilobytes that grows with the heap |
| Slab.Slab.Malloc | rt-thread/src/slab.c:478-667 | exactly one object more is handed out, of the smallest chunk size the request fits into or of whole pages, which are the lowest that fit; a power of 2 is aligned exactly if the first page of the block that serves it is, which the state before the call tells, and always up to a page; a failed call changes nothing and means that no run of free pages is long enough; a small request is served by the first zone of its class that has free chunks, else the first spare zone, else the lowest pages; no page is lost, and no class gets two zones that are all free |
| Slab.Slab.Release | rt-thread/src/slab.c:771-904 | exactly the object at that address is no longer handed out; every page stays accounted for, free or in a block, and no class is left with two zones that are all free |
| NumberText.LengthIs | rt-thread/src/kservice.c:685-772 | the printed length is max(width, max(digits, precision) + sign), and what it is for precision 0 |
| NumberText.ParseDigits | rt-thread/src/kservice.c:676-683 | the digits read back as the number, to the radix 10 and 16 |
| NumberText.ReadsBack | rt-thread/src/kservice.c:618-775 | the whole text, with blanks, sign and zeros, reads back as the signed or unsigned value of the word, also the most negative one, whatever the width and the flags; printed with precision 0 there is nothing to read |
| NumberText.ReadsBackExactly | rt-thread/src/kservice.c:618-775 | so a word reads back if and only if its precision is not 0 or it is 0 itself |
| NumberText.OctalExactly | rt-thread/src/kservice.c:568-585 | because divide knows the radices 10 and 16 only, %o is right if and only if the number is below 8 |
| FormatText.PlainText | rt-thread/src/kservice.c:810-818 | a format without directives prints itself |
| ConversionText.NumberFits | rt-thread/src/kservice.c:618-775 | a printed number is blanks, its sign, zeros, its digits and blanks: the digits are as many as it takes to write it, in letters of the right case, and read as its magnitude; blanks only where the flags allow them; the length fills the field |
| ConversionText.ValueIs | rt-thread/src/kservice.c:1000-1020 | the number that is printed is the argument, signed or unsigned, modulo 2^32, or 2^16 with the qualifier h |
| ConversionText.SignedFits | rt-thread/src/kservice.c:978-982 | %d and %i print the signed argument to the base 10, with the sign the flags ask for |
| ConversionText.UnsignedFits | rt-thread/src/kservice.c:968-982 | %u prints the unsigned argument to the base 10, %x, %X and, wrongly, %o to the base 16 |
| ConversionText.PointerFits | rt-thread/src/kservice.c:945-960 | %p prints a whole word to the base 16, with 8 digits if no width is given |
| ConversionText.CharFits | rt-thread/src/kservice.c:890-911 | %c prints the lowest byte of the argument as one character in its field |
| ConversionText.StringFits | rt-thread/src/kservice.c:913-943 | %s prints the string, or as much of it as a precision greater than 0 allows, in its field, and (NULL) for none |
| ConversionText.ConvertedPrints | rt-thread/src/kservice.c:886-1024 | every conversion prints what its directive says, and uses up its argument, if it has one; %% is one percent sign, and an unknown one prints itself |
| FormatPieces.PrintsPieces | rt-thread/src/kservice.c:777-1040 | any format made of plain characters and directives, also one that the end of the format breaks off, prints what its pieces say, one after the other, each with the arguments that those in front of it have left |
| FormatPieces.PiecesExist | rt-thread/src/kservice.c:810-883 | and every format, well formed or not, is made of such pieces: each directive takes as many characters as can belong to it |
| Printer.SplitDigits | rt-thread/src/kservice.c:676-683 | the loop splits off the digits, at most ten of them, so that tmp is large enough |
| Printer.PrintNumber | rt-thread/src/kservice.c:618-775 | appends exactly the text of the number, counting what does not fit |
| Printer.SkipAtoi | rt-thread/src/kservice.c:588-595 | goes to the end of the digits and returns what they are as a decimal number |
| DirectiveText.DecimalRead | rt-thread/src/kservice.c:588-595 | the digits of a number are read back as that number |
| DirectiveText.ReadAsWritten | rt-thread/src/kservice.c:820-883 | against a grammar of directives: any flags in any order, width and precision absent, in digits or a star, and a qualifier are read back as just these, a negative width argument as left adjustment, a negative precision as 0, up to the first character that does not belong to it |
| Printer.ReadDirective | rt-thread/src/kservice.c:820-883 | reads every directive as it is written |
| Printer.FormatInto | rt-thread/src/kservice.c:777-1040 | the result is the length of the text, which depends on format and arguments only; the buffer, of any size, holds the text as far as it goes and a null byte, and nothing is written behind it; and that text is what the pieces of the format print, each directive what is written in it |
| Pid.WithinLimits | Algorithm/pid.c:54-101 | on every run, in either mode, integral and output stay within their limits |
| Pid.Telescopes | Algorithm/pid.c:82-88 | one more error moves the ideal positional output by exactly the three increments |
| Pid.DeltaIsPosition | Algorithm/pid.c:70-91 | while no limit binds and nothing is ignored, the incremental output equals the positional one after every call |
| Pid.StepResponds | Algorithm/pid.c:65-91 | each call, whether limits bind or not: which errors are acted upon, and that integral and output are the nearest points of their intervals |
| Pid.NoneNearer | Algorithm/pid.c:54-59 | no other point of the interval is as near |
| Pid.Controller.constructor | Algorithm/pid.c:6-24 | a cleared structure with its parameters |
| Pid.Controller.Calc | Algorithm/pid.c:61-101 | a call returns the output of the run of all errors so far, or 0 if the error is ignored; an error counts unless it is larger than max_err or smaller than the deadband, where 0 is no limit; the integral and the output become the points of their intervals nearest to the sums, and an ignored error leaves all of it as it was |
| Encoder.StepExactly | Algorithm/packageProcess.c:57-61 | the turn count stays right if and only if the step is less than half a turn, or exactly half a turn without wrap-around |
| Encoder.TracksTurns | Algorithm/packageProcess.c:57-61 | over every run of such steps total_angle plus offset_angle is the true position over all turns |
| Encoder.RightModuloTurn | Algorithm/packageProcess.c:57-61 | whatever the motor does it is right modulo one turn |
| Encoder.HalfTurnLost | Algorithm/packageProcess.c:57-60 | a half-turn step that is counted the wrong way |
| Encoder.Motor.Measure | Algorithm/packageProcess.c:39-62 | the angle, speed, current and hall fields are the numbers that the bytes of the frame stand for, the higher byte first, 16 bits signed for speed and current, and the current divided by -5 towards zero; the turn is counted |
| MemPool.PoolNext | rt-thread/src/mempool.c:303-449 | every critical section of alloc, free and timeout keeps it true that each block is free or held, once, that block_free_count is the length of the free list, and that no wake-up is lost |
| MemPool.PoolRuns | rt-thread/src/mempool.c:303-449 | over every run held and free blocks add up to all blocks, and threads wait unnoticed only while nothing is free |
| MemPool.TurnNext | rt-thread/src/mempool.c:423-441 | a block freed resumes the thread in front of the list, and the others keep their order |
| MemPool.LastFirst | rt-thread/src/mempool.c:338-338 | a thread that begins to wait goes in front of all others, so that the last to come is served first |
| MemPool.Pool.constructor | rt-thread/src/mempool.c:77-124 | all blocks are on the free list |
| MemPool.Pool.LinkAll | rt-thread/src/mempool.c:110-121 | the first words thread all blocks in order |
| MemPool.Pool.Enter | rt-thread/src/mempool.c:303-391 | the first free block is handed out and tagged with its pool, or the thread suspended, or refused |
| MemPool.Pool.Give | rt-thread/src/mempool.c:399-449 | the block is first on the free list again, and the first waiter is resumed |

## Left out

Contracts that say less than the code's promise, or about less than the code:

- SmallMem.Heap.Malloc: sizes near 2^32, where the alignment overflows, are not modelled; a heap smaller than MIN_SIZE, for which the loop bound wraps around, is excluded.
- SmallMem.Heap.Free: does not cover pointers that are not live payloads (the code asserts or corrupts memory).
- MemHeap.Pool.Free: likewise, and the magic and pool checks that are assertions in the code are preconditions here.
- MemHeap.Pool.Alloc: pool_ptr is written but not followed; the heap's lock is not modelled, each call is one step.
- MemHeap.Pool.Settle: the two rings live in different words, and their writes are in a different order than in the code (a block leaves the free ring before it is joined).
- MemHeap.Pool.Shrink: available_size is changed once the rings agree, not in two steps around it.
- Timer.TimerQueue.Start: its two critical sections follow each other here; periods are below half the tick range, as the code asserts.
- Timer.TimerQueue.Finish: the deadline does not pass between the critical sections. That a timer is in the queue twice is seen in the rows; what its broken links then lead to is not followed.
- Timer.TimerQueue.Stop: the flag is cleared in the same step; the code clears it after it has enabled interrupts again, and TimerSweep.StopInterrupted says what calls in between lead to.
- Timer.TimerQueue.Check: runs that do not end are excluded (TimerEnds says which do). Timeout functions are lists of calls fixed for the run, and the tick stands still.
- Timer.TimerQueue.Increase: the same holds of it.
- TimerRows.SearchRows: rows are sequences of timers, not linked nodes; the node level is RtList, which WaitNodes uses for threads.
- MessageQueue.Queue.SendEnter: the remaining time of a thread that waits again is not computed; a timeout is a step that may happen at any time.
- MessageQueue.Queue.ResetAll: resumed threads return with an error and are not followed further.
- MutexObject.MutexObject.Take: hold counts have no width; a wait that is cut short by a signal is not modelled.
- MutexState.BooksRun: a priority that rt_thread_control changes from outside is not an event here; it would move what each thread's own priority is, and the code keeps no record of that while a mutex is owned.
- WaitNodes.SuspendNode: the IPC objects keep their lists as sequences; WaitNodes shows that the nodes hold such a sequence, one operation at a time.
- EventState.BeforeOrAfter: a thread whose priority puts it in front of others is not covered: then the scan serves it before them, and the order does make a difference (EventState.OrderMatters).
- EventState.QuietRun: event sets are sets of bit places, not words.
- Semaphore.Conserved: the 16-bit value does not wrap here, and there is no reset.
- MailBox.Box.constructor: a mailbox has at least one word.
- MemPool.Pool.constructor: a pool has at least one block; for none the code writes in front of the pool.
- Scheduler.Scheduler.Launch: at least one thread was started (the idle thread is); with none the code would take a thread from outside the table.
- SchedulerState.OkNext: the switch of contexts, stack checks and the timers of threads are not modelled; rt_thread_control is its priority change only.
- ReadyBits.TableIs: the 256 entries are kept as the sixteen rows they are printed in, which differ in their first entries only.
- PageList.PageList.Release: releasing pages that are already free is excluded, as the code asserts.
- SlabZone.GivenOk: the free chunks are a sequence, not links inside the chunks.
- Slab.Slab.Malloc: what is in the memory handed out, the statistics and the lock of the heap are not modelled; zone headers are values, kept by the page they lie in.
- NumberText.LengthIs: RT_PRINTF_LONGLONG and RT_PRINTF_SPECIAL are off; width and precision do not overflow.
- Printer.FormatInto: arguments are a typed sequence, a missing one counts as 0; the format holds no null byte; rt_vsprintf, which passes the largest size, is not modelled.
- Pid.Controller.Calc: numbers are real numbers, without rounding; the set and get histories, which nothing reads, are not kept.
- Encoder.Motor.Measure: round_cnt and total_angle do not overflow.

The main things that are not modelled at all:

- The SMP paths, soft timers and signals, which this configuration switches off.
- rt_realloc and rt_calloc of slab.c, rt_malloc_align, and the system heap built on memheap.c.
- Detaching, deleting and creating kernel objects, and the object registry.
- rt_thread_sleep, rt_thread_delay_until and the thread life cycle apart from the ready queues.
- The device layer, start-up, idle thread, hooks, console and debug output.
- Context switching and everything in libraries and board.
- The remote control decoder, the chassis kinematics and the motion and CAN threads of the application.
- The string and memory routines of kservice.c apart from the copying that realloc needs.
