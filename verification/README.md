# FreeRTOS V8.2.2 kernel: a verified model

This project models the parts of the FreeRTOS V8.2.2 kernel in `FreeRTOSv8.2.2/` whose correctness rests on
more than one function: kernel time and scheduling (`tasks.c`), the intrusive list (`list.c`, `list.h`), queues and
the queue lock, mutexes and queue sets (`queue.c`), the two coalescing allocators (`heap_4.c`, `heap_5.c`), software
timers (`timers.c`) and event groups (`event_groups.c`). `dafny verify dfyconfig.toml` checks all of it.

## How the model is built

Code that changes state is a class with the fields of the source and methods with the branches of the source, in the
source's order. What a method does is stated as a change of a value (a ring, a layout, a set of deadlines, a protocol
state), and the laws of the subsystem are lemmas about those values and about runs of such changes.

- **Time.** `TickType_t` is a number below an unspecified modulus `M`, so every proof holds for 16-bit and 32-bit ticks
  alike. Ghost state relates the counter to an unbounded clock: `xTickCount` shows the clock modulo `M`, the overflow
  counter (8 bits) shows how often it has wrapped. `Ticks.dfy`, `TimeOuts.dfy`.
- **Lists.** `Lists.dfy` has the pointers, the end marker and the walking index of `list.c`, and refines every operation
  to a `Ring`: items in order plus the place of the index (`Rings.dfy`). The scheduler's lists are rings too
  (`TaskLists.dfy`); each task's generic and event item remembers the list it is on, as `pvContainer` does. `Turns.dfy`
  says in which order the ready tasks of one priority have their turns, and every operation of the kernel states what it
  does to that order.
- **The scheduler.** `Kernel.dfy` is `tasks.c` as a state machine whose steps are the API calls and the tick interrupt;
  `KernelLists.dfy` holds its invariant. A critical section, or code run with the scheduler suspended, is one step. A
  yield is a later `SwitchContext`. `Due()` gives the moment of the unbounded clock at which each delayed task is due,
  read off the list it is on; every operation states by which deeds (a tick, a task blocked for so long, a task
  unblocked) it changes the clock and the deadlines.
- **Queues.** The storage (`QueueStorage.dfy`) is a byte array with the two pointers of the source. The blocking protocol
  (`QueueLock.dfy`) is a transition system in which interrupts run between any two steps of a task, next to a class that
  implements the steps. Mutexes (`Mutexes.dfy`) sit on the kernel; queue sets (`QueueSets.dfy`) count handles.
- **Memory.** `Heap.dfy` keeps a map from addresses to block headers and rewrites `pxNextFreeBlock` and `xBlockSize` as
  the source does; `HeapLayout.dfy` says what a coalesced layout of free and live blocks is. `heap_4.c` is the case of
  one region of `heap_5.c`.
- **Timers.** `Timers.dfy` has the two lists, the command queue and `xLastTime`. Ghost lives record, for each timer that
  no other command has disturbed, when it was started and for which expiries its callback was called. The restart of a
  timer may find the queue full, as in the source; the contracts say exactly when.
- **Event groups.** `EventGroups.dfy` has the bits, the list of waiters and their event item values; bits are sets of
  bit places.

Configuration: mutexes, queue sets, timers, preemption and time slicing are compiled in; `INCLUDE_vTaskSuspend` is an
unspecified constant, so results hold with and without it; `configMAX_PRIORITIES`, alignment, header size and the
control byte of event groups are constants restricted only as the source restricts them. `BaseType_t` and `UBaseType_t`
are 8 bits wide (`FreeRTOSv8.2.2/portmacro.h:104-105`), which shows as bounds on lock counts, pended ticks, nesting of
`vTaskSuspendAll` and the number of tasks.

## What turned out not to hold

Each of these is proved with the exact condition under which the code does what it is meant to do, and with an input or
a run that shows the failure.

- `xTaskCheckForTimeOut` can report a wait as still running though it has elapsed, when two counter overflows lie
  between two checks (`TimeOuts.TimeOutExact`, `TimeOuts.TimeOutMissed`).
- `vTaskDelayUntil` blocks in error when the caller is a whole counter period or more late, unless the rest happens to
  exceed the increment (`TimeOuts.DelayUntilExact`, `TimeOuts.DelayUntilMissed`); the timer service judges late start
  commands the same way (`Timers.PlacementLate`, `Timers.PlacementMissed`).
- The 256th tick pended while the scheduler is suspended wraps `uxPendedTicks`, and 256 ticks are lost
  (`Kernels.Kernel.IncrementTick`, `Kernels.PendedTicksLost`).
- The task the scheduler starts with need not be ready: `vTaskDelete` before the start leaves `pxCurrentTCB` on the task
  it deletes, which is then started if its priority is above that of the timer service
  (`Kernels.Kernel.StartScheduler`, `Kernels.StartsDeleted`). If that task delays itself it leaves the termination list,
  which is from then on shorter than `uxTasksDeleted` says (`Kernels.DeletedDelays`), so that the loop of
  `prvCheckTasksWaitingTermination` has nothing left to count down.
- One sample in every epoch is not enough for `prvSampleTimeNow`: the samples must be less than `M` ticks apart
  (`Timers.SampleExact`, `Timers.SampleMissed`).
- An auto-reload timer stops for good when its restart finds the command queue full, which the source only asserts
  against (`Timers.RestartLost`, `Timers.IdleForGood`). When a timer expires that happens exactly when its next expiry
  has passed as well and the queue is full (`Timers.TimerService.ProcessExpiredTimer`); when the timer lists are switched
  it happens to some timer exactly when the queue has less room than there are reloading timers left on the current list
  (`Timers.TimerService.SwitchTimerLists`).
- With `INCLUDE_vTaskSuspend`, the timer daemon blocks without a time limit when the current timer list is empty, even
  if timers wait on the overflow list; nothing but a command wakes it then (`Timers.DaemonWakesInTime`,
  `Timers.DaemonForgets`).
- The 128th post to, or removal from, a locked queue wraps its lock count, and unlocking then wakes nobody on that side
  (`QueueLock.LockCountWraps`, `QueueLock.WakeUpLost`); a task is left waiting though there is something for it exactly
  when one waits on that side and no woken one will make way for it (`QueueLock.WrapForgets`).
- A queue set shorter than its members together can be filled by posts while a member still accepts one
  (`QueueSets.SetHasRoom`, `QueueSets.QueueSet.FillShort`).
- Overwriting a full queue whose items have no size counts past its length (`QueueStorage.CountWithinLength`,
  `QueueStorage.OverwriteFull`).
- `vTaskPrioritySet` on a task that holds a mutex can put it below a task blocked on that mutex
  (`Mutexes.SetPriorityExact`, `Mutexes.HolderSetBelow`).

## Model

| member | source | states |
|---|---|---|
| Ticks.Advance | FreeRTOSv8.2.2/tasks.c:1951-1958 | moving the clock on by less than a period shows as counter addition, and the epoch changes exactly when the counter becomes smaller |
| Ticks.Elapsed | FreeRTOSv8.2.2/tasks.c:2615-2621 | counter subtraction gives true elapsed time up to whole periods, and exactly below one period |
| TimeOuts.CheckForTimeOut | FreeRTOSv8.2.2/tasks.c:2588-2634 | an indefinite wait never expires; a finite one expires exactly by the two counter tests, and otherwise the wait shrinks by the time used, stays positive, and is counted from now |
| TimeOuts.TimeOutExact | FreeRTOSv8.2.2/tasks.c:2588-2634 | for every pair of moments: the verdict equals "the true elapsed time has reached the wait" if and only if a stated condition on the counters holds |
| TimeOuts.TimeOutWithinTwoOverflows | FreeRTOSv8.2.2/tasks.c:2588-2634 | with fewer than two overflows in between the verdict is always right |
| TimeOuts.TimeOutMissed | FreeRTOSv8.2.2/tasks.c:2606-2613 | with two overflows an elapsed wait is reported as running: a concrete case |
| TimeOuts.DeadlineKept | FreeRTOSv8.2.2/queue.c:1384-1548 | over any number of timely wake-and-retry rounds a blocked call gives up at the first retry at or after its original deadline, and entry time plus remaining wait never moves |
| TimeOuts.DelayUntil | FreeRTOSv8.2.2/tasks.c:838-872 | the four-way comparison blocks exactly when less than the increment has passed on the counter since the previous wake time |
| TimeOuts.DelayUntilExact | FreeRTOSv8.2.2/tasks.c:838-872 | that decision is right in unbounded time if and only if the caller is less than a period late or late by enough modulo the period |
| TimeOuts.DelayUntilMissed | FreeRTOSv8.2.2/tasks.c:838-872 | one whole period late with an increment of one tick, the decision is wrong: a concrete case |
| TimeOuts.NoDrift | FreeRTOSv8.2.2/tasks.c:838-876 | after k calls the stored wake time shows start + k * increment exactly |
| Rings.InsertEndStep | FreeRTOSv8.2.2/list.c:116-142 | a new item delays the item under the index by one turn and no other |
| Rings.RemoveStep | FreeRTOSv8.2.2/list.c:212-238 | removing an item, the one under the index included, brings exactly those behind it one closer |
| Rings.WalkStep | FreeRTOSv8.2.2/list.h:318-329 | a walk returns the item at distance zero and brings every other one closer by one |
| Rings.BoundedWaiting | FreeRTOSv8.2.2/list.h:318-329 | round robin over any run: an item not yet returned has seen no more walks than its first distance plus the insertions made while the index rested on it |
| SortedLists.Place | FreeRTOSv8.2.2/list.c:145-209 | the place of a value is after all values no larger and before the first larger one |
| SortedLists.PlaceUnique | FreeRTOSv8.2.2/list.c:145-209 | no other place keeps the list sorted |
| SortedLists.InsertKeepsSorted | FreeRTOSv8.2.2/list.c:145-209 | inserting there keeps a sorted list sorted |
| Lists.List.constructor | FreeRTOSv8.2.2/list.c:79-101 | a new list is well linked and means the empty ring |
| Lists.List.InsertEnd | FreeRTOSv8.2.2/list.c:116-142 | the pointer writes keep the circle well linked both ways and put the item before the index |
| Lists.List.Insert | FreeRTOSv8.2.2/list.c:145-209 | the pointer writes keep the circle well linked and put the item at the place of its value |
| Lists.List.InsertionPoint | FreeRTOSv8.2.2/list.c:160-193 | the loop, and the shortcut for portMAX_DELAY, both find the place of the value |
| Lists.List.OwnerOfNextEntry | FreeRTOSv8.2.2/list.h:318-329 | the index skips the end marker and the owner returned is that of the item it comes to rest on |
| Lists.Remove | FreeRTOSv8.2.2/list.c:212-238 | the item leaves the circle and its container, an index on it falls back, and the number left is right |
| HeapLayout.FreeIsGap | FreeRTOSv8.2.2/heap_4.c:415-473 | every free block is a maximal gap between live blocks |
| HeapLayout.GapIsFree | FreeRTOSv8.2.2/heap_4.c:415-473 | every maximal gap is one free block, whole |
| HeapLayout.Canonical | FreeRTOSv8.2.2/heap_4.c:415-473 | the free blocks are a function of the live ones: two histories that leave the same live blocks leave the same free blocks |
| HeapLayout.JoinKeepsLayout | FreeRTOSv8.2.2/heap_4.c:425-472 | giving a block back with the two-sided merge keeps free and live blocks a tiling with no two free blocks touching |
| HeapLayout.TakeKeepsLayout | FreeRTOSv8.2.2/heap_4.c:203-216 | handing a block out whole keeps the tiling |
| HeapLayout.CutKeepsLayout | FreeRTOSv8.2.2/heap_4.c:218-241 | so does cutting a block in two |
| HeapLayout.TouchingWithin | FreeRTOSv8.2.2/heap_5.c:370-428 | blocks that touch lie in one region, so that no merge crosses an end marker |
| HeapLayout.InitialLayout | FreeRTOSv8.2.2/heap_5.c:431-522 | one free block to a region is a coalesced layout |
| HeapLayout.RoundUpIsNext | FreeRTOSv8.2.2/heap_4.c:177-187 | the size adjustment gives the first multiple of the alignment |
| HeapLayout.RoundDownIsPrevious | FreeRTOSv8.2.2/heap_4.c:376-391 | masking gives a multiple, and adding alignment - 1 first agrees with the other way of rounding up |
| HeapLayout.JoinSum | FreeRTOSv8.2.2/heap_4.c:327-334 | merging loses no byte: the total of the free blocks grows by the size given back |
| Heap.Heap.HeapInit | FreeRTOSv8.2.2/heap_4.c:367-412 | the heap starts valid, with one free block from the aligned start to the end marker |
| Heap.Heap.DefineHeapRegions | FreeRTOSv8.2.2/heap_5.c:431-522 | any list of disjoint ascending regions gives a valid heap with one free block to a region and the sum of their sizes as the byte count |
| Heap.Heap.AddRegion | FreeRTOSv8.2.2/heap_5.c:446-513 | one more region extends the free list behind the previous end marker and adds its size to the total |
| Heap.ExtentIsLargest | FreeRTOSv8.2.2/heap_5.c:455-487 | a region loses less than the alignment at either end, besides its end marker |
| Heap.Heap.InsertBlockIntoFreeList | FreeRTOSv8.2.2/heap_4.c:415-473 | the header writes leave an address-ordered list of exactly the merged free blocks, and touch no live block's header |
| Heap.Heap.InsertionPoint | FreeRTOSv8.2.2/heap_4.c:420-427 | the loop stops between the neighbours of the block |
| Heap.Heap.MergeHeaders | FreeRTOSv8.2.2/heap_5.c:382-427 | the branches write the merged header, with an interior marker absorbed and the last one not |
| Heap.InsertedChain | FreeRTOSv8.2.2/heap_5.c:370-428 | the list after an insertion holds every free block in order and ends at the last marker |
| Heap.MarkerMergedOut | FreeRTOSv8.2.2/heap_5.c:402-419 | an interior end marker that the block touches leaves the list |
| Heap.Heap.Malloc | FreeRTOSv8.2.2/heap_5.c:170-307 | NULL exactly when the request is illegal or every free block is smaller than the bytes asked for and a header, and then nothing changes; otherwise an aligned address with at least those bytes behind it, in that block and no other, and larger than they need by no more than the rounding and a remainder not worth cutting off; it lies in the lowest block that fits, and the low-water mark is kept |
| Heap.Heap.MallocWithInit | FreeRTOSv8.2.2/heap_4.c:151-298 | the same, with the heap set up on the first call, which serves every legal request up to the region's size; the address returned is aligned, as the source asserts |
| Heap.RoundedFits | FreeRTOSv8.2.2/heap_4.c:177-201 | a free block holds a request once rounded up if and only if it holds it before, so that rounding refuses nobody |
| Heap.BytesServed | FreeRTOSv8.2.2/heap_4.c:203-241 | the bytes asked for and their header lie in the block handed out and in no other, which is larger by less than the rounding and what is not worth cutting off |
| Heap.Heap.Search | FreeRTOSv8.2.2/heap_4.c:193-201 | the loop finds the first fit, or shows that nothing fits |
| Heap.Heap.Allocate | FreeRTOSv8.2.2/heap_4.c:203-260 | the block is handed out and the heap stays valid, its byte counters included |
| Heap.Heap.Carve | FreeRTOSv8.2.2/heap_4.c:203-241 | the block found leaves the free list, cut to size if enough is left over, and no live block's header is touched |
| Heap.Heap.TakeFromList | FreeRTOSv8.2.2/heap_4.c:205-216 | unlinking keeps the list exact for the remaining free blocks |
| Heap.Heap.SplitBlock | FreeRTOSv8.2.2/heap_4.c:218-241 | the end cut off becomes a free block of its own |
| Heap.HandedTotals | FreeRTOSv8.2.2/heap_4.c:243-258 | what is subtracted from the byte count is what the free blocks lost |
| Heap.Heap.Free | FreeRTOSv8.2.2/heap_4.c:301-346 | a live block is live no more and the heap is valid again; an address that is not live changes nothing |
| Heap.Heap.Release | FreeRTOSv8.2.2/heap_4.c:321-338 | the block joins the free ones with its bytes counted |
| Heap.RoundTrip | FreeRTOSv8.2.2/heap_4.c:151-346 | freeing what was just allocated restores the free blocks exactly |
| Heap.AllFreed | FreeRTOSv8.2.2/heap_4.c:415-473 | when nothing is live, in whatever order blocks were freed, each region is one free block again |
| Heap.FitsInGap | FreeRTOSv8.2.2/heap_4.c:193-205 | a free block is large enough if and only if a gap between live blocks is |
| Heap.InOneRegion | FreeRTOSv8.2.2/heap_5.c:370-428 | no free or live block spans two regions, whatever markers have left the list |
| Heap.ListFixed | FreeRTOSv8.2.2/heap_4.c:415-473 | with one region the whole list is fixed by the free blocks |
| TaskLists.Lists.Wake | FreeRTOSv8.2.2/tasks.c:2017-2030 | a woken task is on the ready list of its priority, on no event list, and all containers still agree with the lists |
| TaskLists.WakeAllPlaces | FreeRTOSv8.2.2/tasks.c:1973-2049 | after several wake-ups exactly the woken tasks are ready and wait for nothing, and no other task has moved |
| TaskLists.LengthsCount | FreeRTOSv8.2.2/tasks.c:1810-1815 | lengths of distinct lists add up to the number of tasks on them |
| TaskLists.RemoveItemIndex | FreeRTOSv8.2.2/list.c:212-238 | an index rests on the same item after another is removed, and on the one before if its own is |
| Turns.AppendJoins | FreeRTOSv8.2.2/tasks.c:389-392 | a task added to its ready list gets its turn after all others of its priority but the one that has just had its own; no other list changes |
| Turns.RemoveLeaves | FreeRTOSv8.2.2/list.c:212-238 | a task removed leaves the others in the order of their turns |
| Turns.WalkReadyTakes | FreeRTOSv8.2.2/tasks.c:306-319 | the task chosen is the first in turn and becomes the last |
| Turns.JoinedPlaces | FreeRTOSv8.2.2/tasks.c:389-392 | any number of tasks that become ready put off only the one that has just had its turn, by one turn each, and come behind all others in the order in which they were readied |
| Turns.MoveStep | FreeRTOSv8.2.2/tasks.c:306-392 | no operation of the kernel puts a ready task off, except by readying others while it has just had its turn; each choice of another of its priority brings it one turn closer |
| Turns.BoundedTurns | FreeRTOSv8.2.2/tasks.c:306-392 | bounded waiting over any run of kernel operations: a task that stays ready and is not chosen sees no more choices of its equals than stood before it, and were readied while it had just had its turn |
| KernelLists.NoneDue | FreeRTOSv8.2.2/tasks.c:1969-1973 | skipping the wake loop while the tick count is below xNextTaskUnblockTime never skips a due task |
| KernelLists.NoneLeft | FreeRTOSv8.2.2/tasks.c:369-381 | the current delayed list is empty whenever the lists are swapped, as its assertion claims |
| KernelLists.HeadIsFirst | FreeRTOSv8.2.2/tasks.c:3349-3370 | no task on a delayed list is due before the one at its head |
| KernelLists.DueExactly | FreeRTOSv8.2.2/tasks.c:1973-2049 | stopping at the first task not yet due, the loop has found all due tasks and only those |
| KernelLists.TickDeadlines | FreeRTOSv8.2.2/tasks.c:1939-2049 | a tick wakes exactly the tasks whose deadline on the unbounded clock it is and moves no other deadline, across the wrap too |
| KernelLists.DelayDeadline | FreeRTOSv8.2.2/tasks.c:3073-3100 | whichever list is chosen, the deadline is the moment the counter next shows the wake time |
| KernelLists.DelayedInOrder | FreeRTOSv8.2.2/tasks.c:3073-3100 | on that list it stands behind everyone due no later and in front of the next, due later |
| KernelLists.WokenOnTime | FreeRTOSv8.2.2/tasks.c:1939-2049 | over any deeds, a task left alone is delayed until the tick that reaches its deadline, and not from then on |
| KernelLists.RunWakesOnTime | FreeRTOSv8.2.2/tasks.c:1939-2049 | over any run of kernel operations, each with the deeds its contract names, a task that none of them blocks or unblocks is delayed at every moment before its deadline and at none from then on |
| KernelLists.CatchUpStep | FreeRTOSv8.2.2/tasks.c:1718-1731 | each missed tick processed extends the readied tasks by exactly those due at it |
| KernelLists.CaughtUpIsAfter | FreeRTOSv8.2.2/tasks.c:1671-1761 | what resuming the scheduler does to clock and deadlines is what unblocking the pended tasks and then letting the missed ticks pass does |
| KernelLists.GoodWake | FreeRTOSv8.2.2/tasks.c:2017-2030 | waking any blocked task keeps the kernel invariant |
| KernelLists.GoodReady | FreeRTOSv8.2.2/tasks.c:389-392 | adding a task that is on no list to the ready list of its priority keeps the kernel invariant, with uxTopReadyPriority raised to cover it |
| KernelLists.GoodLower | FreeRTOSv8.2.2/tasks.c:306-315 | with a ready task the downward search never passes priority zero |
| KernelLists.TopIsHighest | FreeRTOSv8.2.2/tasks.c:306-319 | the list found holds tasks of the highest priority of all ready tasks |
| KernelLists.Conservation | FreeRTOSv8.2.2/tasks.c:551-819 | every task is on exactly one generic list and at most one event list, and the list lengths add up to the number of tasks |
| KernelLists.AllSuspended | FreeRTOSv8.2.2/tasks.c:1333-1341 | all tasks are suspended exactly when the list is as long as there are tasks |
| Kernels.Kernel.constructor | FreeRTOSv8.2.2/tasks.c:225-258 | the initial state satisfies the invariant |
| Kernels.Kernel.ResetNextTaskUnblockTime | FreeRTOSv8.2.2/tasks.c:3349-3370 | the value is no later than any wake time on the current list, and is one of them or portMAX_DELAY |
| Kernels.Kernel.IncrementTick | FreeRTOSv8.2.2/tasks.c:1939-2110 | unsuspended: the clock advances by one and exactly the tasks due then become ready, each of them behind all others of its priority but the one that has just had its turn; suspended: only the count of pended ticks changes, and keeps in step with the ticks if and only if it does not wrap; a switch is asked for exactly when one is pending, time is shared, or a woken task outranks |
| Kernels.SwitchWanted | FreeRTOSv8.2.2/tasks.c:2028-2067 | if the running task had the highest priority, a tick asks for a switch if and only if another task of at least its priority is ready afterwards |
| Kernels.SharedMeans | FreeRTOSv8.2.2/tasks.c:2056-2059 | the length test finds exactly that another task of the running one's priority is ready |
| Kernels.PendedTicksLost | FreeRTOSv8.2.2/tasks.c:2078-2088 | a run of 256 ticks that come while the scheduler is suspended, after which it is resumed at the time it was suspended |
| Kernels.Kernel.AdvanceClock | FreeRTOSv8.2.2/tasks.c:1951-1967 | the counter and the overflow counter follow the unbounded clock |
| Kernels.Kernel.SwitchDelayedLists | FreeRTOSv8.2.2/tasks.c:369-381 | the lists change roles and the cached unblock time is right for the new one |
| Kernels.Kernel.WakeDue | FreeRTOSv8.2.2/tasks.c:1973-2049 | the loop wakes exactly the tasks on the current list whose wake time is the tick count, and they join the turns of their priorities in that order |
| Kernels.Kernel.ResumeAll | FreeRTOSv8.2.2/tasks.c:1671-1761 | clock plus pended ticks is unchanged; the outermost call readies exactly the pended tasks and those due by now, who join the turns of their priorities in that order, leaves nothing pended, and is in time what unblocking the pended tasks and then the missed ticks are; a yield is pending afterwards exactly if one was, a readied task outranks, or a tick was missed and time is shared; with no task created yet it finds nothing to do |
| Kernels.Kernel.DrainPending | FreeRTOSv8.2.2/tasks.c:1688-1712 | every pended task is ready, in order and behind the others of its priority, and a yield is pending exactly if one was or one of them outranks |
| Kernels.Kernel.CatchUp | FreeRTOSv8.2.2/tasks.c:1714-1736 | all pended ticks are processed and every task due meanwhile is ready, behind the others of its priority |
| Kernels.Kernel.MissedTick | FreeRTOSv8.2.2/tasks.c:1720-1731 | clock plus pended ticks stays the same through each of them |
| Kernels.Kernel.AddCurrentTaskToDelayedList | FreeRTOSv8.2.2/tasks.c:3073-3100 | the task is due at the moment the counter next shows the wake time, behind all others due no later |
| Kernels.Kernel.DelayCurrent | FreeRTOSv8.2.2/tasks.c:922-981 | the deed is one task blocked for that many ticks of the unbounded clock; nothing changes but its wake time and the two lists it leaves and joins, and the others of its priority keep the order of their turns |
| Kernels.Kernel.DelayCurrentUntil | FreeRTOSv8.2.2/tasks.c:826-903 | it blocks for what is left of the increment, seen modulo the counter; less than a period after the previous wake time that is until the next wake time, exactly when it lies ahead; no other task moves or changes |
| Kernels.Kernel.PlaceOnEventList | FreeRTOSv8.2.2/tasks.c:2263-2319 | the task waits behind everyone whose item value is no larger and in front of the next, which is priority order, first come first served among equals; it is due after the block time unless that is indefinite; no list changes but those it leaves and joins, nor whose turn it is among those it leaves, and no other control block |
| KernelLists.JoinedByPriority | FreeRTOSv8.2.2/tasks.c:2270-2278 | tasks that wait in the order of their priorities go on doing so when one joins them, and the newcomer is the last of its priority |
| Kernels.Kernel.PlaceOnUnorderedEventList | FreeRTOSv8.2.2/tasks.c:2322-2385 | the task waits at the end of the list with its item value marked in use; every other list and control block stays as it is |
| Kernels.Kernel.PlaceOnEventListRestricted | FreeRTOSv8.2.2/tasks.c:2390-2463 | the same with an explicit choice to wait indefinitely |
| Kernels.Kernel.RemoveFromEventList | FreeRTOSv8.2.2/tasks.c:2467-2532 | the first waiter leaves the list, and is ready behind the others of its priority, or held pending with its deadline standing while the scheduler is suspended; it is reported exactly if its priority is higher |
| Kernels.Kernel.PendFirst | FreeRTOSv8.2.2/tasks.c:2485-2499 | pending a waiter changes its event list and nothing else |
| KernelLists.PendedLast | FreeRTOSv8.2.2/tasks.c:2495-2499 | the task pended is the last of those pended |
| Kernels.Kernel.RemoveFromUnorderedEventList | FreeRTOSv8.2.2/tasks.c:2535-2577 | the given waiter is ready behind the others of its priority, with the value it was woken by and without a deadline, and a yield is pending if it outranks |
| Kernels.Kernel.ResetEventItemValue | FreeRTOSv8.2.2/tasks.c:3871-3882 | the task reads what it was woken by and waits in priority order again afterwards |
| Kernels.Kernel.SwitchContext | FreeRTOSv8.2.2/tasks.c:2203-2260 | the task chosen has the highest priority of all ready tasks and is the first in turn among its equals, which makes it the last; nobody else's turn and no deadline changes; suspended, the switch is only remembered |
| Kernels.Kernel.SelectHighestPriorityTask | FreeRTOSv8.2.2/tasks.c:306-319 | the search terminates at the highest non-empty list and the index moves to the task chosen |
| Kernels.Kernel.Create | FreeRTOSv8.2.2/tasks.c:551-739 | a new task is ready at its priority, behind the others of it, which are untouched; the running task is the one to run still, and a yield is asked for exactly if it has the lower priority; refused, nothing changes, nor does the task chosen to start with |
| Kernels.Kernel.AddNewTask | FreeRTOSv8.2.2/tasks.c:645-700 | the invariant, every deadline and the order of turns survive a new task, the first one included |
| KernelLists.NewestOfHighest | FreeRTOSv8.2.2/tasks.c:648-684 | of any tasks created before the scheduler starts, the one to start with is the newest of the highest priority |
| KernelLists.FirstTask | FreeRTOSv8.2.2/tasks.c:648-656 | initialising the lists with the first task loses no task |
| Kernels.Kernel.StartScheduler | FreeRTOSv8.2.2/tasks.c:1543-1620 | with both service tasks granted the scheduler runs, both are ready behind the others of their priorities, and no deadline or invariant is lost; the task it starts with is ready if and only if it is the timer service or was ready before; otherwise it does not start |
| Kernels.StartsDeleted | FreeRTOSv8.2.2/tasks.c:744-819 | a run to a scheduler started with a deleted task |
| Kernels.DeletedDelays | FreeRTOSv8.2.2/tasks.c:3032-3062 | when such a task delays itself, fewer tasks are on the termination list than uxTasksDeleted counts |
| Kernels.Kernel.Delete | FreeRTOSv8.2.2/tasks.c:744-819 | from whatever list, the task moves to the termination list, off every event list and without a deadline, and leaves the turns of its priority in order |
| Kernels.Kernel.CheckTasksWaitingTermination | FreeRTOSv8.2.2/tasks.c:3032-3070 | exactly the deleted tasks are forgotten; no other task moves, no time passes and no deadline changes |
| Kernels.Kernel.LookAtTermination | FreeRTOSv8.2.2/tasks.c:3041-3047 | suspending and resuming the scheduler with no tick in between changes nothing: no list, no control block, no deadline |
| Kernels.Kernel.ReapFirst | FreeRTOSv8.2.2/tasks.c:3049-3058 | the counts of tasks and of deleted tasks stay the lengths they stand for |
| Kernels.Kernel.Suspend | FreeRTOSv8.2.2/tasks.c:1284-1366 | from whatever list, the task ends up suspended, waiting for no event and without a deadline, and leaves the turns of its priority in order; before the scheduler has started its place is taken by the next in turn of the highest priority, or by nobody if all are suspended |
| Kernels.Kernel.ReplaceCurrent | FreeRTOSv8.2.2/tasks.c:1328-1345 | the task that takes its place is the right one, or none exactly if all are suspended |
| Kernels.Kernel.Resume | FreeRTOSv8.2.2/tasks.c:1419-1465 | a task becomes ready, behind the others of its priority, exactly if it is suspended and not blocked indefinitely, pended or running |
| Kernels.Kernel.ResumeFromISR | FreeRTOSv8.2.2/tasks.c:1473-1538 | the same from an interrupt, with the task pended while the scheduler is suspended |
| Kernels.Kernel.PrioritySet | FreeRTOSv8.2.2/tasks.c:1120-1277 | the task has the new base priority, and runs at that unless it has inherited another; if it was ready it leaves the turns of its old priority and joins those of the one it uses; no other control block changes |
| Kernels.Kernel.PriorityInherit | FreeRTOSv8.2.2/tasks.c:3420-3479 | the holder runs at the higher of its own priority and that of the running task, with its base priority kept, and joins the turns of that if it is ready; no other control block changes |
| Kernels.Kernel.PriorityDisinherit | FreeRTOSv8.2.2/tasks.c:3486-3560 | one mutex fewer is held, every base priority is kept, and with the last mutex, and only then, the task is back at its own; no other control block changes |
| Kernels.Kernel.IncrementMutexHeldCount | FreeRTOSv8.2.2/tasks.c:3887-3897 | the running task is credited with one more mutex |
| Kernels.Kernel.TaskConservation | FreeRTOSv8.2.2/tasks.c:551-819 | whenever the invariant holds, as it does after any operations whose blocking calls come from a ready task, the list lengths add up to uxCurrentNumberOfTasks, and uxTasksDeleted is the length of the termination list |
| Kernels.Kernel.DelayedAreDue | FreeRTOSv8.2.2/tasks.c:922-2463 | the tasks with a deadline are exactly those on a delayed list, and every deadline lies ahead |
| Kernels.Kernel.CountersShowTime | FreeRTOSv8.2.2/tasks.c:1951-1961 | whenever the invariant holds xTickCount and xNumOfOverflows show the unbounded clock |
| Mutexes.AgreeTaken | FreeRTOSv8.2.2/queue.c:1398-1418 | taking keeps uxMutexesHeld equal to the number of mutexes naming the task |
| Mutexes.AgreeGiven | FreeRTOSv8.2.2/tasks.c:3486-3560 | so does giving back, and a task without mutexes runs at its base priority |
| Mutexes.AgreeRaised | FreeRTOSv8.2.2/tasks.c:3420-3479 | after inheritance the holder runs at no less than the priority that now waits |
| Mutexes.StepKeeps | FreeRTOSv8.2.2/queue.c:1365-1549 | taking, blocking, giving, harmless priority changes and whatever else the kernel does keep counts, holders and what holders owe their waiters in agreement |
| Mutexes.AsideKeeps | FreeRTOSv8.2.2/tasks.c:551-3070 | delays, waits for other things, tasks created and tasks reaped keep that agreement, as long as no holder goes |
| Mutexes.HolderKeepsPriority | FreeRTOSv8.2.2/tasks.c:3420-3560 | over any run of uses, harmless priority changes and other steps of the kernel, a holder that sleeps or waits for something else and tasks created or reaped included, until a mutex is given back its holder stays and runs at no less than every task that has blocked on it |
| Mutexes.BlockerBounds | FreeRTOSv8.2.2/queue.c:1502-1524 | in particular from the moment a task blocks |
| Mutexes.BasePriorityStays | FreeRTOSv8.2.2/tasks.c:3420-3560 | over any run, whatever a task takes, gives back and waits for and whoever waits for it: as long as nobody sets its priority its base priority stays, and whenever it holds no mutex it runs at that |
| Mutexes.PrioritiesAreGiven | FreeRTOSv8.2.2/tasks.c:3420-3560 | over any run no task gets above the highest priority that tasks had at the start, were created with or were set to |
| Mutexes.SetPriorityExact | FreeRTOSv8.2.2/tasks.c:1206-1216 | in every state: a change of priority keeps the guarantee if and only if the task uses an inherited priority or no task has blocked on a mutex of its at a higher priority than the new one |
| Mutexes.HolderSetBelow | FreeRTOSv8.2.2/tasks.c:1206-1216 | a run in which a holder is set below the task that waits for its mutex |
| Mutexes.Mutexes.Create | FreeRTOSv8.2.2/queue.c:391-449 | a new mutex is available and held by nobody |
| Mutexes.Mutexes.Take | FreeRTOSv8.2.2/queue.c:1384-1465 | it is taken exactly if nobody holds it, by the running task and with no priority changed; failing, nothing changes |
| Mutexes.Mutexes.Block | FreeRTOSv8.2.2/queue.c:1502-1530 | the holder ends at the higher of its priority and the caller's, with its base priority kept and no other priority changed, and the caller waits on the mutex |
| Mutexes.Mutexes.Give | FreeRTOSv8.2.2/queue.c:627-704 | the mutex is available again, its giver is at its base priority if it holds no other and at the priority it ran at if it does, no base priority and no other priority changes, and the first waiter is woken |
| Mutexes.Mutexes.CopyToMutex | FreeRTOSv8.2.2/queue.c:1785-1805 | giving is one step of the protocol and moves no waiter |
| Mutexes.Mutexes.PrioritySet | FreeRTOSv8.2.2/tasks.c:1120-1277 | a harmless change is one step of the protocol and keeps what mutexes guarantee; the task has the new base priority and no other task's priority changes |
| Mutexes.Mutexes.Delay | FreeRTOSv8.2.2/tasks.c:922-981 | a holder may delay itself: to the mutexes that is a step aside |
| Mutexes.Mutexes.AwaitEvent | FreeRTOSv8.2.2/tasks.c:2322-2385 | or wait on an event group |
| Mutexes.Mutexes.AwaitQueue | FreeRTOSv8.2.2/tasks.c:2263-2319 | or wait on another queue |
| Mutexes.Mutexes.CreateTask | FreeRTOSv8.2.2/tasks.c:551-739 | so is the creation of a task, granted or not |
| Mutexes.Mutexes.Reap | FreeRTOSv8.2.2/tasks.c:3032-3070 | and the reaping of deleted tasks, if none of them holds a mutex |
| QueueStorage.SlotIsModulo | FreeRTOSv8.2.2/queue.c:1807-1818 | wrapping at the tail is arithmetic modulo the length: write slot = (read slot + 1 + count) mod length |
| QueueStorage.SlotsDistinct | FreeRTOSv8.2.2/queue.c:1785-1874 | the items of a queue lie in different slots |
| QueueStorage.Queue.constructor | FreeRTOSv8.2.2/queue.c:313-386 | a new queue is the empty sequence |
| QueueStorage.Queue.Reset | FreeRTOSv8.2.2/queue.c:260-273 | after a reset it is the empty sequence whatever the pointers were |
| QueueStorage.Queue.Store | FreeRTOSv8.2.2/queue.c:1808-1821 | copying an item in changes its slot and no other |
| QueueStorage.Queue.CopyDataToQueue | FreeRTOSv8.2.2/queue.c:1785-1856 | sending to the back, to the front, or overwriting is appending, prepending, or replacing in the sequence; items without size are only counted, in eight bits and past the length when overwriting, and storage and pointers stay as they are |
| QueueStorage.Queue.CopyDataFromQueue | FreeRTOSv8.2.2/queue.c:1859-1874 | the item copied out is the first of the sequence |
| QueueStorage.Queue.Receive | FreeRTOSv8.2.2/queue.c:1552-1636 | an item is received exactly if there is one, and is the first of the sequence, the rest staying in order, a count past the length included |
| QueueStorage.Queue.Peek | FreeRTOSv8.2.2/queue.c:1639-1690 | the first item is seen and the sequence is unchanged |
| QueueStorage.Queue.Send | FreeRTOSv8.2.2/queue.c:1055-1201 | an item is accepted exactly if there is room or it overwrites, and refused without effect; accepted at the back it is the last of the sequence, at the front the first, overwriting the only one, and items without size are counted in eight bits |
| QueueStorage.FirstInFirstOut | FreeRTOSv8.2.2/queue.c:1785-1874 | over any run of sends to the back and receives: what was received, followed by what is still in the queue, is what was in it followed by what was sent |
| QueueStorage.CountWithinLength | FreeRTOSv8.2.2/queue.c:1785-1853 | an accepted send keeps the count within the length if and only if it does not overwrite a full queue without storage |
| QueueStorage.OverwriteFull | FreeRTOSv8.2.2/queue.c:1785-1853 | a binary semaphore given and then overwritten counts two and can be taken twice |
| QueueLock.StepKeeps | FreeRTOSv8.2.2/queue.c:1384-1548 | every step of a task or interrupt at which no lock count wraps keeps the accounting of wake-ups: while a task waits, messages are covered by woken receivers plus the lock count, and room likewise |
| QueueLock.NoWaiterForgotten | FreeRTOSv8.2.2/queue.c:1877-1989 | over any interleaving: with the queue unlocked and every woken task having looked again, no task waits to receive from a queue with messages or to send to one with room |
| QueueLock.NeverForgotten | FreeRTOSv8.2.2/queue.c:1877-1989 | the same from the creation of the queue on |
| QueueLock.MessagesConserved | FreeRTOSv8.2.2/queue.c:1055-1636 | over any interleaving, the messages at the end are those at the start with those posts added that did not overwrite a full queue, less the receives that were no peeks |
| QueueLock.StepKeepsTasks | FreeRTOSv8.2.2/queue.c:1384-1989 | each step leaves on a list, or woken and not yet looking again, exactly the tasks that were, with the one that blocks and without the one that times out or looks |
| QueueLock.NoTaskLost | FreeRTOSv8.2.2/queue.c:1384-1989 | so over any run no task that has blocked is lost |
| QueueLock.ChecksDecide | FreeRTOSv8.2.2/queue.c:1495-1545 | a task with the queue locked goes on to block exactly if its time is not up and the queue is still of no use to it |
| QueueLock.LockCountWraps | FreeRTOSv8.2.2/queue.c:1182-1188 | in every state: a step keeps the invariant if and only if it is not the 128th accepted post, or the 128th removal, by an interrupt while the queue is locked |
| QueueLock.WrapForgets | FreeRTOSv8.2.2/queue.c:1877-1989 | when a count wraps and the queue is then unlocked, a task is left waiting though there is something for it if and only if one waits on the side that was counted and no woken one will make way for it |
| QueueLock.WakeUpLost | FreeRTOSv8.2.2/queue.c:1497-1548 | a run from a new queue, with 128 posts while a task blocks, that ends with the task waiting to receive from a queue of 128 messages |
| QueueLock.UnlockWithoutWaking | FreeRTOSv8.2.2/queue.c:1885-1989 | with a lock count that has wrapped, unlocking wakes nobody |
| QueueLock.Queue.SendFromISR | FreeRTOSv8.2.2/queue.c:1055-1201 | the interrupt's post is exactly that step of the protocol: one message more unless it is refused or overwrites a full queue, and the first waiting receiver woken if the queue is unlocked, or one more counted by the lock if not |
| QueueLock.Queue.ReceiveFromISR | FreeRTOSv8.2.2/queue.c:1552-1636 | likewise its receive: one message fewer, and the first waiting sender woken or one more counted by the lock |
| QueueLock.Queue.TrySend | FreeRTOSv8.2.2/queue.c:631-726 | likewise the first critical section of a send: one message more unless it is refused or overwrites a full queue, and the first waiting receiver woken |
| QueueLock.Queue.TryReceive | FreeRTOSv8.2.2/queue.c:1386-1465 | likewise that of a receive, which takes one message and wakes the first waiting sender, or of a peek, which takes none and wakes the first waiting receiver |
| QueueLock.Queue.LockQueue | FreeRTOSv8.2.2/queue.c:245-257 | likewise locking: a lock that was open starts to count, any other goes on counting |
| QueueLock.Queue.UnlockPosts | FreeRTOSv8.2.2/queue.c:1877-1960 | the loop wakes one receiver for each post made while locked, as far as there are any |
| QueueLock.Queue.UnlockRemovals | FreeRTOSv8.2.2/queue.c:1962-1989 | and one sender for each item removed |
| QueueSets.SetHasRoom | FreeRTOSv8.2.2/queue.c:2548-2560 | with the length of the set at least the sum of its members' lengths, the assertion that it has room never fires |
| QueueSets.QueueSet.FillShort | FreeRTOSv8.2.2/queue.c:2548-2560 | any set shorter than its members together can be filled by posts, which are returned, while some unlocked member still accepts one, so that the assertion fires on the next |
| QueueSets.SelectedNotEmpty | FreeRTOSv8.2.2/queue.c:2522-2530 | a selected member is never empty |
| QueueSets.PostConserved | FreeRTOSv8.2.2/queue.c:2548-2595 | a post keeps handles in the set, unused selections and lock count together equal to the member's messages |
| QueueSets.RepayConserved | FreeRTOSv8.2.2/queue.c:1888-1915 | so does each handle that unlocking adds |
| QueueSets.SelectConserved | FreeRTOSv8.2.2/queue.c:2522-2530 | so does selecting, which names a member with something to receive |
| QueueSets.QueueSet.AddToSet | FreeRTOSv8.2.2/queue.c:2453-2480 | a queue joins exactly if it is in no set and empty, and the set is then long enough exactly if its length covers the sum |
| QueueSets.QueueSet.RemoveFromSet | FreeRTOSv8.2.2/queue.c:2486-2516 | a member leaves exactly if it is empty |
| QueueSets.QueueSet.Send | FreeRTOSv8.2.2/queue.c:631-704 | a post to a member puts one handle in the set, if there is room in it as there always is in one long enough, and keeps the conservation law |
| QueueSets.QueueSet.SendFromISR | FreeRTOSv8.2.2/queue.c:1083-1190 | so does one from an interrupt, where a locked member counts it instead: the law is kept if and only if that count does not wrap |
| QueueSets.QueueSet.UnlockQueue | FreeRTOSv8.2.2/queue.c:1885-1960 | unlocking adds one handle for every counted post, if the set has room for them, as one long enough always has |
| QueueSets.QueueSet.SelectFromSet | FreeRTOSv8.2.2/queue.c:2522-2530 | the handle returned is the first of the set and its member has something to receive |
| QueueSets.QueueSet.Receive | FreeRTOSv8.2.2/queue.c:1384-1410 | a receive after a selection always finds an item |
| EventGroups.ConditionMeans | FreeRTOSv8.2.2/event_groups.c:613-645 | the test holds exactly when all, or any, of the bits waited for are set |
| EventGroups.ClearingSatisfiesNone | FreeRTOSv8.2.2/event_groups.c:422-446 | clearing bits satisfies no waiter |
| EventGroups.ToClearMeans | FreeRTOSv8.2.2/event_groups.c:533-560 | a bit is cleared exactly if some woken waiter asked for it |
| EventGroups.OrderIrrelevant | FreeRTOSv8.2.2/event_groups.c:480-571 | which tasks are woken and which bits are left do not depend on the order of the waiter list |
| EventGroups.StayingInOrder | FreeRTOSv8.2.2/event_groups.c:510-562 | those who stay are in the order in which they were |
| EventGroups.DeliveredSatisfies | FreeRTOSv8.2.2/event_groups.c:548-556 | a woken task returns bits that satisfy its condition |
| EventGroups.ControlsApart | FreeRTOSv8.2.2/event_groups.c:325-345 | the control bits kept in an item value do not disturb the condition recorded there |
| EventGroups.EventGroup.SetBits | FreeRTOSv8.2.2/event_groups.c:480-571 | exactly the satisfied waiters leave, each with the bits that satisfied it, before any bit is cleared, and the others stay with the values they had; afterwards no waiter is satisfied |
| EventGroups.EventGroup.ClearBits | FreeRTOSv8.2.2/event_groups.c:422-446 | the bits are cleared, the old ones returned, and no waiter becomes satisfied |
| EventGroups.EventGroup.WaitBits | FreeRTOSv8.2.2/event_groups.c:274-358 | a caller blocks exactly if its condition does not hold and it may wait; a satisfied one is never listed |
| EventGroups.EventGroup.TimeOut | FreeRTOSv8.2.2/tasks.c:2017-2030 | a waiter whose time is up leaves its place in the list, the others staying in order, with an item value that does not say it was woken by bits |
| EventGroups.EventGroup.WaitBitsReturn | FreeRTOSv8.2.2/event_groups.c:359-418 | a caller woken by bits returns those; one that timed out looks again, and clears on exit only if satisfied |
| EventGroups.EventGroup.Sync | FreeRTOSv8.2.2/event_groups.c:158-226 | the last to arrive releases the others and clears the bits; any other blocks, or returns what is left |
| EventGroups.EventGroup.Delete | FreeRTOSv8.2.2/event_groups.c:574-594 | every waiter is released, with no bits |
| Timers.PlacementExact | FreeRTOSv8.2.2/timers.c:544-582 | handled less than a period after its command, a timer is processed at once exactly if it has expired, and else joins the current list exactly if it expires in this epoch |
| Timers.PlacementLate | FreeRTOSv8.2.2/timers.c:544-582 | later than that the judgement is right if and only if a stated condition holds |
| Timers.PlacementMissed | FreeRTOSv8.2.2/timers.c:544-582 | one whole period late, a timer of period one is taken to be running: a concrete case |
| Timers.SampleExact | FreeRTOSv8.2.2/timers.c:521-541 | for every two samples: the wrap test tells how many epochs lie between them if and only if they are less than a period apart |
| Timers.SampleMissed | FreeRTOSv8.2.2/timers.c:521-541 | two samples in epochs that follow each other between which no wrap is seen: a concrete case |
| Timers.ExpiryReadOff | FreeRTOSv8.2.2/timers.c:544-582 | list and item value together give back the expiry on the unbounded clock |
| Timers.InsertedInOrder | FreeRTOSv8.2.2/timers.c:544-582 | a timer put on a list stands behind everyone who expires no later and in front of the next |
| Timers.CallbacksMatchPeriods | FreeRTOSv8.2.2/timers.c:378-415 | a timer on a list with its next expiry ahead has called back for start + p, start + 2p and so on, once each, and for every one that has passed |
| Timers.RestIsOnTime | FreeRTOSv8.2.2/timers.c:442-492 | whenever the daemon blocks, an undisturbed timer has called back once for each period since its start, (now - start) / p times, and a one-shot timer once if its time has come |
| Timers.RunOnBeat | FreeRTOSv8.2.2/timers.c:378-767 | over any run of the service, a timer that is never commanded from outside, never restarted too late and never refused room in the queue keeps its start, and whenever the daemon blocks has called back for start + p, start + 2p, ... up to now, each once and in order, and for nothing else |
| Timers.DaemonWakesInTime | FreeRTOSv8.2.2/timers.c:442-518 | a daemon that blocks so runs again by the first expiry, if and only if it does not block indefinitely with timers on the overflow list |
| Timers.DaemonForgets | FreeRTOSv8.2.2/timers.c:442-518 | a run that ends with the daemon blocked without a time limit while a timer is to expire in two ticks |
| Timers.IdleForGood | FreeRTOSv8.2.2/timers.c:316-767 | over any run, a timer on no list and with no command in the queue, as a lost restart leaves it, stays so until it is commanded |
| Timers.RestartLost | FreeRTOSv8.2.2/timers.c:378-415 | a run in which a command to another timer fills the queue and the restart of an expired timer is lost, which is idle from then on |
| Timers.TimerService.constructor | FreeRTOSv8.2.2/timers.c:770-804 | the service starts with nothing listed, queued or owed |
| Timers.TimerService.InsertTimerInActiveList | FreeRTOSv8.2.2/timers.c:544-582 | the timer goes on one list in expiry order, or on none if it must be processed now |
| Timers.SettleQueued | FreeRTOSv8.2.2/timers.c:398-404 | sending the restart of a timer keeps the invariant: it is the trace the timer leaves, or the timer is no longer accounted for because the queue is full |
| Timers.TimerService.ProcessExpiredTimer | FreeRTOSv8.2.2/timers.c:378-415 | one callback for exactly the expiry that passed, the next expiry on a list or in the queue, lost exactly if it has passed as well and the queue is full, which leaves the timer idle; no other timer's beat changes and no idle timer is stirred |
| Timers.TimerService.SwitchTimerLists | FreeRTOSv8.2.2/timers.c:711-767 | the drain loop ends; no timer loses its start or a past callback, expiries of the next epoch are carried over, and no restart is lost exactly when the queue has room for every reloading timer on the list |
| Timers.TimerService.ProcessHead | FreeRTOSv8.2.2/timers.c:724-760 | each trip round that loop strictly lessens the room left before the wrap, and turns each reloading timer that leaves the list into one restart, sent or lost |
| Timers.TimerService.Restart | FreeRTOSv8.2.2/timers.c:735-757 | a reload that would wrap is sent to the queue, and lost exactly when that is full; any other strictly raises the item value |
| Timers.TimerService.SampleTimeNow | FreeRTOSv8.2.2/timers.c:521-541 | sampled less than a period apart, lists are switched exactly when the epoch changed; starts and past callbacks are kept but for timers whose restart found the queue full |
| Timers.TimerService.ProcessReceivedCommand | FreeRTOSv8.2.2/timers.c:585-708 | start, stop, change of period and delete each leave the timer where they should, at the expiry counted from command time or now; every other timer that runs undisturbed goes on doing so, but for timers on the current list whose restart finds the queue full; the timer of the command loses its beat only if its restart finds it full or comes a period too late |
| Timers.TimerService.TakeCommand | FreeRTOSv8.2.2/timers.c:616-642 | the first message leaves the queue, its timer leaves its list, and nothing else about other timers changes but what sampling the time does, which can lose the beat of timers on the current list only |
| Timers.TimerService.StartTimer | FreeRTOSv8.2.2/timers.c:646-674 | the timer expires a period after its command time; if that has passed it calls back once, at once, and stays on that beat, its restart lost exactly when the queue is full; no other timer is disturbed |
| Timers.TimerService.ProcessLateStart | FreeRTOSv8.2.2/timers.c:657-670 | one callback, and a restart for the expiry just passed, lost exactly when the queue is full |
| Timers.TimerService.ChangeTimerPeriod | FreeRTOSv8.2.2/timers.c:682-694 | the timer expires the new period from now, and no other timer is disturbed |
| Timers.TimerService.Post | FreeRTOSv8.2.2/timers.c:316-354 | an application command is queued if there is room, and disturbs or stirs no timer but its own |
| Timers.TimerService.GetNextExpireTime | FreeRTOSv8.2.2/timers.c:495-518 | the time is that of a timer on the current list and no timer there expires earlier, or zero with the list reported empty |
| Timers.TimerService.ProcessTimerOrBlockTask | FreeRTOSv8.2.2/timers.c:442-492 | the daemon expires a timer, with one callback, exactly if one is due in this epoch; it blocks with nothing changed and nothing due, until exactly the expiry of the first timer on the current list, or with that list empty without a limit if and only if INCLUDE_vTaskSuspend is set, and until the counter next shows zero if not; no timer's start or past callback is lost but of timers on the current list by a full queue, and those are idle then |

## Left out

Statements weaker than the source, or needing more of the caller:

- Kernels.Kernel.Suspend: of the running task before the scheduler has started, needs another task to be ready or all others suspended; with nothing but deleted tasks left the source's search for a ready list runs off the end.
- Kernels.Kernel.DelayCurrent: and the other blocking calls need a caller that is ready; Kernels.StartsDeleted shows how another can come to run.
- Kernels.Kernel.Create: memory for the control block and the stack is granted or refused from outside; stack contents and task names are not modelled.
- Kernels.Kernel.PrioritySet: rewrites the value of an event item in place without moving it, as the source does, so that event lists are in priority order only while blocked tasks keep their priority; no order is claimed beyond the place at insertion.
- Kernels.Kernel.PlaceOnEventListRestricted: does not cover a block time of zero ticks, which arises only without INCLUDE_vTaskSuspend, when the timer list is empty at tick count zero: the daemon is then put on the delayed list with the present as its wake time and runs at the next tick.
- Heap.Heap.Malloc: addresses are unbounded numbers, so that a region reaching the end of the address space is not covered, and the application is taken not to overwrite block headers.
- Heap.Heap.Free: needs a header at the address handed in, as the source does.
- QueueLock.StepKeeps: excludes xQueueGenericReset, which wakes at most one sender, and suspension or deletion of woken tasks.
- QueueLock.NoWaiterForgotten: the places of waiters on the lists of the kernel are in Kernels.Kernel; the two models are not composed.
- QueueSets.QueueSet.Send: excludes overwriting and resetting a member, and the waiters of the set itself, which are those of any queue (QueueLock).
- Mutexes.Mutexes.Give: by the holder, as the documentation demands; recursive mutexes, xQueueGiveFromISR and deletion of a holder are not modelled.
- Mutexes.Mutexes.PrioritySet: only where it keeps what mutexes guarantee; Mutexes.SetPriorityExact shows that no other change does.
- Timers.TimerService.ProcessReceivedCommand: is one trip round the command loop, whose end depends on how fast commands arrive; a timer is deleted only when no other command for it is queued, since its memory is then gone.
- Timers.TimerService.SampleTimeNow: needs less than a counter period between samples, the exact condition of Timers.SampleExact.
- EventGroups.EventGroup.SetBits: the lists of the kernel that waking a waiter changes are in Kernels.Kernel.RemoveFromUnorderedEventList; the two are not composed.

Not modelled:

- port.c, portmacro.h and StackMacros.h: registers, assembly and the hardware timer; critical sections are atomic steps and interrupts are steps between them.
- croutine.c, heap_1.c, heap_2.c, heap_3.c: weaker forms of what is modelled.
- Task notifications, tickless idle, MPU wrappers, run-time statistics, tracing, vTaskList, the queue registry, counting semaphores' wrappers and the alternative queue API: side features without a harder invariant.
- Application hooks and timer callbacks: taken not to touch the kernel's lists; pended function calls of the timer daemon likewise.
- The index of lists other than ready lists, which the kernel never walks.
- BootloaderCDC, avrlib, optiboot and lufa: device code outside the kernel.
