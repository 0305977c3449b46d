# FOS kernel: heaps, scheduling, memory, page file

Proofs about the FOS teaching kernel and its user library. The kernel keeps its
state in intrusive linked lists, page tables, reference counts and small arrays;
the proofs say what those structures stand for and what every run keeps.

| files | what they model |
|---|---|
| Queue | the list macros, on nodes that carry their own links |
| Blocks, Tiling, BlockLists | address blocks, the tiling of a heap, the three descriptor lists |
| UserHeap | malloc and free of the user heap |
| SemaphoreSpec, SchedulerSpec, SchedulerTheorems, SchedulerOrder, Scheduler | semaphores, the queues of environments, the kernel operations on them |
| RoundRobin, ReadyQueue | the ready list with its cursor |
| AirModel, AirSums, AirInvariant, AirLocal, AirTheorems, AirTermination, AirWitness | the air reservation programs as interleaved processes |
| Frames, FrameRanges, FrameRuns, FrameTable | frames, reference counts, page-table entries |
| KernelHeapSpec, KernelHeapTheorems, KernelHeapCalls, KernelHeap | kmalloc and kfree over block lists and frames, address translation |
| SharesMemory, SharesSpec, SharesCore, SharesCreate, SharesFree, SharesTheorems, SharesAnswers, SharedMemory | shared objects, with the environments' page tables |
| SharedHeapSpec, SharedHeapLoops, SharedHeapTheorems | shared objects over the kernel heap: kmalloc gives and kfree takes the pages of stores and page tables |
| FreeMemSpec, FreeMemTheorems, FreeMem | giving back a range of an environment's pages |
| PageFileSpec, PageFileTheorems, PageFile | the page file |
| Aging | the LRU time stamps |
| PrintParse | printnum and strtol |

Code that updates state is a class whose methods run the source's loops and
branches; each method's contract is a step function on values, and the theorems
are about those functions, over every run. `dafny verify dfyconfig.toml` checks
everything.

How some things are represented:

* A list header's ghost field `nodes` is the sequence the list stands for; the
  links are real fields, and `Valid` ties them to it.
* `ready` in the scheduler is the ready list read circularly from `sched_next`;
  ReadyQueue proves that the linked list with its cursor behaves as that
  sequence.
* A slot is one page-table entry, keyed by address space and page number. The
  kernel's tables are one address space because all directories share them.
  Entries made by map_frame, which counts them, and entries left by
  boot_map_range, which does not, are two maps: `ptes` and `boot`. `Entries` is
  both together.
* A stamp's `>> 2` is a division by four, and setting bit 31 is an addition,
  the bit being clear after the shift.
* `Fault` results stand for a null pointer followed, `NoDescriptor` for the
  panic on an empty descriptor pool.
* `views` of shared objects are bookkeeping: the addresses handed out and not
  yet freed.

Where the code differs from what one would expect, the code was followed. A
lemma says exactly when the expectation holds, and where a concrete run shows
the difference it is given beside it:

* a request that rounds to zero breaks the user heap whenever it is served
  (`UserHeap.ZeroRequestBreaksInv`);
* the user heap's pool has 100000 descriptors for 262144 pages: malloc panics
  exactly when none is spare and the block found is too long to be used up
  (`UserHeap.MallocIsLowest`); the kernel's pool cannot run out
  (`KernelHeapTheorems.DescriptorsSuffice`);
* freeing with an empty free list follows a null pointer
  (`UserHeap.FreeKeepsInv`, `UserHeap.FreeUndoesMalloc`,
  `KernelHeapTheorems.KfreeKeeps`, `SharedHeapTheorems.FreeKeeps`; one request
  for the whole heap leads there, `UserHeap.WholeHeapCannotBeFreed`), and so does
  kmalloc under first fit when something fits and nothing is taken
  (`KernelHeapTheorems.KmallocKeeps`);
* kheap_virtual_address undoes kheap_physical_address exactly for pages whose
  frame has not been entered elsewhere since kmalloc
  (`KernelHeapTheorems.RoundTripIff`); creating any environment moves the pages
  of its working set (`KernelHeapTheorems.WorkingSetIsMoved`);
* semaphore values of 2^31 and more turn negative
  (`SemaphoreSpec.CreateBalancedIff`);
* waking somebody puts the running environment out of last place
  (`SchedulerTheorems.CurrentIsLastIff`, `SchedulerTheorems.WakingMovesCurrent`);
* a reference count of 65535 wraps to 0 (`Frames.MapKeepsIff`,
  `Frames.FullCountWraps`);
* base memory, frames 3 to 159, goes on the free list although the kernel's
  window at KERNEL_BASE maps it and counts nothing for it
  (`FrameTable.BaseMemoryIsMapped`): such a frame's count is always one short of
  its entries (`FrameTable.BaseMemoryCountsShort`), and a count is the number of
  entries, and free means unmapped, exactly for the frames booting left no entry
  for (`Frames.CountsAllIff`, `FrameRuns.RunsCountEntries`);
* freeMem leaves pages mapped that are in no working set
  (`FreeMemTheorems.ErasesMemoryIff`), such as every page of a shared object
  (`SharesTheorems.SharedPageSurvivesFreeMem`);
* freeing an environment loses the disk frames of what it keeps at or above
  USER_TOP (`PageFileTheorems.FreeEnvKeepsIff`), and disk frames are handed on
  uncleared (`PageFileTheorems.RemovedPageReadsAgain`);
* numbers of 2^31 and more do not survive printing and parsing
  (`PrintParse.RoundTripIff`);
* the master's value assertions need its sleep (`AirTheorems.MasterValuesIff`,
  `AirWitness.ValuesCanBeOff`).

## Model

| member | source | states |
|---|---|---|
| Queue.List.InsertAfter | FOS_Project_2017_Template/inc/queue.h:202-217 | LIST_INSERT_AFTER puts the element right after its neighbour and leaves both link directions, both ends and the size consistent |
| Queue.List.InsertBefore | FOS_Project_2017_Template/inc/queue.h:219-236 | LIST_INSERT_BEFORE, likewise, right before its neighbour |
| Queue.List.InsertHead | FOS_Project_2017_Template/inc/queue.h:238-250 | LIST_INSERT_HEAD puts the element first |
| Queue.List.InsertTail | FOS_Project_2017_Template/inc/queue.h:252-264 | LIST_INSERT_TAIL puts the element last |
| Queue.List.Remove | FOS_Project_2017_Template/inc/queue.h:266-278 | LIST_REMOVE deletes exactly that element, repairs the links around it and clears its own |
| Queue.List.SkippedIsRemoved | FOS_Project_2017_Template/inc/queue.h:266-278 | links that skip one node of a well-formed list are the links of the sequence without it |
| Blocks.CanonicalUnique | FOS_Project_2017_Template/lib/uheap.c:223-346 | a sorted list of blocks that never touch is determined by the addresses it covers |
| Blocks.MergeCanonical | FOS_Project_2017_Template/lib/uheap.c:223-304 | putting a block back, joining what it touches, keeps the list sorted and coalesced |
| Blocks.MergeCover | FOS_Project_2017_Template/lib/uheap.c:223-304 | the merged list covers exactly the old addresses and those of the block |
| Tiling.FreeListIsDetermined | FOS_Project_2017_Template/lib/uheap.c:203-346 | when free and taken blocks tile the heap, the free list is a function of the taken addresses |
| Tiling.FirstFitIsLowest | FOS_Project_2017_Template/lib/uheap.c:76-88 | first fit over the list finds the lowest address of the whole heap whose range misses every taken block, or there is none |
| Tiling.AllocateTiles | FOS_Project_2017_Template/lib/uheap.c:89-106 | carving a block and recording it keeps the tiling |
| Tiling.ReleaseTiles | FOS_Project_2017_Template/lib/uheap.c:203-304 | taking a block off the taken list and merging it back keeps the tiling |
| Tiling.ReleaseOrderIrrelevant | FOS_Project_2017_Template/lib/uheap.c:203-304 | two blocks can be freed in either order: the heap comes out the same |
| BlockLists.InsertSorted | FOS_Project_2017_Template/lib/uheap.c:305-346 | insert_sorted puts the element where its three-way scan says, on any non-empty list |
| BlockLists.SortedPositionIsPosition | FOS_Project_2017_Template/kern/kheap.c:428-469 | on a sorted coalesced list that place keeps the list sorted |
| BlockLists.BlockLists.AllocateBlock | FOS_Project_2017_Template/kern/memory_manager.c:1520-1526 | a descriptor leaves the pool and is on no list; null, for the panic, exactly when the pool is empty; the three lists and the held descriptors always share out the descriptor array |
| BlockLists.BlockLists.CarveFront | FOS_Project_2017_Template/lib/uheap.c:89-100 | the found block loses its front, and an emptied one goes back to the pool |
| BlockLists.BlockLists.JoinNeighbours | FOS_Project_2017_Template/lib/uheap.c:223-304 | a freed block that closes a gap joins both neighbours into one descriptor and returns two to the pool |
| BlockLists.BlockLists.SearchNext | FOS_Project_2017_Template/kern/kheap.c:346-376 | the early-exit scan of next fit finds the first fitting block from the cursor on and, failing that, the first fitting block |
| UserHeap.UserHeap.Malloc | FOS_Project_2017_Template/lib/uheap.c:26-107 | malloc and first_fit_user on the linked lists perform one step of the abstract heap, with its result |
| UserHeap.UserHeap.Free | FOS_Project_2017_Template/lib/uheap.c:203-222 | free on the linked lists performs one step of the abstract heap; an unknown address changes nothing |
| UserHeap.UserHeap.CoalescingHeapUser | FOS_Project_2017_Template/lib/uheap.c:223-304 | the branches of Coalescing_heap_user together merge the block into the free list |
| UserHeap.MallocIsLowest | FOS_Project_2017_Template/lib/uheap.c:26-107 | in every reachable heap malloc returns the lowest vacant address, aligned, and null exactly when no address is vacant; it panics if and only if no descriptor is spare and the lowest vacant run is longer than the request |
| UserHeap.ZeroRequestBreaksInv | FOS_Project_2017_Template/lib/uheap.c:47-106 | an address given breaks the heap if and only if the request rounded to zero, and such a request is given one whenever a free block and a descriptor are left |
| UserHeap.FreeKeepsInv | FOS_Project_2017_Template/lib/uheap.c:203-346 | free keeps the tiling; it follows a null pointer exactly when the address is taken and no free block is left |
| UserHeap.WholeHeapCannotBeFreed | FOS_Project_2017_Template/lib/uheap.c:203-346 | from the start, malloc of the whole heap empties the free list and freeing that block follows a null pointer |
| UserHeap.RunInv | FOS_Project_2017_Template/lib/uheap.c:26-346 | the heap invariant over every history of malloc and free |
| UserHeap.HistoriesAgree | FOS_Project_2017_Template/lib/uheap.c:203-346 | histories that leave the same blocks taken leave the same free list and the same number of spare descriptors |
| UserHeap.FreeUndoesMalloc | FOS_Project_2017_Template/lib/uheap.c:26-346 | free(malloc(n)) restores the whole state, if and only if malloc left a free block |
| SemaphoreSpec.SemaphoreLaw | FOS_Project_2017_Template/kern/semaphore_manager.c:195-260 | queue length is max(0, -value), passes plus max(0, value) is initial value plus signals, and environments pass in order of arrival |
| SemaphoreSpec.ReleasedInOrder | FOS_Project_2017_Template/kern/semaphore_manager.c:20-30 | the k-th oldest blocked environment is released by the k-th following signal |
| SemaphoreSpec.ArrivalsOnlyAppend | FOS_Project_2017_Template/kern/semaphore_manager.c:20-30 | later waits never change whom the next signals release |
| SemaphoreSpec.MutualExclusion | FOS_Project_2017_Template/kern/semaphore_manager.c:195-260 | initial value 1 admits at most one environment at a time, and exactly one whenever somebody is queued |
| SemaphoreSpec.CreateBalancedIff | FOS_Project_2017_Template/kern/semaphore_manager.c:157-190 | a new semaphore satisfies the queue law if and only if its uint32 initial value fits an int |
| ReadyQueue.ReadyQueue.Insert | FOS_Project_2017_Template/kern/sched.c:202-217 | insertion before sched_next appends to the rotation read from sched_next |
| ReadyQueue.ReadyQueue.Remove | FOS_Project_2017_Template/kern/sched.c:219-234 | removal deletes from the rotation, moves sched_next off the node, and leaves it null exactly when the list is empty |
| ReadyQueue.ReadyQueue.Choose | FOS_Project_2017_Template/kern/sched.c:39-62 | fos_scheduler picks the head of the rotation and moves it to the end |
| ReadyQueue.RunAll | FOS_Project_2017_Template/kern/sched.c:313-324 | LIST_FOREACH sees the original NEW queue although its body unlinks the current node: the whole queue moves, in order, to the end of the rotation, with status READY, and nobody else changes |
| ReadyQueue.BlockEnv | FOS_Project_2017_Template/kern/semaphore_manager.c:195-226 | on one pair of links per environment: the blocked environment leaves the ready list, cursor and all, for the head of the semaphore's queue, with status BLOCKED, and nobody else changes |
| ReadyQueue.WakeOldest | FOS_Project_2017_Template/kern/semaphore_manager.c:231-260 | likewise the last of the semaphore's queue goes to the end of the rotation with status READY |
| ReadyQueue.RotationDelete | FOS_Project_2017_Template/kern/sched.c:219-234 | deleting a node from the list with a cursor is deleting one element of the rotation |
| RoundRobin.BoundedWaiting | FOS_Project_2017_Template/kern/sched.c:39-62 | an environment at position p is dispatched within p + 1 schedulings despite any insertions and removals of others |
| RoundRobin.WaitingIsTight | FOS_Project_2017_Template/kern/sched.c:39-62 | with scheduling alone exactly the p ahead of it go first |
| Scheduler.Kernel.RunEnv | FOS_Project_2017_Template/kern/sched.c:401-418 | sched_run_env performs its step: a NEW environment becomes ready, and a stopped scheduler starts |
| Scheduler.Kernel.RunAll | FOS_Project_2017_Template/kern/sched.c:313-324 | sched_run_all performs its step |
| Scheduler.Kernel.ExitEnv | FOS_Project_2017_Template/kern/sched.c:427-457 | sched_exit_env performs its step, reinvoking the scheduler when the current environment left |
| Scheduler.Kernel.WaitSemaphore | FOS_Project_2017_Template/kern/semaphore_manager.c:195-226 | waitSemaphore performs its step, with the queue kept newest first as the code does |
| Scheduler.Kernel.SignalSemaphore | FOS_Project_2017_Template/kern/semaphore_manager.c:231-260 | signalSemaphore performs its step; the dequeued environment always exists |
| Scheduler.Kernel.CreateSemaphore | FOS_Project_2017_Template/kern/semaphore_manager.c:157-190 | createSemaphore performs its step and returns the index or that the semaphore exists |
| SchedulerTheorems.OneQueue | FOS_Project_2017_Template/kern/sched.c:202-268 | after any run every created environment is on exactly one of NEW, READY, EXIT and the semaphore queues, once, and its status names which |
| SchedulerTheorems.RunInv | FOS_Project_2017_Template/kern/sched.c:202-457 | that invariant, that nobody runs exactly when nobody is ready, and the queue law, over any sequence of operations |
| SchedulerTheorems.SemaphoreRefines | FOS_Project_2017_Template/kern/semaphore_manager.c:195-260 | each kernel semaphore is the abstract semaphore run on its own waits and signals |
| SchedulerTheorems.KernelSemaphoreLaw | FOS_Project_2017_Template/kern/semaphore_manager.c:157-260 | the semaphore law from the moment of creation, over any run of the kernel |
| SchedulerTheorems.CurrentIsLastIff | FOS_Project_2017_Template/kern/sched.c:29-62 | a dispatched environment is last in the rotation, and each operation keeps it so if and only if it wakes nobody else |
| SchedulerTheorems.RunCurrentIsLast | FOS_Project_2017_Template/kern/sched.c:29-62 | after any run the running environment is last in the rotation unless somebody was made ready since the scheduler last ran |
| SchedulerTheorems.WakingMovesCurrent | FOS_Project_2017_Template/kern/sched.c:401-418 | creating and starting a second environment beside a running one leaves the running one first, not last |
| SchedulerOrder.WaitIsAbout | FOS_Project_2017_Template/kern/semaphore_manager.c:195-226 | waitSemaphore changes the one semaphore with that owner and name, for the running environment, and does nothing when there is none |
| SchedulerOrder.SignalIsAbout | FOS_Project_2017_Template/kern/semaphore_manager.c:231-260 | signalSemaphore, likewise |
| SchedulerOrder.WaitYields | FOS_Project_2017_Template/kern/semaphore_manager.c:195-226 | a wait that goes through still gives the processor to the first of the rotation; one that does not blocks the caller and somebody else runs, nobody when the caller was alone |
| SchedulerOrder.SignalWakes | FOS_Project_2017_Template/kern/semaphore_manager.c:231-260 | a signal keeps the caller running and puts the oldest waiting environment, if any waits, at the end of the rotation |
| SchedulerOrder.CreateIsAbout | FOS_Project_2017_Template/kern/semaphore_manager.c:157-190 | createSemaphore is refused if and only if a semaphore has that owner and name; otherwise the lowest empty slot becomes one, with the value given and nobody queued |
| SchedulerOrder.NewInOrder | FOS_Project_2017_Template/kern/sched.c:236-243 | after any run from boot the NEW queue is the environments still NEW in the order of their creation |
| SchedulerOrder.RunAllInOrder | FOS_Project_2017_Template/kern/sched.c:313-324 | after any run sched_run_all appends them to the rotation in that order; when nobody was running the one created first runs |
| SchedulerOrder.OlderFirst | FOS_Project_2017_Template/kern/sched.c:236-243 | of two environments still NEW the one created first comes first |
| SchedulerOrder.ExitInOrder | FOS_Project_2017_Template/kern/sched.c:252-259 | after any run the EXIT queue is the environments that exited while NEW or READY, in the order in which they did |
| SchedulerTheorems.KernelBoundedWaiting | FOS_Project_2017_Template/kern/sched.c:29-62 | a ready environment at position p, the running one included, that does not exit, nor block itself first if it is the running one, is picked by one of the next p + 1 calls of fos_scheduler, whatever else the kernel does |
| AirTheorems.RunInv | FOS_Project_2017_Template/user/tst_air.c:103-155 | the inductive invariant of the protocol holds in every reachable state |
| AirTheorems.MutualExclusion | FOS_Project_2017_Template/user/tst_air_clerk.c:60-141 | at most one process is inside each critical section |
| AirTheorems.QueueSafety | FOS_Project_2017_Template/user/tst_air_clerk.c:57-67 | a clerk past cust_ready reads a slot already written, and no two clerks take the same customer |
| AirTheorems.BookingSafety | FOS_Project_2017_Template/user/tst_air_clerk.c:73-144 | nobody is booked twice or on an unwanted flight, who wants both flights is on both or neither, and the booked flag is right, outside the booking itself |
| AirTheorems.TicketsConserved | FOS_Project_2017_Template/user/tst_air_clerk.c:73-144 | tickets left plus booked never exceed the initial count, and equal it when no clerk holds one in hand |
| AirTheorems.QuiescentSettles | FOS_Project_2017_Template/user/tst_air_clerk.c:116-140 | the lock order flight 1 then flight 2 leaves nobody waiting for a lock when nothing can step |
| AirTheorems.NoDeadlock | FOS_Project_2017_Template/user/tst_air.c:151-219 | for any numbers of customers and at least one clerk, a state in which nothing can step has all customers terminated, the master past its loop and every semaphore at its final value |
| AirTheorems.MasterFindsBookings | FOS_Project_2017_Template/user/tst_air.c:171-198 | past its loop the master finds every customer booked on every flight wanted, once, if and only if tickets cover demand on both flights |
| AirTheorems.MasterValuesIff | FOS_Project_2017_Template/user/tst_air.c:200-220 | when the master leaves its loop its value assertions hold if and only if every clerk is queued at cust_ready: the sleep before them is needed |
| AirWitness.ValuesCanBeOff | FOS_Project_2017_Template/user/tst_air.c:200-220 | with one customer and one clerk there is a schedule after which the master is past its loop and `clerk` is 0: the clerk has not come round |
| AirTermination.RunsEnd | FOS_Project_2017_Template/user/tst_air.c:151-155 | every run ends, within a bound linear in the numbers of customers and clerks |
| FrameTable.FrameTable.Allocate | FOS_Project_2017_Template/kern/memory_manager.c:432-463 | allocate_frame takes the head of the free list |
| FrameTable.FrameTable.Decrement | FOS_Project_2017_Template/kern/memory_manager.c:469-490 | decrement_references, and free_frame at zero, on a 16-bit count |
| FrameTable.FrameTable.Unmap | FOS_Project_2017_Template/kern/memory_manager.c:671-719 | unmap_frame drops the entry and one reference |
| FrameTable.FrameTable.Map | FOS_Project_2017_Template/kern/memory_manager.c:598-656 | map_frame: nothing on the same frame, otherwise unmap, count, remember the address, enter |
| Frames.AllocateKeeps | FOS_Project_2017_Template/kern/memory_manager.c:432-463 | an allocated frame is off the free list and awaits its first map, with counts exact |
| Frames.UnmapKeeps | FOS_Project_2017_Template/kern/memory_manager.c:706-719 | unmapping keeps every count equal to the number of entries map_frame made for the frame; the frame is freed exactly with the last of them |
| Frames.MapKeepsIff | FOS_Project_2017_Template/kern/memory_manager.c:598-656 | mapping keeps the counts exact if and only if the 16-bit count has room or the mapping was there |
| FrameRanges.MapLeaves | FOS_Project_2017_Template/kern/memory_manager.c:598-656 | map_frame changes nothing, permissions included, when the slot has the frame; otherwise the slot names it with the new permissions, it counts one more and remembers the address, and the frame that was there counts one less |
| Frames.FullCountWraps | FOS_Project_2017_Template/kern/memory_manager.c:650-656 | a frame mapped 65535 times is counted exactly, and one more mapping takes its count to 0 while every slot stays |
| Frames.CountsAllIff | FOS_Project_2017_Template/kern/memory_manager.c:170-180 | with exact counts, a frame's count is the number of all entries naming it, those from booting included, if and only if booting left it none; only then is a free frame one that nothing maps |
| FrameTable.FrameTable.constructor | FOS_Project_2017_Template/kern/memory_manager.c:355-400 | initialize_paging on the frames: the first three, the I/O hole and the kernel in use, base memory and then extended memory put at the head of the free list |
| FrameTable.BootedIsExact | FOS_Project_2017_Template/kern/memory_manager.c:170-400 | the counts of entries made by map_frame are exact when the kernel starts, whatever its size |
| FrameTable.BootFreeDescends | FOS_Project_2017_Template/kern/memory_manager.c:370-400 | the first free list holds exactly base memory from 0x3000 to 0xA0000 and the frames past the kernel, the highest first |
| FrameTable.BaseMemoryIsMapped | FOS_Project_2017_Template/kern/memory_manager.c:370-379 | at that time every frame from 3 to 159 is free with count 0 and named by one entry, its page of the window at KERNEL_BASE |
| FrameTable.BaseMemoryCountsShort | FOS_Project_2017_Template/kern/memory_manager.c:598-656 | once such a frame is allocated and mapped its count is 1 and its entries are two |
| FrameRuns.RunsKeepExact | FOS_Project_2017_Template/kern/memory_manager.c:432-719 | each count is the number of entries map_frame made for the frame, and the free list is exactly the frames of count 0, over every run of allocate, map, remap and unmap |
| FrameRuns.RunsCountEntries | FOS_Project_2017_Template/kern/memory_manager.c:432-719 | over every such run a frame's count plus its entries from booting is the number of all entries naming it; count and entries agree, and free means unmapped, if and only if booting left it no entry |
| FrameRuns.BootRunsCountEntries | FOS_Project_2017_Template/kern/memory_manager.c:170-719 | from the start of the kernel the count falls short of the entries by one for frames 3 to 159 and by none for the rest |
| FrameRanges.MapNewRangeKeeps | FOS_Project_2017_Template/kern/kheap.c:314-321 | a run of pages gets the first free frames in order, one reference each, and nothing else moves |
| FrameRanges.UnmapRangeKeeps | FOS_Project_2017_Template/kern/kheap.c:48-53 | unmapping a run of pages takes one reference from each frame and frees those that had one |
| KernelHeap.KernelHeap.FirstFitAllocation | FOS_Project_2017_Template/kern/kheap.c:294-338 | first_fit_allocation on the lists, frames and cursor performs its step |
| KernelHeap.KernelHeap.NextFitAllocation | FOS_Project_2017_Template/kern/kheap.c:339-427 | next_fit_allocation performs its step |
| KernelHeap.KernelHeap.ContAllocation | FOS_Project_2017_Template/kern/kheap.c:263-293 | cont_allocation performs its step, without looking at the free list |
| KernelHeap.KernelHeap.CoalescingHeap | FOS_Project_2017_Template/kern/kheap.c:204-262 | the branches of Coalescing_heap merge the block, and say when it stayed alone |
| KernelHeap.KernelHeap.Kfree | FOS_Project_2017_Template/kern/kheap.c:36-61 | kfree performs its step; the cursor moves back only for a lone block below it |
| KernelHeapSpec.NextFitIsNext | FOS_Project_2017_Template/kern/kheap.c:339-383 | next fit picks the lowest long enough free run that starts at or above the cursor, else the lowest vacant place, and fails only when nothing fits |
| KernelHeapTheorems.KmallocKeeps | FOS_Project_2017_Template/kern/kheap.c:9-35 | kmalloc under either strategy places the block where that strategy must, puts one new frame behind each page and keeps the invariant; null means nothing fits, k_allocate_block never panics, and it faults if and only if first fit would serve a heap with nothing taken |
| KernelHeapTheorems.KfreeKeeps | FOS_Project_2017_Template/kern/kheap.c:36-61 | kfree keeps the invariant, gives back at most size / PAGE_SIZE frames, and all of them if and only if map_frame mapped no page of the block elsewhere; it faults exactly when the free list is empty |
| KernelHeapCalls.KmallocCursor | FOS_Project_2017_Template/kern/kheap.c:294-427 | after a success next fit leaves its cursor at the address returned and first fit moves it up by the rounded size; a failure changes nothing |
| KernelHeapCalls.KfreeCursor | FOS_Project_2017_Template/kern/kheap.c:246-261 | kfree pulls the cursor of next fit back to the block if and only if it was above it and neither the byte before the block nor the byte behind it is free |
| KernelHeapCalls.ContIsConsecutive | FOS_Project_2017_Template/kern/kheap.c:263-293 | cont_allocation places the block at its cursor and moves the cursor behind it if and only if the block ends within the heap and a descriptor is left |
| KernelHeapCalls.KmallocPages | FOS_Project_2017_Template/kern/kheap.c:314-321 | the pages of a new block get the free frames in order, mapped writable for the kernel only |
| KernelHeapCalls.TakenOrder | FOS_Project_2017_Template/kern/kheap.c:428-469 | next fit puts the new block first on the taken list; first fit keeps a taken list in the order of addresses |
| KernelHeapCalls.PhysicalIs | FOS_Project_2017_Template/kern/kheap.c:73-86 | kheap_physical_address of a byte of a taken block lies in the frame behind its page, at the same offset |
| KernelHeapTheorems.DescriptorsSuffice | FOS_Project_2017_Template/kern/memory_manager.c:1520-1526 | the blocks of a kernel heap never need more than 40959 descriptors, of a million |
| KernelHeapTheorems.BootedIsClear | FOS_Project_2017_Template/kern/memory_manager.c:170-180 | at the start the counts are exact and no slot of the kernel heap is filled, as long as the kernel ends below it |
| KernelHeapTheorems.BootInvIff | FOS_Project_2017_Template/kern/memory_manager.c:345-354 | the boot allocations establish the invariant if and only if they fill the four pages left out of the free list |
| KernelHeapTheorems.RunInv | FOS_Project_2017_Template/kern/kheap.c:9-61 | mapped heap pages are exactly the pages of taken blocks, each on its own frame, over any mix of first fit, next fit, kfree and mappings made elsewhere, of heap frames too |
| KernelHeapTheorems.MapElsewhereKeeps | FOS_Project_2017_Template/kern/memory_manager.c:598-656 | mapping any frame in use outside the heap leaves the heap's entries and invariant as they are; a frame entered, of the heap or not, remembers the new address from then on |
| KernelHeapTheorems.PhysicalApart | FOS_Project_2017_Template/kern/kheap.c:73-86 | two bytes of taken blocks have the same physical address only if they are the same byte |
| KernelHeapTheorems.RoundTripIff | FOS_Project_2017_Template/kern/kheap.c:62-86 | after any run, for every byte of a taken block, kheap_virtual_address(kheap_physical_address(va)) is va if and only if no map has entered the page's frame at another address since kmalloc handed the page out |
| KernelHeapTheorems.WorkingSetIsMoved | FOS_Project_2017_Template/kern/user_environment.c:298-306 | mapping a heap page's frame at USER_PAGES_WS_START, as initialize_environment does, makes its translation that address, and it stays so when that mapping is gone and the frame counts once again |
| SharedMemory.SharedMemory.CreateSharedObject | FOS_Project_2017_Template/kern/shared_memory_manager.c:153-207 | createSharedObject performs its step: a frame per page, mapped and stored, a page table where there was none, and a kernel page per 1024 frames stored |
| SharedMemory.SharedMemory.GetSharedObject | FOS_Project_2017_Template/kern/shared_memory_manager.c:235-276 | getSharedObject performs its step |
| SharedMemory.SharedMemory.FreeSharedObject | FOS_Project_2017_Template/kern/shared_memory_manager.c:284-372 | freeSharedObject performs its step, the loop over emptied page tables included |
| SharesTheorems.CreateKeeps | FOS_Project_2017_Template/kern/shared_memory_manager.c:153-207 | a created object is apart from all others; it takes one frame per page, per table of its store, for the directory, and per page table the environment had to get |
| SharesTheorems.GetKeeps | FOS_Project_2017_Template/kern/shared_memory_manager.c:235-276 | getting an object raises its count and each frame's count by one, maps the frames in order with the object's permission, and takes frames for new page tables only |
| SharesMemory.GetRangeIs | FOS_Project_2017_Template/kern/memory_manager.c:598-656 | making a page table inside the mapping loop, where map_frame finds none, comes to the same as making all of them first |
| SharesFree.SearchFinds | FOS_Project_2017_Template/kern/shared_memory_manager.c:309-325 | the search by first frame finds the right object from any address it was handed out at |
| SharesFree.FreeOneKeeps | FOS_Project_2017_Template/kern/shared_memory_manager.c:334-372 | freeing one of several views lowers both counts and gives back no data frame: the free frames grow by the page tables removed, which are exactly those of the range left without an entry |
| SharesFree.LastFreeKeeps | FOS_Project_2017_Template/kern/shared_memory_manager.c:128-142 | the last free removes the object; every data frame and every frame of its store is on the free list, which grows by exactly these and the page tables removed |
| SharesTheorems.StepKeeps | FOS_Project_2017_Template/kern/shared_memory_manager.c:153-372 | every call keeps (owner, name) unique, live objects' frames disjoint, each frame's count equal to its object's, and a page table on a frame of its own behind every mapped page |
| SharesTheorems.RunsKeep | FOS_Project_2017_Template/kern/shared_memory_manager.c:153-372 | the same over any run of create, get and free |
| SharesAnswers.GetAnswers | FOS_Project_2017_Template/kern/shared_memory_manager.c:235-276 | getSharedObject answers the one live object with that owner and name, and that there is none if and only if no live object has them |
| SharesAnswers.CreateAnswers | FOS_Project_2017_Template/kern/shared_memory_manager.c:153-207 | createSharedObject is refused if and only if a live object has that owner and name; otherwise the lowest empty slot becomes the object, with just enough pages for the size and the creator as its one user |
| SharesAnswers.FreeAnswers | FOS_Project_2017_Template/kern/shared_memory_manager.c:284-372 | freeSharedObject at an address an object was handed out at ends that use of that object |
| SharesAnswers.FreeFindsNone | FOS_Project_2017_Template/kern/shared_memory_manager.c:309-331 | it does nothing when no live object's first frame is mapped at the address |
| SharesAnswers.Survives | FOS_Project_2017_Template/kern/shared_memory_manager.c:153-372 | over any run of calls in which its creator does not free it, an object keeps its place, owner, name, size, permission and frames |
| SharesAnswers.CreateMaps | FOS_Project_2017_Template/kern/shared_memory_manager.c:190-198 | the creator's pages are mapped to the object's frames in order, writable and for the user, and each frame remembers its page |
| SharesAnswers.CreateThenGet | FOS_Project_2017_Template/kern/shared_memory_manager.c:235-276 | whatever calls come between, a get of the owner and name finds the object created and maps its frames in order, writable if and only if it was created so |
| SharesAnswers.KernelPageIs | FOS_Project_2017_Template/kern/kheap.c:314-321 | a page for a store or a page table is mapped writable for the kernel only |
| SharesTheorems.ReadOnlyStaysReadOnly | FOS_Project_2017_Template/kern/shared_memory_manager.c:263-272 | a read-only object is never mapped writable by getSharedObject |
| SharedHeapLoops.TakePageIs | FOS_Project_2017_Template/kern/kheap.c:9-35 | kmalloc(PAGE_SIZE) gives a page that was vacant and mapped nowhere, for one frame; it fails if and only if no frame or no free block is left, or first fit finds nothing taken |
| SharedHeapLoops.TableBeforeOrAfter | FOS_Project_2017_Template/kern/memory_manager.c:598-656 | making the missing page table while the new frame waits, as map_frame does, and mapping the frame first end in the same table, heap and memory |
| SharedHeapTheorems.CreateKeeps | FOS_Project_2017_Template/kern/shared_memory_manager.c:153-207 | createSharedObject with every page from kmalloc is the create of SharesSpec on those pages, which are vacant, unmapped and all different; heap and objects stay sound; it succeeds if and only if there are frames for pages, store and missing tables and vacant heap pages for the last two |
| SharedHeapTheorems.GetKeeps | FOS_Project_2017_Template/kern/shared_memory_manager.c:235-276 | getSharedObject likewise; it succeeds if and only if frames and vacant pages cover the page tables the environment lacks |
| SharedHeapTheorems.FreeKeeps | FOS_Project_2017_Template/kern/shared_memory_manager.c:284-372 | freeSharedObject with kfree is the free of SharesSpec, and the blocks that go are those of the emptied tables and, with the last view, of the object's store; it follows a null pointer if and only if something is to be freed and the heap has no free block |
| SharedHeapTheorems.KmallocKeeps | FOS_Project_2017_Template/kern/kheap.c:9-35 | kmalloc for anybody else leaves objects and page tables alone and adds one block to what the rest of the kernel holds |
| SharedHeapTheorems.KfreeKeeps | FOS_Project_2017_Template/kern/kheap.c:36-61 | kfree of a block of the rest leaves objects and page tables alone: no kernel page maps an object's frame |
| SharedHeapTheorems.RunsKeep | FOS_Project_2017_Template/kern/shared_memory_manager.c:153-372 | over every run of creates, gets, frees, kmallocs and kfrees the taken blocks are exactly those of the rest of the kernel and, a page each, those of live stores and page tables |
| SharedHeapTheorems.HeapIsDetermined | FOS_Project_2017_Template/kern/shared_memory_manager.c:128-142 | the free list, spare descriptors and vacant pages depend only on what the rest of the kernel holds and on which pages stores and tables are |
| SharedHeapTheorems.NothingLeaks | FOS_Project_2017_Template/kern/shared_memory_manager.c:284-372 | after any run of creates, gets and frees that ends without objects and with the tables where they were, free list, spare descriptors and vacant pages are as before |
| SharedHeapTheorems.BootInv | FOS_Project_2017_Template/kern/shared_memory_manager.c:23-35 | create_shares_array over a sound heap, before any user page, starts such runs |
| FreeMem.Environment.FreeMem | FOS_Project_2017_Template/kern/memory_manager.c:801-854 | freeMem's three loops perform its step on the page file, the working set and the page tables |
| FreeMemTheorems.FreeMemIs | FOS_Project_2017_Template/kern/memory_manager.c:801-854 | the exact outcome: which pages, working-set elements and tables are gone, which remain, and that every remaining page has its table |
| FreeMemTheorems.ErasesMemoryIff | FOS_Project_2017_Template/kern/memory_manager.c:816-828 | no page of the range stays mapped if and only if every mapped page of the range was in the working set |
| SharesTheorems.SharedPageSurvivesFreeMem | FOS_Project_2017_Template/kern/memory_manager.c:816-828 | a page getSharedObject mapped that the working set does not list stays mapped when freeMem is called on a range around it |
| FreeMemTheorems.ErasesWorkingSet | FOS_Project_2017_Template/kern/memory_manager.c:816-828 | no element of the working set lists a page of the range afterwards, and elements outside it stand |
| FreeMemTheorems.LastAfterIs | FOS_Project_2017_Template/kern/memory_manager.c:823-826 | the replacement index ends at the first cleared element when that is lower |
| FreeMemTheorems.OutsideUnchanged | FOS_Project_2017_Template/kern/memory_manager.c:801-854 | pages outside the range and other environments' pages are mapped as before |
| FreeMemTheorems.FramesReturned | FOS_Project_2017_Template/user/tst_free_1.c:204-233 | for singly mapped pages the free frames grow by the resident pages plus the page tables removed |
| PageFile.PageFile.AddEnvPage | FOS_Project_2017_Template/kern/file_manager.c:227-256 | pf_add_env_page performs its step, allocating a disk frame only for a page without one |
| PageFile.PageFile.RemoveEnvPage | FOS_Project_2017_Template/kern/file_manager.c:342-359 | pf_remove_env_page performs its step |
| PageFile.PageFile.WriteEnvTable | FOS_Project_2017_Template/kern/file_manager.c:569-597 | __pf_write_env_table performs its step |
| PageFile.PageFile.FreeEnv | FOS_Project_2017_Template/kern/file_manager.c:361-435 | pf_free_env's nested loops perform its step; without a page directory it follows a null pointer |
| PageFile.PageFile.CalculateAllocatedPages | FOS_Project_2017_Template/kern/file_manager.c:475-512 | pf_calculate_allocated_pages counts the pages with a disk frame below USER_TOP; without a page directory it follows a null pointer |
| PageFileTheorems.AddPageIs | FOS_Project_2017_Template/kern/file_manager.c:203-256 | a written page reads back as written, no other page or table of anyone reads differently, and frames are conserved; no space exactly when a new frame is needed and none is free |
| PageFileTheorems.UpdatePageIs | FOS_Project_2017_Template/kern/file_manager.c:258-295 | pf_update_env_page likewise; it fails exactly for a page without a frame |
| PageFileTheorems.WriteTableIs | FOS_Project_2017_Template/kern/file_manager.c:569-597 | a swapped-out table reads back as written and disturbs nobody |
| PageFileTheorems.RemovePagesIs | FOS_Project_2017_Template/kern/file_manager.c:361-398 | freeing pages returns exactly the frames pf_calculate_allocated_pages counts |
| PageFileTheorems.FreeEnvIs | FOS_Project_2017_Template/kern/file_manager.c:361-435 | a freed environment keeps no frame, its page and table frames are free again, and everybody else reads what they read before |
| PageFileTheorems.FreeEnvReturns | FOS_Project_2017_Template/kern/file_manager.c:361-435 | of any environment freed nothing keeps a frame, and every frame of a page or table below 0xEEC00000 is on the free list |
| PageFileTheorems.CountsAreBelowTop | FOS_Project_2017_Template/kern/file_manager.c:475-512 | what pf_calculate_allocated_pages and the loop over tables go through is all below 0xEEC00000 and nothing above |
| PageFileTheorems.FreeEnvKeepsIff | FOS_Project_2017_Template/kern/file_manager.c:365-435 | freeing conserves the disk frames if and only if the environment keeps nothing at or above USER_TOP, 0xEEC00000 |
| PageFileTheorems.StepKeepsIff | FOS_Project_2017_Template/kern/file_manager.c:86-638 | one operation conserves the disk frames if and only if it does not free an environment that keeps something at or above USER_TOP |
| PageFileTheorems.RunKeeps | FOS_Project_2017_Template/kern/file_manager.c:86-638 | over every run of such operations the kept frame numbers are pairwise distinct and partition 1 .. PAGES_PER_FILE - 1 with the free list, and a page nobody's operation is about never reads differently |
| PageFileTheorems.RemovedPageReadsAgain | FOS_Project_2017_Template/kern/file_manager.c:203-225 | a page reserved without being written can read what another environment removed |
| Aging.StampOrder | FOS_Project_2017_Template/kern/sched.c:580-590 | after at least sixteen ticks the order of stamps is the lexicographic order of the last sixteen reference bits, newest first, whatever the starting stamps |
| Aging.AgeForgets | FOS_Project_2017_Template/kern/sched.c:580-590 | sixteen ticks forget everything before them |
| Aging.ElementOrder | FOS_Project_2017_Template/kern/sched.c:565-618 | the same for any two elements of a working set over any sequence of ticks |
| Aging.EmptyStays | FOS_Project_2017_Template/kern/sched.c:573-575 | an element that lists nothing never changes |
| Aging.WorkingSet.UpdateTimeStamps | FOS_Project_2017_Template/kern/sched.c:573-594 | one pass ages every used element, sets the top bit of those whose page was used and clears the used bit, once per page |
| PrintParse.Console.PrintNum | FOS_Project_2017_Template/lib/printfmt.c:36-51 | printnum writes the digits of the number padded on the left to the width |
| PrintParse.Strtol | FOS_Project_2017_Template/lib/string.c:180-225 | strtol returns the value of the longest digit string after blanks, sign and prefix, modulo 2^32, and where it stops |
| PrintParse.StrtolReads | FOS_Project_2017_Template/lib/string.c:180-225 | after any blanks, a sign and what announces the base, strtol reads any digits of a base from 2 to 36, small or capital, as their number, negated after a minus, modulo 2^32, and stops behind them whatever follows |
| PrintParse.ParseSigned | FOS_Project_2017_Template/lib/string.c:180-225 | so for every n as printnum writes it: n or -n, in the base given, after 0x in base 16 or 0, after 0 in base 0 for octal |
| PrintParse.DigitIs | FOS_Project_2017_Template/lib/string.c:204-213 | exactly the digits and the small and capital letters are worth something: 0 to 9, and 10 to 35 |
| PrintParse.PrintedLength | FOS_Project_2017_Template/lib/printfmt.c:36-51 | the output is as long as the larger of the width and the k with base^(k-1) <= n < base^k: pad characters, then the digits |
| PrintParse.DigitsSpell | FOS_Project_2017_Template/lib/printfmt.c:36-51 | the digits printed are those of n in the base, most significant first, letters small |
| PrintParse.ParsePrinted | FOS_Project_2017_Template/lib/string.c:180-225 | strtol consumes all of printnum's output and returns the number modulo 2^32 |
| PrintParse.RoundTripIff | FOS_Project_2017_Template/lib/string.c:180-225 | strtol returns the number printed if and only if it is below 2^31 |

## Left out

- Hardware: console, disk controller, clock, TLB, cr3 and iret. The disk is a map from frame numbers to contents, and dispatching an environment is choosing it.
- env_create, ELF loading, environment identifiers, page-fault handling and replacement, page buffering: environments and their identifiers are inputs, and page tables are in memory.
- Killing environments and env_free; sleeping; console output of the user programs.
- user realloc, krealloc and moveMem: realloc panics on entry and krealloc returns null at once. The semaphore and share arrays therefore never grow, and creating needs a free slot.
- smalloc, sget and sfree of the user library; the address range of a shared object is a parameter.
- sys_allocateMem and sys_freeMem are not called from the modelled malloc and free; freeMem and the page file are modelled by themselves.
- The lazy initialisation on the first malloc is the constructor of the user heap.
- List sizes, semaphore values and reference counts of shared objects do not wrap; frame reference counts do.
- CONTALLOC after boot, mixed with kfree or another strategy: it never updates the free list.
- Names are strings of any length; strcpy into a fixed buffer is not modelled.
- SharedMemory.SharedMemory.CreateSharedObject: the method takes the kernel pages for the store and for page tables as parameters; SharedHeapTheorems.CreateKeeps, on values, is about the pages kmalloc gives.
- SharedMemory.SharedMemory.FreeSharedObject: the method gives kernel pages back through their slots; SharedHeapTheorems.FreeKeeps, on values, is about kfree and the block lists.
- SharedHeapTheorems.RunsKeep: the rest of the kernel uses kmalloc and kfree in between, but makes no user mappings of its own.
- Scheduler.Kernel.RunEnv: the queues are sequences of environment identifiers; the shared pair of links is modelled for moves between the NEW, the READY and a semaphore's list in ReadyQueue, and here by asking of every insertion that the environment is on no queue.
- Scheduler.Kernel.RunAll: likewise; LIST_FOREACH over a list whose current node is unlinked is ReadyQueue.RunAll.
- Scheduler.Kernel.ExitEnv: likewise; buffer cleanup is not part of this model.
- Scheduler.Kernel.WaitSemaphore: likewise; the move on links is ReadyQueue.BlockEnv.
- Scheduler.Kernel.SignalSemaphore: likewise; the move on links is ReadyQueue.WakeOldest.
- Scheduler.Kernel.CreateSemaphore: a full array, whose failed krealloc loses the array, and initial values of 2^31 and more, which SemaphoreSpec.CreateBalancedIff shows to break the queue law, are excluded.
- The entries by which a page directory lists itself and its tables (VPT, UVPT), and kernel directories' entries for the tables; the remaining entries of boot_map_range, for the kernel stack and the environments, are a parameter.
- Unmapping an entry left from booting: nothing in the kernel does it, and runs keep off those slots. The end of the kernel is taken to lie above PHYS_EXTENDED_MEM and, for the heap, below KERNEL_HEAP_START in the window.
- FrameTable.FrameTable.Allocate: an empty free list, where allocate_frame follows a null pointer, and buffered frames are excluded.
- KernelHeap.KernelHeap.CoalescingHeap: the cursor move and the empty free list are in Kfree.
- PageFile.PageFile.FreeEnv: the kernel pages of disk page tables and directories are not counted; directories are dropped when all their pages are freed.
- FreeMem.Environment.FreeMem: the page file is the set of pages it holds; disk frames are in PageFile.
- The map_frame to USER_LIMIT inside pf_update_env_page: its count and its entry are undone before it returns, but the frame goes on remembering USER_LIMIT as its address, a move in the sense of `KernelHeapTheorems.Moved`.
- LIST_CONCAT, ltostr, sorting programs, the command prompt, system-call dispatch, the boot loader.
