# Pintos kernel, modelled and verified in Dafny

This project models the parts of the Pintos teaching kernel (with the virtual-memory project done)
that are hardest to get right, and proves what they promise. Each component is one or more modules.

| component | modules | source form kept |
|---|---|---|
| 64-bit division from 32-bit `divl` | Arithmetic | methods over machine words, wrap-around written out |
| Intrusive lists and in-place merge sort | ListOrder, KernelList | heap nodes with prev and next links, splices in place |
| Threads, semaphores, locks, condition variables, exit and wait | ThreadModel, SchedulerProof, KernelInvariants, KernelFrames, KernelCore, LockProof, CondProof, ExitWaitProof, KernelRuns, KernelCalls, KernelReturns, KernelOrder, ThreadQueues, KernelObject | a state machine whose steps are the interrupts-off sections, and classes that take the scheduler's steps on its linked lists |
| Demand paging, clock sweep, swap | Paging, PagingProof, PagingMachine, PagingSteps, PagingRuns, PagingFaults, PagingConserve, PagingBits, FrameTable, SwapDevice | a state machine whose steps are the parts of an eviction and of a fault that other processes can come between, and classes with the kernel's loops |
| Lazy loading of executables | Segments | the loop of `load_segment` over the hash table of entries, frames filled in place |
| Argument passing | Arguments, LineWords, ArgumentStack, CommandLine | `strtok_r` cutting a buffer in place, a stack page written downwards, the copies that `process_execute` makes |
| Bitmaps | Bitmap | 32-bit elements, masks and bit operations on an array |
| Inodes, directory, free map, sector ownership | InodeIO, Directory, FileSystem, OwnershipProof, OwnershipSteps, OwnershipCreate, OwnershipRuns, OwnershipTheorems, OwnershipEffects, Volume | chunked loops over sectors, scans over entries, a state machine, and a class that takes its steps over a packed free map, the directory's entries and the list of open inodes |
| malloc over the page allocator | HeapModel, HeapProof, HeapRuns, HeapEffects, HeapObject | a value model of arenas and lists, and a class with the loops of `malloc` and `free` |
| Resizing hash table | PowersOfTwo, HashTable | buckets reassigned in place, the moving loop of `rehash` |
| ustar headers and integer printing | UstarFormat, Ustar, UstarCode, UstarSpec, IntegerText | buffers filled in place, parsing loops |
| Heapsort and binary search | Sorting | swaps in an array, 1-based heap positions |
| Shared notions | Common | options, bytes, sizes |

Models are proved in two layers. A value layer has functions for the steps and lemmas about all
inputs, all reachable states or all runs. An imperative layer has the loops and the field updates
of the C code, and each of its methods is proved to compute exactly what the value layer says.

What the outside world decides is a parameter: failing memory allocation and failing disk writes are
booleans of an operation, the number of reads that a directory scan gets memory for is a number, and
the order of thread switches, evictions and faults is the sequence of
actions of a run. Disk contents, user memory and files are part of the state.

The main results, each for all inputs or all runs:

- Division: UDiv64 is floor division for every 64-bit dividend and nonzero divisor, through an estimate that EstimateBounds shows to be the quotient or one more.
- Sorting a linked list in place ends, and gives a sorted stable permutation of the same nodes with consistent links (Sort of KernelList, PassHalvesRuns).
- Scheduling: no interleaving panics (NeverPanics), no wakeup is lost (SemaphoresLoseNothing), locks exclude (LocksExclude), signals reach their waiter (SignalsReachWaiters), one wait per child returns its status (WaitAccepts, WaitReturnsStatus, CollectedStatuses) and the dead stay dead (DeadForever). Whatever comes between its steps, every kernel call does exactly the events of its C text, in order, by the time it returns (CallDoes), so `cond_broadcast` wakes everybody (BroadcastWakesAll) and a lock is held on return (ReturnsHolding); threads run and are woken first come, first served (RunsInTurn, WokenInTurn); on the heap, a thread's one list element is linked into a list only when it is in none (ThreadUnblock, Raise, SemaDownPass, ThreadYield of KernelObject).
- Paging: over every run of accesses, evictions and faults, each in its separate steps, a page is exactly what the operations on it make it (RunVisible), as long as the run neither follows a `vme` that is not set nor completes a fault whose page a sweep has taken. So it holds what its process wrote unless a write falls between the two halves of its eviction or a sweep takes it in the middle of its fault (RunTransparent). EvictionTransparentIff and FaultTransparentIff say exactly when an eviction and a fault lose nothing, the second for every run up to the completion of the fault, taken or not; SafeIff and FaultSafeIff say beforehand which pages no interleaving can harm. No frame is lost or freed twice in any sound run, and no swap slot but in one case (RunConserves); without system calls a page is pinned exactly while its fault is being filled (PinnedIff), so the clock always finds a page to take (NoFaultNoPin), and one that was accessed gets a second chance (SecondChance). The clock sweep ends within two rounds with a victim that was unpinned and not accessed (TryToFreePages), and an allocation gets a frame exactly if one is free or the clock can free a page (AllocFrame, NoProgress). Lazy loading equals eager loading (LoadedSegment).
- Files: every run on a formatted disk returns, or fails one assertion, on the size of a new file, exactly if a create asks for 2^31 bytes or more and gets as far as its inode (RunInv). Over every run each live sector has one owner (SectorsHaveOneOwner), held files keep theirs (HeldFilesKeepSectors), sectors are lost in exactly three cases (LostSectors) and names stay unique in all but one (NamesStayUnique, NamesUniqueForever). Creating, opening and removing refine a map of names, with their exact conditions (CreateRefinesMap, OpenRefinesMap, RemoveRefinesMap): what was created can be opened, what was removed cannot (CreateThenOpen, RemoveThenOpen); inode I/O refines one byte sequence (ReadAt, WriteAt) and the directory a finite map when its scans get their memory (AddRefinesMap).
- Memory: over every run of malloc and free, blocks are disjoint, as big as requested exactly if the request did not wrap, and arenas are kept exactly while in use (HeapRun); when all are freed the page pool is as it was (PagesComeBack), and a request gets a block of the smallest size that holds it (MallocDoes); the resizing hash table refines a set keyed by equality.
- Formats: ustar headers round-trip (RoundTrip), every one-byte change is noticed but one that changes nothing (OneByteDamage), and exactly the well-formed headers are accepted (AcceptsIff); a printed integer reads back in every base, with any flags, width and precision (ReadsBack); a command line of 1 to 99 words reaches `_start` word by word (ArgumentsArrive) if its first word has at most 127 bytes (ProcessExecute) and its frame fits the stack page, and StartProcess says what happens to every other line; a line of 4096 bytes or more is cut first.

Where code and comments differ, the model follows the code.

- `umod64` and `smod64` return an unsigned and a signed 32-bit value, so their remainder is cut to 32 bits; UModDi3 and SMod64 say exactly when that is harmless.
- `list_splice` of a nonempty range that starts at BEFORE would break the links, although the comment allows any interior element; Splice asks that BEFORE be outside the range.
- `bitmap_scan_and_flip` with a count of zero returns START, not 0.
- `thread_schedule_tail` no longer frees a dying thread; only `process_wait` does.
- `filesys_create` also fails for a full directory or an invalid name, and then it loses the data it allocated; LostSectors says exactly when.
- A directory scan that gets no memory for a bounce buffer stops as if the file ended there. `dir_add` can then enter a name twice or overwrite an entry in use; AddKeepsUnique and AddOverwrites say exactly when, EnteredTwice and FirstEntryOverwritten are instances, and LostSectors says what becomes of the overwritten file.
- `try_to_free_pages` saves a page and clears its mapping in two steps with interrupts on, so a write of its process in between is lost; LostByte is such a run, EvictionTransparentIff and SafeIff say exactly when.
- `handle_mm_fault` lists the page before it pins it, with interrupts on. A sweep in between writes the old bytes of the frame over the page, in swap or, if the page table entry is still dirty from before, in the file; SpoiledAnonymous and SpoiledFile are such runs, FaultTransparentIff and FaultSafeIff say exactly when. The fault then maps a frame that has been freed (StolenFrame).
- `alloc_page` lists a `struct page` whose `vme` is set only later; StrayIff says exactly when a sweep can follow it unset.
- `alloc_page` loops forever if the clock can free nothing; NoProgress says exactly when.
- `malloc` of 2^32 - 11 bytes or more wraps around and returns one page; WrappedRequest is the instance, MallocBigEnough says exactly when a block is too small.
- `start_process` stores the words of the command line into an array of 100 without a check; Tokenize says exactly when it runs over the end, HundredWords is an instance.
- `start_process` gives `load` a null name for a line without words, and `dir_lookup` asserts that there is one; StartProcess says exactly when, NoWords that such a line is nothing but spaces, OneSpace is an instance.
- `process_execute` copies the first word into an array of 128 without a check; CopyName says exactly when it runs over the end, LongName is an instance.
- `filesys_create` takes an unsigned size and passes it on as an `off_t`, which `inode_create` asserts is not negative; StepInv and RunInv say exactly when that fails, LargeCreateFails is an instance. `bytes_to_sectors` wraps for the largest sizes below that; SectorsOfSize says for which.
- `load_segment` does not check that it got memory for an entry, and `memset` then fails an assertion; LoadSegment says exactly when.
- `dir_remove` also fails when the inode cannot be opened.
- `swap_in` and `swap_out` return early with their lock held; SwapOut and SwapIn say so, and HandleMmFault what follows.
- A sweep that takes an anonymous page in the middle of its fault also leaves its old swap slot marked; StepConserves says exactly when a slot is lost.
- `format_integer` pads twice if both MINUS and ZERO are given; Layout says so. Its caller clears ZERO then.
- A clock hand on the tail header, left there by evicting the last page of the list, makes the next sweep fail an assertion; TryToFreePages says exactly when.
- `validate_segment` does not check that the file holds the segment's bytes; LoadedSegment says what happens then.
- `arena_to_block` counts blocks from zero.

## Model

| member | source | states |
|---|---|---|
| Arithmetic.Nlz | pintos/src/lib/arithmetic.c:41-73 | the number of leading zero bits: shifting left by it sets the top bit and loses nothing |
| Arithmetic.UDiv64 | pintos/src/lib/arithmetic.c:77-127 | traps exactly for a zero divisor; otherwise floor division for all 64-bit operands, with no inner `divl` trapping |
| Arithmetic.UDivShort | pintos/src/lib/arithmetic.c:80-112 | two chained `divl` steps give the full quotient for a divisor below 2^32 |
| Arithmetic.UDivWide | pintos/src/lib/arithmetic.c:113-126 | estimate and correction give the quotient for a divisor of 2^32 or more |
| Arithmetic.EstimateBounds | pintos/src/lib/arithmetic.c:113-126 | the estimate from the normalized divisor is the quotient or one more |
| Arithmetic.SelectQuotient | pintos/src/lib/arithmetic.c:124-126 | the final comparison picks the quotient from the two candidates |
| Arithmetic.UMod64 | pintos/src/lib/arithmetic.c:131-135 | the remainder modulo 2^32 |
| Arithmetic.UModDi3 | pintos/src/lib/arithmetic.c:184-189 | equals the true remainder if and only if that is below 2^32 |
| Arithmetic.UModTruncates | pintos/src/lib/arithmetic.c:131-135 | operands for which the remainder comes out wrong |
| Arithmetic.SDiv64 | pintos/src/lib/arithmetic.c:139-146 | division rounding toward zero for all operands except the most negative number by -1, which wraps |
| Arithmetic.SMod64 | pintos/src/lib/arithmetic.c:150-154 | the signed remainder if and only if it fits 32 bits, else cut to 32 bits |
| ListOrder.MergeSorted | pintos/src/lib/kernel/list.c:379-399 | merging two sorted runs gives a sorted one |
| ListOrder.MergeStable | pintos/src/lib/kernel/list.c:379-399 | equivalent elements keep their order, those of the first run first |
| ListOrder.PassStable | pintos/src/lib/kernel/list.c:414-436 | one pass over all runs is a stable permutation |
| ListOrder.PassHalvesRuns | pintos/src/lib/kernel/list.c:404-440 | r natural runs become at most the upper half of r, so sorting ends |
| ListOrder.LastPassSorts | pintos/src/lib/kernel/list.c:404-440 | a pass that outputs at most one run leaves the list sorted |
| KernelList.List.constructor | pintos/src/lib/kernel/list.c:60-68 | an empty list with head and tail linked to each other |
| KernelList.List.Insert | pintos/src/lib/kernel/list.c:168-178 | the element is linked in before the given one, everything else in order, all links consistent |
| KernelList.List.Remove | pintos/src/lib/kernel/list.c:248-255 | the element is unlinked, its successor returned, all links consistent |
| KernelList.List.PushBack | pintos/src/lib/kernel/list.c:216-220 | the element is linked in at the end |
| KernelList.List.PopFront | pintos/src/lib/kernel/list.c:259-265 | the first element is unlinked and returned |
| KernelList.List.IsEmpty | pintos/src/lib/kernel/list.c:309-313 | whether there is no element |
| KernelList.List.Splice | pintos/src/lib/kernel/list.c:183-204 | a range moves in front of a node before or behind it and all links stay consistent |
| KernelList.List.FindEndOfRun | pintos/src/lib/kernel/list.c:357-372 | returns the end of the first natural run in the range |
| KernelList.List.InplaceMerge | pintos/src/lib/kernel/list.c:379-399 | rewires two adjacent runs into their stable merge |
| KernelList.List.MergePass | pintos/src/lib/kernel/list.c:414-436 | one pass merges runs pairwise in place and counts the runs it leaves |
| KernelList.List.Sort | pintos/src/lib/kernel/list.c:404-440 | for every list and strict weak order it ends with the same nodes, sorted, equivalent ones in their old order, all links consistent |
| SchedulerProof.NoLostWakeup | pintos/src/threads/synch.c:60-121 | if only the idle thread could run, a semaphore with waiters has value 0 |
| KernelRuns.StepInv | pintos/src/threads/synch.c:60-338 | no step of any kernel call panics from a good state, and every step keeps the whole invariant |
| KernelRuns.BootInv | pintos/src/threads/thread.c:91-121 | the booted system meets the invariant |
| KernelRuns.RunInvariant | pintos/src/threads/thread.c:233-340 | so does every state of every run |
| KernelRuns.NeverPanics | pintos/src/threads/thread.c:275-289 | no interleaving of the booted system ends in a failed kernel assertion |
| KernelRuns.SemaphoresLoseNothing | pintos/src/threads/synch.c:60-121 | in every reachable state value = initial + ups - downs, and with waiters present the value is at most the number of woken threads that have not rechecked |
| KernelRuns.ElemDiscipline | pintos/src/threads/thread.h:78-83 | the shared list element of a thread is in the ready list exactly if ready, in exactly one waiters list exactly if blocked, and nowhere for the started idle thread; exactly one thread runs |
| KernelRuns.LocksExclude | pintos/src/threads/synch.c:175-247 | semaphore value plus the number of threads inside the lock is 1 |
| LockProof.MutualExclusion | pintos/src/threads/synch.c:193-236 | the recorded holder is the one thread inside |
| KernelRuns.SignalsReachWaiters | pintos/src/threads/synch.c:288-338 | a thread in `cond_wait` is queued, or popped by a signaller about to wake it, or woken by that one signal |
| KernelRuns.WaitAccepts | pintos/src/userprog/process.c:268-280 | a wait is accepted exactly for an own child not collected before; any other returns -1 and changes nothing |
| KernelRuns.WaitReturnsStatus | pintos/src/userprog/process.c:268-280 | the first wait returns the status the child left, when the child is dead, switched out and not yet freed |
| KernelRuns.CollectedStatuses | pintos/src/userprog/process.c:79-94 | every collected status is the child's own, collected once, from a thread on no list |
| KernelRuns.DeadForever | pintos/src/threads/thread.c:300-322 | a dead thread never runs again in any run |
| KernelCalls.StepDoes | pintos/src/threads/synch.c:60-338 | every step of a thread does the next of the events that its call owes, or none yet; each event changes exactly what its name says of semaphores, locks, condition variables, threads and statuses |
| KernelCalls.InterruptDoes | pintos/src/threads/synch.c:108-121 | a `sema_up` by an interrupt handler raises that semaphore and does nothing else, whatever thread it strikes |
| KernelCalls.RunDoes | pintos/src/threads/synch.c:60-338 | over every interleaving, what a thread in a call has done and what it has still to do make up what the call owes |
| KernelCalls.CallDoes | pintos/src/threads/synch.c:60-338 | when a call has returned, its thread has done exactly what the call is to do, in order and nothing else |
| KernelReturns.ReturnsHolding | pintos/src/threads/synch.c:192-302 | `lock_acquire` and `cond_wait` return with the lock held, and it stays held until the next call |
| KernelReturns.BroadcastWakesAll | pintos/src/threads/synch.c:330-338 | when `cond_broadcast` has returned nobody waits on the condition variable, and every thread that did has been raised by it, once |
| KernelReturns.SignalWakesFirst | pintos/src/threads/synch.c:311-322 | when `cond_signal` has returned it has raised the first waiter, if there was one, and nobody else |
| KernelOrder.StepOrders | pintos/src/threads/thread.c:233-340 | in every step threads join the ready list and the waiters at the end and leave at the front; the running thread gives the processor up exactly if it yields, dies, has to wait or has nothing to do |
| KernelOrder.YieldGivesWay | pintos/src/threads/thread.c:326-340 | the first ready thread runs, and the one that yielded goes to the end of the list |
| KernelOrder.RunsInTurn | pintos/src/threads/thread.c:518-525 | over every run no ready thread runs before one that was ahead of it |
| KernelOrder.WokenInTurn | pintos/src/threads/synch.c:60-121 | over every run no waiter is woken before one that was ahead of it |
| ThreadQueues.Queues.PushBack | pintos/src/threads/thread.c:259 | the element of a thread that is in no list is linked in at the end of one list; every list stays consistent, and no two share a node |
| ThreadQueues.Queues.PopFront | pintos/src/threads/synch.c:116-117 | the first thread of a list is unlinked from it; every other list stays as it was |
| ThreadQueues.Queues.NewList | pintos/src/threads/synch.c:45-51 | a new empty list with nodes of its own |
| KernelObject.Kernel.constructor | pintos/src/threads/thread.c:91-121 | boots into the initial state, with the idle thread's element in the ready list and nothing else linked |
| KernelObject.Kernel.NextThreadToRun | pintos/src/threads/thread.c:518-525 | unlinks the first ready thread, or gives the idle thread, which is in no list |
| KernelObject.Kernel.ThreadUnblock | pintos/src/threads/thread.c:251-263 | a blocked thread that is in no list is linked in at the end of the ready list |
| KernelObject.Kernel.SemaDownPass | pintos/src/threads/synch.c:68-75 | one turn of the loop: the running thread, in no list, is linked in at the end of the waiters and the first ready one runs, or a unit is taken |
| KernelObject.Kernel.SemaDownCall | pintos/src/threads/synch.c:60-76 | no assertion fails, the lists follow the machine's step, and the whole invariant is kept |
| KernelObject.Kernel.SemaDownAgain | pintos/src/threads/synch.c:68-75 | so does a woken thread that goes round the loop again |
| KernelObject.Kernel.Raise | pintos/src/threads/synch.c:108-121 | the first waiter is unlinked from the waiters before it is linked into the ready list, and a unit is added |
| KernelObject.Kernel.SemaUpCall | pintos/src/threads/synch.c:108-121 | no assertion fails, from a thread or an interrupt handler, and the whole invariant is kept |
| KernelObject.Kernel.ThreadYield | pintos/src/threads/thread.c:326-340 | the running thread, in no list, is linked in at the end of the ready list unless it is the idle thread, and the first of that list is unlinked and runs; the whole invariant is kept |
| KernelObject.Kernel.ThreadExitCall | pintos/src/threads/thread.c:300-322 | the parent is woken, the thread dies and another one runs, with no assertion failing and the whole invariant kept |
| KernelObject.Kernel.DeadUnlinked | pintos/src/threads/thread.c:300-322 | a dead thread's element is in no list, so that its page can be freed |
| KernelObject.Kernel.ThreadCreateCall | pintos/src/threads/thread.c:168-225 | fails exactly without a page; otherwise the new thread's element is in the ready list and nowhere else, invariant kept |
| KernelObject.Kernel.SemaInitCall | pintos/src/threads/synch.c:44-51 | a new semaphore has no waiters, invariant kept |
| PagingProof.EvictTransparent | pintos/src/vm/frame.c:147-163 | evicting any page without an access in between changes what no process sees, given a free swap slot if one is needed |
| PagingProof.EvictTransparentIff | pintos/src/vm/frame.c:147-163 | the victim keeps its bytes if and only if it needs no swap slot or one is free |
| PagingProof.TakeTransparent | pintos/src/vm/frame.c:49-69 | giving a page a free frame and listing it changes what no process sees |
| PagingProof.FillTransparent | pintos/src/userprog/process.c:721-747 | filling and mapping that frame changes what no process sees |
| PagingProof.FaultTransparent | pintos/src/userprog/process.c:711-748 | so a fault with nothing in between changes what no process sees |
| PagingProof.WriteVisible | pintos/src/userprog/pagedir.c:143-157 | a user write changes that byte of that page and nothing else |
| PagingSteps.StepVisible | pintos/src/vm/frame.c:113-170 | exactly what each access, each half of an eviction, each part of a fault, each visit of the clock and each pin does to any page as its process sees it, to the copy of a page being evicted and to a page in a fault |
| PagingRuns.RunVisible | pintos/src/vm/frame.c:113-170 | the same over every run that neither follows an unset `vme` nor completes a fault whose page a sweep has taken |
| PagingRuns.RunTransparent | pintos/src/vm/frame.c:113-170 | over every such run in which no write to a page falls between the two halves of its eviction and no sweep takes it in the middle of its fault, the page holds its own writes applied to what it held at the start |
| PagingRuns.EvictionTransparentIff | pintos/src/vm/frame.c:147-163 | after any operations between its two halves an eviction brings back what was saved, so it is transparent if and only if the writes in between change nothing |
| PagingRuns.SafeIff | pintos/src/vm/frame.c:147-163 | every interleaving with the eviction of a page is transparent if and only if the page is the evicting process's own, or read-only, or shows no byte, or its process is held up in a fault whose page was taken |
| PagingRuns.LostByte | pintos/src/vm/frame.c:147-163 | a state and a run in which a byte is lost |
| PagingRuns.OwnVictimsTransparent | pintos/src/vm/frame.c:147-163 | every run in which processes evict only pages of their own, and no sweep follows an unset `vme`, is transparent |
| PagingRuns.FaultCompletes | pintos/src/userprog/process.c:711-748 | a fault whose page no sweep has taken can go on to its end |
| PagingFaults.FaultTransparentIff | pintos/src/userprog/process.c:711-748 | after any operations between listing the page and filling its frame, the process finds the old bytes of the frame if a sweep took the page and wrote it out, unless the page is of an executable and its type was read before; otherwise it finds what it had; so the fault is transparent if and only if that did not happen or the bytes are the same |
| PagingFaults.FaultSafeIff | pintos/src/userprog/process.c:711-716 | with another process there to sweep, and a swap slot for it if it needs one, every interleaving with a fault is transparent if and only if the page is pinned already, or neither anonymous nor dirty, or the frame happens to hold what the page holds |
| PagingFaults.SpoiledAnonymous | pintos/src/userprog/process.c:711-716 | a state and a run in which a page in swap is lost |
| PagingFaults.SpoiledFile | pintos/src/vm/frame.c:147-151 | a state and a run in which a byte of a mapped file is overwritten |
| PagingFaults.StolenFrame | pintos/src/vm/frame.c:160-163 | a fault whose page was taken maps a frame that is free, and any page that is then given that frame shares its bytes |
| PagingFaults.StrayIff | pintos/src/vm/frame.c:132-139 | a sweep can come to a page whose `vme` is not set if and only if a fault has listed it and not yet set it |
| PagingConserve.StepConserves | pintos/src/vm/frame.c:49-170 | no operation loses a frame or frees one that a page has; a slot is lost if and only if a sweep takes a page in the middle of its fault and the page was in it |
| PagingConserve.RunConserves | pintos/src/vm/swap.c:29-62 | over every sound run the used frames that no page has stay the same, and so do the marked slots that no page is in, if no sweep takes a page in the middle of its fault |
| PagingBits.RunTags | pintos/src/userprog/pagedir.c:110-199 | over every run, sound or not, the type, the loaded, present, dirty and accessed bits and the pin of a page are what the operations on that page make them |
| PagingBits.PinnedIff | pintos/src/userprog/exception.c:179 | without pins by system calls a page is pinned if and only if its process is between pinning it and filling its frame |
| PagingBits.NoFaultNoPin | pintos/src/vm/frame.c:134-136 | so with no fault under way the clock finds a page that is not pinned |
| PagingBits.SecondChance | pintos/src/vm/frame.c:142-145 | a page that has been accessed is not evicted before the clock has passed over it |
| PagingBits.ListStep | pintos/src/vm/frame.c:29-46 | a fault appends its page to the list, an eviction takes the victim out, the rest keeps its order and the hand its page |
| PagingBits.EvictKeepsOrder | pintos/src/vm/frame.c:39-46 | after an eviction the hand is on the page it was on, or on the one after the victim |
| PagingBits.WritesBack | pintos/src/vm/frame.c:147-152 | saving a page of a mapped file puts its bytes into the file exactly if it is dirty and writes are not denied |
| PagingBits.FilesKept | pintos/src/filesys/inode.c:265-266 | over every run a file to which writes are denied stays as it is, and so does every byte that no page maps |
| PagingFaults.FreshInv | pintos/src/userprog/process.c:656-687 | an address space with a loaded stack and nothing else loaded meets the invariant and shows file bytes and zeros |
| PagingFaults.TailForever | pintos/src/vm/frame.c:91-111 | a clock hand on the tail header stays there |
| PagingFaults.LastVictimStrandsHand | pintos/src/vm/frame.c:39-46 | evicting the page under the hand leaves it on the tail header if and only if that page was last |
| FrameTable.Frames.GetNextLruClock | pintos/src/vm/frame.c:91-111 | the next position of the hand, with the wrap-around, the one-page list and the assertion failure |
| FrameTable.IdleForever | pintos/src/vm/frame.c:49-57 | a clock that frees nothing frees nothing in any later call either |
| FrameTable.AllPinnedForever | pintos/src/vm/frame.c:125-136 | with two pages or more, all pinned, the sweep never ends |
| FrameTable.NoProgress | pintos/src/vm/frame.c:49-57 | when the clock cannot free a page, `alloc_page` loops forever, or the sweep does, or its assertion fails |
| FrameTable.Frames.TryToFreePages | pintos/src/vm/frame.c:113-170 | evicts exactly one page within two rounds; the victim was unpinned and not accessed, every page passed over was pinned or had its accessed bit cleared; frees nothing if and only if there is no page, or one that the hand is on or that is pinned or accessed; fails the assertion if and only if the list is nonempty and the hand is on the tail header; the swap lock stays held if and only if the victim found no slot |
| FrameTable.Frames.AllocFrame | pintos/src/vm/frame.c:49-57 | ends with a free frame whenever the clock can free a page, and with every process seeing the same unless a victim found no slot |
| FrameTable.Frames.HandleMmFault | pintos/src/userprog/process.c:711-748 | the page is loaded, mapped, clean, not pinned and last in the list, the pins of all others are as they were, and every process sees the same, unless a victim found no swap slot; then only a page that is itself in swap cannot be loaded |
| SwapDevice.Device.SwapOut | pintos/src/vm/swap.c:47-62 | the page goes to the eight sectors of the first free slot, other slots unchanged; without one nothing changes and the lock stays held |
| SwapDevice.Device.SwapIn | pintos/src/vm/swap.c:29-45 | returns the bytes of a marked slot and unmarks it; for an unmarked slot the lock stays held |
| Segments.ValidRegion | pintos/src/userprog/process.c:550-591 | a validated header gives whole user pages above page 0 with no 32-bit wrap |
| Segments.ValidateIff | pintos/src/userprog/process.c:550-591 | although the end is computed modulo 2^32, exactly the segments are accepted that are not empty, hold what is read, start in the file at the same offset in a page and lie between page 0 and the end of user memory |
| Segments.EntriesTile | pintos/src/userprog/process.c:607-651 | the entries are one per page, consecutive, each of 4096 bytes |
| Segments.LazyIsEager | pintos/src/vm/page.c:84-94 | faulting in all pages gives what loading at once would, and fails exactly when that would |
| Segments.LoadedSegment | pintos/src/userprog/process.c:496-522 | for every validated PT_LOAD header the process finds the file's bytes at p_vaddr and zeros to the end of the region; touching all pages works if and only if the file is long enough |
| Segments.VmTableSuitable | pintos/src/vm/page.c:29-37 | hashing and comparing entries by address meets what the hash table asks |
| Segments.AddressSpace.InsertVme | pintos/src/vm/page.c:40-42 | through the hash table: adds the entry exactly if its page has none |
| Segments.AddressSpace.FindVme | pintos/src/vm/page.c:56-63 | finds the entry of the page that holds the address exactly if there is one |
| Segments.AddressSpace.constructor | pintos/src/vm/page.c:25-27 | no entries |
| Segments.AddressSpace.LoadSegment | pintos/src/userprog/process.c:607-651 | adds exactly the segment's entries; fails an assertion exactly if memory runs out before the last |
| Segments.AllInserted | pintos/src/userprog/process.c:640 | on pages without entries all go in, and earlier ones stay |
| Segments.LoadFile | pintos/src/vm/page.c:84-94 | succeeds exactly if the file holds the bytes, and then the frame is those bytes and zeros |
| Arguments.StrtokR | pintos/src/lib/string.c:234-275 | for any delimiters, returns the next word and the rest of the line, changing only bytes from the start position on |
| Arguments.Tokenize | pintos/src/userprog/process.c:214-223 | stores past the end of the array exactly for 100 words or more; otherwise the texts found at the stored positions after all cuts are the words of the line, with a null pointer after them |
| LineWords.WordsOfJoined | pintos/src/lib/string.c:234-275 | words put together with any gaps of delimiters are found again, in order |
| LineWords.LineIsJoined | pintos/src/lib/string.c:234-275 | and every line is its words put together like that |
| ArgumentStack.Stack.PushStrings | pintos/src/userprog/process.c:47-54 | the strings with null bytes, and the address of each |
| ArgumentStack.Stack.PushPointers | pintos/src/userprog/process.c:65-68 | the pointers in order below the null pointer |
| ArgumentStack.Stack.PushArguments | pintos/src/userprog/process.c:43-76 | the stack holds exactly the call frame of the words |
| ArgumentStack.StartProcess | pintos/src/userprog/process.c:214-241 | from the command line in its buffer to that frame if there are 1 to 99 words, the program loads and the frame fits; overruns the array exactly for 100 words or more; panics exactly for no words, once there is a page directory and the root directory opens |
| ArgumentStack.ArgumentsArrive | pintos/src/lib/user/entry.c:7 | for 1 to 99 words, read back as a call of `_start`: aligned, argc is the number of words, argv[i] is the i-th word, argv[argc] is null |
| ArgumentStack.FrameCalls | pintos/src/userprog/process.c:43-76 | the same for any words whose frame fits the page |
| ArgumentStack.HundredWords | pintos/src/userprog/process.c:216 | a line of 199 bytes whose frame fits the page and whose words do not fit the array |
| ArgumentStack.NoWords | pintos/src/userprog/process.c:219 | a line has no words if and only if it is nothing but spaces |
| ArgumentStack.OneSpace | pintos/src/userprog/process.c:219 | such a line |
| CommandLine.Strlcpy | pintos/src/lib/string.c:325-343 | as much of the text as fits, always with a null byte, and nothing changed after it; returns the length of the whole text |
| CommandLine.CopyName | pintos/src/userprog/process.c:191-197 | stores past the end of the array exactly if the text before the first space has at least as many bytes; otherwise the array holds that text |
| CommandLine.ProcessExecute | pintos/src/userprog/process.c:180-199 | fails exactly without a page; overruns exactly for a first word of 128 bytes or more; otherwise hands on the line, cut to 4095 bytes, and that word |
| CommandLine.LongName | pintos/src/userprog/process.c:191-197 | a line of 128 bytes that overruns the array and fits everything else |
| Bitmap.MaskApart | pintos/src/lib/kernel/bitmap.c:41-47 | masks of different bits share no bit |
| Bitmap.Packed.constructor | pintos/src/lib/kernel/bitmap.c:78-94 | all bits clear whatever the storage held |
| Bitmap.Packed.Mark | pintos/src/lib/kernel/bitmap.c:156-166 | sets that bit only |
| Bitmap.Packed.Reset | pintos/src/lib/kernel/bitmap.c:169-179 | clears that bit only |
| Bitmap.Packed.Flip | pintos/src/lib/kernel/bitmap.c:184-194 | inverts that bit only |
| Bitmap.Packed.Test | pintos/src/lib/kernel/bitmap.c:197-203 | the bit's value |
| Bitmap.Packed.SetMultiple | pintos/src/lib/kernel/bitmap.c:217-228 | sets exactly the range |
| Bitmap.Packed.Count | pintos/src/lib/kernel/bitmap.c:232-246 | the number of bits with that value in the range |
| Bitmap.TallyIs | pintos/src/lib/kernel/bitmap.c:232-246 | that number is the size of the set of their positions |
| Bitmap.Packed.Contains | pintos/src/lib/kernel/bitmap.c:250-263 | false exactly if the whole range has the other value |
| Bitmap.FirstGroup | pintos/src/lib/kernel/bitmap.c:295-310 | the first position from which the whole group has the value, or none if there is no such position |
| Bitmap.Packed.Scan | pintos/src/lib/kernel/bitmap.c:295-310 | finds that group |
| Bitmap.Packed.ScanAndFlip | pintos/src/lib/kernel/bitmap.c:319-326 | finds it and inverts exactly it |
| InodeIO.Inode.ReadAt | pintos/src/filesys/inode.c:200-250 | the bytes of the file from the offset on, as many as requested and present; without memory the whole sectors in front, if the offset is at the start of one |
| InodeIO.Inode.WriteAt | pintos/src/filesys/inode.c:257-318 | the file becomes itself with the bytes at the offset replaced, as many as fit its fixed length, without memory only whole sectors in front; no other byte of the disk changes; nothing is written while writes are denied |
| InodeIO.Inode.WriteChunk | pintos/src/filesys/inode.c:281-309 | one chunk through a bounce buffer; the branch that zero-fills it cannot be reached |
| InodeIO.SectorsOfSize | pintos/src/filesys/inode.c:25-29 | the 32-bit quotient; it is the size rounded up if and only if the size is at most 0x7FFFFE00 |
| InodeIO.OtherFileSame | pintos/src/filesys/inode.c:257-318 | a file elsewhere on the disk is unchanged by a write |
| Directory.Dir.constructor | pintos/src/filesys/directory.c:24-50 | no entry is in use |
| Directory.Dir.Lookup | pintos/src/filesys/directory.c:91-112 | finds the first entry in use with the name, among those it can read |
| Directory.Dir.Add | pintos/src/filesys/directory.c:142-180 | succeeds exactly if the name is valid, the first scan does not find it, the second stops inside the file and the write works; changes only that entry |
| Directory.AddRefinesMap | pintos/src/filesys/directory.c:142-180 | with memory for both scans it succeeds exactly if the name is valid, absent and an entry is free, and adds exactly that binding |
| Directory.AddKeepsUnique | pintos/src/filesys/directory.c:157-158 | names stay unique if and only if the name is not in use beyond the first scan, in an entry that stays |
| Directory.AddOverwrites | pintos/src/filesys/directory.c:160-170 | an entry in use is overwritten if and only if the second scan stops on it, all entries before it being in use |
| Directory.EnteredTwice | pintos/src/filesys/directory.c:157-158 | a name entered twice |
| Directory.FirstEntryOverwritten | pintos/src/filesys/directory.c:160-170 | a binding lost |
| Directory.Dir.Erase | pintos/src/filesys/directory.c:185-217 | erases the entry found if the inode opens and the write works, and nothing otherwise |
| Directory.EraseRefinesMap | pintos/src/filesys/directory.c:185-217 | erasing an entry removes exactly its binding |
| Directory.Dir.ReadDir | pintos/src/filesys/directory.c:222-237 | the next name in use |
| Directory.Dir.ListAll | pintos/src/filesys/directory.c:222-237 | with memory for every read, repeated reading yields each name once |
| OwnershipTheorems.FormatInv | pintos/src/filesys/filesys.c:97-106 | a formatted disk meets the ownership invariant |
| OwnershipCreate.CreateStep | pintos/src/filesys/filesys.c:45-61 | create fails an assertion if and only if the root opens, the inode's sector is allocated and the size is 2^31 or more; otherwise it keeps the invariant and succeeds exactly if there is memory and room and the directory accepts the name, with scans of any length |
| OwnershipCreate.CreateNamed | pintos/src/filesys/filesys.c:45-61 | a create that succeeds puts the name into its entry, bound to a sector that was free, which now holds an inode of that size with data that were free; these sectors and no others are marked, and every other inode stays |
| OwnershipRuns.OpenStep | pintos/src/filesys/filesys.c:68-80 | open keeps it; OpenDoes says what it does |
| OwnershipRuns.RemoveStep | pintos/src/filesys/filesys.c:86-94 | remove keeps it; RemoveDoes says what it does |
| OwnershipRuns.CloseStep | pintos/src/filesys/inode.c:163-186 | close keeps it, and its two releases never fail their assertion |
| OwnershipTheorems.StepInv | pintos/src/filesys/inode.c:78 | a step fails an assertion if and only if it is such a create; no step fails another one or opens a sector that holds no inode |
| OwnershipTheorems.RunInv | pintos/src/filesys/inode.c:72-195 | a run returns in a good state, unless it comes to such a create; then, and only then, it fails that assertion |
| OwnershipTheorems.LargeCreateFails | pintos/src/filesys/inode.c:78 | while a sector is free, any create of 2^31 bytes or more panics if and only if the root opens and the free map can be written |
| OwnershipTheorems.SectorsHaveOneOwner | pintos/src/filesys/free-map.c:27-50 | after every run on a formatted disk each sector of a live inode is marked and belongs to that inode alone |
| OwnershipTheorems.HeldFilesKeepSectors | pintos/src/filesys/inode.c:163-195 | a file that some caller holds after every step, even if removed, keeps its inode and data where they are, marked, through every run |
| OwnershipTheorems.LostSectors | pintos/src/filesys/filesys.c:50-55 | a step loses a sector if and only if it is data of a file that was made and whose name was then refused, or belongs to a file whose entry is overwritten, at that step or, if it is open, when it is closed for the last time |
| OwnershipTheorems.UnnamedFileLost | pintos/src/filesys/filesys.c:54-55 | creating a nonempty file with an empty name loses its data |
| OwnershipTheorems.OverwrittenFileLost | pintos/src/filesys/directory.c:160-170 | a create whose scans read nothing succeeds and loses the file of the first entry |
| OwnershipTheorems.NamesStayUnique | pintos/src/filesys/directory.c:142-180 | a step makes names not unique if and only if it is a create that enters a name in use beyond what its first scan read |
| OwnershipTheorems.NamesUniqueForever | pintos/src/filesys/directory.c:142-180 | names are unique after every run on a formatted disk whose creates read the whole directory first |
| OwnershipEffects.AllocateDoes | pintos/src/filesys/free-map.c:27-41 | a group is found if and only if one is free and the free map can be written; it is the first, and it alone is marked |
| OwnershipEffects.OpenDoes | pintos/src/filesys/filesys.c:68-80 | succeeds if and only if the scan finds the name, the inode is open or there is memory for it, and there is memory for the file; then the caller holds one more reference to that inode and nothing else changes; on failure nothing changes |
| OwnershipEffects.CloseDoes | pintos/src/filesys/inode.c:163-186 | one reference less; the last one takes the inode off the list and, if removed, unmarks exactly its sectors |
| OwnershipEffects.RemoveDoes | pintos/src/filesys/directory.c:185-217 | succeeds if and only if the scan finds the name, the inode is open or there is memory for it, and the directory can be written; then that entry alone is erased, and the inode is marked removed if it is open, or else exactly its sectors are unmarked; on failure nothing changes |
| OwnershipEffects.ReopenDoes | pintos/src/filesys/inode.c:145-151 | one more reference to the same inode, and nothing else |
| OwnershipEffects.WriteDoes | pintos/src/filesys/inode.c:257-318 | writing a file changes no name, no reference, no mark and no inode |
| OwnershipEffects.FormatsIff | pintos/src/filesys/filesys.c:97-106 | a device can be formatted if and only if it has room for two inodes, the free map and a sector of directory, and the free map fits a file; then these sectors and no others are marked |
| OwnershipEffects.MakesIff | pintos/src/filesys/filesys.c:45-61 | there is room for a new file if and only if a sector is free and, with the first of them taken, a group for its data |
| OwnershipEffects.CreateRefinesMap | pintos/src/filesys/filesys.c:45-61 | with memory for its scans create works if and only if there is room, the name is valid and not bound, and an entry is free, and then binds the name to a new inode of that size |
| OwnershipEffects.OpenRefinesMap | pintos/src/filesys/filesys.c:68-80 | with memory for the scan open gives a reference to what the name is bound to, exactly if it is bound |
| OwnershipEffects.RemoveRefinesMap | pintos/src/filesys/filesys.c:86-94 | with unique names remove takes exactly that binding out |
| OwnershipEffects.CreateThenOpen | pintos/src/filesys/filesys.c:45-80 | a file that was created can be opened and has its size |
| OwnershipEffects.RemoveThenOpen | pintos/src/filesys/filesys.c:68-94 | a name that was removed is not found any more |
| Volume.Disk.constructor | pintos/src/filesys/free-map.c:12-20 | marks the two reserved sectors |
| Volume.Disk.DoFormat | pintos/src/filesys/filesys.c:97-106 | formats as the model does |
| Volume.Disk.FreeMapAllocate | pintos/src/filesys/free-map.c:27-41 | takes the first free group, or rolls back if the free map cannot be written |
| Volume.Disk.FreeMapRelease | pintos/src/filesys/free-map.c:44-50 | unmarks exactly the group |
| Volume.Disk.FindOpen | pintos/src/filesys/inode.c:115-127 | finds the inode in the list exactly if its sector is open |
| Volume.Disk.CreateInode | pintos/src/filesys/inode.c:72-106 | fails its assertion exactly for a length of 2^31 or more, nothing changed; otherwise allocates, writes the inode and zeroes the data as the model does |
| Volume.Disk.OpenInodeAt | pintos/src/filesys/inode.c:111-142 | the scan of the list finds an open inode exactly if the sector is open; otherwise it is read from its sector and put in front; the list holds each open inode once |
| Volume.Disk.CloseInode | pintos/src/filesys/inode.c:163-186 | the last close of a removed inode releases its sectors |
| Volume.Disk.AddName | pintos/src/filesys/directory.c:142-180 | the two scans over the root directory's entries and the write take the model's step |
| Volume.Disk.CreateFile | pintos/src/filesys/filesys.c:45-61 | takes the model's step: a failed assertion exactly where the model has one, otherwise the invariant kept |
| Volume.Disk.OpenFile | pintos/src/filesys/filesys.c:68-80 | takes the model's step, with the outcome of OpenDoes, and keeps the invariant |
| Volume.Disk.RemoveFile | pintos/src/filesys/filesys.c:86-94 | takes the model's step, with the outcome of RemoveDoes, and keeps the invariant |
| Volume.Disk.MarkRemoved | pintos/src/filesys/inode.c:190-195 | marks that open inode and no other |
| Volume.Disk.CloseFile | pintos/src/filesys/inode.c:163-186 | takes the model's step and keeps the invariant |
| HeapModel.SizesOk | pintos/src/threads/malloc.c:70-85 | block sizes double from 16 to 1024, and an arena holds as many blocks as fit after its header |
| HeapModel.BlockInPage | pintos/src/threads/malloc.c:284-294 | a block lies inside its page past the header, and rounding down finds the page |
| HeapProof.PopStep | pintos/src/threads/malloc.c:148-153 | handing out the first free block keeps the heap invariant |
| HeapProof.PushStep | pintos/src/threads/malloc.c:238-242 | taking a block back keeps it but for an arena that may now be wholly free |
| HeapProof.AddArenaStep | pintos/src/threads/malloc.c:124-146 | a new arena keeps it |
| HeapProof.DropArenaStep | pintos/src/threads/malloc.c:241-253 | a wholly free arena has all its blocks on the list; giving it back keeps the invariant and leaves none of them there |
| HeapProof.AddBigStep | pintos/src/threads/malloc.c:105-120 | a big block keeps it |
| HeapProof.DropBigStep | pintos/src/threads/malloc.c:257-262 | giving a big block back keeps it, its pages all being marked |
| HeapProof.LiveFits | pintos/src/threads/malloc.c:87-154 | a block handed out lies inside its own pages past the header, and has the bytes requested exactly if the request did not wrap |
| HeapProof.LiveDisjoint | pintos/src/threads/malloc.c:87-154 | blocks handed out do not overlap |
| HeapProof.ArenaHasLive | pintos/src/threads/malloc.c:241-253 | an arena is kept if and only if one of its blocks is handed out |
| HeapProof.OtherPages | pintos/src/threads/palloc.c:70-142 | other users of the page pool do not disturb the heap |
| HeapRuns.AfterMalloc | pintos/src/threads/malloc.c:89-154 | malloc keeps the invariant, fails exactly if the request is zero or its page count, computed modulo 2^32, is zero or not available, and returns a block that was not handed out |
| HeapRuns.AfterFree | pintos/src/threads/malloc.c:218-264 | free keeps the invariant and takes back exactly that block |
| HeapRuns.HeapRun | pintos/src/threads/malloc.c:71-294 | in every run of malloc, free and other pool users blocks handed out are disjoint and big enough exactly if the request did not wrap, arenas are exactly the pages with blocks in use, none when all are freed, and each counts its blocks on the free list |
| HeapRuns.MallocBigEnough | pintos/src/threads/malloc.c:105-112 | the block that malloc returns is big enough if and only if the request is below 2^32 - 11 |
| HeapRuns.WrappedRequest | pintos/src/threads/malloc.c:105-112 | any request from there on that finds a free page gets that one page |
| HeapEffects.MallocDoes | pintos/src/threads/malloc.c:89-154 | malloc leaves the pages of others alone, and its block is of the smallest size that holds the request, or has just as many pages as the request and the header need |
| HeapEffects.FreeDoes | pintos/src/threads/malloc.c:218-264 | free leaves the pages of others alone |
| HeapEffects.PagesComeBack | pintos/src/threads/malloc.c:71-294 | over every run of malloc and free the pages that others use stay the same, and when all blocks are freed no other page is used |
| HeapEffects.FreedFirst | pintos/src/threads/malloc.c:238-242 | a block that was freed is the next to be handed out for its size, unless its page was given back |
| HeapObject.MallocInit | pintos/src/threads/malloc.c:71-85 | seven descriptors, 16 to 1024 bytes |
| HeapObject.Allocator.GetPages | pintos/src/threads/palloc.c:70-101 | marks the first run of free pages; none for a count of zero |
| HeapObject.Allocator.FreePages | pintos/src/threads/palloc.c:116-142 | unmarks exactly the run |
| HeapObject.Allocator.CutArena | pintos/src/threads/malloc.c:137-146 | every block of the page goes to the end of the list in order |
| HeapObject.Allocator.DropBlocks | pintos/src/threads/malloc.c:246-251 | the arena's blocks leave the list, the others keep their order |
| HeapObject.Allocator.Malloc | pintos/src/threads/malloc.c:89-154 | takes the model's step |
| HeapObject.Allocator.MallocSmall | pintos/src/threads/malloc.c:122-153 | takes the model's step when a descriptor serves the request |
| HeapObject.Allocator.Free | pintos/src/threads/malloc.c:218-264 | takes the model's step, its assertion on the free count included |
| PowersOfTwo.PowerTest | pintos/src/lib/kernel/hash.c:335-340 | the test holds exactly for powers of two |
| PowersOfTwo.TurnOffKeepsTop | pintos/src/lib/kernel/hash.c:328-333 | clearing the lowest bit of a number with several bits makes it smaller and keeps the highest |
| PowersOfTwo.RoundDown | pintos/src/lib/kernel/hash.c:371-372 | the loop ends with the largest power of two not above its start |
| HashTable.BucketInRange | pintos/src/lib/kernel/hash.c:304-310 | the mask is the remainder, inside the table |
| HashTable.MembersDistinct | pintos/src/lib/kernel/hash.c:312-326 | members that compare equal are one element |
| HashTable.HashInit | pintos/src/lib/kernel/hash.c:24-42 | fails exactly without memory; otherwise four empty buckets |
| HashTable.Table.Find | pintos/src/lib/kernel/hash.c:131-135 | finds the equal member exactly if there is one |
| HashTable.Table.InsertElem | pintos/src/lib/kernel/hash.c:416-421 | adds exactly that member |
| HashTable.Table.RemoveElem | pintos/src/lib/kernel/hash.c:424-429 | removes exactly that member |
| HashTable.Table.Insert | pintos/src/lib/kernel/hash.c:98-110 | adds the element, or returns the equal one and changes no member |
| HashTable.Table.Replace | pintos/src/lib/kernel/hash.c:114-127 | the element takes the place of the equal one, which is returned |
| HashTable.Table.Delete | pintos/src/lib/kernel/hash.c:144-154 | removes and returns the equal element, if any |
| HashTable.Table.Rehash | pintos/src/lib/kernel/hash.c:351-413 | same members, count a power of two of at least four at most the ideal and more than half of it; unchanged without memory |
| HashTable.Table.MoveAll | pintos/src/lib/kernel/hash.c:387-413 | every element moves to its new bucket once |
| HashTable.Table.Visit | pintos/src/lib/kernel/hash.c:162-180 | every member is visited once |
| UstarFormat.StripResult | pintos/src/lib/ustar.c:65-73 | a stripped name is nonempty, not the parent, and starts with no bad prefix |
| UstarFormat.StripIdempotent | pintos/src/lib/ustar.c:65-73 | stripping twice is stripping once |
| UstarFormat.OctalRoundTrip | pintos/src/lib/ustar.c:129-162 | a number printed in octal and ended by a space or a null byte reads back |
| UstarSpec.StripPrefix | pintos/src/lib/ustar.c:65-73 | a leading "/", "./" or "../" is dropped |
| UstarSpec.StripRest | pintos/src/lib/ustar.c:65-73 | no other name is changed, but for the empty one and the parent |
| UstarSpec.CStringIs | pintos/src/lib/ustar.c:222 | a name ends at its first null byte |
| UstarSpec.FieldIff | pintos/src/lib/ustar.c:129-162 | an octal field is read if and only if it is digits ended by a space or a null byte whose value fits 32 bits, and as that value |
| UstarSpec.HeaderLayout | pintos/src/lib/ustar.c:10-33 | a made header has name, mode, owner, size, time, checksum, type, magic, version and names at the offsets of the format, and nothing else |
| UstarSpec.AcceptsIff | pintos/src/lib/ustar.c:181-227 | a header is accepted, with that name, type and size, if and only if magic, version, checksum, name, prefix, type and size are as the format asks |
| UstarSpec.EndIff | pintos/src/lib/ustar.c:190-197 | the end of the archive is exactly the header of zeros |
| Ustar.RoundTrip | pintos/src/lib/ustar.c:82-227 | parsing a made header gives the stripped name, type and size, 0 for a directory; a negative size reads as too large |
| Ustar.OneByteDamage | pintos/src/lib/ustar.c:181-227 | of all one-byte changes to a made header only a space for the null byte that ends the checksum still parses, with the same result |
| UstarCode.FormatInteger | pintos/src/lib/stdio.c:469-547 | sign, prefix, padding, digits and commas as the conversion asks, for any 64-bit value |
| IntegerText.DecimalLegible | pintos/src/lib/stdio.c:138 | the digits of base 10 stand for different values, so a number can be read back |
| IntegerText.OctalLegible | pintos/src/lib/stdio.c:139 | and those of base 8 |
| IntegerText.HexLegible | pintos/src/lib/stdio.c:140 | and those of base 16 |
| IntegerText.UpperHexLegible | pintos/src/lib/stdio.c:141 | also with capital letters |
| IntegerText.ReadsBack | pintos/src/lib/stdio.c:469-547 | what is printed reads back as the number with its sign, in every base, with any flags, width and precision, with and without commas |
| IntegerText.Signs | pintos/src/lib/stdio.c:484-494 | a minus sign exactly for a negative number in a signed conversion, a plus sign or a blank in front exactly as the flags ask |
| IntegerText.Layout | pintos/src/lib/stdio.c:526-546 | the larger of the width and the bare text; blanks on the left, on the right with MINUS, or zeros after the sign and the prefix with ZERO, and both if both are given |
| IntegerText.Precision | pintos/src/lib/stdio.c:496-524 | the prefix of the base exactly for a nonzero number with POUND; as many digits as the precision or the number asks for; a leading zero with POUND in base 8 |
| UstarCode.FillBuffer | pintos/src/lib/stdio.c:501-524 | the digits, zeros and commas fit the buffer of 64 characters for any 64-bit value |
| UstarCode.GroupingAddsCommas | pintos/src/lib/stdio.c:506-513 | without its commas a grouped number is the number's digits |
| UstarCode.CommasInPlace | pintos/src/lib/stdio.c:506-513 | counted from the right, exactly every fourth character is a comma, in base 16 every fifth |
| UstarCode.DigitsMean | pintos/src/lib/stdio.c:501-513 | in any base the digits printed stand for the number, without a leading zero |
| UstarCode.PrintsOctal | pintos/src/lib/stdio.c:469-547 | zero-padded octal of a number that fits is exactly its digits |
| UstarCode.StripPrefixes | pintos/src/lib/ustar.c:65-73 | computes the stripped name |
| UstarCode.CalculateChksum | pintos/src/lib/ustar.c:36-54 | the sum of all bytes with the checksum field as spaces |
| UstarCode.ParseOctalField | pintos/src/lib/ustar.c:129-162 | the field's value, or failure for overflow, a bad character, an empty field or no end |
| UstarCode.MakeHeader | pintos/src/lib/ustar.c:82-118 | fails exactly for a stripped name over 99 characters; otherwise the buffer is the header |
| UstarCode.ParseHeader | pintos/src/lib/ustar.c:181-227 | computes the parse of any 512 bytes, each error in its place |
| Sorting.SiftStep | pintos/src/lib/stdlib.c:96-123 | moving the larger child up moves the one violation down |
| Sorting.TopIsLargest | pintos/src/lib/stdlib.c:146-151 | the top of a heap is its largest element |
| Sorting.Heapify | pintos/src/lib/stdlib.c:96-123 | restores a heap from one violation, permuting only the first cnt elements |
| Sorting.BuildHeap | pintos/src/lib/stdlib.c:142-144 | makes a heap of any array |
| Sorting.Sort | pintos/src/lib/stdlib.c:131-152 | for every array and total preorder a sorted permutation |
| Sorting.BinarySearch | pintos/src/lib/stdlib.c:184-207 | finds a match in a sorted array if and only if there is one |

## Left out

- Device drivers, port I/O, timers, interrupt controllers, assembly and CPU tables: hardware effects. A thread switch is a change of the running thread.
- devices/partition.c, the exec/load handshake, mmap failure paths, the munmap list surgery, system call argument checks and calloc's overflow test: their behaviour depends on interleavings or is not what their comments describe.
- Priority donation, the multilevel scheduler and stack growth: not implemented in the source.
- printf format parsing, console locking and the user library beyond what is named above.
- `list_reverse`, `list_unique`, `list_insert_ordered` and the read-only list functions: easier than the sort.
- `realloc`'s copying.
- The bytes of the free map file and `bitmap_read` with its mask for the last element; mounting a disk that was not just formatted.
- Time slices: a timer interrupt is a Yield that may come between any two steps outside the loop of `sema_down`.
- Locks, condition variables and `process_wait` on the heap: they use the semaphores of KernelObject, and their steps are in the state machine.
- KernelRuns.StepInv: `thread_create` is one step, although it takes and releases the lock for thread numbers.
- KernelObject.Kernel.ThreadCreateCall: one step in the same way; the list of children is in the state machine and not linked here.
- FrameTable.Frames.TryToFreePages: the sweep is one step, so no user access changes an accessed bit during it; a list of two or more pages has an unpinned one, without which the loop of the source does not end (AllPinnedForever).
- FrameTable.Frames.AllocFrame: asks for a free frame or a clock that can free a page, without which the loop of the source does not end (NoProgress); the failing allocation of a `struct page` is not modelled.
- FrameTable.Frames.HandleMmFault: the page is not loaded yet and its file is complete; allocation failure of a page table is not modelled.
- PagingProof.FaultTransparent: nothing happens between the parts of the fault; FaultTransparentIff has the general case.
- PagingProof.EvictTransparent: nothing happens between the two halves; EvictionTransparentIff has the general case.
- PagingProof.EvictTransparentIff: nothing happens between the two halves either.
- PagingRuns.RunVisible: copying a page out is one step, and so is filling a frame; an eviction that needs a swap slot finds one (EvictTransparentIff has the other case); what follows once a sweep has read an unset `vme`, or a fault has mapped a freed frame, is not followed, since any memory may then change; mapped files do not overlap each other or executables, and nobody else writes them; no process exits during the run.
- PagingFaults.FaultTransparentIff: a fault whose page was taken still finds the address of its frame in the `struct page` that the sweep has freed.
- KernelList.List.Splice: within one list.
- InodeIO.Inode.ReadAt: offsets are not negative.
- InodeIO.Inode.WriteAt: offsets are not negative.
- Directory.Dir.Add: the directory file is a sequence of whole entries; how an entry lies across sectors is left to the inode layer, and a read fails for a whole entry or not at all.
- Volume.Disk.OpenInodeAt: the list is a sequence of inodes, not linked nodes; the sector holds an inode, as the invariant says of every caller.
- Volume.Disk.AddName: the root's own open count, raised and lowered within each operation, is not kept.
- HashTable.Table.Insert: a bucket is a sequence of elements, not linked nodes; iteration order is the bucket order.
- ArgumentStack.StartProcess: what writing the frame below the stack page does; the rest of `load` is a boolean.
- CommandLine.ProcessExecute: the thread's creation is in the state machine of threads.
- Segments.AddressSpace.constructor: `hash_init` gets memory for its first buckets; `vm_init` does not look at its failure, and the table then has no buckets to use.
