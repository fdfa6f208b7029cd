# Pintos, modelled and proved in Dafny

A model of the core of this Pintos kernel and of the library code it stands on,
with proofs of what that code is for.  `dafny verify dfyconfig.toml` checks all of it.

Where a source file updates things in place, the model has a class or a method with
the same loops and assignments, proved against a specification on values; what the
source promises is then proved of the specification, over every input or every run.
Interrupts, allocation failures and the order in which threads run are choices of the
environment, so a result about "every run" covers all of them.

| files | what they model |
|---|---|
| `KernelModel`, `KernelPlaces`, `KernelSemas`, `KernelLocks`, `KernelConds`, `KernelSteps`, `KernelRuns`, `KernelWaiting`, `KernelBroadcast`, `KernelHandlers`, `KernelTrace`, `KernelExit`, `KernelCalls` | scheduler, semaphores, locks and condition variables as one state machine; the invariant, what every run keeps, bounded waiting, broadcasts, locks in interrupt handlers, what runs add up to, and what calls have done when they return |
| `KernelQueues`, `KernelLinks`, `KernelCode` | the code on linked lists that share one element per thread, refining the state machine |
| `RunMerge`, `ListHeap` | natural merge sort on sequences; doubly linked lists on the heap |
| `BitRuns`, `BitWords`, `Bitmaps` | word-packed bitmaps |
| `PagePools`, `PageRuns`, `PageAllocator` | the page allocator on two bitmaps |
| `HeapLayout`, `HeapModel`, `HeapRuns`, `HeapBytes`, `HeapOverPages`, `LayeredHeap`, `HeapCode` | the block allocator, alone and on the page allocator, and the bytes of its blocks |
| `InodeIo`, `FileBytes` | sector-wise file I/O as byte arrays |
| `FsModel`, `FsOwners`, `FsInvariant`, `FsRuns`, `FsNames`, `FsContents`, `FsBytes`, `DiskFormat`, `FsOnDisk`, `FsEffects`, `FsSpace`, `FsCode` | sector ownership, open counts, deferred deletion, directories and their names, file contents along runs, what the device's bytes alone give, exactly when operations succeed, and where the space goes |
| `Arithmetic` | 64-bit division on a 32-bit divider |
| `Bitwise`, `HashBuckets`, `HashTables` | the chained hash table |
| `Octal`, `Ustar`, `UstarChecks` | the octal formatter and parser, tar headers |
| `Heapsort` | heap sort and binary search |
| `PageEntries`, `PageTables`, `PageDestroy`, `PageTaken`, `PageCode` | two-level page tables |
| `CommandLine`, `ArgStack` | command-line splitting and the argument stack |
| `Options`, `Seqs`, `LittleEndian`, `Extents` | shared definitions |

Each name is a module in the file of that name.

## Where the code does not do what it is for

Each of these is stated with the exact condition under which the code is right.

- `palloc_get_multiple` stores a byte address in the next-fit cursor (`threads/palloc.c`, line 111),
  which the next call passes as a page index.  Allocation is proved correct for every cursor that the
  scan accepts; with pools in kernel memory the scan accepts none after the first grant
  (`PagePools.GetOutcome`, `PageRuns.OneGrant`; an input in `PageRuns.SecondPagePanics`).
- `umod64` and `smod64` return 32 bits, although the 64-bit remainder operators are built on them
  (`Arithmetic.UmodExactIff`, `Arithmetic.SmodExactIff`).
- `malloc` of a size within eleven bytes of 2^32 gets one page (`HeapModel.PagesHold`), and then `realloc` copies
  more than the new block holds if the old one is bigger (`HeapBytes.CopyFits`; an input in `HeapBytes.CopyOverruns`).
- `filesys_create` that fails in the directory keeps the file's data sectors marked
  (`FsRuns.FailedCreateLeaks`; an input in `FsRuns.LongNameLeaks`).  With entries written over, as below, these are all
  the leaks there are (`FsSpace.StepTidyExact`).
- `dir_add` takes a read that is short for want of memory for the end of the directory, as its comment concedes.  A
  creation can then enter a name twice or write over another file's entry (`FsNames.CreateNamesExact`,
  `FsNames.CreateKeepsExact`; inputs in `FsNames.SameNameTwice` and `FsNames.NameLost`).
- `lock_try_acquire` says that an interrupt handler may call it.  The handler then acts
  as the thread it interrupted, so it may only if that thread does not hold the lock and, while the lock is free, is not
  about to take it: past the assertion of `lock_acquire` or `lock_try_acquire`, or inside `cond_wait`
  (`KernelSteps.HandlerTakeExact`; what happens otherwise, and runs to each case, in `KernelHandlers`).
- `setup_stack` turns a leading space, or an empty line, into an empty first argument, and pads to a word
  boundary only for data of even length (`ArgStack.ArgvExactIff`, `ArgStack.AlignedIff`).
- The comment on `bitmap_scan_and_flip` says that a count of zero gives 0; the code gives the start
  (`BitRuns.ZeroCount`).

## Model

| member | source | states |
|---|---|---|
| `KernelQueues.Queues.NewList` | cau15841-pintos2-qemu-linux/lib/kernel/list.c:60-68 | one more empty list on the heap; every other list is as it was |
| `KernelQueues.Queues.Push` | cau15841-pintos2-qemu-linux/lib/kernel/list.c:216-220 | list_push_back of a thread or waiter through its one element, which is on no list: the links realise the longer list, and all other lists stay well formed and unchanged |
| `KernelQueues.Queues.Pop` | cau15841-pintos2-qemu-linux/lib/kernel/list.c:259-265 | list_pop_front and list_entry: the first thread or waiter comes off its list and its element is free again; all other lists unchanged |
| `KernelLinks.RunsUnlisted` | cau15841-pintos2-qemu-linux/threads/thread.h:78-83 | the running thread, and one not launched yet, are on no list, so their element may be linked |
| `KernelLinks.FirstIsSole` | cau15841-pintos2-qemu-linux/threads/thread.h:78-83 | the first waiter of a semaphore is BLOCKED and on no other list, so sema_up may move its element to the ready list |
| `KernelCode.Kernel.constructor` | cau15841-pintos2-qemu-linux/threads/thread.c:106-121 | the lists that thread_start leaves behind satisfy the invariant |
| `KernelCode.Kernel.NextThreadToRun` | cau15841-pintos2-qemu-linux/threads/thread.c:527-534 | on the linked ready list: pops the front element and finds its thread, or gives the idle thread; the lists stay those of the model |
| `KernelCode.Kernel.DoSchedule` | cau15841-pintos2-qemu-linux/threads/thread.c:589-603 | under its assertions, a context switch on the linked lists is the model's switch |
| `KernelCode.Kernel.ThreadUnblock` | cau15841-pintos2-qemu-linux/threads/thread.c:245-257 | a BLOCKED thread on no list is linked at the end of the ready list through its own element |
| `KernelCode.Kernel.ThreadYield` | cau15841-pintos2-qemu-linux/threads/thread.c:331-345 | the current thread, not the idle one, is linked at the end of the ready list and a switch follows |
| `KernelCode.Kernel.SemaDownTest` | cau15841-pintos2-qemu-linux/threads/synch.c:60-76 | one turn of the loop on the linked lists: the same element that serves the ready list joins the waiters, or a unit is taken |
| `KernelCode.Kernel.SemaRaise` | cau15841-pintos2-qemu-linux/threads/synch.c:108-121 | the first waiter's element moves from the waiters to the ready list, both linked lists intact, and the value rises |
| `KernelCode.Kernel.CondWaitEnqueue` | cau15841-pintos2-qemu-linux/threads/synch.c:287-302 | the waiter on the stack gets an element and a semaphore with an empty list, and is linked behind the earlier waiters |
| `KernelCode.Kernel.CondSignalPop` | cau15841-pintos2-qemu-linux/threads/synch.c:311-338 | under its assertion, the first waiter is unlinked; an empty list needs no lock |
| `KernelCode.Kernel.CpuAct` | cau15841-pintos2-qemu-linux/threads/thread.c:122-345 | every action of the scheduler: from the invariant the assertions of the code hold, no linked element is linked again, and the code takes the model's step and keeps the invariant |
| `KernelCode.Kernel.SemaAct` | cau15841-pintos2-qemu-linux/threads/synch.c:44-121 | the same for every action on semaphores |
| `KernelCode.Kernel.LockAct` | cau15841-pintos2-qemu-linux/threads/synch.c:175-236 | the same for every action on locks |
| `KernelCode.Kernel.CondAct` | cau15841-pintos2-qemu-linux/threads/synch.c:259-338 | the same for every action on condition variables |
| `KernelCode.Kernel.Execute` | cau15841-pintos2-qemu-linux/threads/synch.c:44-338 | every run of the model, however interleaved, is a run of the code on linked lists that share one element per thread, with the lists well formed at every step |
| `KernelSteps.HandlerTakeExact` | cau15841-pintos2-qemu-linux/threads/synch.c:202-221 | lock_try_acquire in an interrupt handler keeps the invariant, exactly when the interrupted thread does not hold the lock and either the lock is taken or that thread is not about to take it, past the ASSERT of lock_acquire or lock_try_acquire or inside cond_wait |
| `KernelHandlers.SleepsOnOwn` | cau15841-pintos2-qemu-linux/threads/synch.c:191-200 | in any such state, a thread interrupted between the ASSERT of lock_acquire and its sema_down goes to sleep on a lock of which it is the holder |
| `KernelHandlers.FailsAsHolder` | cau15841-pintos2-qemu-linux/threads/synch.c:208-221 | and one interrupted at that point of lock_try_acquire is told that it failed while it is the holder |
| `KernelHandlers.FailsAssert` | cau15841-pintos2-qemu-linux/threads/synch.c:287-302 | and one on its way back from cond_wait fails the ASSERT of its lock_acquire |
| `KernelHandlers.HandlerInAcquire` | cau15841-pintos2-qemu-linux/threads/synch.c:191-221 | a run from thread_start to the first of these |
| `KernelHandlers.HandlerInTry` | cau15841-pintos2-qemu-linux/threads/synch.c:202-221 | a run to the second |
| `KernelHandlers.HandlerInWait` | cau15841-pintos2-qemu-linux/threads/synch.c:202-302 | a run to a waiter that becomes the holder of the lock a signal needs |
| `KernelHandlers.HandlerInSection` | cau15841-pintos2-qemu-linux/threads/synch.c:202-247 | a run to a thread in its critical section, where the handler's own ASSERT fails |
| `KernelBroadcast.BroadcastWakes` | cau15841-pintos2-qemu-linux/threads/synch.c:324-338 | from any reachable state, a broadcast that has returned has signalled exactly the calls waiting when it began, in order of arrival, each upped once, whatever ran in between |
| `KernelRuns.RunInv` | cau15841-pintos2-qemu-linux/threads/synch.c:60-338 | the invariant of scheduler, semaphores, locks and condition variables is kept by every run of every interleaving |
| `KernelRuns.NoPanic` | cau15841-pintos2-qemu-linux/threads/thread.c:227-345 | on every run from thread_start no assertion fails that is not the caller's obligation; in particular schedule() always finds a thread |
| `KernelTrace.StepGoes` | cau15841-pintos2-qemu-linux/threads/thread.c:245-603 | every step does to every semaphore and to the line for the CPU what its action says: an up takes the first waiter off and puts it at the end of the line, a test takes a unit or puts the thread to sleep behind the others, a yield goes to the end, an exit leaves |
| `KernelTrace.HistoryTrue` | cau15841-pintos2-qemu-linux/threads/synch.c:44-121 | the counters of the model are the counts of the actions of the run |
| `KernelTrace.UnitsCounted` | cau15841-pintos2-qemu-linux/threads/synch.c:60-121 | on every run, the units a semaphore started with plus the ups among the actions are its value plus the tests that found a unit |
| `KernelTrace.UpsAreCalls` | cau15841-pintos2-qemu-linux/threads/synch.c:108-121 | for a plain semaphore the ups are the calls of sema_up in the run, and the idle thread's |
| `KernelTrace.RaiseWakes` | cau15841-pintos2-qemu-linux/threads/synch.c:108-121 | in every reachable state sema_up raises the value by one and makes the first waiter READY and last on the ready list, and no longer a waiter |
| `KernelTrace.SignalsCounted` | cau15841-pintos2-qemu-linux/threads/synch.c:311-338 | on every run the waiters of a condition variable are the calls of cond_wait on it, in order of arrival, but for as many as there were signals with somebody waiting |
| `KernelTrace.SignalUpsCounted` | cau15841-pintos2-qemu-linux/threads/synch.c:311-338 | a call's private semaphore is upped once by the signal that took the call off, or is about to be, and not otherwise |
| `KernelExit.ExitIsFinal` | cau15841-pintos2-qemu-linux/threads/thread.c:308-327 | from any reachable state, on every continuation, a thread that exited is never current, ready or waiting again, and its page is freed exactly if it is not the first thread |
| `KernelCalls.CallsReturn` | cau15841-pintos2-qemu-linux/threads/synch.c:60-338 | a call from any reachable state, whatever runs meanwhile, has done its work when it returns: sema_down took a unit, lock_acquire and cond_wait hold the lock, lock_try_acquire holds it exactly if it was free, lock_release has given it up, cond_signal has upped the first waiter, thread_create has made the thread ready |
| `KernelCalls.LocksCounted` | cau15841-pintos2-qemu-linux/threads/synch.c:175-236 | on every run the releases of a lock among the actions match its acquisitions, but for the thread inside or about to finish its release |
| `KernelRuns.NoLostWakeup` | cau15841-pintos2-qemu-linux/threads/synch.c:60-121 | while somebody waits, the value is at most the number of woken threads that have not tested again, and if it is positive such a thread is ready or running |
| `KernelRuns.OnePlace` | cau15841-pintos2-qemu-linux/threads/thread.h:78-83 | a thread is running, on the ready list, on a semaphore's list, or dead, exactly as its status says |
| `KernelRuns.OneList` | cau15841-pintos2-qemu-linux/threads/thread.h:78-83 | a thread is on at most one list, and on it once, so its list element can be shared |
| `KernelRuns.LockExclusion` | cau15841-pintos2-qemu-linux/threads/synch.c:175-236 | semaphore value plus threads inside the critical section is 1; a recorded holder is the thread inside |
| `KernelRuns.HolderTest` | cau15841-pintos2-qemu-linux/threads/synch.c:241-247 | lock_held_by_current_thread is true exactly in the critical section |
| `KernelRuns.WaitsMatchSignals` | cau15841-pintos2-qemu-linux/threads/synch.c:267-322 | signals match calls of cond_wait one to one in order of arrival; each finished call was upped once and downed once |
| `KernelRuns.WaitReturnsHolding` | cau15841-pintos2-qemu-linux/threads/synch.c:287-302 | cond_wait returns to its caller with the lock held |
| `KernelRuns.BroadcastAlone` | cau15841-pintos2-qemu-linux/threads/synch.c:330-338 | while a thread is inside cond_broadcast no other step touches the condition variable |
| `KernelWaiting.DispatchedInTurn` | cau15841-pintos2-qemu-linux/threads/thread.c:527-603 | the thread at place k of the ready list is dispatched by exactly the (k+1)-th call of schedule() |
| `KernelWaiting.DispatchedInTime` | cau15841-pintos2-qemu-linux/threads/thread.c:122-140 | and that call comes within TIME_SLICE * (k + 1) delivered ticks |
| `KernelWaiting.SliceBounded` | cau15841-pintos2-qemu-linux/threads/thread.c:122-140 | no time slice overruns TIME_SLICE ticks on any run |
| `ListHeap.List.constructor` | cau15841-pintos2-qemu-linux/lib/kernel/list.c:60-68 | an empty list between its two sentinels |
| `ListHeap.List.Insert` | cau15841-pintos2-qemu-linux/lib/kernel/list.c:168-178 | the links realise insertion into the sequence |
| `ListHeap.List.PushBack` | cau15841-pintos2-qemu-linux/lib/kernel/list.c:216-220 | appends |
| `ListHeap.List.PushFront` | cau15841-pintos2-qemu-linux/lib/kernel/list.c:208-212 | prepends |
| `ListHeap.List.Remove` | cau15841-pintos2-qemu-linux/lib/kernel/list.c:248-255 | takes one element out and returns its successor |
| `ListHeap.List.PopFront` | cau15841-pintos2-qemu-linux/lib/kernel/list.c:259-265 | removes and returns the first element |
| `ListHeap.List.Splice` | cau15841-pintos2-qemu-linux/lib/kernel/list.c:183-204 | the six pointer assignments move a stretch to before any element outside it, in the same list or from another list: one loses the stretch, the other gains it, both well formed |
| `ListHeap.List.Reverse` | cau15841-pintos2-qemu-linux/lib/kernel/list.c:325-337 | the sequence reversed, links mutually inverse again |
| `ListHeap.List.FindEndOfRun` | cau15841-pintos2-qemu-linux/lib/kernel/list.c:357-372 | ends the longest non-decreasing stretch |
| `ListHeap.List.InplaceMerge` | cau15841-pintos2-qemu-linux/lib/kernel/list.c:379-399 | two adjacent runs become their stable merge; the rest of the ring is untouched |
| `ListHeap.List.SortPass` | cau15841-pintos2-qemu-linux/lib/kernel/list.c:404-440 | one pass merges runs two by two and counts its output runs |
| `ListHeap.List.Sort` | cau15841-pintos2-qemu-linux/lib/kernel/list.c:404-440 | sorted, stable (hence a permutation), after at most ceil(log2 of the runs) passes, for any strict weak order |
| `ListHeap.List.Unique` | cau15841-pintos2-qemu-linux/lib/kernel/list.c:465-486 | keeps what comparing each element with the last one kept leaves, and appends what it removes, in order, to the duplicates list if there is one; both lists well formed and apart |
| `RunMerge.MergePermutes` | cau15841-pintos2-qemu-linux/lib/kernel/list.c:379-399 | merging loses and duplicates nothing |
| `RunMerge.MergeSorted` | cau15841-pintos2-qemu-linux/lib/kernel/list.c:379-399 | merging sorted runs gives a sorted run |
| `RunMerge.MergeClass` | cau15841-pintos2-qemu-linux/lib/kernel/list.c:379-399 | merging keeps equal elements in order, those of the first run first |
| `RunMerge.PassStable` | cau15841-pintos2-qemu-linux/lib/kernel/list.c:404-440 | a pass keeps every class of equal elements in order |
| `RunMerge.OutputsHalve` | cau15841-pintos2-qemu-linux/lib/kernel/list.c:404-440 | a pass over k runs makes ceil(k/2) output runs |
| `RunMerge.PassRuns` | cau15841-pintos2-qemu-linux/lib/kernel/list.c:404-440 | so its result has at most that many natural runs |
| `RunMerge.StableUnique` | cau15841-pintos2-qemu-linux/lib/kernel/list.c:401-440 | a stable sorted permutation is unique, so the sort is determined by its specification |
| `RunMerge.UniqPartitions` | cau15841-pintos2-qemu-linux/lib/kernel/list.c:465-486 | kept elements and duplicates together are a permutation of the input |
| `RunMerge.UniqConserves` | cau15841-pintos2-qemu-linux/lib/kernel/list.c:465-486 | with what the duplicates list held before, the two lists hold all elements they held, and no others |
| `RunMerge.UniqFirsts` | cau15841-pintos2-qemu-linux/lib/kernel/list.c:465-486 | on a sorted list exactly the first element of each class is kept |
| `BitWords.OrPuts` | cau15841-pintos2-qemu-linux/lib/kernel/bitmap.c:156-166 | OR with the mask sets that bit of the element and no other |
| `BitWords.AndNotPuts` | cau15841-pintos2-qemu-linux/lib/kernel/bitmap.c:169-179 | AND with the inverted mask clears that bit and no other |
| `BitWords.Stored` | cau15841-pintos2-qemu-linux/lib/kernel/bitmap.c:35-47 | storing such an element changes one bit of the bitmap and no other |
| `BitWords.LastMaskKeeps` | cau15841-pintos2-qemu-linux/lib/kernel/bitmap.c:63-70 | the last mask keeps the bits in use and clears the rest |
| `BitWords.Trimmed` | cau15841-pintos2-qemu-linux/lib/kernel/bitmap.c:340-351 | masking the last element changes no bit of the bitmap and clears the padding |
| `BitRuns.SearchFinds` | cau15841-pintos2-qemu-linux/lib/kernel/bitmap.c:295-310 | the search finds the first group of equal bits, and fails only if there is none |
| `BitRuns.CountIs` | cau15841-pintos2-qemu-linux/lib/kernel/bitmap.c:232-246 | the count is the number of indices with the value |
| `BitRuns.FirstRunUnique` | cau15841-pintos2-qemu-linux/lib/kernel/bitmap.c:295-310 | the first group is unique |
| `BitRuns.ZeroCount` | cau15841-pintos2-qemu-linux/lib/kernel/bitmap.c:312-326 | a count of zero gives the start, hence the documented 0 exactly for a start of 0 |
| `BitRuns.FillUndone` | cau15841-pintos2-qemu-linux/lib/kernel/bitmap.c:217-228 | filling a group and filling it back restores every bit |
| `Bitmaps.Bitmap.constructor` | cau15841-pintos2-qemu-linux/lib/kernel/bitmap.c:78-94 | all bits false |
| `Bitmaps.Bitmap.Mark` | cau15841-pintos2-qemu-linux/lib/kernel/bitmap.c:156-166 | sets one bit of the packed words |
| `Bitmaps.Bitmap.Reset` | cau15841-pintos2-qemu-linux/lib/kernel/bitmap.c:169-179 | clears one bit of the packed words |
| `Bitmaps.Bitmap.Set` | cau15841-pintos2-qemu-linux/lib/kernel/bitmap.c:144-153 | gives one bit a value |
| `Bitmaps.Bitmap.Test` | cau15841-pintos2-qemu-linux/lib/kernel/bitmap.c:197-203 | reads one bit |
| `Bitmaps.Bitmap.SetMultiple` | cau15841-pintos2-qemu-linux/lib/kernel/bitmap.c:217-228 | gives a group of bits a value and leaves the rest |
| `Bitmaps.Bitmap.CountOf` | cau15841-pintos2-qemu-linux/lib/kernel/bitmap.c:232-246 | counts the bits of a group that have a value |
| `Bitmaps.Bitmap.Contains` | cau15841-pintos2-qemu-linux/lib/kernel/bitmap.c:250-263 | true exactly when the group is not all of the other value |
| `Bitmaps.Bitmap.Scan` | cau15841-pintos2-qemu-linux/lib/kernel/bitmap.c:295-310 | the first group of equal bits at or after the start, or none |
| `Bitmaps.Bitmap.ScanAndFlip` | cau15841-pintos2-qemu-linux/lib/kernel/bitmap.c:319-326 | that group, flipped; the bitmap unchanged if there is none |
| `Bitmaps.Bitmap.Write` | cau15841-pintos2-qemu-linux/lib/kernel/bitmap.c:355-360 | as many words reach the file as are transferred, the write succeeds exactly when that is all of them, and then they unpack to the bits |
| `Bitmaps.Bitmap.WriteThenRead` | cau15841-pintos2-qemu-linux/lib/kernel/bitmap.c:340-360 | a bitmap written and read back is the same, whatever else the file holds |
| `Bitmaps.Bitmap.Read` | cau15841-pintos2-qemu-linux/lib/kernel/bitmap.c:340-351 | succeeds exactly when the file is long enough; then the bits are the file's, and the padding is clear in any case |
| `PagePools.InitPoolFits` | cau15841-pintos2-qemu-linux/threads/palloc.c:187-204 | the bitmap fits in the pages set aside for it, and the pool ends where its memory ends |
| `PagePools.InitOk` | cau15841-pintos2-qemu-linux/threads/palloc.c:49-79 | start-up gives two whole, disjoint pools that fill free memory, the user pool half of it or its limit, with every page free |
| `PagePools.NextFitComplete` | cau15841-pintos2-qemu-linux/threads/palloc.c:95-114 | wherever the cursor stands, next fit fails exactly when the pool has no run of that many free pages |
| `PagePools.GetOutcome` | cau15841-pintos2-qemu-linux/threads/palloc.c:87-135 | which requests are granted, which return null and which stop the kernel, as if-and-only-ifs |
| `PagePools.AfterFailure` | cau15841-pintos2-qemu-linux/threads/palloc.c:101-111 | after a request for cnt pages failed, the next one stops the kernel exactly when base + 4096 * (cnt - 1), modulo 2^32, is beyond its bitmap |
| `PagePools.GetGrants` | cau15841-pintos2-qemu-linux/threads/palloc.c:87-135 | a grant takes free pages of its own pool and changes nothing else but the cursor |
| `PagePools.GrantIsNext` | cau15841-pintos2-qemu-linux/threads/palloc.c:101-109 | the pages granted are the first free group at or after the cursor, or else the first of all |
| `PagePools.FreeRestores` | cau15841-pintos2-qemu-linux/threads/palloc.c:151-176 | freeing what was granted restores both bitmaps bit for bit |
| `PageRuns.RunInv` | cau15841-pintos2-qemu-linux/threads/palloc.c:87-176 | live page groups and bitmaps stay consistent on every run, whatever value the cursor takes |
| `PageRuns.LiveDisjoint` | cau15841-pintos2-qemu-linux/threads/palloc.c:87-176 | on every run live groups overlap neither within a pool nor across pools |
| `PageRuns.UsedIsLive` | cau15841-pintos2-qemu-linux/threads/palloc.c:87-176 | on every run a page is marked exactly when a live group holds it |
| `PageRuns.GrantSticks` | cau15841-pintos2-qemu-linux/threads/palloc.c:106-111 | with pools in kernel memory a grant leaves a byte address in the cursor, beyond both bitmaps |
| `PageRuns.SecondRequestPanics` | cau15841-pintos2-qemu-linux/threads/palloc.c:101-111 | so the next request of either pool fails the scan's assertion |
| `PageRuns.SecondPagePanics` | cau15841-pintos2-qemu-linux/threads/palloc.c:47-111 | an input: two requests for one kernel page each, from three megabytes of free memory |
| `PageRuns.OneGrant` | cau15841-pintos2-qemu-linux/threads/palloc.c:87-135 | hence no run of the code as it stands grants more than one request |
| `PageAllocator.Allocator.constructor` | cau15841-pintos2-qemu-linux/threads/palloc.c:49-79 | start-up that does not panic builds exactly the memory that Init describes |
| `PageAllocator.Allocator.FindPages` | cau15841-pintos2-qemu-linux/threads/palloc.c:101-109 | scan from the cursor, then from the start, on the packed bits |
| `PageAllocator.Allocator.GetMultiple` | cau15841-pintos2-qemu-linux/threads/palloc.c:87-135 | the code on two packed bitmaps does what Get says, in every outcome |
| `PageAllocator.Allocator.FreeMultiple` | cau15841-pintos2-qemu-linux/threads/palloc.c:151-216 | and Free likewise; false is a failed assertion |
| `HeapLayout.MallocInit` | cau15841-pintos2-qemu-linux/threads/malloc.c:71-85 | the loop fills seven descriptors of doubling size, each with as many blocks as fit behind the header |
| `HeapLayout.ArenaOfBlock` | cau15841-pintos2-qemu-linux/threads/malloc.c:267-294 | block_to_arena undoes arena_to_block, and its alignment checks hold |
| `HeapLayout.BlockOfArena` | cau15841-pintos2-qemu-linux/threads/malloc.c:267-294 | every address that passes those checks is a block that arena_to_block gives |
| `HeapModel.DescFor` | cau15841-pintos2-qemu-linux/threads/malloc.c:100-104 | the first descriptor whose blocks are big enough, none smaller |
| `HeapModel.PagesHold` | cau15841-pintos2-qemu-linux/threads/malloc.c:105-112 | pages asked for hold the request exactly when the 32-bit rounding does not wrap to one page; they are 0 for one range of sizes |
| `HeapModel.MallocInv` | cau15841-pintos2-qemu-linux/threads/malloc.c:89-154 | malloc keeps the heap invariant and hands out a block not handed out before |
| `HeapModel.AsksExact` | cau15841-pintos2-qemu-linux/threads/malloc.c:99-131 | when malloc asks for pages, and for how many: one, or the 32-bit rounding of size and header, the least number that holds them short of wrapping |
| `HeapModel.MallocNull` | cau15841-pintos2-qemu-linux/threads/malloc.c:89-154 | null exactly for size 0, for a small size with no block of its descriptor free and the page refused, and for a big size whose pages come to none or are refused |
| `HeapModel.MallocWhere` | cau15841-pintos2-qemu-linux/threads/malloc.c:105-154 | the block is behind the header of the pages granted, or one that was free |
| `HeapModel.PutInv` | cau15841-pintos2-qemu-linux/threads/malloc.c:218-264 | free keeps it, arena release included; its assertion on free_cnt cannot fail |
| `HeapModel.LiveInside` | cau15841-pintos2-qemu-linux/threads/malloc.c:89-154 | a live block lies in its arena behind the header and is as big as asked for, wrapping sizes apart |
| `HeapModel.LiveApart` | cau15841-pintos2-qemu-linux/threads/malloc.c:89-154 | live blocks do not overlap |
| `HeapModel.HeaderClear` | cau15841-pintos2-qemu-linux/threads/malloc.c:49-55 | no live block covers an arena header |
| `HeapRuns.ReallocInv` | cau15841-pintos2-qemu-linux/threads/malloc.c:194-214 | realloc keeps the invariant and exchanges one live block for another, or fails and keeps the old one |
| `HeapRuns.ReallocBetween` | cau15841-pintos2-qemu-linux/threads/malloc.c:204-211 | between its malloc and its free, the new block and the old one are two different live blocks |
| `HeapBytes.CopyFits` | cau15841-pintos2-qemu-linux/threads/malloc.c:200-212 | what realloc copies fits in the new block exactly when the size does not wrap around to one page or the old block is no bigger than what that page holds |
| `HeapBytes.CopyOverruns` | cau15841-pintos2-qemu-linux/threads/malloc.c:200-212 | an input for which it does not |
| `HeapBytes.ReallocCopies` | cau15841-pintos2-qemu-linux/threads/malloc.c:204-211 | where it fits, the new block begins with the old block's bytes, as many as the new size and the old block have, and no other live block changes |
| `HeapBytes.MallocMisses` | cau15841-pintos2-qemu-linux/threads/malloc.c:89-154 | no arena header or list element that malloc writes lies in a live block |
| `HeapBytes.FreeMisses` | cau15841-pintos2-qemu-linux/threads/malloc.c:218-264 | nor does anything that free writes, its fill with 0xcc included, lie in a live block other than the one freed |
| `HeapBytes.FaithfulStep` | cau15841-pintos2-qemu-linux/threads/malloc.c:89-264 | every call, and every byte an owner writes, keeps each live block holding what its owner has |
| `HeapBytes.BytesOwned` | cau15841-pintos2-qemu-linux/threads/malloc.c:89-264 | on every run of malloc, realloc, free and writes to blocks, the bytes of a live block are what its owner put there or realloc brought along |
| `HeapBytes.GoesOn` | cau15841-pintos2-qemu-linux/threads/malloc.c:89-264 | every such run goes on with any call or write that is allowed |
| `HeapRuns.RunInv` | cau15841-pintos2-qemu-linux/threads/malloc.c:89-264 | the invariant holds after every run of malloc, realloc and free |
| `HeapRuns.FreeCounts` | cau15841-pintos2-qemu-linux/threads/malloc.c:49-55 | on every run free_cnt is the number of the arena's blocks on its list and stays below blocks_per_arena |
| `HeapRuns.BlocksSafe` | cau15841-pintos2-qemu-linux/threads/malloc.c:89-264 | on every run live blocks are pairwise disjoint, clear of all headers and big enough |
| `HeapRuns.NothingKept` | cau15841-pintos2-qemu-linux/threads/malloc.c:218-264 | once every block is freed every page has been given back |
| `HeapOverPages.GrantFresh` | cau15841-pintos2-qemu-linux/threads/malloc.c:105-131 | what the page allocator grants overlaps no arena, as malloc relies on |
| `LayeredHeap.MallocJoined` | cau15841-pintos2-qemu-linux/threads/malloc.c:89-154 | malloc on the page allocator: arenas and live page groups stay matched one to one, blocks are new, for every cursor the scan accepts |
| `LayeredHeap.MallocFails` | cau15841-pintos2-qemu-linux/threads/malloc.c:89-154 | over the page allocator: null exactly for size 0, and when there is neither a free block nor, in the kernel pool, a run of that many free pages |
| `LayeredHeap.FreeJoined` | cau15841-pintos2-qemu-linux/threads/malloc.c:218-264 | free on the page allocator: an arena given back is exactly one live page group released |
| `LayeredHeap.ReallocJoined` | cau15841-pintos2-qemu-linux/threads/malloc.c:194-214 | realloc on the page allocator: the layers stay joined, and one live block replaces another |
| `LayeredHeap.RunJoined` | cau15841-pintos2-qemu-linux/threads/malloc.c:89-264 | heap, page groups and bitmaps fit together after every run of malloc, realloc and free over the three layers |
| `LayeredHeap.AllReturned` | cau15841-pintos2-qemu-linux/threads/palloc.c:151-176 | on every run, once all blocks are freed every page of the kernel pool is free again |
| `HeapCode.LiveFreeable` | cau15841-pintos2-qemu-linux/threads/malloc.c:218-282 | a live block passes every assertion of free and block_to_arena |
| `HeapCode.Allocator.AddArena` | cau15841-pintos2-qemu-linux/threads/malloc.c:121-142 | header and free blocks of a new arena |
| `HeapCode.Allocator.MallocBlock` | cau15841-pintos2-qemu-linux/threads/malloc.c:89-154 | the code with its descriptor search does what Malloc says |
| `HeapCode.Allocator.Strip` | cau15841-pintos2-qemu-linux/threads/malloc.c:241-252 | each list_remove finds its block on the list; together they remove exactly the arena's blocks |
| `HeapCode.Allocator.FreeBlock` | cau15841-pintos2-qemu-linux/threads/malloc.c:218-264 | the code does what Put says and returns the pages that go back |
| `InodeIo.NextChunk` | cau15841-pintos2-qemu-linux/filesys/inode.c:207-227 | each chunk advances the transfer, and a loop that stops has moved exactly the promised number of bytes |
| `InodeIo.MovedMost` | cau15841-pintos2-qemu-linux/filesys/inode.c:203-318 | a transfer moves as many bytes as the file has there, up to the size asked for, or without a bounce buffer the most whole sectors |
| `InodeIo.Inode.ReadChunk` | cau15841-pintos2-qemu-linux/filesys/inode.c:223-241 | a whole or partial sector read gives the bytes of the device at that place |
| `InodeIo.Inode.ReadAt` | cau15841-pintos2-qemu-linux/filesys/inode.c:200-250 | max(0, min(size, length - offset)) bytes, equal to the device's bytes there; without a bounce buffer only the leading whole sectors |
| `InodeIo.Inode.WritePart` | cau15841-pintos2-qemu-linux/filesys/inode.c:289-308 | a partial sector is always read first, so the zero-fill choice is never taken and the rest of the sector survives |
| `InodeIo.Inode.WriteChunk` | cau15841-pintos2-qemu-linux/filesys/inode.c:284-308 | one turn changes exactly the chunk's bytes |
| `InodeIo.Inode.WriteAt` | cau15841-pintos2-qemu-linux/filesys/inode.c:257-318 | the device changes in exactly the transferred range; nothing if writes are denied |
| `FileBytes.WriteIsOverlay` | cau15841-pintos2-qemu-linux/filesys/inode.c:252-318 | a write is an overlay on the file's bytes and reads back |
| `FileBytes.ReadIsSlice` | cau15841-pintos2-qemu-linux/filesys/inode.c:197-250 | a read is a slice of the file's bytes |
| `FileBytes.WriteElsewhere` | cau15841-pintos2-qemu-linux/filesys/inode.c:252-318 | a write changes no file on other sectors |
| `FsInvariant.CreateInv` | cau15841-pintos2-qemu-linux/filesys/filesys.c:45-59 | filesys_create keeps the invariant, whichever allocation fails, scans of the directory cut short included |
| `FsInvariant.OpenInv` | cau15841-pintos2-qemu-linux/filesys/filesys.c:66-77 | filesys_open keeps it |
| `FsInvariant.RemoveInv` | cau15841-pintos2-qemu-linux/filesys/filesys.c:83-91 | filesys_remove keeps it |
| `FsInvariant.ReopenInv` | cau15841-pintos2-qemu-linux/filesys/file.c:36-42 | file_reopen keeps it |
| `FsInvariant.CloseInv` | cau15841-pintos2-qemu-linux/filesys/inode.c:163-186 | closing a handle keeps it; the free map's assertion cannot fail |
| `FsInvariant.WriteInv` | cau15841-pintos2-qemu-linux/filesys/inode.c:257-318 | writing a file's data destroys no live inode |
| `FsRuns.FormatInv` | cau15841-pintos2-qemu-linux/filesys/filesys.c:94-103 | a formatted device satisfies the invariant, with sixteen free slots of twenty bytes in the root directory and a bit for every sector in the map file |
| `FsRuns.RunInv` | cau15841-pintos2-qemu-linux/filesys/filesys.c:45-91 | the invariant holds after every run of create, open, reopen, remove, close and write, whichever allocations fail |
| `FsRuns.FilesApart` | cau15841-pintos2-qemu-linux/filesys/free-map.c:27-50 | on every run live inodes own pairwise disjoint sectors, all marked, no two entries name one inode and no assertion of the free map fails |
| `FsRuns.OpenCounts` | cau15841-pintos2-qemu-linux/filesys/inode.c:111-151 | on every run a sector has at most one in-memory inode and open_cnt is the number of its handles |
| `FsRuns.LastCloseFrees` | cau15841-pintos2-qemu-linux/filesys/inode.c:160-195 | a removed file's sectors come free exactly at its last close, and nothing else does |
| `FsRuns.RemoveEffect` | cau15841-pintos2-qemu-linux/filesys/directory.c:184-216 | the first entry for the name goes at once; the sectors only if no handle is on the file |
| `FsRuns.CreateEffect` | cau15841-pintos2-qemu-linux/filesys/filesys.c:45-59 | a creation that succeeds writes one entry, with an inode of its own and the size asked for behind it; a name that was free is then found there |
| `FsRuns.FailedCreateLeaks` | cau15841-pintos2-qemu-linux/filesys/filesys.c:45-59 | when a creation succeeds, and when it fails and leaves data sectors marked: exactly when it gets as far as the directory, the file has data and the directory does not take the name |
| `FsRuns.LongNameLeaks` | cau15841-pintos2-qemu-linux/filesys/directory.c:151-153 | an input that leaks: a name of fifteen characters on any freshly formatted device of 6 to 4096 sectors |
| `FsNames.CreateNamesExact` | cau15841-pintos2-qemu-linux/filesys/directory.c:154-175 | names stay unique exactly when lookup was not cut short before the entry for the name, or that entry is the slot written |
| `FsNames.CreateKeepsExact` | cau15841-pintos2-qemu-linux/filesys/directory.c:158-175 | every other name survives exactly when the search for a slot was not cut short at another file's entry |
| `FsNames.StepNames` | cau15841-pintos2-qemu-linux/filesys/directory.c:91-216 | an operation keeps the names unique exactly when it is not a creation that doubles one |
| `FsNames.NamesUnique` | cau15841-pintos2-qemu-linux/filesys/directory.c:91-216 | on every run from formatting on, names are unique as long as no creation doubles one |
| `FsNames.WholeScansUnique` | cau15841-pintos2-qemu-linux/filesys/directory.c:91-216 | on every run whose creations had the memory for their scans, whatever else failed, names are unique and a creation takes no other name away |
| `FsNames.SameNameTwice` | cau15841-pintos2-qemu-linux/filesys/directory.c:154-156 | an input: with only the first bounce buffer of lookup missing, a name is entered twice |
| `FsNames.NameLost` | cau15841-pintos2-qemu-linux/filesys/directory.c:158-175 | an input: with a bounce buffer missing in the search for a slot, another file loses its name |
| `FsContents.WriteKeepsOthers` | cau15841-pintos2-qemu-linux/filesys/inode.c:257-318 | a write within one live file leaves the bytes of every other live file, and its inode sector, as they were |
| `FsContents.FilesIndependent` | cau15841-pintos2-qemu-linux/filesys/inode.c:257-318 | the same in every state that a run of create, open, remove, close and write can reach |
| `FsBytes.NotTouched` | cau15841-pintos2-qemu-linux/filesys/inode.c:72-318 | no operation writes into the sectors of a live file, except a transfer to that file |
| `FsBytes.FaithfulStep` | cau15841-pintos2-qemu-linux/filesys/inode.c:72-318 | every operation keeps what live files hold: zeros at creation, then their own transfers |
| `FsBytes.ContentsTrue` | cau15841-pintos2-qemu-linux/filesys/inode.c:72-318 | after every run on a formatted device, whichever operations fail, a file that is named or open holds zeros overlaid by its own writes |
| `FsEffects.OpenExact` | cau15841-pintos2-qemu-linux/filesys/filesys.c:66-77 | filesys_open succeeds exactly if the first entry for the name is within the slots that can be read, its inode is open or gets memory and the file gets memory; the handle is then on that entry's inode, open with the header on disk; a failure changes nothing |
| `FsEffects.RemoveExact` | cau15841-pintos2-qemu-linux/filesys/filesys.c:83-91 | filesys_remove succeeds exactly if that entry can be reached and written; a failure changes nothing |
| `FsEffects.ReopenExact` | cau15841-pintos2-qemu-linux/filesys/file.c:36-42 | file_reopen gives another handle on the same inode, or changes nothing |
| `FsEffects.CloseExact` | cau15841-pintos2-qemu-linux/filesys/file.c:44-54 | file_close drops the handle, and the inode stays open exactly while another handle is on it |
| `FsEffects.HandleReads` | cau15841-pintos2-qemu-linux/filesys/inode.c:203-255 | after every run, what a handle reads is what was written to its file, its name gone or not |
| `FsEffects.OpenReads` | cau15841-pintos2-qemu-linux/filesys/filesys.c:66-77 | after every run, the handle that filesys_open gives reads what the bytes of the device alone give under the name |
| `FsSpace.CreateTidyExact` | cau15841-pintos2-qemu-linux/filesys/filesys.c:45-59 | a creation keeps every marked sector owned by a live file exactly if it does not fail in the directory after taking data sectors and does not write over an entry in use |
| `FsSpace.StepTidyExact` | cau15841-pintos2-qemu-linux/filesys/filesys.c:45-91 | every operation does, but for those creations |
| `FsSpace.SpaceExact` | cau15841-pintos2-qemu-linux/filesys/free-map.c:27-55 | from formatting on, on every run without them, a sector is marked exactly if a file that has a name or a handle, the free map or the directory owns it; with all files removed and closed the rest of the device is free |
| `FsOnDisk.InodeNotTouched` | cau15841-pintos2-qemu-linux/filesys/inode.c:72-318 | no operation writes into the sector of a live inode |
| `FsOnDisk.DirDecodes` | cau15841-pintos2-qemu-linux/filesys/directory.c:141-216 | the directory's bytes after an operation decode to the entries after it |
| `FsOnDisk.OnDiskStep` | cau15841-pintos2-qemu-linux/filesys/inode.c:72-110 | every operation keeps live inodes' sectors and the directory's bytes decoding to the headers and entries of the model |
| `FsOnDisk.ReadsBack` | cau15841-pintos2-qemu-linux/filesys/filesys.c:45-103 | after every run on a formatted device, from its bytes alone: each live inode's sector reads as its header, the root directory as the entries, and the file under a name as zeros overlaid by the writes to it; an unused name finds nothing |
| `FsOnDisk.GoesOn` | cau15841-pintos2-qemu-linux/filesys/filesys.c:45-91 | every such run goes on with any operation that is allowed |
| `FsCode.FileSystem.constructor` | cau15841-pintos2-qemu-linux/filesys/free-map.c:12-20 | the map of an empty device |
| `FsCode.FileSystem.FreeMapAllocate` | cau15841-pintos2-qemu-linux/filesys/free-map.c:27-41 | first free group, marked; undone if the free map file cannot be written |
| `FsCode.FileSystem.FreeMapRelease` | cau15841-pintos2-qemu-linux/filesys/free-map.c:44-50 | clears a group that is all marked; otherwise the assertion fails |
| `FsCode.FileSystem.FindEntry` | cau15841-pintos2-qemu-linux/filesys/directory.c:91-112 | the loop, which ends at a short read, finds what Lookup says of the slots it saw |
| `FsCode.FileSystem.AddEntry` | cau15841-pintos2-qemu-linux/filesys/directory.c:141-179 | writes the slot where its search ended, or fails for a bad name, a name seen, the end of the directory or a failed write |
| `FsCode.FileSystem.OpenInode` | cau15841-pintos2-qemu-linux/filesys/inode.c:111-142 | reuses the in-memory inode of that sector if there is one |
| `FsCode.FileSystem.CloseInode` | cau15841-pintos2-qemu-linux/filesys/inode.c:163-186 | one use fewer; at the last one the inode leaves the list and a removed file its sectors |
| `InodeIo.Device.ClearSectors` | cau15841-pintos2-qemu-linux/filesys/inode.c:93-100 | the loop lays zeros over the data sectors and changes nothing else |
| `DiskFormat.ImageReads` | cau15841-pintos2-qemu-linux/filesys/inode.c:15-21 | start and length read back from the inode's sector |
| `FsCode.FileSystem.CreateInode` | cau15841-pintos2-qemu-linux/filesys/inode.c:72-106 | allocates the data, writes the inode's sector and clears its data sectors on the device, or changes nothing |
| `FsCode.FileSystem.CreateFile` | cau15841-pintos2-qemu-linux/filesys/filesys.c:45-59 | the code on the packed free map does what Create says, error returns included |
| `FsCode.FileSystem.OpenFile` | cau15841-pintos2-qemu-linux/filesys/filesys.c:66-77 | and what Open says |
| `FsCode.FileSystem.RemoveFile` | cau15841-pintos2-qemu-linux/filesys/filesys.c:83-91 | and what Remove says |
| `FsCode.FileSystem.ReopenFile` | cau15841-pintos2-qemu-linux/filesys/file.c:36-42 | and what Reopen says |
| `FsCode.FileSystem.CloseFile` | cau15841-pintos2-qemu-linux/filesys/inode.c:163-186 | and what Close says |
| `DiskFormat.NewSlotDecodes` | cau15841-pintos2-qemu-linux/filesys/directory.c:171-175 | the twenty bytes that dir_add writes decode to the entry it meant, whatever the slot held |
| `DiskFormat.ErasedSlotDecodes` | cau15841-pintos2-qemu-linux/filesys/directory.c:204-207 | clearing in_use keeps the rest of the entry |
| `DiskFormat.SlotWritten` | cau15841-pintos2-qemu-linux/filesys/directory.c:17-23 | writing one slot changes that entry and no other |
| `DiskFormat.DirAddOnBytes` | cau15841-pintos2-qemu-linux/filesys/directory.c:141-179 | dir_add on the directory's bytes is DirAdd on its entries |
| `DiskFormat.EraseOnBytes` | cau15841-pintos2-qemu-linux/filesys/directory.c:184-216 | and dir_remove likewise |
| `Arithmetic.CountLeadingZeros` | cau15841-pintos2-qemu-linux/lib/arithmetic.c:39-73 | the five steps give the number of leading zero bits |
| `Arithmetic.NarrowExact` | cau15841-pintos2-qemu-linux/lib/arithmetic.c:82-113 | a 32-bit divisor: the quotient is exact and the divide never traps |
| `Arithmetic.EstimateNear` | cau15841-pintos2-qemu-linux/lib/arithmetic.c:121-123 | a wider divisor: the divide never traps and the estimate is the quotient or one more |
| `Arithmetic.CorrectionExact` | cau15841-pintos2-qemu-linux/lib/arithmetic.c:124-124 | one correction in 64-bit arithmetic makes it exact |
| `Arithmetic.UdivExact` | cau15841-pintos2-qemu-linux/lib/arithmetic.c:75-127 | floor(n/d) for every 64-bit n and d, and a trap for d = 0 |
| `Arithmetic.UmodValue` | cau15841-pintos2-qemu-linux/lib/arithmetic.c:129-135 | the remainder modulo 2^32 |
| `Arithmetic.UmodExactIff` | cau15841-pintos2-qemu-linux/lib/arithmetic.c:129-135 | the true remainder for every n exactly when d <= 2^32 |
| `Arithmetic.TruncModSmall` | cau15841-pintos2-qemu-linux/lib/arithmetic.c:148-154 | the truncated remainder is smaller than the divisor and has the dividend's sign |
| `Arithmetic.SdivExactIff` | cau15841-pintos2-qemu-linux/lib/arithmetic.c:137-146 | truncation toward zero exactly except for INT64_MIN / -1, which wraps |
| `Arithmetic.SmodValue` | cau15841-pintos2-qemu-linux/lib/arithmetic.c:148-154 | the truncated remainder narrowed to 32 bits |
| `Arithmetic.SmodExactIff` | cau15841-pintos2-qemu-linux/lib/arithmetic.c:148-154 | the true remainder for every n exactly when |d| <= 2^31 |
| `Bitwise.Pow2TestRight` | cau15841-pintos2-qemu-linux/lib/kernel/hash.c:328-340 | the bit test recognises powers of two |
| `Bitwise.TopPowKept` | cau15841-pintos2-qemu-linux/lib/kernel/hash.c:328-333 | turning off the lowest of several bits keeps the highest |
| `Bitwise.AndMask` | cau15841-pintos2-qemu-linux/lib/kernel/hash.c:305-310 | masking with a power of two less one is the remainder |
| `HashBuckets.BucketInRange` | cau15841-pintos2-qemu-linux/lib/kernel/hash.c:305-310 | the bucket is the hash modulo the number of buckets |
| `HashBuckets.OnlyThere` | cau15841-pintos2-qemu-linux/lib/kernel/hash.c:312-326 | an element equal to a key can only be in the key's bucket |
| `HashBuckets.RehashOk` | cau15841-pintos2-qemu-linux/lib/kernel/hash.c:348-413 | rehashing loses and duplicates nothing and puts every element in its bucket |
| `HashBuckets.BestSized` | cau15841-pintos2-qemu-linux/lib/kernel/hash.c:368-374 | the new number of buckets is a power of two, 4 or at most half the elements, and more than a quarter of them |
| `HashTables.DistinctCard` | cau15841-pintos2-qemu-linux/lib/kernel/hash.c:247-251 | elem_cnt, the number of places, is the number of different elements |
| `HashTables.AtMostOne` | cau15841-pintos2-qemu-linux/lib/kernel/hash.c:312-326 | at most one element equals a key |
| `HashTables.HashInit` | cau15841-pintos2-qemu-linux/lib/kernel/hash.c:22-42 | an empty table of four buckets, or a failure exactly for want of memory |
| `HashTables.Table.NewBucketCnt` | cau15841-pintos2-qemu-linux/lib/kernel/hash.c:368-374 | the loop ends at the highest power of two |
| `HashTables.Table.Rehash` | cau15841-pintos2-qemu-linux/lib/kernel/hash.c:348-413 | same elements, every invariant kept, with or without memory; with it fewer than four elements a bucket |
| `HashTables.Table.Insert` | cau15841-pintos2-qemu-linux/lib/kernel/hash.c:94-110 | adds the element if no equal one is there, otherwise returns that one |
| `HashTables.Table.Replace` | cau15841-pintos2-qemu-linux/lib/kernel/hash.c:112-127 | exchanges the equal element, if any, for the new one |
| `HashTables.Table.Find` | cau15841-pintos2-qemu-linux/lib/kernel/hash.c:129-135 | an equal element of the table, or none if there is none |
| `HashTables.Table.Delete` | cau15841-pintos2-qemu-linux/lib/kernel/hash.c:137-154 | removes the equal element, or nothing |
| `HashTables.SkipEmpty` | cau15841-pintos2-qemu-linux/lib/kernel/hash.c:218-235 | the loop of hash_next skips nothing but ends of buckets |
| `HashTables.Cursor.constructor` | cau15841-pintos2-qemu-linux/lib/kernel/hash.c:199-208 | everything is still to come |
| `HashTables.Cursor.Next` | cau15841-pintos2-qemu-linux/lib/kernel/hash.c:218-235 | gives the elements one by one, each place exactly once, then none |
| `Octal.FormattedIs` | cau15841-pintos2-qemu-linux/lib/stdio.c:469-555 | zero padding gives exactly the digits of the number in the field's width |
| `Octal.RoundTrip` | cau15841-pintos2-qemu-linux/lib/ustar.c:120-162 | a number printed into a field parses back to itself |
| `Octal.Output.Put` | cau15841-pintos2-qemu-linux/lib/stdio.c:44-52 | one character more is sent, and kept while there is room before the terminator |
| `Octal.Output.PutRepeated` | cau15841-pintos2-qemu-linux/lib/stdio.c:549-555 | the loop sends the character so many times |
| `Octal.Output.PutBackward` | cau15841-pintos2-qemu-linux/lib/stdio.c:543-544 | the loop sends the digits last found first |
| `Octal.SnprintfOctal` | cau15841-pintos2-qemu-linux/lib/stdio.c:25-52 | digit buffer, padding, reversed output, truncation and terminator give the specified field |
| `Octal.ParseOctalField` | cau15841-pintos2-qemu-linux/lib/ustar.c:129-162 | the loop, with its overflow and terminator checks |
| `Ustar.StripIdempotent` | cau15841-pintos2-qemu-linux/lib/ustar.c:56-73 | a stripped name has nothing left to strip |
| `Ustar.StripSafe` | cau15841-pintos2-qemu-linux/lib/ustar.c:56-73 | a stripped name is not empty, not absolute, not ".." and does not start with "../" |
| `Ustar.StripAntisocialPrefixes` | cau15841-pintos2-qemu-linux/lib/ustar.c:65-73 | the loop computes the stripped name |
| `Ustar.SumSame` | cau15841-pintos2-qemu-linux/lib/ustar.c:36-54 | the checksum does not depend on its own field |
| `Ustar.SumStands` | cau15841-pintos2-qemu-linux/lib/ustar.c:114-115 | the finished header's checksum field holds its checksum |
| `Ustar.CalculateChksum` | cau15841-pintos2-qemu-linux/lib/ustar.c:36-54 | the loop computes the checksum |
| `Ustar.UstarMakeHeader` | cau15841-pintos2-qemu-linux/lib/ustar.c:82-118 | the 512 bytes, filled in place, are the specified header; untouched if the name is too long |
| `Ustar.OtherFields` | cau15841-pintos2-qemu-linux/lib/ustar.c:99-112 | the fields that parsing ignores: mode 0644 or 0755, user and group 0, the fixed time, and root as owner |
| `Ustar.HeaderRoundTrip` | cau15841-pintos2-qemu-linux/lib/ustar.c:82-227 | every header that is made parses: stripped name, same type, same size, 0 for directories; a negative size of a file is refused |
| `Ustar.UstarParseHeader` | cau15841-pintos2-qemu-linux/lib/ustar.c:174-227 | the code, with its loops, is ParseHeader |
| `UstarChecks.ParseExact` | cau15841-pintos2-qemu-linux/lib/ustar.c:120-160 | a field reads as a number exactly if it is that number in octal digits, at least one, ended by a space or NUL, and fits in 32 bits |
| `UstarChecks.ChksumIs` | cau15841-pintos2-qemu-linux/lib/ustar.c:36-54 | the checksum is the sum of all bytes, less those of its field, plus eight spaces |
| `UstarChecks.AcceptsDirectory` | cau15841-pintos2-qemu-linux/lib/ustar.c:174-227 | a header is accepted as a directory exactly if magic, version, checksum, name and type are right |
| `UstarChecks.AcceptsRegular` | cau15841-pintos2-qemu-linux/lib/ustar.c:174-227 | and as a regular file of a size exactly if its size field says so too, below 2^31; the name is the stripped name field |
| `UstarChecks.EndExact` | cau15841-pintos2-qemu-linux/lib/ustar.c:188-195 | the end of the archive is 512 zeros and nothing else |
| `UstarChecks.OneByteRefused` | cau15841-pintos2-qemu-linux/lib/ustar.c:206-207 | an accepted header with any one byte altered outside the checksum field is refused |
| `UstarChecks.FieldAltered` | cau15841-pintos2-qemu-linux/lib/ustar.c:204-207 | altered within that field, it is accepted exactly if the field still reads as the checksum, and says the same |
| `UstarChecks.StripExact` | cau15841-pintos2-qemu-linux/lib/ustar.c:56-73 | the stripped name is what follows a sequence of "/", "./" and "../", or "." for nothing and ".." |
| `UstarChecks.StripSplits` | cau15841-pintos2-qemu-linux/lib/ustar.c:56-73 | every name splits so, behind the longest such sequence |
| `Heapsort.SiftStep` | cau15841-pintos2-qemu-linux/lib/stdlib.c:93-123 | one turn of heapify moves the one place out of heap order down, or ends with none |
| `Heapsort.RootLargest` | cau15841-pintos2-qemu-linux/lib/stdlib.c:132-152 | the first element of a heap is the largest |
| `Heapsort.Heapify` | cau15841-pintos2-qemu-linux/lib/stdlib.c:96-123 | restores heap order below a node, permutes the heap and leaves the rest of the array |
| `Heapsort.Sort` | cau15841-pintos2-qemu-linux/lib/stdlib.c:131-152 | an ordered permutation, for any consistent comparison |
| `Heapsort.BinarySearch` | cau15841-pintos2-qemu-linux/lib/stdlib.c:184-207 | on a sorted array finds a match exactly when there is one |
| `PageEntries.EntriesPoint` | cau15841-pintos2-qemu-linux/threads/pte.h:70-104 | an entry points back to the page it was made for, present and with its write permission |
| `PageEntries.AbsentKeeps` | cau15841-pintos2-qemu-linux/userprog/pagedir.c:143-157 | clearing the present bit keeps the other bits |
| `PageEntries.IndicesSplit` | cau15841-pintos2-qemu-linux/threads/pte.h:31-39 | directory index, table index and offset determine a user address |
| `PageTables.NewTable` | cau15841-pintos2-qemu-linux/userprog/pagedir.c:66-81 | a new, zeroed table changes no mapping and no kernel entry |
| `PageTables.EntryWritten` | cau15841-pintos2-qemu-linux/userprog/pagedir.c:98-157 | writing one entry changes the mapping of one page |
| `PageDestroy.DestroyedAre` | cau15841-pintos2-qemu-linux/userprog/pagedir.c:25-48 | destroying gives back the directory and everything under it, nothing else |
| `PageDestroy.UnderMapped` | cau15841-pintos2-qemu-linux/userprog/pagedir.c:25-48 | namely its tables and the pages in the mapping |
| `PageDestroy.DestroyedOnce` | cau15841-pintos2-qemu-linux/userprog/pagedir.c:25-48 | each once, when no page is mapped twice |
| `PageTaken.InUseIsFreed` | cau15841-pintos2-qemu-linux/userprog/pagedir.c:25-48 | what destroying gives back is the directory, its tables and the mapped pages |
| `PageTaken.ChangeExact` | cau15841-pintos2-qemu-linux/userprog/pagedir.c:98-157 | setting or clearing a page keeps frames unshared and apart from tables exactly when the pages it takes are not in use; the pages in use change by what it adds and drops |
| `PageTaken.AllGivenBack` | cau15841-pintos2-qemu-linux/userprog/pagedir.c:11-157 | from pagedir_create on, over every run of pagedir_set_page and pagedir_clear_page with pages not in use, pagedir_destroy gives back exactly the pages taken and not dropped, each once |
| `PageCode.Paging.LookupPage` | cau15841-pintos2-qemu-linux/userprog/pagedir.c:56-86 | finds or makes the table, user or, without CREATE, kernel; no mapping changes |
| `PageCode.Paging.SetPage` | cau15841-pintos2-qemu-linux/userprog/pagedir.c:98-119 | maps exactly one page, or fails and changes nothing |
| `PageCode.Paging.GetPage` | cau15841-pintos2-qemu-linux/userprog/pagedir.c:125-137 | the mapped page plus the offset, or none |
| `PageCode.Paging.ClearPage` | cau15841-pintos2-qemu-linux/userprog/pagedir.c:143-157 | unmaps exactly one page |
| `PageCode.Paging.Destroy` | cau15841-pintos2-qemu-linux/userprog/pagedir.c:27-48 | the loops give back the specified pages in order |
| `CommandLine.SplitInPlace` | cau15841-pintos2-qemu-linux/userprog/process.c:52-59 | every space of the buffer becomes a NUL |
| `CommandLine.StringsAreWords` | cau15841-pintos2-qemu-linux/userprog/process.c:52-59 | the strings that start behind NULs are the words of the line |
| `CommandLine.WordsExact` | cau15841-pintos2-qemu-linux/userprog/process.c:52-59 | the words are what stands between spaces, each once and in order |
| `ArgStack.PushData` | cau15841-pintos2-qemu-linux/userprog/process.c:528-559 | the line lies at the top of the stack page |
| `ArgStack.PushPointers` | cau15841-pintos2-qemu-linux/userprog/process.c:575-612 | the backward scan pushes a pointer for each string, in order |
| `ArgStack.SetupStack` | cau15841-pintos2-qemu-linux/userprog/process.c:508-636 | the whole layout, when it fits in the page |
| `ArgStack.ArgvIsWords` | cau15841-pintos2-qemu-linux/userprog/process.c:508-636 | argc and argv read back from the stack are the words of the line in order, with a null pointer behind them |
| `ArgStack.LeadingBlank` | cau15841-pintos2-qemu-linux/userprog/process.c:585-612 | a leading space costs an empty argument |
| `ArgStack.ArgvExactIff` | cau15841-pintos2-qemu-linux/userprog/process.c:508-636 | argv is exactly the words when the line is not empty and does not start with a space, and only then |
| `ArgStack.AlignedIff` | cau15841-pintos2-qemu-linux/userprog/process.c:547-559 | the padding aligns the stack exactly for data of even length |

## Left out

- KernelCode.Kernel.SemaRaise: the semaphore value is unbounded, because a count of 2^32 units is not a state the kernel reaches; its wrap-around is not modelled.
- Heapsort.Heapify: elements are compared and swapped whole, not byte by byte as do_swap does.
- ArgStack.SetupStack: a line whose layout exceeds the one page of the stack is excluded, because the code then writes below the page and what is there is not part of the model.
- InodeIo.Inode.ReadAt: offsets are not negative, as file_seek asserts.
- Bitmaps.Bitmap.Read: a file is read in whole elements, not bytes, as the only such file, the free map, has a whole number of them.
- Re-initialising a semaphore, lock or condition variable in use, and reusing the page of a dead thread under the same identity.
- calloc and its overflow check.
- Threads blocked on an interrupt queue rather than on a semaphore.
- Several condition variables' waiters under different locks: a condition variable belongs to one lock, as the comments on cond_wait demand.
- The first-fit policy of the page allocator, which nothing selects, and PAL_ZERO's clearing of pages.
- bitmap_flip, which nothing calls, list_insert_ordered, list_min, list_max, hash_apply, hash_clear and the FNV hash functions: easy members.
- The copy of the free map on disk and the root directory's own in-memory inode, which lives only within a call.
- dir_readdir, file positions and inode_deny_write's bookkeeping beyond its effect on writes.
- pagedir's dirty and accessed bits and the translation buffer.
- The formats of printf other than the zero-padded octal ones that ustar.c uses.
- Device drivers, the boot loader, interrupt stubs, the ELF loader, system calls, exec and wait, and priority scheduling.
