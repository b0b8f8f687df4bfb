# Illinix 391: a verified model of the kernel's core

Illinix 391 is a small RISC-V kernel for one hart. This project models, in Dafny, the parts of it whose
correctness depends on more than one function, and proves what they promise over every input and every
run:

| files | what they model |
|---|---|
| Chains, Threads, Scheduler, Ancestry, Kernel | threads on intrusive lists that share one link member, conditions, `suspend_self`, spawn, exit, join |
| Locks, Deadlock, KernelLocks | sleep locks on those threads |
| Timer, Alarms, KernelTimer | alarms, the sleep list and the timer interrupt, with the threads that sleep |
| Uart, UartRuns | the UART ring buffers and the blocking protocol between threads and the interrupt handler |
| Sv39, PageTables, PagePool, Spaces, MapRange, Fork, Isolation, SpaceRuns, Memory, Boot | Sv39 page tables, the page allocator, mapping, cloning a space, boot |
| Heap | the kernel heap on top of the page allocator |
| Bytes, Disk, KfsSpec, Kfs, KfsWrites, KfsErrors, Mkfs, ImageRoundTrip | the file system image builder and the file system driver |
| Crlf, Terminal | the CRLF terminal layer |

Code that updates things in place is modelled by classes and loops (`ThreadManager`, `SleepLock`, `AlarmClock`,
`RingBuf`, `UartDevice`, `MemoryManager`, `EzHeap`, `IoLit`, `FileSystem`, `IoTerm`), each method proved against a
function of the old state. Concurrency is modelled by step systems over those functions: kernel code is only
preempted inside `suspend_self`, while handlers may run between any two steps, so a run is any sequence of
steps of the current thread, of the scheduler and of handlers, and the theorems quantify over all runs. Methods
named Perform take one such step by calling the classes' methods, and are proved to have its effect.

How memory is represented. A struct is named by its address and its members are maps from addresses, so the
lists of threads and of alarms really are chains of pointers; memory that was never written reads as zero.
Physical memory is a map from page numbers to 512 words, a word is given by its page-table bit-fields, and a
panic is a result `ok == false`. Integers are unbounded where the original's cannot overflow; the 16-bit ring
counters, the 32-bit file offsets, the 64-bit heap sizes and the saturating alarm times are written out.

Main results, each for all inputs or all runs:

- the ready list and every wait list hold exactly the threads their members say, the scheduler's assertions hold
  in every run, its two reachable panics have their exact conditions, the thread at index k of the ready list runs
  at the (k+1)-th dispatch, parents form a tree, no join misses an exit (`ListsExact`, `NeverPanics`,
  `PanicsExactly`, `ResumedInTurn`, `ParentTree`, `NoJoinOnExited`), and the pointers follow every run (`Execute`);
- a live thread's parent is its spawner or, once that is recycled, its nearest spawner's spawner still in the table,
  a join ends only by recycling the exited child it is for, and no run gets stuck (`ParentIsSpawner`,
  `JoinReturnsExactly`, `NeverStuck`);
- locks exclude and lose no wake-up in every run, and cannot deadlock when taken in the order of some rank, as the
  file system does (`MutualExclusion`, `WaitersHaveHolder`, `NoDeadlock`, `FileSystemNoDeadlock`);
- whenever interrupts are on the sleep list holds exactly the alarms some thread sleeps on, each handler run makes
  exactly the threads of due alarms ready, the comparator law holds exactly from the first timer interrupt on, ticks
  move by whole periods and exactly when behind, and a pending timer interrupt catches up with the clock
  (`SleepListExact`, `HandlerExact`, `WokenExactlyWhenDue`, `ComparatorLaw`, `OverdueIsPending`, `TicksExact`,
  `TimerCatchesUp`);
- UART bytes come out in order across counter wraps under every interleaving, no wake-up is lost, and an interrupt
  that found nothing to do stays off until its user wants it (`InOrder`, `NoLostWakeup`, `NextInterruptWakes`,
  `LoopsExact`, `EnableBitsExact`, `TurnedOffStaysOff`);
- mapping a page or a range changes exactly the translations asked for, with exactly the rights asked for, a clone starts out as a private copy, and
  in every run of stores, mappings, flag changes and further clones a space reads the same unless something is done
  to that very space (`MapTranslates`, `RangeTranslates`, `ChildUser`, `RunUnnoticed`, `ForkIsolates`);
- heap blocks are aligned, disjoint and clear of pages the heap does not own (`BlocksSafe`);
- an image reads back file by file if and only if no whole-block file precedes a file with contents
  (`RoundTripIff`), `fs_write` is an overlay of one file that returns unless a 4 GiB residue fits
  (`WriteMeaning`, `WriteThenRead`), and on any disk reads and writes fail exactly for want of an inode or a block
  (`ReadErrExactly`, `WriteErrExactly`, `FailsAfterPrefix`);
- the terminal layer refines the two CRLF transducers for every chunking, of the stream and of the device, fails
  exactly when the device does, with its code and a prefix of the output sent (`WriteChunks`, `ReadChunks`), and the
  transducers rewrite line ends and nothing else (`LineByLine`), with in(out(s)) = in(s) and out(in(s)) = out(s).

Where the code does not do what its comments or a natural reading promise, the model follows the code and a
theorem gives the exact condition:

- `mkfs` lists one block more than it writes for a file of a whole number of blocks, so later files are looked
  for too far on (`RoundTripIff`, `LastFails`);
- `fs_write` keeps the bytes left in 32 bits and spins for ever on some requests of 4 GiB and more
  (`WriteMeaning`, `LoopSpins`);
- `next_tick` is zero until the first timer interrupt, so until then an alarm does not set the comparator: an
  overdue sleeper has its interrupt pending exactly if there was one or a tick has passed since boot
  (`OverdueIsPending`, `OversleepsBeforeFirstTick`);
- `uart_read` and `uart_write` change the enable register by loading and storing it with interrupts on, so a reader
  interrupted in between turns transmit interrupts back on, and a writer receive interrupts; each bit's value after
  every step is given (`EnableBitsExact`), and otherwise a bit turned off stays off (`TurnedOffStaysOff`);
- after a handler run the timer interrupt is still pending in the one case that `next_tick` equals the clock
  (`TimerCatchesUp`);
- `thread_spawn` panics exactly when every slot is taken, `thread_join_any` exactly when the caller has no child
  (`PanicsExactly`);
- `kmalloc` rounds sizes up in 64 bits and returns an empty block for the largest 15 sizes (`HoldsRequest`);
- new page tables and a clone's root are not cleared, which is harmless exactly when none of the page's words leads
  anywhere (`DirtyTable`, `DirtyLevel1`, `DirtyRoot`, with `SoiledRootShows` a run in which it is not);
- `allocate_file` tests the inode number with > and so opens a file whose inode number equals the number of inodes,
  which every read of a file with contents and every write then refuses (`AllocateFile`, `OneTooMany`);
- a mapping whose flags encode no leaf (neither R nor X, or W without R) faults (`MapTranslates`);
- `memory_set_page_flags` checks nothing: on an unmapped page with a table it maps whatever page the stale entry names,
  which is in order exactly if that page was set aside for the address, and without a table it stores through NULL
  (`SetPageFlags`);
- `memory_space_clone` leaves its asid argument out of the tag, which is right exactly for asid 0 (`SpaceClone`);
- with no page left after the initial heap, which a configured RAM of two megabytes or less allows, the boot free
  list is not empty but points past RAM (`BootFree`).

## Model

| member | source | states |
|---|---|---|
| Threads.ThreadManager.constructor | src/kern/thread.c:184-189 | main runs, idle is its READY child and the whole ready list, and every other slot is empty |
| Threads.ThreadManager.TlInsert | src/kern/thread.c:504-519 | the thread is appended to that list, all lists stay disjoint chains with correct tails |
| Threads.ThreadManager.TlRemove | src/kern/thread.c:521-538 | the head is taken off, or NULL from an empty list; every other list is untouched |
| Threads.ThreadManager.TlAppend | src/kern/thread.c:542-559 | the second list, empty or not, is moved in order behind the first |
| Threads.ThreadManager.WaitMark | src/kern/thread.c:335-341 | the current thread is WAITING on the condition and still on no list |
| Threads.ThreadManager.ConditionBroadcast | src/kern/thread.c:350-378 | exactly the waiters become READY and join the ready list in order, behind those there; no other list or thread changes |
| Threads.ThreadManager.TlEmpty | src/kern/thread.c:500-502 | whether the list holds no thread |
| Threads.ThreadManager.WakeAll | src/kern/thread.c:363-377 | the part with interrupts off does the same even if a handler has emptied the list since the test; both assertions hold |
| Threads.ThreadManager.SuspendSelf | src/kern/thread.c:443-493 | the head of the ready list runs next, a still running thread becomes READY at the tail, no other thread changes |
| Threads.ThreadManager.CreateThread | src/kern/thread.c:646-686 | the lowest free slot gets a READY thread whose parent is the current thread, and no other changes; the panic value 0 exactly if every slot is taken |
| Threads.ThreadManager.RecycleThread | src/kern/thread.c:425-441 | the thread leaves its slot and the records, exactly its children are handed to its parent, nothing else changes |
| Threads.ThreadManager.ScanChildren | src/kern/thread.c:246-252 | the first exited child by slot, or whether there is any child at all |
| Threads.InsertOk | src/kern/thread.c:504-519 | pointer writes of an insertion keep all lists, although they share the link member |
| Threads.RemoveOk | src/kern/thread.c:521-538 | likewise for removing the head |
| Threads.AppendOk | src/kern/thread.c:542-559 | likewise for splicing one list behind another |
| Chains.ChainUnique | src/kern/thread.c:504-559 | what a chain of links holds is determined by the links alone |
| Scheduler.StepKeeps | src/kern/thread.c:191-303 | every enabled step of a thread, the scheduler or a handler keeps the whole-system invariant |
| Scheduler.ReachableInv | src/kern/thread.c:184-303 | the invariant holds in every reachable state |
| Scheduler.ListsExact | src/kern/thread.c:330-378 | in every run the ready list holds exactly the READY threads, each wait list exactly its waiters, once each, on one list only, and at most one thread is RUNNING |
| Scheduler.NeverPanics | src/kern/thread.c:209-472 | in every run the assertions hold: a READY thread other than the suspending one at the head, only its waiters for broadcast, RUNNING for whoever yields or waits, a live parent for an exiting thread, EXITED for whatever is recycled; a woken join finds an exited child and the thread switched to is RUNNING |
| Scheduler.ExitedStays | src/kern/thread.c:213-221 | an exited thread stays so until recycled and is never switched to, so thread_exit does not return |
| Scheduler.PanicsExactly | src/kern/thread.c:237-258 | thread_spawn has a slot to take exactly if the table is not full, and thread_join_any a step to take exactly if the caller has a child; otherwise they panic |
| Scheduler.NeverStuck | src/kern/thread.c:191-493 | in every run the current thread has a next step, wherever it is inside the scheduler; a woken join can look for its child again, and a thread in no call may signal, wait, yield or exit |
| Scheduler.MethodPreconditions | src/kern/thread.c:191-303 | in every reachable state the thread manager's methods are called as their preconditions ask |
| Kernel.Perform | src/kern/thread.c:191-493 | the code takes any step of a run: the pointers and where the thread is afterwards are what the step says |
| Kernel.JoinTest | src/kern/thread.c:281-294 | thread_join answers -1 exactly if the caller has no child with that number, and otherwise found that child |
| Kernel.PerformJoin | src/kern/thread.c:281-305 | a turn of thread_join recycles the child or waits, as the step says |
| Kernel.Execute | src/kern/thread.c:184-559 | after every run the lists are disjoint acyclic chains with correct tails, holding what the run says |
| Scheduler.ParentTree | src/kern/thread.c:425-441 | parent pointers of live threads lead to main, so none points to a recycled thread |
| Ancestry.ParentIsSpawner | src/kern/thread.c:425-441 | in every run a live thread's parent is the first thread still in the table among its spawner, its spawner's spawner and so on, so its spawner as long as that is there |
| Ancestry.SpawnMakesChild | src/kern/thread.c:191-207 | thread_spawn gives the caller a READY child in the lowest free slot and touches no other thread or list |
| Ancestry.JoinReturnsExactly | src/kern/thread.c:237-305 | in every run a join in progress ends exactly by recycling the exited child it names, or for thread_join_any the first exited child in the table; every other step leaves it in progress |
| Ancestry.JoinStarts | src/kern/thread.c:237-305 | a join recycles the child at once exactly if it has exited, and otherwise the caller waits on its own condition |
| Scheduler.NoJoinOnExited | src/kern/thread.c:237-305 | a thread waits in a join on an exited child only while that child is still announcing its exit |
| Scheduler.QueuePosition | src/kern/thread.c:460-472 | a ready thread moves up by one place per dispatch whatever is interleaved |
| Scheduler.ResumedInTurn | src/kern/thread.c:460-472 | the thread at index k runs at exactly the (k+1)-th dispatch |
| Scheduler.ReadyListBounded | src/kern/thread.c:504-519 | the ready list never holds more than NTHR threads |
| Locks.SleepLock.constructor | src/kern/lock.h:32-36 | the lock starts free |
| Locks.SleepLock.TryAcquire | src/kern/lock.h:38-62 | one turn of the acquire loop takes a free lock under the caller's tid or marks the caller waiting on it |
| Locks.SleepLock.Release | src/kern/lock.h:64-74 | the lock is free again and all its waiters are woken |
| Locks.LockReachable | src/kern/lock.h:32-74 | the lock invariant holds in every run of any number of locks and threads, in any order |
| Locks.MutualExclusion | src/kern/lock.h:38-74 | at most one thread is between acquire and release, and the tid member is its tid, so the release assertion holds |
| Locks.WaitersHaveHolder | src/kern/lock.h:56-70 | a thread waits for a lock only while somebody holds it or is just about to wake its waiters |
| Locks.LockNeverStuck | src/kern/lock.h:32-74 | in every run a thread can go on with its lock call, take any lock, or wait for it, and release any it holds |
| Deadlock.WaitsForClimbs | src/kern/lock.h:38-74 | with locks taken in the order of a rank, whoever holds the awaited lock waits, if at all, for one of higher rank |
| Deadlock.NoDeadlock | src/kern/lock.h:38-74 | no chain of threads waiting for each other's locks closes |
| Deadlock.FileSystemNoDeadlock | src/kern/kfs.c:303-397 | the nesting of vio_lock inside kfs_lock is such an order |
| Deadlock.UnorderedDeadlocks | src/kern/lock.h:38-62 | without one a run exists in which a thread waits for itself |
| KernelLocks.PerformLock | src/kern/lock.h:32-74 | the locks' code takes any step of such a run |
| Timer.AlarmClock.constructor | src/kern/timer.c:48-55 | no sleeper, the comparator one tick ahead, next_tick still zero |
| Timer.AlarmClock.AlarmSleep | src/kern/timer.c:63-122 | the saturated wake time, insertion behind exactly the earlier alarms unless already past, and the comparator lowered only for a new head before next_tick |
| Timer.AlarmClock.AlarmReset | src/kern/timer.c:137-139 | the wake time is now |
| Timer.AlarmClock.LinkInOrder | src/kern/timer.c:105-121 | the pointer loop inserts in order |
| Timer.AlarmClock.TimerIntrHandler | src/kern/timer.c:143-175 | exactly the due alarms are taken off and their conditions broadcast, in order; next_tick gains one period exactly if it was before now, and the comparator is the least of it and the wake times left |
| Timer.InsertKeepsSorted | src/kern/timer.c:84-121 | insertion keeps the sleep list sorted |
| Timer.DueIsAllDue | src/kern/timer.c:152-163 | on a sorted list the due prefix is all that is due |
| Timer.EarliestIsMinimum | src/kern/timer.c:166-169 | the value set is the one time that is at most next_tick and every listed wake time and equals one of them |
| Timer.InsertedInOrder | src/kern/timer.c:84-121 | the alarm goes behind exactly the alarms with an earlier wake time |
| Alarms.SleepListExact | src/kern/timer.c:63-175 | in every run the sleep list is sorted and, with interrupts on, holds once each exactly the alarms some thread is WAITING on, and never two threads for one alarm |
| Alarms.ComparatorLaw | src/kern/timer.c:63-175 | mtcmp is at most next_tick and every listed wake time and equals one of them, if and only if a timer interrupt has happened |
| Alarms.TicksExact | src/kern/timer.c:161-169 | in every run, up to the clock's last period, next_tick is a whole number of periods at most one ahead of the clock; a handler run adds one period if and only if it is behind, and nothing else moves it |
| Alarms.TimerCatchesUp | src/kern/timer.c:143-175 | in every run, with the clock standing still, finitely many handler runs, pending one after the other and adding a period each, bring next_tick to the clock or past it; then the interrupt is pending only if they are equal |
| Alarms.OverdueIsPending | src/kern/timer.c:84-175 | an overdue sleeper has its interrupt pending if and only if the handler has run before or a tick has passed since boot |
| Alarms.OversleepsBeforeFirstTick | src/kern/timer.c:84-95 | before that a run exists in which a thread is overdue and nothing is pending |
| Alarms.WokenExactlyWhenDue | src/kern/timer.c:63-175 | a sleeping thread is woken by the handler and only by a handler run at or after its wake time |
| Alarms.HandlerExact | src/kern/timer.c:143-163 | a handler run makes READY exactly the threads asleep on alarms with twake at most now and changes no other thread |
| Alarms.AlarmReachable | src/kern/timer.c:63-175 | with interrupts off from the insertion to the suspend, no broadcast comes between: the invariant holds in every run |
| Alarms.SleepNeverStuck | src/kern/timer.c:63-175 | in every run a thread can go to sleep on an alarm nobody sleeps on, and with interrupts off goes on until it is suspended; a pending interrupt comes when they are on |
| Alarms.SaturatedWake | src/kern/timer.c:63-87 | the wake time is the requested sum, saturated; sleeping is skipped exactly if it is past |
| KernelTimer.PerformAlarm | src/kern/timer.c:57-175 | the timer's code takes any step of such a run, on the sleep list's pointers and the threads |
| Uart.RingBuf.Put | src/kern/uart.c:302-309 | the byte is put in behind all others, and the ring stays valid unless it was full |
| Uart.RingBuf.Get | src/kern/uart.c:311-320 | unless the ring is empty, the oldest byte not yet taken is taken out |
| Uart.RingBuf.Empty | src/kern/uart.c:294-296 | everything put in has been taken out |
| Uart.RingBuf.Full | src/kern/uart.c:298-300 | as many bytes as the ring has slots are still to be taken out |
| Uart.UartDevice.constructor | src/kern/uart.c:147-170 | opening leaves empty rings and only the receive interrupt enabled |
| Uart.UartDevice.Isr | src/kern/uart.c:256-280 | a received byte is put in if there is room, the oldest transmit byte is sent, what was sent is what was taken out; an enable bit goes off exactly if its interrupt found a full or an empty ring, readers are woken exactly by the first byte, writers by the first free slot |
| Uart.IsrBits | src/kern/uart.c:256-280 | the enable bits and broadcasts of a handler run, from the state of the rings alone |
| Uart.Occupancy | src/kern/uart.c:294-300 | the counter comparisons see the true occupancy across any number of wraps |
| Uart.StoreOk | src/kern/uart.c:302-309 | storing into a ring that is not full touches no unread byte |
| Uart.PublishPutOk | src/kern/uart.c:302-309 | publishing appends the byte to what was put in |
| Uart.FetchOk | src/kern/uart.c:311-320 | fetching returns the oldest byte not taken |
| Uart.PublishGetOk | src/kern/uart.c:311-320 | giving up the slot takes out exactly that byte |
| UartRuns.ActKeeps | src/kern/uart.c:185-280 | every micro-step of any thread and every handler run keeps the device invariant |
| UartRuns.InOrder | src/kern/uart.c:185-279 | in every run what was sent is a prefix of what writers put in; what reads have returned, followed by what a read in progress holds, is exactly the part of the received stream taken out; occupancy is between 0 and 64 |
| UartRuns.ReadsInOrder | src/kern/uart.c:185-224 | a read returns the next unread bytes, at least one and at most as many as asked for |
| UartRuns.WritesInOrder | src/kern/uart.c:226-254 | a returning write has put in its whole buffer, in order, after all the thread wrote before |
| UartRuns.LoopsExact | src/kern/uart.c:209-251 | a reader waits exactly if nothing is left to take and stops exactly with all it asked for or an empty ring; a writer waits exactly on a full ring and stops exactly at the end of its buffer or on a full ring |
| UartRuns.NoLostWakeup | src/kern/uart.c:211-251 | a blocked writer implies a full ring and THREIE set, a blocked reader an empty ring and DREIE set |
| UartRuns.NextInterruptWakes | src/kern/uart.c:256-280 | the next interrupt of the matching kind wakes the blocked thread |
| UartRuns.DriverNeverStuck | src/kern/uart.c:185-280 | in every run a thread in the driver that does not wait has a next step, and the interrupt can always come |
| UartRuns.EnableBitsExact | src/kern/uart.c:220-280 | each enable bit after any step of any run: cleared exactly by a handler run with nothing to do, set by its own user, stored back as loaded by the other kind of user, else unchanged |
| UartRuns.TurnedOffStaysOff | src/kern/uart.c:220-280 | after a handler run found nothing to send, THREIE is off until a writer's store, unless the interrupted thread is a reader that had loaded the register before; likewise DREIE, a full ring and a reader's store |
| Sv39.TranslateUser | src/kern/memory.c:741-783 | for user pages the architecture's three-level walk sees exactly what the tables say, where the flags encode a leaf |
| Sv39.MappedIsData | src/kern/memory.c:469-493 | a mapped user page belongs to that very address of that very space |
| PageTables.DirtyTable | src/kern/memory.c:773-781 | linking an uncleared level-0 table makes pages appear exactly if it holds a valid word |
| PageTables.DirtyLevel1 | src/kern/memory.c:745-761 | linking an uncleared level-1 table makes addresses translate exactly if one of its words leads to a page |
| Fork.DirtyRoot | src/kern/memory.c:341-354 | a clone translates nothing beyond the direct map and its copies exactly if, before the call, no word from 3 on of the page taken for its root leads to a page or back to that page |
| Fork.SoiledRootShows | src/kern/memory.c:341-456 | from every ready state, a page taken, given a leaf in word 4 and freed makes the next clone translate an address nobody mapped |
| PageTables.SetLeaf | src/kern/memory.c:485-488 | writing a leaf changes that user page and no other, and keeps the tables a tree |
| PagePool.TakeKeeps | src/kern/memory.c:422-435 | taking the head of the free list keeps the free list, the tables and the shared kernel half |
| PagePool.GiveKeeps | src/kern/memory.c:445-455 | freeing keeps them too, and keeps free pages clean exactly if the page was clean but for its first word |
| Spaces.WalkKeeps | src/kern/memory.c:741-783 | creating missing tables changes how no page looks in any space and takes exactly the missing tables from the free list |
| Spaces.MapPageKeeps | src/kern/memory.c:469-493 | the page mapped is the next free one after new tables; it has V, A, D and each other right exactly if requested or there before; every other page is as before |
| Spaces.OtherSpaces | src/kern/memory.c:469-493 | spaces other than the active one look the same |
| Spaces.KernelAddresses | src/kern/memory.c:469-493 | addresses outside the user gigarange translate as before in every space |
| MapRange.MapTranslates | src/kern/memory.c:469-493 | exactly the mapped page's translation changes, to the page just taken with exactly the rights requested or there before, if those encode a leaf; every other address of every space is unchanged |
| MapRange.MappedOnce | src/kern/memory.c:469-521 | no physical page is mapped at two user pages of one space or of two |
| MapRange.MapPagesKeeps | src/kern/memory.c:505-521 | each page of a range maps to its own page from the free list with exactly the rights requested or there before, all others are unchanged |
| MapRange.MapPagesNeed | src/kern/memory.c:505-521 | a range is mapped if and only if that many pages are free, counting absent tables once |
| MapRange.RangeTranslates | src/kern/memory.c:505-521 | what every address of every space translates to after mapping a range, and with which rights |
| Memory.UserVpns | src/kern/memory.c:70-72 | a user address splits into root index 3 and the indices of its page number |
| Memory.UserAddress | src/kern/memory.c:70-72 | the two page indices and the offset make up the address again |
| Memory.MemoryManager.AllocPage | src/kern/memory.c:422-435 | the head of the free list, or a panic exactly when there is none |
| Memory.MemoryManager.FreePage | src/kern/memory.c:445-455 | the page becomes the head of the free list |
| Memory.MemoryManager.WalkPt | src/kern/memory.c:741-783 | without create the level-0 table or 0 and no change; with create the tables of the walk function, panicking exactly if pages are short |
| Memory.MemoryManager.AllocAndMapPage | src/kern/memory.c:469-493 | the state of the mapping function, the physical address and the rights of the page, panicking exactly if pages are short |
| Memory.MemoryManager.AllocAndMapRange | src/kern/memory.c:505-521 | the state of the range function and the rights of each page; a panic exactly for unaligned sizes or too few pages |
| Memory.MemoryManager.SetPageFlags | src/kern/memory.c:534-547 | with a table, the page appears at the page its entry names with exactly the new flags, V, A and D, and no other page changes; the tables stay in order exactly if that page was set aside for the address, as it is for a mapped one; without a table the store goes through NULL, a failure result |
| Memory.MemoryManager.CopyMapped | src/kern/memory.c:364-387 | one mapped page is copied into the new space |
| Memory.MemoryManager.ClonePage | src/kern/memory.c:364-387 | one turn of the clone loop keeps the clone relation, or panics exactly if pages are short |
| Memory.MemoryManager.NewSpace | src/kern/memory.c:341-354 | a new root has the main space's direct map and no user table |
| Memory.MemoryManager.SpaceClone | src/kern/memory.c:327-388 | the clone relation between old and new state, exactly how many free pages cloning needs, and that the tag is the one for asid 0 |
| Fork.CopyPageKeeps | src/kern/memory.c:371-385 | the copy has the parent page's flags and contents and is the only page that changes |
| Fork.CloneCopy | src/kern/memory.c:364-387 | copying page k extends the clone relation to k + 1 at the cost the cost function says |
| Fork.CloneSkip | src/kern/memory.c:364-387 | skipping an invalid or non-user page does too |
| Isolation.ChildUser | src/kern/memory.c:327-388 | a user page translates in the clone if and only if user mode had it in the parent, with equal flags and bytes, on a page that was free |
| Isolation.ChildKernel | src/kern/memory.c:341-354 | outside the user range the clone translates as the parent did |
| Isolation.ParentKeeps | src/kern/memory.c:327-388 | translations and user-visible contents of every existing space are unchanged by cloning |
| Isolation.PrivatePages | src/kern/memory.c:327-388 | the clone's pages are distinct from each other and were all free |
| Isolation.StoresInvisible | src/kern/memory.c:327-388 | no sequence of user stores through other spaces changes what user loads through a space return |
| Isolation.ForkIsolatesChild | src/kern/memory.c:327-388 | after a clone and any stores through other spaces the child reads what the parent had at the fork |
| Isolation.ForkIsolatesParent | src/kern/memory.c:327-388 | after a clone and any stores through the child the parent reads what it had |
| SpaceRuns.RunReady | src/kern/memory.c:327-547 | runs of stores, mappings, flag changes, clones and kernel page use keep the tables a tree, mapped pages private and the free list exact |
| SpaceRuns.RunUnnoticed | src/kern/memory.c:327-547 | in every such run a space translates and reads the same unless something is done to that very space |
| SpaceRuns.ForkIsolates | src/kern/memory.c:327-547 | so a child left alone reads what the parent had at the fork, whatever happens elsewhere |
| Boot.MapKernel | src/kern/memory.c:179-213 | the loops fill the three tables word for word |
| Boot.DirectMap | src/kern/memory.c:179-213 | devices and RAM translate to their own addresses for the kernel alone: text not writable, read-only data neither writable nor executable, the rest not executable |
| Boot.LinkFreePages | src/kern/memory.c:244-261 | the loop links consecutive pages and ends the list |
| Boot.BootFree | src/kern/memory.c:244-261 | the boot free list is well formed if and only if a page is left for it |
| Boot.MemoryInit | src/kern/memory.c:141-274 | panics exactly if the image exceeds a megapage or the initial heap does not fit in RAM; otherwise the manager's invariant holds with every page past the heap free and clean, if there is one |
| Boot.HeapEndIs | src/kern/memory.c:226-233 | the initial heap ends at a page boundary at least 256 bytes and less than a page more after the image |
| Boot.BootMappable | src/kern/memory.c:244-261 | with three pages left any user page can be mapped right after boot |
| Heap.EzHeap.constructor | src/kern/ezheap.c:39-45 | the arena is the given range |
| Heap.EzHeap.Kmalloc | src/kern/ezheap.c:47-82 | arena, address and page use are those of the request function; a panic exactly for a size over a page that does not wrap, or with room neither in the arena nor in the page allocator |
| Heap.HoldsRequest | src/kern/ezheap.c:52-56 | a block holds what was asked for if and only if rounding up does not wrap |
| Heap.RequestExactly | src/kern/ezheap.c:52-81 | when a request is refused, when it takes a page, where the block lies, and that the arena moves to the new page exactly if more is left there |
| Heap.KeepsLarger | src/kern/ezheap.c:70-81 | of the old and the new remainder the heap keeps the larger |
| Heap.PerformHeap | src/kern/ezheap.c:47-82 | the heap's and the page allocator's code take any step of such a run |
| Heap.RunKeeps | src/kern/ezheap.c:47-82 | every run of kmalloc, page allocation and page freeing keeps the heap invariant |
| Heap.BlocksSafe | src/kern/ezheap.c:47-82 | in every run all blocks are 16-byte aligned, disjoint, inside heap memory and clear of every page the heap does not own, and free, owned and other pages partition the pool |
| Bytes.U32Stored | src/util/mkfs.c:55-65 | little-endian words read back and do not disturb each other |
| Bytes.CutPadded | src/util/mkfs.c:102 | comparing a stored name gives the name back, up to 32 characters |
| Disk.IoLit.Read | src/kern/io.c:168-189 | the next bytes, short only at the end |
| Disk.IoLit.Write | src/kern/io.c:211-232 | an overlay at the position, short only at the end |
| Disk.IoLit.SetPos | src/kern/io.c:350-362 | any position up to the size |
| Kfs.FileSystem.FsMount | src/kern/kfs.c:143-172 | the boot block is the disk's first, all files closed; errors exactly for no device or a short one |
| Kfs.FileSystem.FsOpen | src/kern/kfs.c:195-250 | the first entry with the name decides the result, with each error exactly in its case |
| Kfs.FileSystem.AllocateFile | src/kern/kfs.c:594-613 | the first unused slot, set to position 0 and the inode's length |
| Kfs.OneTooMany | src/kern/kfs.c:318-448 | a file on inode number num_inodes, which the test at 595 lets through, can be neither read nor written |
| Kfs.FileSystem.FsClose | src/kern/kfs.c:264-274 | the slot is free again, no other changes |
| Kfs.FileSystem.FsSetpos | src/kern/kfs.c:717-733 | any position up to the file size, else an error and no change |
| Kfs.FileSystem.UpdateInode | src/kern/kfs.c:769-784 | the inode's block is buffered, or an error exactly if it is not wholly on the disk |
| Kfs.FileSystem.UpdateDataBlock | src/kern/kfs.c:799-817 | the data block is buffered, likewise |
| Kfs.FileSystem.WriteBack | src/kern/kfs.c:832-879 | a block is overlaid at its offset |
| Kfs.FileSystem.FsRead | src/kern/kfs.c:418-525 | every requested byte up to the end of the file and the new position, or an error exactly if a needed block fails |
| Kfs.FileSystem.ReadBlocks | src/kern/kfs.c:473-517 | the loop returns the bytes of the file's block space |
| Kfs.FileSystem.IoReadFull | src/kern/io.c:59-75 | reading in full equals one read, which is never short before the end of the file |
| Kfs.FileSystem.FsWrite | src/kern/kfs.c:295-398 | disk, position and result are those of the write function |
| Kfs.FileSystem.WriteBlocks | src/kern/kfs.c:339-381 | the loop, block by block, is the write loop function |
| KfsWrites.LoopOverlays | src/kern/kfs.c:339-381 | the loop overlays exactly the bytes that fit the file's blocks |
| KfsWrites.LoopSpins | src/kern/kfs.c:365-380 | a request of 4 GiB or more whose residue fits never returns |
| KfsWrites.WriteMeaning | src/kern/kfs.c:295-398 | a write returns min(n, room), overlays exactly those bytes, changes no other file, inode or the boot block; it fails to return if and only if n is at least 4 GiB with a fitting residue |
| KfsWrites.WriteThenRead | src/kern/kfs.c:295-525 | a following seek and read return the overlay clipped to the file length |
| KfsErrors.ReadErrExactly | src/kern/kfs.c:418-525 | on every disk a read fails exactly if it needs an inode or a block that is not there, not counted or off the disk, and otherwise returns all there is up to the end of the file |
| KfsErrors.LoopOutcome | src/kern/kfs.c:339-381 | on every disk the write loop fails exactly if a block to receive a byte is off the disk, and otherwise writes all that fits |
| KfsErrors.WriteErrExactly | src/kern/kfs.c:295-398 | the same for a whole write, with its result and position |
| KfsErrors.FailsAfterPrefix | src/kern/kfs.c:339-381 | a write that fails at a block has stored exactly what a write of the bytes before that block stores |
| Mkfs.BuildBoot | src/util/mkfs.c:87-106 | one directory entry per file with its padded name and own inode number, and the three counts |
| Mkfs.BuildInode | src/util/mkfs.c:117-131 | consecutive block numbers and the length |
| Mkfs.BuildInodes | src/util/mkfs.c:108-135 | running block numbers over all files |
| Mkfs.WriteData | src/util/mkfs.c:155-157 | the file's bytes in whole blocks |
| Mkfs.MakeImage | src/util/mkfs.c:87-158 | the whole image: boot block, inodes and data at their places |
| ImageRoundTrip.OpensByName | src/kern/kfs.c:195-214 | for names distinct in 32 characters, a name finds its own file |
| ImageRoundTrip.ReadsBytes | src/kern/kfs.c:418-525 | a read of a file found in place returns its own bytes |
| ImageRoundTrip.ReadsInPieces | src/kern/kfs.c:418-525 | any sequence of read sizes returns the file's bytes in order to its end |
| ImageRoundTrip.LastFails | src/util/mkfs.c:119-157 | the last file with contents behind a whole-block file cannot be read |
| ImageRoundTrip.RoundTripIff | src/util/mkfs.c:87-158 | every file reads back if and only if no whole-block file precedes a file with contents |
| ImageRoundTrip.ImageWellFormed | src/util/mkfs.c:108-158 | such an image meets what the theorems about writing need |
| ImageRoundTrip.BuildAndRead | src/kern/test_kfs.c:185-215 | building, mounting, opening by name and reading return the file |
| Crlf.Concat | src/kern/io.c:400-417 | a transducer run on a split stream is the run on its parts |
| Crlf.ChunkingInvisible | src/kern/io.c:400-417 | the split of a stream into calls shows neither in the output nor in the final bit |
| Crlf.InAfterOut | src/kern/io.c:385-417 | in(out(s)) = in(s) |
| Crlf.OutAfterIn | src/kern/io.c:385-417 | out(in(s)) = out(s) |
| Crlf.Idempotent | src/kern/io.c:385-417 | both maps are idempotent |
| Crlf.InHasNoCr | src/kern/io.c:400-407 | normalised input has no carriage return |
| Crlf.OutIsPaired | src/kern/io.c:409-417 | every CR and LF of normalised output is in a CR LF pair |
| Crlf.SameKernel | src/kern/io.c:385-417 | the two maps identify the same streams |
| Crlf.PlainUnchanged | src/kern/io.c:400-417 | neither map touches text without line ends |
| Crlf.LineByLine | src/kern/io.c:385-417 | line by line, the text is kept and its end, CR, LF or CR LF, becomes LF on input and CR LF on output |
| Terminal.RawIo.WriteAll | src/kern/io.c:77-93 | short writes are repeated; the count is what was accepted, all of it exactly if no write was refused, and a negative result is the code of the write that failed, with a prefix sent |
| Terminal.RawIo.PutChar | src/kern/io.h:243-255 | the character is sent, or the result is the failed write's code, or -EIO if it was not accepted |
| Terminal.IoTerm.constructor | src/kern/io.c:419-433 | both flags start clear |
| Terminal.IoTerm.Write | src/kern/io.c:609-718 | as long as the device accepts something, the bytes reaching it and the flag are the output transducer's, for any short writes, and the result is len, or len - 1 exactly if a leading LF was skipped; a negative result is the code of the write that failed, with a prefix of that output sent |
| Terminal.IoTerm.Normalize | src/kern/io.c:573-599 | the in-place pass is the input transducer, the write pointer never passing the read pointer |
| Terminal.IoTerm.Read | src/kern/io.c:545-607 | the input transducer on what was taken from the device, at least one byte, with at most two device reads; it never returns exactly if there is no room or what is still to come yields no character; a negative result is the code of the failed read, and nothing is lost |
| Terminal.IoTerm.WriteChunks | src/kern/io.c:609-718 | for every split of a stream into writes and every device, what reaches it and the final bit are the output transducer's on the whole stream, and a prefix of it when a write fails |
| Terminal.IoTerm.ReadChunks | src/kern/io.c:545-607 | for every sequence of reads and every device, the results put together are the input transducer's on what was consumed; it ends early only after a failed read, for want of room, or with everything delivered |

## Left out

- Memory.MemoryManager.WalkPt: and the operations above it are stated for addresses under root index 3, where all user addresses lie; the original does not check the address.
- Memory.MemoryManager.AllocAndMapPage: under root index 3 only, as WalkPt.
- Memory.MemoryManager.AllocAndMapRange: under root index 3 only, as WalkPt.
- Memory.MemoryManager.FreePage: for a page that no table refers to, as the original asks of its callers.
- Kfs.FileSystem.FsWrite: for requests whose loop ends; `LoopSpins` shows that the others never return.
- Kfs.FileSystem.WriteBlocks: likewise for requests whose loop ends.
- Kfs.FileSystem.FsOpen: for a boot block with at most 63 entries; with more the original reads past the block.
- Mkfs.MakeImage: for what the builder's arrays hold (63 files, 1023 listed blocks each); command line, name prefix stripping and messages are not modelled, and the bytes behind the end of a file in its last block are left open.
- Terminal.IoTerm.Write: once the device has answered a write with zero bytes accepted, the original goes on from where it is, and of the output only that nothing is taken back is stated.
- Terminal.IoTerm.WriteChunks: likewise after a write of zero bytes.
- Boot.MemoryInit: that the loader has put the image, with zeroed tables, at the beginning of zeroed RAM is a precondition.
- Locks: the buffer handling of vioblk.c and virtio.c is device-side and not part of this model.
- Timer: the conversion of seconds and milliseconds to ticks is not modelled.
- `uart_read`, `uart_write`, `thread_spawn`, `thread_exit`, `thread_join` and `thread_join_any` appear as the steps of their step systems, built from the methods' functions, not as methods of their own.
- `memory_space_create`, `memory_space_reclaim`, `walk_and_free_user`, `memory_validate_*` and the page-fault path: the first aliases the main tables, the freeing walk does not descend, and the validators test constants.
- Freeing of stacks in `suspend_self`, stack anchors and trap frames.
- `iowrite` stacked on a terminal object, whose skipped LF is not counted; terminal line editing (`ioterm_getsn`) and formatted output.
- uart_close, com0 polling output and line-status details other than DR, THRE and OE.
- Reference counts of io objects, processes, system calls, exec and ELF loading, device table, string functions: easier, or dependent on parts not modelled.
- Assembly, CSR access, PLIC, sfence and address-space identifiers; the translation cache is taken to be coherent.
