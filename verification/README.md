# Proofs about the database and the kernel

A model, in Dafny, of the parts of this repository whose correctness spans
several functions and every run: the append-only key-value database
(`libkvdb/kvdb.c`) and, from the kernel, the memory allocator, the spinlocks,
the semaphores and the scheduler, the trap chain, the terminal, and the block
file system. Each module holds specification functions, the methods that follow
the code (in place on arrays and fields, with its loops) proved against those
functions, and the theorems about whole runs.

| files | subject |
|---|---|
| `Options`, `Bytes`, `OsFile` | options, bytes, C strings, hexadecimal conversion; the POSIX file the database works on |
| `KvLog`, `Kvdb`, `KvRuns` | the log format and recovery; the database code; durability over runs with crashes |
| `HeapView`, `HeapLaws`, `HeapLinks`, `Heap` | the heap as blocks in address order; what one call makes of them, block by block; the linked headers that represent it; the allocator code |
| `SpinLocks`, `Lock` | spinlocks, one shared access per step, with interrupts; the lock code as one CPU runs it |
| `KmtModel`, `KmtMachine`, `KmtRuns`, `Kmt` | semaphores and round robin as functions; the kernel machine and its invariant; theorems over runs; the objects |
| `ProducerConsumer` | the producer and consumer tasks on two semaphores |
| `TrapChain` | registration and dispatch of trap handlers |
| `LineEdit`, `Tty`, `Screen` | the line discipline; the input ring; the scrolling screen |
| `FsModel`, `FsInv`, `FsOps`, `FsRuns`, `FsPaths`, `FsResults`, `FsReplay`, `FsLimits`, `BlkFs` | the file system as values; its invariant; what each call keeps; theorems over runs; where paths lead; what the calls return; contents over runs; the calls that go wrong; the code |

Verify with `dafny verify dfyconfig.toml`.

Some promises of the repository do not hold of the code. Each has an input that
shows it, and the exact condition is proved instead.

- `kvdb_get` is documented to return null for a key that is not there
  (`libkvdb/kvdb.c:332`). The walk leaves its loop at the oldest record before it
  compares keys, so an absent key gets the oldest value, as after a single put in
  `KvRuns.AbsentKeyAnswered`.
  The documented answer is given if and only if the log has no record
  (`KvLog.AbsentKeyGetsNothingIffEmpty`, `KvRuns.NeverPut`). Every key ever put
  still gets its last committed value (`KvRuns.Durable`), also when a put was
  dropped because the oldest record happened to hold its value
  (`KvRuns.AgreesAfterDroppedPut`), while the file is short enough for the first
  seek of the walk to fit an `int`: exactly then.
- `vfs_link` counts the new link before it looks the new directory up, and
  `vfs_open` counts the reference before it looks for a descriptor. The counts
  stay exact if and only if the directory is there with a slot left
  (`FsOps.LinkKeepsIff`), and the table has a free slot (`FsOps.OpenKeepsIff`).
  `FsLimits.MissingDirectoryBreaksLink` and `FsLimits.FullTableBreaksOpen` reach the
  failures from an empty device.
- `vfs_link` returns 0 for a new name that a directory has already. The name is entered
  behind the directory's and never found: after a link that returns 0 the new path leads to
  the inode of the old one if and only if it led nowhere before and its directory had a free
  slot (`FsPaths.LinkedPath`; `FsLimits.LinkOntoDirectory` is the input).
- `vfs_lseek` refuses offsets outside the block, except that SEEK_CUR sums
  unsigned values: `FsOps.LseekKeepsIff` says exactly when the offset stays in range,
  and `FsLimits.SeekBelowZero` leaves it.
- `vfs_read` clips a read at the end of file by an unsigned difference. The read stays
  inside the file's block if and only if it starts at or before the end of file
  (`FsOps.ReadStaysInsideIff`; `FsLimits.ReadPastEnd` starts beyond).

## Model

| member | source | states |
|---|---|---|
| Bytes.FormatWidth | libkvdb/kvdb.c:145-146 | a length fits the four columns of `%4.x` if and only if it is below 65536, and the column holds no commit byte and no NUL |
| Bytes.FormatColumns | libkvdb/kvdb.c:145-146 | the four columns of a length with hexadecimal digits a, b, c, d are those digits in lower case, blanks before the first that counts, and four blanks for zero |
| Bytes.ScanFormat | libkvdb/kvdb.c:275-276 | `%x` reads back what `%4.x` wrote, for every length from one up and whatever non-hexadecimal text follows |
| KvLog.DecodeEncode | libkvdb/kvdb.c:258-319 | walking back by the length columns from the end of any concatenation of records, with up to two junk bytes before it, gives exactly those records in order |
| KvLog.LookupNewest | libkvdb/kvdb.c:303-309 | the walk answers the newest record of a key that has one |
| KvLog.LookupAbsent | libkvdb/kvdb.c:303-309 | for a key that no record has it answers the oldest value, and nothing only on the empty log |
| KvLog.AbsentKeyGetsNothingIffEmpty | libkvdb/kvdb.c:327-332 | an absent key gets the documented null answer if and only if the log is empty |
| KvLog.AbsentKeyCounterexample | libkvdb/kvdb.c:305-309 | the walk over a one-record log answers another key with its value |
| KvLog.RecoveredIs | libkvdb/kvdb.c:39-78 | a file of up to two bytes or with a commit byte before its last is left alone; any other is cut after its last commit byte past offset zero and ended with a NUL, or emptied when it has none; a stop before the truncation has only put the NUL there |
| KvLog.RecoveryIdempotent | libkvdb/kvdb.c:39-78 | recovering twice is recovering once, also when the first recovery stopped between its write and its truncation |
| KvLog.CleanIsStable | libkvdb/kvdb.c:66-78 | recovery leaves a file of whole records alone |
| KvLog.TornAppendIff | libkvdb/kvdb.c:39-78 | what a torn append left is undone by recovery if and only if no commit byte was written past offset zero, or the log was empty and at most two bytes remain |
| KvLog.CommittedAppend | libkvdb/kvdb.c:137-172 | once the commit byte is written, with or without its terminator, recovery gives the old log and the whole new record |
| Kvdb.CrashHandle | libkvdb/kvdb.c:39-64 | the backward scan, the write and the truncation leave the file cut after its last commit byte past offset zero, or empty, and the recursion into the check ends |
| Kvdb.CrashCheck | libkvdb/kvdb.c:66-78 | the file becomes its recovered form and the position is left before the last byte |
| Kvdb.PutAppends | libkvdb/kvdb.c:137-201 | a put of two non-empty strings adds nothing when a get answers the value already, else key, value and the two length columns, each with a NUL, and the commit byte with its NUL exactly while the file is below 2^31 bytes |
| Kvdb.WriteStr | libkvdb/kvdb.c:128-135 | appends the string and its NUL, but nothing after an empty string, and returns the length |
| Kvdb.WriteLog | libkvdb/kvdb.c:137-172 | appends the encoded record and returns 1 if and only if both strings are non-empty and the file was below 2^31 bytes, else appends only the part before the commit byte and returns 0 |
| Kvdb.ReadColumn | libkvdb/kvdb.c:261-265 | seeks back to one length column, reads its four characters and counts the errors |
| Kvdb.ReadLengths | libkvdb/kvdb.c:259-278 | from the end of a record reads the two lengths it was written with, and flags the seek that leaves the `int` range |
| Kvdb.ReadStrings | libkvdb/kvdb.c:280-301 | reads the value and the key those lengths span |
| Kvdb.Round | libkvdb/kvdb.c:258-319 | one round reads the record before the position, stops on the key or on the oldest record, and otherwise stands at the end of the record before |
| Kvdb.LocklessGet | libkvdb/kvdb.c:230-325 | recovers the file and returns what the newest-first walk over its records answers, or nothing on an empty or too long file |
| Kvdb.LocklessPut | libkvdb/kvdb.c:176-201 | recovers, then appends the record unless a get already answers the value; returns 0 if and only if it did or both strings are non-empty and the recovered file is below 2^31 bytes, else -1 |
| Kvdb.Db.Open | libkvdb/kvdb.c:80-108 | an open database stays as it is; a closed one gets the descriptor and, unless that is 0, a recovered file; a failing open returns the error with the mutex still held |
| Kvdb.Db.Close | libkvdb/kvdb.c:110-126 | a closed database refuses, an open one is closed and its file untouched |
| Kvdb.Db.Put | libkvdb/kvdb.c:203-228 | -1 and no change when closed, else the whole new file, and 0 if and only if a get answered the value already or both strings are non-empty and the recovered file is below 2^31 bytes |
| Kvdb.Db.Get | libkvdb/kvdb.c:327-348 | null and no change when closed, else the recovered file and its answer |
| KvRuns.Step | libkvdb/kvdb.c:137-201 | every put, get, reopen, append torn at any byte and repair torn between write and truncation keeps the relation between the file and the map of committed puts |
| KvRuns.RunHolds | libkvdb/kvdb.c:137-325 | the relation holds after every run |
| KvRuns.AgreesAfterDroppedPut | libkvdb/kvdb.c:182-186 | a put dropped because the walk already answers its value, be it with the oldest record of another key, is as good as written |
| KvRuns.Durable | libkvdb/kvdb.c:230-325 | after any run a get of any committed key returns its last committed value, if and only if the file is short enough for the first seek |
| KvRuns.NeverPut | libkvdb/kvdb.c:327-332 | after any run a key never committed gets null if and only if nothing was committed or the file is too long for the first seek |
| KvRuns.AbsentKeyAnswered | libkvdb/kvdb.c:327-332 | after the run of one put of a key, a get of another, never put, answers its value |
| KvRuns.PutThenGet | libkvdb/kvdb.c:176-201 | after any run a put returns 0 if and only if a get straight after it answers the value put, files too long for any answer apart |
| KvRuns.PutSucceedsIff | libkvdb/kvdb.c:153-190 | after any run a put returns 0 if and only if the get before it answered its value, or key and value are non-empty and the recovered file is below 2^31 bytes; else -1 |
| KvRuns.CommitByteInTornKey | libkvdb/kvdb.c:46-54 | a torn first put of a key with a commit byte in it leaves bytes that recovery keeps |
| HeapView.PayloadsDisjoint | kernel/src/alloc.c:15-23 | in a tiled heap payloads are pairwise disjoint, cover no header and stay in the heap |
| HeapView.FindKeeps | kernel/src/alloc.c:162-188 | finding a block, with the cuts and carvings it makes, keeps the blocks tiling the heap |
| HeapView.FindContract | kernel/src/alloc.c:162-188 | the block handed out is the asked CPU's, new, at least as large as asked and less than a header and 128 bytes larger; every other live block stays as it was |
| HeapView.Aligned | kernel/src/alloc.c:9-11 | every block starts at a multiple of eight from the start of the heap |
| HeapView.CarvesAtMostOnce | kernel/src/alloc.c:53-57 | after a carving the second scan ends at the carved block, for requests below 2 GiB |
| HeapView.FreeKeeps | kernel/src/alloc.c:304-340 | freeing keeps the blocks tiling the heap |
| HeapView.FreeContract | kernel/src/alloc.c:304-340 | freeing ends the one live block at the pointer, if there is one, and leaves every other as it was |
| HeapView.FreeTwice | kernel/src/alloc.c:318-322 | freeing twice is freeing once |
| HeapView.FreeCapped | kernel/src/alloc.c:254-276 | no block that merging made is larger than 4096 bytes |
| HeapView.ReallocNeverCarves | kernel/src/alloc.c:162-188 | asking for as much again on the owning CPU after a free is served from its list, never from the tail |
| HeapLaws.AlignIs | kernel/src/alloc.c:9 | the aligned size is the next multiple of eight, even after a multiple |
| HeapLaws.CarveSizeIs | kernel/src/alloc.c:53-57 | what is carved is the larger of the request and 4096 bytes, and 4096 bytes for a request of 2 GiB or more |
| HeapLaws.LowestFitServed | kernel/src/alloc.c:116-188 | the lowest free block of the CPU that fits is handed out, cut in two exactly when the rest has 128 bytes after its header, and no other block changes |
| HeapLaws.ElseTailServed | kernel/src/alloc.c:53-88 | with no fitting block the front of the tail is carved and handed out, 4096 bytes of it or as many as asked for, and the call halts exactly when the tail is shorter than that and a header |
| HeapLaws.HugeNeverServed | kernel/src/alloc.c:53-57 | a request of 2 GiB or more that no block fits carves the tail away and halts |
| HeapLaws.FreeMerges | kernel/src/alloc.c:254-340 | freeing a live block gives one free block of the summed size in the place of it, of the block after it where that is free, of the same CPU and fits in 4096 bytes with it, and of the block before it where the same holds of the block so grown; all others stay |
| HeapLaws.MergesIff | kernel/src/alloc.c:254-340 | afterwards no block starts where the next one did, and none where the freed one did, exactly under those conditions |
| HeapLaws.FreeElse | kernel/src/alloc.c:304-322 | a pointer at which no block is live is ignored |
| HeapLaws.ReallocKeepsTail | kernel/src/alloc.c:162-188 | right after a free, a request of the owning CPU for no more is served, and the tail is as before the free |
| HeapView.StepSound | kernel/src/alloc.c:224-340 | one call keeps the heap tiled and its live blocks exactly those handed out and not freed |
| HeapView.HeapPartition | kernel/src/alloc.c:30-51 | from the heap of `pmm_init` on, after any interleaving of calls from four CPUs the blocks tile the heap and the live ones are exactly those handed out and not freed since |
| HeapView.InitialSound | kernel/src/alloc.c:30-51 | the one free tail block tiles the heap and nothing is live |
| HeapLinks.NextThenPrev | kernel/src/alloc.c:15-23 | the next and previous block of a list are inverse |
| HeapLinks.SplitRep | kernel/src/alloc.c:116-136 | the header writes of a cut represent the list with the block cut in two |
| HeapLinks.CarveRep | kernel/src/alloc.c:53-88 | the header writes of a carving represent the list with the new block at its end |
| HeapLinks.JoinRep | kernel/src/alloc.c:254-276 | the header writes of a merge represent the list with the two blocks made one; the swallowed header is left with magic 0 |
| HeapLinks.HeadIffNone | kernel/src/alloc.c:72-82 | a list is empty from the front exactly when it is from the back |
| Heap.Pmm.constructor | kernel/src/alloc.c:30-51 | one free tail block over the whole heap and four empty lists |
| Heap.Pmm.DivideSmall | kernel/src/alloc.c:116-136 | cuts the block when the rest is worth one, and leaves the lists well linked |
| Heap.Pmm.NewSmallBlock | kernel/src/alloc.c:53-88 | carves at least 4096 bytes for the CPU, or reports that the tail is too small, exactly then |
| Heap.Pmm.FindSmall | kernel/src/alloc.c:162-188 | the list walk with its carving and recursion hands out the first block in address order that fits, and gives up exactly when the tail cannot be carved |
| Heap.Pmm.Kalloc | kernel/src/alloc.c:224-252 | the region handed out is aligned, zeroed and large enough, and every byte of every other live payload is as before |
| Heap.Pmm.MergeSmall | kernel/src/alloc.c:254-276 | merges the block with its successor when they are adjacent, both free and not too large together, else changes nothing |
| Heap.Pmm.Kfree | kernel/src/alloc.c:304-340 | frees the live block of the pointer and merges it with both neighbours in its list as `HeapLaws.FreeMerges` says; a pointer to anything else that does not read as a block in use is ignored |
| SpinLocks.StepKeeps | kernel/src/lock.c:7-76 | every single access, call, interrupt and return keeps the invariant of CPUs and locks |
| SpinLocks.MutualExclusion | kernel/src/lock.c:48-76 | at most one CPU is between the exchange that wins a lock and the one that releases it |
| SpinLocks.HoldingIsExact | kernel/src/lock.c:30-36 | what `holding` returns is whether this CPU holds the lock, though it reads two fields another CPU may be writing |
| SpinLocks.NestingAndInterrupts | kernel/src/lock.c:7-28 | outside the calls the counter is the number of held locks, interrupts are off while it is positive, and at zero they are as they were before the outermost lock |
| SpinLocks.NoInterruptWhileHolding | kernel/src/lock.c:48-61 | a CPU that holds a lock takes no interrupt |
| SpinLocks.FailsOnlyOnMisuse | kernel/src/lock.c:54-71 | an assertion fails only on locking a held lock or unlocking one not held |
| SpinLocks.SpinsOnOthersOnly | kernel/src/lock.c:58 | a CPU spins on a lock only while another holds it |
| Locks.Cpu.PushCli | kernel/src/lock.c:7-14 | counts up with interrupts off, and saves the flag when outermost |
| Locks.Cpu.PopCli | kernel/src/lock.c:16-28 | counts down and restores the saved flag when outermost; its assertions fail exactly with interrupts on or nothing pushed |
| Locks.Cpu.Holding | kernel/src/lock.c:30-36 | tells whether this CPU has the lock and leaves the interrupt flag and the count as they were |
| Locks.Cpu.Lock | kernel/src/lock.c:48-61 | repeats the exchange until the lock is free, takes it and pushes once; fails exactly on a lock this CPU already has |
| Locks.Cpu.Unlock | kernel/src/lock.c:63-76 | gives the lock back and pops once; fails exactly when this CPU does not have it |
| Locks.LockAlone | kernel/src/lock.c:48-61 | a CPU that makes the thirteen accesses of `spin_lock` alone on a free lock ends with what the method leaves |
| Locks.UnlockAlone | kernel/src/lock.c:63-76 | and one that makes the twelve accesses of `spin_unlock` alone ends with what that method leaves |
| KmtModel.TargetFound | kernel/src/handler.c:62-76 | a scan that passes over what is not runnable ends at the task the switch makes current |
| KmtModel.PickNearest | kernel/src/handler.c:70-76 | the choice is the runnable task at the least cyclic slot distance |
| KmtModel.CloserAfterPick | kernel/src/handler.c:70-76 | any other choice brings the scan strictly closer to a waiting ready task |
| KmtModel.PickNone | kernel/src/handler.c:70-76 | nothing is chosen if and only if no ready task is pinned to the CPU |
| KmtMachine.StepKeeps | kernel/src/sem.c:26-113 | every wait, signal, recheck, context save, switch and creation keeps the kernel invariant, a signal between the unlock and the yield included |
| KmtMachine.SwitchFindsReady | kernel/src/handler.c:62-76 | at a switch a ready task pinned to the CPU exists and is chosen |
| KmtRuns.NoLostWakeup | kernel/src/sem.c:26-113 | in every reachable state a semaphore with waiters has a value of at most the number of tasks dequeued but not yet rechecked |
| KmtRuns.SwitchedInGoesOn | kernel/src/sem.c:80-86 | a task switched to past its yield can make its recheck, one before it can yield and then has that recheck to make, and one outside a wait can enter any |
| KmtRuns.WaitingIffQueued | kernel/src/sem.c:61-81 | a task is WAITING if and only if it sits in a queue, and then at exactly one place of one queue |
| KmtRuns.QueueFits | kernel/src/sem.c:68-71 | the waiter array is never filled up to the bound at which the code halts |
| KmtRuns.NeverOnTwoCpus | kernel/src/handler.c:91-96 | no task is current on two CPUs |
| KmtRuns.SwitchIsSafe | kernel/src/handler.c:62-101 | every switch runs a task that was ready, is pinned to this CPU and is current on no other |
| KmtRuns.SemaphoreConserved | kernel/src/sem.c:51-98 | value plus completed waits equals initial value plus signals, and the value never drops below zero |
| KmtRuns.FirstInFirstWoken | kernel/src/sem.c:61-103 | in every run, for every semaphore, the tasks that found no unit, in order of time, are the tasks signals made ready, in order of time, followed by those still queued |
| KmtRuns.UnitsCounted | kernel/src/sem.c:51-98 | the value is the value before the run plus the signals minus the passes that got out of the wait |
| KmtRuns.BoundedWaiting | kernel/src/handler.c:62-76 | a task that stays ready is chosen within 25 switches of its CPU |
| KmtRuns.RoundRobin | kernel/src/handler.c:62-76 | a switch takes the ready task pinned to its CPU whose slot comes first after that of the old current task, counting round the 25 slots |
| Kmt.Semaphore.Pass | kernel/src/sem.c:51-86 | one locked pass takes a unit, or shifts the waiter array in place, puts the task before all others in it and marks it WAITING |
| Kmt.Semaphore.Signal | kernel/src/sem.c:95-113 | adds a unit, takes the last waiter of the array, the oldest, off it and readies it and no other |
| Kmt.Kernel.Create | kernel/src/kmt.c:36-72 | the task goes to the first free slot, ready, under that slot's number; a full table takes none |
| Kmt.Kernel.ContextSave | kernel/src/handler.c:45-56 | the current task, if running, becomes ready, and no other changes |
| Kmt.Kernel.ContextSwitch | kernel/src/handler.c:62-121 | the loop over the slots makes the round-robin choice current on this CPU and running, and changes no other CPU |
| ProducerConsumer.StepKeeps | kernel/src/os.c:16-34 | every pass of a producer or consumer keeps the accounting of the two semaphores and the output |
| ProducerConsumer.BalancedOutput | kernel/src/os.c:12-35 | with any number of producers and consumers every prefix of the output has between 0 and 3 more `(` than `)` |
| ProducerConsumer.OutputIsPrinted | kernel/src/os.c:16-34 | the output is one parenthesis for each turn of a thread at its print, in that order |
| ProducerConsumer.HeldUpIff | kernel/src/os.c:16-34 | in every reachable state a producer is held up exactly when all three slots are filled or in the hands of threads, and a consumer exactly when all are free or in such hands |
| TrapChain.Os.OnIrq | kernel/src/os.c:263-290 | the in-place shift enters the handler before the first of its sequence number or above, and fails exactly from the tenth on |
| TrapChain.Os.Trap | kernel/src/os.c:246-261 | the matching handlers are called in order, their ids recorded, and the last context returned is the result |
| TrapChain.CalledInOrder | kernel/src/os.c:251-257 | a trap calls the handlers whose event is 0 or its own, all of them and no others, at strictly increasing places of the table |
| TrapChain.CalledExactly | kernel/src/os.c:251-290 | after any registrations the ids called are those registered for event 0 or the trap's own, each as often as registered |
| TrapChain.LastReturnedIs | kernel/src/os.c:250-257 | the result is the context of the last call that returned one, and null when none did |
| TrapChain.SortedExactly | kernel/src/os.c:263-290 | after any registrations the table is sorted and holds exactly the handlers registered |
| TrapChain.LaterFirst | kernel/src/os.c:269-273 | among handlers of one sequence number the later registered comes first |
| TrapChain.SaveFirstSwitchLast | kernel/src/kmt.c:21-26 | after the two registrations of `init` and any more the context switch is last, and the context save first if and only if no other handler asks for INT_MIN |
| TrapChain.EveryTrapSwitches | kernel/src/kmt.c:23-26 | every trap then saves first, switches last and returns the scheduler's context |
| LineEdit.SegmentsMakeStream | kernel/src/devices/tty/tty.c:65-83 | the newline-ended segments and the open one make up the keystrokes |
| LineEdit.LinesAreEditedSegments | kernel/src/devices/tty/tty.c:65-83 | the k-th line is the k-th segment of keystrokes edited on its own: no backspace reaches a finished line |
| LineEdit.Editing | kernel/src/devices/tty/tty.c:65-83 | text without backspaces is kept, a backspace takes out the character before it, and nothing when none is left |
| LineEdit.RunAccounted | kernel/src/devices/tty/tty.c:187-206 | after any interleaving of keystrokes and reads, the lines read and then those queued are the lines typed, and the queue holds one for each unit of `cooked` and each admitted reader |
| LineEdit.ReadsInOrder | kernel/src/devices/tty/tty.c:187-206 | the k-th read takes exactly the k-th line typed, and a reader let in always finds a finished line |
| LineEdit.LinesCounted | kernel/src/devices/tty/tty.c:65-83 | the units of `cooked` are the newlines typed minus the readers let in, and each of these takes one line |
| Tty.Tty.Enqueue | kernel/src/devices/tty/tty.c:12-19 | appends a byte to the ring, wrapping around, and panics exactly when it is full |
| Tty.Tty.PopBack | kernel/src/devices/tty/tty.c:21-32 | takes the last byte back unless the ring is empty or ends in a zero |
| Tty.Tty.Cook | kernel/src/devices/tty/tty.c:65-83 | a keystroke edits the open line or finishes it and adds a unit to `cooked`; a zero is queued without a unit; it panics exactly when the ring overflows |
| Tty.ZeroKeyMisfits | kernel/src/devices/tty/tty.c:78-79 | after a zero keystroke the queue holds no sequence of lines any more |
| Tty.Tty.TakeLine | kernel/src/devices/tty/tty.c:194-203 | consumes one line and its zero across the end of the ring, copies what fits and counts the whole line |
| Tty.Tty.Read | kernel/src/devices/tty/tty.c:187-206 | returns the oldest finished line and its full length, and leaves the rest of the queue and of the buffer as they were |
| Screen.PutWindow | kernel/src/devices/tty/tty.c:129-161 | what each character does to the visible cells and the cursor, scrolling included, is what it does to the end of an endless tape of rows |
| Screen.Screen.UpdScrollup | kernel/src/devices/tty/tty.c:34-42 | the rows move up by one, the last is blank, and the cursor is at its start |
| Screen.Screen.Putc | kernel/src/devices/tty/tty.c:129-161 | the cells stay the last rows of the tape fed the same character, the cursor stays inside, and every cell stays marked for drawing |
| Screen.Screen.Write | kernel/src/devices/tty/tty.c:208-217 | so it is for a whole write |
| Screen.HistoryKept | kernel/src/devices/tty/tty.c:34-42 | what has scrolled off never changes, whatever is output |
| Screen.PlainText | kernel/src/devices/tty/tty.c:60-63 | text without control characters lies on the tape as written, so the screen shows its last rows |
| Screen.EchoShowsLine | kernel/src/devices/tty/tty.c:257-263 | the echo of the accepted keystrokes of a line shows the line as edited, while it stays on blank cells of the screen |
| FsInv.WalkOk | kernel/src/fsops.c:72-220 | a walk along a path stays in live directories, and what it finds is an entry of the asked name and kind |
| FsInv.ParentIs | kernel/src/vfs.c:509-535 | the directory found by the path without its last name is the one the whole path ended in |
| FsPaths.WalkStep | kernel/src/fsops.c:98-220 | at each name a walk stops if no slot in use has it, else goes by the first that has: down into a directory, or to the end at the last name if that is of the kind asked for |
| FsPaths.WalkThrough | kernel/src/fsops.c:98-220 | a walk whose front leads to a directory ends as the walk of its last name from there |
| FsInv.NodeStep | kernel/src/vfs.c:329-633 | a step on one live inode that stays in its block keeps the whole invariant |
| FsInv.DeathStep | kernel/src/vfs.c:888-899 | so does one that wipes the block of an inode nobody names any more |
| FsInv.BirthStep | kernel/src/fsops.c:240-298 | so does the creation of an inode in a free block |
| FsOps.OpenKeepsIff | kernel/src/vfs.c:599-633 | `open` keeps link counts, reference counts and block ownership exact if and only if a descriptor is free for what it opens |
| FsOps.LinkKeepsIff | kernel/src/vfs.c:355-449 | `link` does if and only if the new name's directory is there and has a slot left |
| FsOps.UnlinkKeeps | kernel/src/vfs.c:487-551 | `unlink` does on every path shorter than the buffer it is copied to |
| FsOps.CloseKeeps | kernel/src/vfs.c:856-907 | `close` does on every descriptor |
| FsOps.UnlinkEndsIff | kernel/src/vfs.c:494-508 | `unlink` frees the file's block if and only if the name was its only one and no descriptor is open on it |
| FsOps.CloseEndsIff | kernel/src/vfs.c:887-899 | `close` frees the file's block if and only if the file has no name and the descriptor was its only one |
| FsOps.MkdirKeeps | kernel/src/fsops.c:240-298 | a new directory keeps them exact |
| FsOps.LseekKeepsIff | kernel/src/vfs.c:767-854 | `lseek` leaves the offset in the block if and only if it is not a SEEK_CUR to at most twelve below zero |
| FsOps.WriteOverwrites | kernel/src/vfs.c:746-765 | a write that fits overwrites the file's bytes, padding a gap left by a seek with zeroes, as a POSIX write of at least one byte does; a write of no bytes beyond the end of file also pads, where POSIX would do nothing |
| FsOps.ReadDelivers | kernel/src/vfs.c:671-690 | a read from an offset at or before the end of file returns what a POSIX read of those bytes returns and moves the offset past them |
| FsOps.ReadStaysInsideIff | kernel/src/vfs.c:676-684 | the length passed to the device stays inside the block if and only if the offset is at or before the end of file |
| FsRuns.StepKeeps | kernel/src/vfs.c:329-907 | every call a careful caller makes keeps the invariant |
| FsRuns.InitialInv | kernel/src/fsops.c:33-69 | a file system just made satisfies it |
| FsRuns.CountsExact | kernel/src/vfs.c:329-633 | after any run a live file's link count is the number of entries naming it, its reference count the number of descriptors open on it, and its block is no other live inode's |
| FsRuns.KeepsItsBlock | kernel/src/vfs.c:856-907 | a file in use keeps its block, and its contents unless the call writes to that very file |
| FsRuns.DiesBlank | kernel/src/vfs.c:888-899 | the call that ends a file's use clears its block and frees it |
| FsRuns.NeverReborn | kernel/src/fsops.c:133-143 | an inode out of use stays so over any run, so its block is cleared only once |
| FsRuns.OpenFileStays | kernel/src/vfs.c:494-508 | a file held open stays readable as it is over any run that does not close the descriptor or write to the file, though its last name be unlinked |
| FsPaths.OpenedPath | kernel/src/vfs.c:553-633 | an open that returns a descriptor leaves its path leading to the inode of that descriptor, found or created |
| FsPaths.OpenBinds | kernel/src/vfs.c:599-633 | the descriptor is the lowest free one of the task, bound to that inode at offset 0; -1 comes of a path that leads to no file and creates none, with nothing changed, or of 256 descriptors in use; the call halts exactly when a file is to be created and no block is free or 110 inodes exist |
| FsPaths.MadeDirectory | kernel/src/vfs.c:245-287 | a mkdir returns 1 if and only if its path leads to a directory afterwards, and 0 when it changes nothing |
| FsPaths.LinkedPath | kernel/src/vfs.c:355-449 | a link returns 0 if and only if the old path leads to a file, the new one to none and its directory is there; the new path then leads to the inode of the old one if and only if it led nowhere and its directory had a free slot |
| FsPaths.UnlinkedPath | kernel/src/vfs.c:487-551 | an unlink returns 0 if and only if its path leads to a file, takes that one name away from its inode and no other, and the path leads nowhere then |
| FsPaths.UnlinkedIsGone | kernel/src/vfs.c:487-551 | so it does after any run from an empty device, whatever names its directory held before |
| FsPaths.PathsStay | kernel/src/vfs.c:329-907 | under any call a path leads where it led, unless the call unlinks the very slot it ends at |
| FsPaths.PathsLast | kernel/src/vfs.c:329-907 | and over any run without such an unlink |
| FsResults.CreateTakes | kernel/src/fsops.c:240-298 | a new inode has one name and the lowest free block, a new file no bytes; its entry comes last in its directory, and no other block or inode changes |
| FsResults.CloseReleases | kernel/src/vfs.c:856-907 | a close returns 1 and releases the descriptor, or 0 when it is not in use |
| FsResults.LseekReturns | kernel/src/vfs.c:767-854 | a seek to an offset from 0 to 4084 sets and returns it; any other changes nothing and returns -1, but for SEEK_CUR to at most twelve below zero, which returns that and leaves the offset 2^64 above |
| FsResults.WriteReturns | kernel/src/vfs.c:692-765 | a write that fits in the block returns its length and moves the offset, and the end of file where that is earlier; any other returns 0 and changes nothing |
| FsResults.ReadReturns | kernel/src/vfs.c:635-690 | a read at or before the end of file returns the bytes from there, the smaller of what was asked for and what is left, and moves the offset past them |
| FsReplay.ReplayOne | kernel/src/vfs.c:692-765 | one call makes of the bytes of a file in use what replaying its write, if it is one to that file, makes of them; a new file is empty |
| FsReplay.ContentsAreReplay | kernel/src/vfs.c:635-765 | after any run from an empty device the bytes of a file in use are those of the writes made to it, replayed in order on an empty file |
| FsReplay.ReadsAreReplay | kernel/src/vfs.c:635-690 | after any run a read delivers the latest bytes written to the file, with zeroes where a seek left a gap |
| FsLimits.FullTableBreaksOpen | kernel/src/vfs.c:599-633 | a task that opened one file 256 times and opens it again gets -1 and leaves a reference too many |
| FsLimits.MissingDirectoryBreaksLink | kernel/src/vfs.c:394-416 | a new file linked into a directory that is not there gets -1 and a link too many |
| FsLimits.SeekBelowZero | kernel/src/vfs.c:814-824 | SEEK_CUR by -1 at offset 0 leaves the offset at 2^64 - 1 |
| FsLimits.ReadPastEnd | kernel/src/vfs.c:676-684 | a seek to 1 in a new file leaves a read whose length runs out of the block |
| FsLimits.LinkOntoDirectory | kernel/src/vfs.c:355-449 | a file linked to the name of a directory gets 0 and a link counted, and the new path leads to no file |
| BlkFs.BlockFs.constructor | kernel/src/fsops.c:33-69 | takes two blocks of the blank device, for the inodes and the root directory |
| BlkFs.BlockFs.FindFreeRdblk | kernel/src/fsops.c:9-31 | occupies the first free block and changes no other, or reports that there is none |
| BlkFs.BlockFs.Lookup | kernel/src/fsops.c:98-220 | the loop over path components and slots ends as the walk does |
| BlkFs.BlockFs.CreateIn | kernel/src/fsops.c:240-298 | takes a block, an inode and a slot for the new name, or halts exactly when there is no block or inode left |
| BlkFs.BlockFs.VfsOpen | kernel/src/vfs.c:553-633 | the new state and result of `open`, whose path `FsPaths.OpenedPath` follows |
| BlkFs.BlockFs.VfsMkdir | kernel/src/vfs.c:245-287 | the new state and result of `mkdir`, whose path `FsPaths.MadeDirectory` follows |
| BlkFs.BlockFs.VfsLink | kernel/src/vfs.c:329-450 | the new state and result of `link`, the count raised before the directory is looked up; `FsPaths.LinkedPath` follows the paths |
| BlkFs.BlockFs.VfsUnlink | kernel/src/vfs.c:452-551 | the new state of `unlink`: the entry dropped by the second scan of the directory is the one the path led to |
| BlkFs.BlockFs.VfsClose | kernel/src/vfs.c:856-907 | the new state and result of `close` |
| BlkFs.BlockFs.VfsRead | kernel/src/vfs.c:635-690 | the bytes and the new offset of `read` |
| BlkFs.BlockFs.VfsWrite | kernel/src/vfs.c:692-765 | the new bytes, size and offset of `write`, or nothing when they do not fit in the block |
| BlkFs.BlockFs.VfsLseek | kernel/src/vfs.c:767-854 | the new offset and result of `lseek`, with the unsigned sum of SEEK_CUR |

## Left out

- Kvdb.Db.Put: a database whose descriptor is 0, because it was never opened or because open(2) returned 0, is excluded: recovery skips descriptor 0 and leaves the position one byte off, so the walk reads misplaced columns.
- Kvdb.Db.Get: a database whose descriptor is 0 is excluded, for the same reason.
- Kvdb.LocklessGet: malloc failures, short writes, and the internals of flock and pthread mutexes are not modelled; a call is one step, and waiting for a held mutex is not modelled.
- Kvdb.WriteLog: keys above 127 bytes and values above 65535 bytes, which overflow the code's buffers, and files of 4 GiB and more are excluded.
- KvRuns.Durable: a put that reaches the disk without its commit byte must have no commit byte of its own in what was written; `KvRuns.CommitByteInTornKey` shows why.
- Bytes.ScanFormat: signs and a `0x` prefix, which `%x` accepts and the format never writes, are not part of the scanner.
- Heap.Pmm.Kalloc: requests within eight bytes of 4 GiB, where the alignment wraps around, are excluded; a request is served with the lock held, so calls are single steps. Where the code halts for lack of memory no region is returned.
- Heap.Pmm.Kfree: memory before the pointer that is no header of the allocator but reads as a block in use is excluded; what the code then does is unbounded.
- `pm_used` is not modelled: allocation adds the aligned request and free subtracts the size after merging.
- SpinLocks.StepKeeps: between two accesses of one CPU any other may run, so the machine is on values, one access per step; memory is sequentially consistent, and a task switch on return from an interrupt is not a step of the lock machine.
- Locks.Cpu.Lock: the other CPU is a counter of failed exchanges after which it gives the lock up; its own accesses are steps of the machine of SpinLocks.
- ProducerConsumer.StepKeeps: only the accounting of the values and the output is modelled. A blocked thread may repeat its pass and sit in a queue twice, so the queues carry no meaning there; queueing is the subject of KmtMachine.
- KmtMachine.StepKeeps: a lock-protected section is one step, and the four idle tasks never wait; `teardown` and the suicide branch of the context save have no callers and are left out.
- Kmt.Semaphore.Pass: the wait loop is modelled pass by pass; the yield between passes is a step of KmtMachine.
- TrapChain.Os.Trap: what a handler returns for an event and a context is a parameter, and what it changes is not modelled.
- LineEdit.RunAccounted: the runs have no zero keystroke; `kernel/src/devices/input/input.c` drops keys that map to zero.
- Screen.Screen.Putc: a display of fewer than two cells is excluded, as is the drawing of cells to the frame buffer and the metadata of a cell, which is always zero.
- BlkFs.BlockFs.Lookup: a path is its sequence of names, each shorter than 32 characters, so the splitting of strings, trailing slashes and the bare root are left out; the sweep of entries whose inode is gone is left out because `FsInv.SlotFacts` shows that the inode of an entry always has a block.
- BlkFs.BlockFs.CreateIn: creating in a directory of 64 used slots, which writes past its array, is excluded.
- BlkFs.BlockFs.VfsRead: a read from beyond the end of file, whose wrapped length overruns the buffer of the caller, is excluded.
- FsOps.ReadDelivers: so it is there; `FsOps.ReadStaysInsideIff` says exactly which reads these are.
- FsOps.UnlinkKeeps: paths of 64 characters and more, which overflow the buffer for the directory part (`kernel/src/vfs.c:509-519`), are not modelled.
- BlkFs.BlockFs.VfsUnlink: nor are they here.
- BlkFs.BlockFs.VfsLink: nor are new paths of 64 characters and more, for which the copied directory part has no terminator (`kernel/src/vfs.c:397-400`).
- FsOps.WriteOverwrites: an empty write beyond the end of file extends the file, as in the code; POSIX would leave it.
- FsRuns.StepKeeps: `rmdir` is not a call of the runs: its emptiness test is bounded by the entries of the parent, and it leaves bytes in a shared buffer for the next directory.
- The layout of inodes and directories in bytes, mount points, the device and process file systems, logging, the input driver, video, the shell and the other programs of the repository are not part of this model.
