# A verified model of the xv6 kernel's storage, processes and memory

xv6 is a small Unix-like kernel for 32-bit x86 multiprocessors. This project models the parts of it where a
mistake is hardest to see, and proves what they promise:

- the write-ahead log over the buffer cache: crash atomicity, group commit, and when commit finds no buffer or
  leaves its area
- disk blocks, inodes and files: the bitmap is exact, files behave as flat byte sequences, and every
  transaction of filewrite fits its reservation; mkfs builds such a file system
- filewrite and truncation down to the device: a crash at any block write costs whole chunks, or the whole
  truncation, and nothing else
- scheduler, sleep-locks and spin-locks on any number of processors, one memory access at a time: no panic, no
  lost wakeup, no deadlock, and what each call does
- the life of processes: fork, exit, wait and kill
- page tables and physical pages, with exact ownership of every page
- the user heap, pipes, the disk queue, user semaphores with a bounded buffer, and the shell's parser

Each module is named after the component and cites its source file in its first comment. Code that updates
state in place is a class whose methods are proved against functions on values; protocols with several
threads are transition systems, and their theorems hold in every state of every run.

| module | models |
|---|---|
| `Params` | the sizes in param.h |
| `Storage` | what a client of the block layer sees: device contents, and contents as read through the cache |
| `BufferCache` | bio.c |
| `Log`, `LogManager`, `GroupCommit` | log.c: device contents write by write; its functions over the cache; the operations around them |
| `FileSystem`, `Mkfs` | fs.c and file.c; mkfs.c |
| `Durable` | filewrite of file.c and itrunc of fs.c over the log and the buffer cache |
| `Kernel`, `ProcTable` | proc.c, spinlock.c and sleeplock.c step by step; the process table |
| `PageTables` | vm.c and kalloc.c |
| `Malloc` | umalloc.c |
| `Pipe` | pipe.c |
| `DiskQueue` | ide.c against memide.c |
| `Semaphore` | extracredit1.c, lockFunc.h, and mysleep and mywakeup in proc.c |
| `Shell`, `ShellGrammar` | the parser of sh.c; the grammar that it accepts, by tokens |

`dafny verify dfyconfig.toml` checks the whole project.

## Conventions

- A panic, and a wait that a sequential method cannot model, is a result: `ok` false, `-1`, or `admitted`
  false. A contract says exactly when it happens.
- What the outside decides is a parameter: whether and where sbrk grants memory, the contents of mkfs's
  input files, the kernel's own mappings (`kmap`), the encoding of bitmap and inode blocks in `Durable`, the
  moment of a crash, and the choice of the next step of a run.
- fs.h is not part of this model. NDIRECT, BPB, IPB and DIRSIZ are parameters; BSIZE is 512 (src/file.c:127,
  src/mkfs.c:85) and an indirect block holds 128 addresses. buf.h, proc.h and mmu.h appear only as the
  fields and constants that the modelled functions use.
- Words are unbounded except where the width matters: the pipe's counters, the semaphores' values, file
  offsets and malloc's sizes are 32 bits wide, with their wrap-around.

## Findings

What turned out false of the code, with the condition under which it holds.

| finding | source | shown by |
|---|---|---|
| Operations that stay within the blocks begin_op reserved for them avoid the panic of log_write if and only if log.size - 1 >= LOGSIZE. mkfs makes log.size equal to LOGSIZE, so three operations can meet it at the 30th block. | src/log.c:236-237, src/mkfs.c:25 | `GroupCommit.ReservationSufficesExactly` |
| log_write makes its size check before it looks for the block. Writing a block again that is recorded already can panic, in every log that can record a block at all. | src/log.c:236-249 | `GroupCommit.AbsorbedWriteCanPanic` |
| log_write makes its check without log.lock, so others record between the check and the recording. The recorded blocks keep to the slots of the log area if and only if log.size <= 1 or log.size - 1 >= LOGSIZE. With the log.size of mkfs a run records 30 blocks, one more than it has slots. | src/log.c:236-257, src/mkfs.c:25 | `GroupCommit.AreaSufficesExactly`, `GroupCommit.OverrunReachable` |
| Before its commit point commit touches no home block if and only if there are fewer recorded blocks than log.size. With as many, write_log overwrites the block behind the log area, which in the layout of mkfs is the first inode block. | src/log.c:195-201, src/mkfs.c:93-94 | `Log.LogsInsideExactly`, `Log.OverrunWrites` |
| With no buffer in use, commit finds a buffer for its log blocks if and only if the transaction is smaller than the cache. NBUF equals LOGSIZE, so the 30 blocks of the last but one finding pin every buffer: as shipped, their commit panics in bget before it can overwrite anything. A larger log area alone still leaves that panic; a larger cache alone opens the way to the overwrite. | src/log.c:195-197, src/param.h:11-12 | `LogManager.SpareExactly`, `LogManager.OnlyFullLogFails`, `LogManager.SmallCacheStops`, `LogManager.FullCache` |
| After binit every buffer carries device 0, block 0: at most one buffer holds a block, except for that key. | src/bio.c:39-55 | `BufferCache.Cache.constructor`, `BufferCache.Cache.OneBufferPerBlock` |
| mkfs rounds the root directory's size up to the next block also when it ends on a block boundary. The image is a sound file system if and only if the directory does not end on one. | src/mkfs.c:150-156 | `Mkfs.RootRounding`, `Mkfs.Build`, `Mkfs.BoundaryImage` |
| kill does not look at the state of a slot, and allocproc does not clear `killed`. An action leaves a free slot marked if and only if it kills a pid that only a free slot has, or gives up the slot of a killed child; the next process there starts killed. | src/proc.c:496-512, src/proc.c:71-90 | `ProcTable.FreeSlotsStayClean`, `ProcTable.BornKilled` |
| A killed writer that fills the pipe leaves without a wakeup. A step leaves a reader asleep beside bytes if and only if it is such a write. | src/pipe.c:87-96 | `Pipe.StepSleep`, `Pipe.KilledWriterAbandonsReader` |
| uva2ka does not check the result of walkpgdir. If and only if the page has no page table, it takes the word at address 0 of the running program for the page's entry, instead of refusing the page. | src/vm.c:362-363 | `PageTables.Vm.Uva2ka`, `PageTables.Vm.Copyout`, `PageTables.CopyoutUnchecked` |
| copyuvm does not give back the page that it could not map. With f pages free beyond those for the directory and the kernel's tables, a page is lost if and only if f = 1025t + 1 for some t with 1024t below the number of pages to copy. | src/vm.c:347-348 | `PageTables.Vm.Copyuvm`, `PageTables.CopyLosesPage` |
| malloc's rounding wraps: the units cover the request if and only if nbytes + 7 < 2^32. | src/umalloc.c:69 | `Malloc.UnitsHoldRequest` |
| A semaphore's value loses 2^32 at an increment of its largest value, and at no other step. | src/extracredit1.c:51-61 | `Semaphore.StepExact`, `Semaphore.RunExact`, `Semaphore.PostOverflows` |
| filewrite that is refused part of the way returns -1 and leaves the chunks before it in the file; it writes everything if and only if no chunk is refused. | src/file.c:128-150 | `FileSystem.Fs.FileWrite`, `FileSystem.DoneIsAll`, `FileSystem.SecondChunkRefused` |

Where code and comments disagree, the model follows the code: param.h:11 calls LOGSIZE the data blocks of
the on-disk log, but the log of mkfs has one fewer; sh.c:391 marks `>>` apart from `>`, but both are parsed
to the same redirection; vm.c:372 says that uva2ka limits copyout to user pages, which a missing table
escapes.

## Model

| member | source | states |
|---|---|---|
| `BufferCache.Unlink` | src/bio.c:135-136 | taking a buffer off the list leaves a circular doubly linked list of the others, in their order |
| `BufferCache.LinkFront` | src/bio.c:137-140 | inserting a buffer behind the head leaves a circular doubly linked list with it in front |
| `BufferCache.CoherentUpdate` | src/bio.c:79-95 | changing or recycling one buffer keeps every unlocked valid buffer at the last value stored, and every block not yet on the device pinned, as long as a dirty buffer stays dirty under its key |
| `BufferCache.CoherentStore` | src/bio.c:115-121 | storing new contents, pinned or written through, keeps that too |
| `BufferCache.FrontIsYoungest` | src/bio.c:132-141 | moving the buffer just released to the front keeps unreferenced buffers in order of their last release |
| `BufferCache.Cache.constructor` | src/bio.c:39-55 | binit leaves a valid cache whose list holds all buffers; two or more of them share only the all-zero key |
| `BufferCache.Cache.OneBufferPerBlock` | src/bio.c:62-97 | in every valid cache at most one buffer holds a block, for every key but the all-zero one |
| `BufferCache.Cache.Bget` | src/bio.c:62-97 | a hit takes one more reference; a miss takes over the clean buffer unreferenced longest; the panic comes exactly when the block is not cached and no buffer is clean and unreferenced; the contents readers see do not change |
| `BufferCache.Cache.FindCached` | src/bio.c:69-77 | the first loop finds a buffer with the key if there is one |
| `BufferCache.Cache.FindVictim` | src/bio.c:84-95 | the second loop finds, of all clean unreferenced buffers, the one released longest ago |
| `BufferCache.Cache.Bread` | src/bio.c:101-112 | the buffer returned is locked and holds the value last stored for its block, and no other buffer changes; the caller sleeps, with its reference taken, exactly when another has the lock; otherwise failure exactly when the block does not exist or bget panics |
| `BufferCache.Cache.Fill` | src/bio.c:107-110 | the disk is read only for an invalid buffer, and the buffer then holds the last value stored |
| `BufferCache.Cache.Lock` | src/sleeplock.c:23-33 | the lock is taken exactly when it is free, and nothing else changes |
| `BufferCache.Cache.MarkDirty` | src/log.c:260 | the contents become the last value stored, and are not on the device |
| `BufferCache.Cache.Bwrite` | src/bio.c:115-121 | the contents reach the device and become the last value stored |
| `BufferCache.Cache.Unlock` | src/bio.c:129-129 | a holder that has stored what it changed leaves the cache coherent |
| `BufferCache.Cache.Brelse` | src/bio.c:125-144 | the reference and the lock are given back and nothing that a reader sees changes |
| `BufferCache.Cache.Put` | src/bio.c:131-143 | dropping the last reference moves the buffer to the front of the list; any other leaves the list alone |
| `BufferCache.Cache.MoveToFront` | src/bio.c:135-140 | the six pointer assignments move one buffer to the front and keep all others in order |
| `Log.HeadRoundTrip` | src/log.c:84-114 | read_head reads from the device the blocks that write_head listed, whatever the block held before |
| `Log.InstallFrame` | src/log.c:70-81 | after any number of rounds install_trans has given exactly the first blocks their logged contents and touched nothing in the log |
| `Log.LoggedFrame` | src/log.c:191-203 | after any number of rounds write_log has copied exactly the first blocks and touched no home block and not the header |
| `Log.ReplayOfInstalled` | src/log.c:70-81 | an installation cut off anywhere, started again, gives the same device |
| `Log.ReplayIsClean` | src/log.c:116-121 | recovery leaves a readable log that lists nothing |
| `Log.RecoveryRestarts` | src/log.c:116-121 | a crash after any number of block writes of recovery, and recovery again, gives what one recovery gives |
| `Log.ReplayInstalls` | src/log.c:70-81 | recovery makes every home block what the log holds for it, or leaves it |
| `Log.SealedReplay` | src/log.c:205-219 | once the header lists the transaction, recovery yields the cached contents of all home blocks |
| `Log.UnsealedReplay` | src/log.c:205-211 | before the header write, recovery yields the home blocks as they were |
| `Log.CommitIsAtomic` | src/log.c:205-219 | with a slot for every recorded block, a crash after any number of block writes of commit, once recovered, leaves all home blocks old or each with the contents the cache has for it, decided by the header write alone, with the log empty |
| `Log.LogsInsideExactly` | src/log.c:191-203 | until the header write no home block changes, whatever the contents, if and only if the recorded blocks are fewer than log.size |
| `Log.OverrunWrites` | src/log.c:195-201 | for every longer list there are contents with which write_log changes a block outside the log |
| `Log.CommitTraceIs` | src/log.c:205-219 | the devices that commit passes through are, write by write, those that CommitIsAtomic speaks of |
| `Log.EventIsAtomic` | src/log.c:116-219 | a transaction, a crash in one, a recovery or a crash in one has no effect on the recovered file system, or one whole transaction's |
| `Log.RunIsAtomic` | src/log.c:70-219 | through any sequence of those, the recovered file system is the first one with exactly the transactions that passed their commit point, whole and in order |
| `Log.RunExtends` | src/log.c:116-219 | no run gets stuck on a damaged log: every enabled event can follow |
| `Log.SomeTransaction` | src/log.c:205-219 | such runs exist with contents to lose |
| `LogManager.LogState.constructor` | src/log.c:55-66 | initlog on any device with a readable log and a new cache recovers it, write by write as RecoveryRestarts assumes, with every buffer free again |
| `LogManager.LogState.ReadHead` | src/log.c:84-93 | the blocks in memory become those the device lists |
| `LogManager.LogState.WriteHead` | src/log.c:100-114 | one block write puts the recorded blocks into the header; users of other buffers keep them |
| `LogManager.LogState.LogOne` | src/log.c:194-201 | one round of write_log puts the cached contents of a recorded block into the log and leaves it pinned; it fails exactly when bget has no buffer for the log block |
| `LogManager.LogState.InstallOne` | src/log.c:73-80 | one round of install_trans puts a logged block home and unpins it, and never lacks a buffer if the block is pinned or two buffers are free |
| `LogManager.LogState.WriteLog` | src/log.c:191-203 | the loop writes the devices of LoggedFrame, one by one; it fails exactly when no buffer is free at its start, before any write |
| `LogManager.LogState.InstallTrans` | src/log.c:70-81 | the loop writes the devices of InstallFrame, one by one, and leaves no buffer dirty |
| `LogManager.LogState.Commit` | src/log.c:205-219 | the block writes are exactly those of the atomic commit, none if nothing is recorded; at the end cache and device agree and the home blocks are the cached ones; it panics exactly when something is recorded and no buffer is free, and then nothing was written |
| `LogManager.LogState.RecoverFromLog` | src/log.c:116-121 | the block writes are exactly those of recovery, and nothing is recorded afterwards |
| `LogManager.LogState.BeginOp` | src/log.c:124-144 | an operation is admitted exactly when the recorded blocks and full reservations for all operations fit LOGSIZE |
| `LogManager.LogState.EndOp` | src/log.c:148-186 | only the last operation commits; it never finds a commit in progress; each device it passes through recovers to the file system before the transaction or after it |
| `LogManager.LogState.Find` | src/log.c:245-249 | the absorption loop stops at the block if it is recorded, else at the end |
| `LogManager.LogState.LogCheck` | src/log.c:236-239 | the unlocked checks pass exactly below both size limits and inside an operation |
| `LogManager.LogState.LogRecord` | src/log.c:241-261 | any time after the checks, the block is recorded once and pinned with its new contents, and exactly the recorded blocks are dirty |
| `LogManager.LogState.LogWrite` | src/log.c:232-262 | without another log_write in between: the block is recorded once and pinned with its new contents, and exactly the recorded blocks are dirty; the panics come exactly on the two size limits and outside an operation |
| `LogManager.LogState.Update` | src/log.c:226-230 | bread, change, log_write and brelse together change what readers see of one block and nothing on the device |
| `LogManager.PinKeeps` | src/log.c:245-260 | recording one more block keeps the recorded blocks distinct, outside the log and a cover of all that differs from the device |
| `LogManager.SealedCommits` | src/log.c:209-217 | from the header write on, the rest of commit does what recovery would do, and cache and device end up equal |
| `LogManager.CommitTraceRestores` | src/log.c:205-219 | every device on the way of commit recovers to all old or all new home blocks, with an empty log |
| `LogManager.DirtyCount` | src/log.c:257-260 | the number of dirty buffers is the number of recorded blocks |
| `LogManager.SpareExactly` | src/log.c:194-201 | with no buffer in use, commit has a buffer to work with if and only if the transaction is smaller than the cache |
| `LogManager.OnlyFullLogFails` | src/param.h:10-12 | with NBUF and LOGSIZE as given, that fails for a transaction of LOGSIZE blocks only |
| `LogManager.SmallCacheStops` | src/log.c:195-197 | in a cache no larger than the log area, a transaction with more blocks than slots leaves commit no buffer |
| `LogManager.FullCache` | src/param.h:10-12 | a cache in which LOGSIZE recorded blocks pin every buffer |
| `LogManager.ReachableIsRecordable` | src/log.c:124-262 | what the operations have recorded at any time fits the header, and the log area too if log.size - 1 >= LOGSIZE |
| `GroupCommit.StepKeepsInv` | src/log.c:124-262 | every step of begin_op, log_write, end_op and commit keeps the account of recorded and reserved blocks |
| `GroupCommit.RunKeepsInv` | src/log.c:124-262 | so does every interleaving |
| `GroupCommit.ReachableInv` | src/log.c:124-186 | in every reachable state a commit runs only with no operation in progress, the recorded blocks are distinct, and with what the operations may still log they fit the header |
| `GroupCommit.FrozenDuringCommit` | src/log.c:148-186 | while commit writes, no step changes the recorded blocks |
| `GroupCommit.CommitLeavesRoom` | src/log.c:161-186 | a commit leaves an empty log, and any operation that waits gets in once it is over |
| `GroupCommit.Progress` | src/log.c:124-262 | in every reachable state a check can be followed by its recording, an operation by its end, and a commit comes to its end |
| `GroupCommit.LastEndCommits` | src/log.c:148-186 | end_op starts a commit exactly if no other operation is in progress, of all the recorded blocks |
| `GroupCommit.EndFindsNoCommit` | src/log.c:155-156 | end_op's panic cannot happen |
| `GroupCommit.RecordStaysInHeader` | src/log.c:246-257 | though log_write checks without the lock, a new block never goes past the header array |
| `GroupCommit.FilledReachable` | src/log.c:232-262 | three operations can fill the log up to the limit of the check, the last one with what the others left |
| `GroupCommit.ReservationSufficesExactly` | src/log.c:236-237 | operations with reservation left never meet the panic if and only if log.size - 1 >= LOGSIZE |
| `GroupCommit.AbsorbedWriteCanPanic` | src/log.c:236-249 | a repeated write of a recorded block can meet the panic if and only if log.size >= 2 |
| `GroupCommit.OverrunReachable` | src/log.c:236-257 | for every log.size from 2 to LOGSIZE a run of three operations records log.size blocks |
| `GroupCommit.AreaSufficesExactly` | src/log.c:236-257 | in all reachable states the recorded blocks are fewer than log.size if and only if log.size - 1 >= LOGSIZE, or none can be recorded |
| `FileSystem.WordOfSetWord` | src/fs.c:388-397 | an address written into an indirect block is read back, and the others stay |
| `FileSystem.BitmapIsExact` | src/fs.c:53-96 | the bitmap marks exactly the metadata blocks and the blocks that some inode refers to, each in one place only |
| `FileSystem.BlocksInOrder` | src/fs.c:59-63 | each bitmap block holds the bits of the next BPB blocks, and each inode block the next IPB inodes, in order |
| `FileSystem.AllocOwned` | src/fs.c:53-80 | a free block put into an empty direct, indirect or indirect-entry place keeps that |
| `FileSystem.AllocInv` | src/fs.c:368-411 | it changes the contents of no file and no other reference |
| `FileSystem.PatchInv` | src/fs.c:508-514 | writing into an allocated block of a file is a splice of that file and changes no other |
| `FileSystem.UnalignedIsAllocated` | src/fs.c:508-509 | the block under an offset inside the file, or at a size that is not a block boundary, is allocated |
| `FileSystem.SpliceReadsBack` | src/fs.c:459-521 | what was written is read back, bytes before and after are as before, and the size is the larger one |
| `FileSystem.Fs.constructor` | src/fs.c:53-96 | the operations start from any sound file system |
| `FileSystem.Fs.Balloc` | src/fs.c:53-80 | the first free block is marked and zeroed; the panic comes exactly when no block is free |
| `FileSystem.Fs.Bfree` | src/fs.c:83-96 | exactly the given bit is cleared; the panic comes exactly when it was clear |
| `FileSystem.Fs.Bmap` | src/fs.c:368-411 | the address of a file's block, allocated if need be, with the partition and all files kept; at most one bitmap block for the data and one for a new indirect block are logged; failure only on a full disk |
| `FileSystem.Fs.BmapIndirect` | src/fs.c:379-408 | the same for blocks behind the indirect block |
| `FileSystem.Fs.IndirectBlock` | src/fs.c:389-390 | the inode has an indirect block afterwards, allocated only if it had none |
| `FileSystem.Fs.Iupdate` | src/fs.c:221-235 | the disk inode becomes the one in memory, and one block is logged |
| `FileSystem.Fs.WriteI` | src/fs.c:493-521 | the file becomes the splice of the bytes at the offset, no other file changes, disk and memory inodes agree, and the blocks logged are bounded by the blocks touched; refusal exactly past the end, on offset overflow or beyond the largest file |
| `FileSystem.Fs.ReadI` | src/fs.c:459-488 | the bytes returned are the file's from the offset, cut at its end; nothing changes and nothing is allocated; -1 exactly past the end or on overflow |
| `FileSystem.Fs.FreeDirect` | src/fs.c:423-428 | the direct blocks of the inode are freed, and no others |
| `FileSystem.Fs.FreeIndirect` | src/fs.c:430-440 | the blocks behind the indirect block and it are freed, and no others |
| `FileSystem.TruncDone` | src/fs.c:418-444 | clearing an inode's blocks from bitmap and inode leaves an exact partition, with that file empty and the others unchanged |
| `FileSystem.Fs.Itrunc` | src/fs.c:418-444 | exactly the inode's blocks become free, its file empty, all others stay; bfree's panic cannot happen; everything that changed on disk, the inode included, was logged, and nothing but bitmap blocks and the inode's block |
| `FileSystem.TracksFree` | src/fs.c:86-99 | a bit cleared and its bitmap block logged: still no unlogged change |
| `FileSystem.Fs.Truncate` | src/fs.c:418-444 | as a transaction of its own it logs every block that it changes |
| `FileSystem.ReservationFits` | src/file.c:120-149 | a chunk at any offset logs at most four data, four bitmap, one indirect and one inode block, so at most MAXOPBLOCKS |
| `FileSystem.Fs.Transaction` | src/file.c:130-148 | one chunk is one splice or refused without change, logs at most MAXOPBLOCKS distinct blocks, and changes nothing on disk that it does not log |
| `FileSystem.DoneIsAll` | src/file.c:128-150 | filewrite writes everything exactly when no chunk is refused |
| `FileSystem.Fs.FileWrite` | src/file.c:111-153 | the file becomes the splice of the bytes written before the first refused chunk, the offset moves by as many, the result is the length or -1, and every transaction fits its reservation; failure only on a full disk |
| `FileSystem.SecondChunkRefused` | src/file.c:128-150 | a write of one byte more than a chunk, one chunk below the largest file, leaves its first chunk and is refused |
| `FileSystem.TracksAlloc` | src/fs.c:53-80 | balloc logs every block it changes |
| `FileSystem.PatchTracks` | src/fs.c:508-514 | so does writei |
| `FileSystem.Fs.FileRead` | src/file.c:90-107 | the bytes at the offset are returned and the offset moves past them |
| `Durable.NotLogged` | src/log.c:232-262 | a block that was not logged holds the data, bits and inodes it did |
| `Durable.PushedAll` | src/log.c:232-262 | once the logged blocks are in the cache, it holds the new file system |
| `Durable.HoldsDetermines` | src/log.c:232-262 | if blocks are encoded without loss, a device holds one file system at most: data, bitmap and inodes |
| `Durable.Files.constructor` | src/log.c:55-66 | boot on a device that recovers to a sound file system gives that file system |
| `Durable.Files.PushOne` | src/log.c:226-230 | logging one block of a lone operation meets no panic of bget or log_write |
| `Durable.Files.WriteChunk` | src/file.c:130-148 | one transaction meets no panic of log or cache, ends with the device holding the new file system, and every device on the way recovers to the file system before it or after it |
| `Durable.Files.Finish` | src/log.c:148-186 | end_op of a lone operation whose changes are all logged meets no panic, ends with the device holding the new file system, and every device on the way recovers to the file system before the operation or after it |
| `Durable.Files.Truncate` | src/fs.c:418-444 | a truncation ends with the device holding the file system without the contents, and a crash after any of its block writes, once recovered, leaves the file as it was or empty, with its blocks free |
| `Durable.Files.FileWrite` | src/file.c:111-153 | the whole write has the effect of FileSystem.Fs.FileWrite on the device; a crash after any of its block writes, once recovered, leaves a sound file system with some whole chunks written and nothing else changed |
| `Durable.Formatted` | src/mkfs.c:101-161 | every file system has a device that recovers to it |
| `Mkfs.Image.constructor` | src/mkfs.c:101-105 | the zeroed image is a file system of empty files |
| `Mkfs.Image.Ialloc` | src/mkfs.c:208-218 | each call gives the next inode, whose file is empty, until there are none |
| `Mkfs.Image.Iappend` | src/mkfs.c:236-276 | the bytes are appended to the file, no other changes, and exactly the blocks that the longer file needs are taken; failure exactly for too large a file or more blocks than the image has |
| `Mkfs.Image.BlockFor` | src/mkfs.c:247-264 | the block of a file at or below its end, taken from the free ones if new, so that the file reaches it with zeros |
| `Mkfs.TakeData` | src/mkfs.c:249-264 | taking the next free block for a file keeps every block in one place |
| `Mkfs.PatchCore` | src/mkfs.c:265-272 | copying bytes into a file's block is a splice of that file only |
| `Mkfs.Balloc` | src/mkfs.c:220-232 | the bitmap marks exactly the blocks used so far, if one bitmap block is enough |
| `Mkfs.AppendChunks` | src/mkfs.c:144-146 | the input's reads, of any sizes, end up in the file in order, with the blocks that the file needs |
| `Mkfs.MakeRoot` | src/mkfs.c:110-121 | the root directory holds the entries for itself |
| `Mkfs.AddInput` | src/mkfs.c:123-149 | one more directory entry and one more file with the input's bytes |
| `Mkfs.NothingPastEnd` | src/mkfs.c:150-156 | no file can be longer than the blocks it was given |
| `Mkfs.RootRounding` | src/mkfs.c:150-156 | rounding up the directory's size leaves a sound file system if and only if the directory does not end on a block boundary |
| `Mkfs.DirentReadsBack` | src/mkfs.c:113-142 | an entry read back gives the inode number from two bytes, low byte first, and the name, cut or filled with zeros |
| `Mkfs.RootEntry` | src/mkfs.c:113-142 | entries 0 and 1 of the root directory are itself under both its names, and entry j from 2 on is inode j with the name of input j - 2 |
| `Mkfs.FlatJoins` | src/mkfs.c:144-145 | a file is the concatenation of its chunks, however they are grouped |
| `Mkfs.Build` | src/mkfs.c:62-161 | it reaches its end exactly when inodes, blocks, the bitmap block and the largest file size are enough; then the image holds the padded root directory and all inputs in exactly the blocks they need, each in one place and the bitmap exact, and is sound if and only if the directory does not end on a block boundary |
| `Mkfs.BoundaryImage` | src/mkfs.c:150-156 | thirty empty inputs give an image that cannot be mounted |
| `Kernel.AcquireFine` | src/spinlock.c:91-103 | pushcli inside acquire keeps ncli at the depth of nesting, interrupts off, and intena at the state before the outermost call |
| `Kernel.ReleaseFine` | src/spinlock.c:105-113 | popcli inside release restores the interrupt state exactly at the outermost call |
| `Kernel.AcquireKeeps` | src/spinlock.c:22-42 | each memory access of acquire keeps one holder per lock and never panics; only this thread moves |
| `Kernel.ReleaseKeeps` | src/spinlock.c:45-65 | each memory access of release keeps that and never panics, also when another thread acquired the lock before swtch |
| `Kernel.SchedKeeps` | src/proc.c:380-398 | none of sched's panics can happen, and the processor goes over to its scheduler with ptable.lock held |
| `Kernel.SchedulerKeeps` | src/proc.c:333-370 | choosing, switching to and coming back from a process keeps each process on at most one processor |
| `Kernel.RunnableIsOff` | src/proc.c:346-352 | a process that the scheduler finds runnable is on no processor |
| `Kernel.SleeperIsOff` | src/proc.c:478-484 | a process that wakeup or kill finds asleep is on no processor |
| `Kernel.SleepLockFine` | src/sleeplock.c:22-42 | the steps of acquiresleep and releasesleep keep depth, interrupt state and locks in step; Kernel.AcquireGivesLock and Kernel.ReleaseGivesUpLock say what the calls do |
| `Kernel.SleepFine` | src/proc.c:431-473 | so do the steps of sleep, which takes ptable.lock before it drops the caller's lock |
| `Kernel.TrapFine` | src/proc.c:402-426 | so do yield from the timer trap and the first return of a new process |
| `Kernel.DozeInv` | src/proc.c:453-458 | going to sleep loses no wakeup: the sleep-lock is taken, or its releaser has yet to scan |
| `Kernel.TakeInv` | src/sleeplock.c:23-33 | taking a free sleep-lock keeps one holder and the wakeups |
| `Kernel.ClearInv` | src/sleeplock.c:35-42 | clearing a sleep-lock leaves everyone asleep on it to be woken by the clearing process |
| `Kernel.ScanInv` | src/proc.c:478-491 | one round of wakeup's scan wakes or passes a process, and all behind are awake |
| `Kernel.KillInv` | src/proc.c:496-512 | kill may wake a sleeper at any time and breaks none of this |
| `Kernel.StepInv` | src/proc.c:333-512 | every step of any processor keeps all of it |
| `Kernel.RunInv` | src/proc.c:333-512 | so every state of every run has it |
| `Kernel.InvSleepLock` | src/sleeplock.c:22-42 | a sleep-lock has at most one holder, and while its spin-lock is free nobody sleeps on it unless it is taken |
| `Kernel.InvHandOff` | src/proc.c:333-398 | while ptable.lock is free a process is RUNNING if and only if exactly one processor names it, and that one runs it |
| `Kernel.InvInterrupts` | src/spinlock.c:91-113 | ncli is the depth of pushcli and, outside acquire and release, the number of spin-locks held; interrupts are off above depth 0, and on at depth 0 outside the trap, also after yield and sleep |
| `Kernel.InvSpins` | src/spinlock.c:22-42 | a processor that spins waits for one that does not spin, or for one waiting for ptable.lock, whose holder does not |
| `Kernel.RunIsSafe` | src/proc.c:333-512 | for any numbers of processors, processes and sleep-locks, every state of every run has no panic and all four of these properties |
| `Kernel.StepPays` | src/sleeplock.c:22-42 | a step of any processor changes the sleep-locks that a process holds only as its call in progress has to, interrupted or asleep as it may be |
| `Kernel.AcquireGivesLock` | src/sleeplock.c:22-33 | in every run, when a process that called acquiresleep is idle again, it has that lock besides those it had, and the lock names it |
| `Kernel.ReleaseGivesUpLock` | src/sleeplock.c:35-42 | in every run, when a process that called releasesleep is idle again, it has the others it had, and the lock does not name it |
| `Kernel.KillWakes` | src/proc.c:504-506 | kill leaves its victim not asleep, and in its state if it was not |
| `Kernel.KillReachesVictim` | src/proc.c:496-512 | in every run, when a process that called kill is idle again, the process it was called for was awake at some moment since the call |
| `Kernel.ScanWakes` | src/proc.c:478-484 | one round of wakeup makes the process runnable exactly if it is asleep on the channel, and changes no other |
| `Kernel.ChannelOnlyInSleep` | src/proc.c:431-473 | in every run a process has a channel only inside sleep |
| `Kernel.SchedulerRuns` | src/proc.c:344-358 | a runnable process that the scheduler comes to is running on that processor after three steps of its own, where it left off |
| `Kernel.SchedulerListens` | src/proc.c:339-343 | in every run each round of the scheduler begins with interrupts on |
| `Kernel.RoundLooksAtAll` | src/proc.c:344-368 | in every run a round of the scheduler looks at every process before it ends |
| `Kernel.TrapReturns` | src/proc.c:402-407 | in every run a process that the timer interrupts goes through yield back to where it was interrupted |
| `Kernel.StepMoves` | src/proc.c:333-512 | a processor goes on at every position of the code, unless it spins for a lock or its process is idle |
| `Kernel.NoDeadlock` | src/proc.c:333-512 | no run comes to a deadlock: with any numbers of processors, processes and sleep-locks, in every state some processor goes on or runs a process that is free to begin a call |
| `ProcTable.ExitOk` | src/proc.c:241-279 | exit keeps the table lawful: its children go to init, its parent is woken |
| `ProcTable.ExitEffect` | src/proc.c:241-279 | exit makes the process a zombie, gives its children to init, wakes those asleep in wait as its parent, or as init if a child is a zombie, and changes nothing else |
| `ProcTable.WaitEffect` | src/proc.c:284-322 | one pass of wait reaps the first zombie child if there is one, changes nothing if there is no child or the caller is killed, and else puts the caller to sleep |
| `ProcTable.KillEffect` | src/proc.c:496-512 | the first slot with the pid is killed, and runnable if it was asleep; nothing else changes |
| `ProcTable.LaunchOk` | src/proc.c:195-236 | a child that becomes runnable has its live parent and a new pid |
| `ProcTable.ForkMakesChild` | src/proc.c:195-236 | the critical sections of fork leave a runnable child with a new pid, its maker as parent, and nothing else changed |
| `ProcTable.FailedFork` | src/proc.c:205-211 | a fork that fails gives its slot back, which keeps the pid, and changes nothing else but the next pid |
| `ProcTable.SleepsUntilWakeup` | src/proc.c:431-491 | a process asleep on a channel stays so through a wakeup of another channel and is runnable after one of its own |
| `ProcTable.PreemptReturns` | src/proc.c:402-407 | yield and the next turn leave a process as it was, without a channel |
| `ProcTable.StepOk` | src/proc.c:71-512 | every critical section of fork, exit, wait, kill, sleep and wakeup keeps the table lawful |
| `ProcTable.RunOk` | src/proc.c:71-512 | so does every sequence of them |
| `ProcTable.RunIsLawful` | src/proc.c:71-322 | after any sequence of them: pids in use are distinct, every live process but init has a live parent, nobody sleeps in wait beside a zombie child, and each forked pid is returned by at most one wait, of its forker or of init |
| `ProcTable.KillCleans` | src/proc.c:496-512 | kill leaves no free slot marked if and only if the pid is not one that only a free slot has |
| `ProcTable.FreeSlotsStayClean` | src/proc.c:71-512 | an action leaves no free slot marked if and only if it is not such a kill, nor a fork that gives up the slot of a killed child |
| `ProcTable.BornKilled` | src/proc.c:496-512 | kill of pid 0 after boot, then fork: the child starts killed |
| `ProcTable.Procs.Wakeup1` | src/proc.c:478-484 | the loop makes runnable exactly the processes asleep on the channel, and changes nothing else |
| `ProcTable.Procs.AllocProc` | src/proc.c:71-90 | the first unused slot gets the next pid and becomes an embryo, and no other slot changes but the maker's note of it; -1 exactly when all are used |
| `ProcTable.Procs.Exit` | src/proc.c:241-279 | the loops leave the process a zombie, its children with init, its parent awake, init too if a child was a zombie, and every other slot as it was |
| `ProcTable.Procs.Wait` | src/proc.c:284-322 | the first zombie child is reaped, its slot cleared and its pid returned; sleep only with children and no zombie among them; -1 only without children or when killed; nothing else changes |
| `ProcTable.Procs.Kill` | src/proc.c:496-512 | the first slot with the pid is killed, and runnable if it was asleep, else in its state; nothing else changes, and nothing at all without such a slot; 0 exactly when there is one |
| `PageTables.FreshPage` | src/kalloc.c:60-77 | filling a page that no address space owns changes no address space |
| `PageTables.NewTable` | src/vm.c:47-58 | a zeroed page put into an empty directory entry keeps every page in one place and every mapping |
| `PageTables.NewLeaf` | src/vm.c:75-81 | so does a page put into an empty table entry, for all other mappings |
| `PageTables.DropLeaf` | src/vm.c:279-286 | clearing a table entry takes exactly its page out of the tree |
| `PageTables.KernelEntry` | src/vm.c:75-81 | a kernel mapping changes no user page |
| `PageTables.WriteData` | src/vm.c:384-384 | a write to a user page changes no table |
| `PageTables.FramesDisjoint` | src/vm.c:329-355 | two user pages, of one address space or two, never share a frame |
| `PageTables.DroppedSkip` | src/vm.c:274-278 | deallocuvm's skip to the next directory entry passes no present page |
| `PageTables.Ungrown` | src/vm.c:234-260 | adding some pages and dropping the whole range again restores every address space |
| `PageTables.Dismantle` | src/vm.c:293-312 | without its user pages, an address space owns exactly its directory and the tables in it, each once |
| `PageTables.Vm.constructor` | src/kalloc.c:46-53 | exactly the pages of the range are free |
| `PageTables.Vm.Kalloc` | src/kalloc.c:83-95 | a page off the free list, or 0 exactly when it is empty |
| `PageTables.Vm.Kfree` | src/kalloc.c:60-77 | the page goes back to the free list and no address space changes |
| `PageTables.Vm.Walk` | src/vm.c:38-61 | the table for an address, which its directory entry names as present, writable and for the user; made only if asked for; none exactly when there is none and none was asked for or memory is out; no mapping changes |
| `PageTables.PagesExact` | src/vm.c:243-244 | page n lies below a size exactly if it begins below it |
| `PageTables.ReadIsLook` | src/vm.c:38-61 | what the hardware walk of directory and table reads at a user address is what the model keeps for its page |
| `PageTables.Vm.MapUser` | src/vm.c:66-87 | the page is mapped with its contents and flags and nothing else changes, or nothing at all when memory is out |
| `PageTables.Vm.Mappages` | src/vm.c:66-87 | a region of the kernel's mappings is entered page by page, and no user page changes |
| `PageTables.Vm.Setupkvm` | src/vm.c:129-151 | a new address space with all kernel mappings and no user pages, or everything given back; it succeeds if and only if there is a page for the directory and for each table that the mappings lie in |
| `PageTables.KernelTables` | src/vm.c:116-124 | this kernel's mappings lie in 64 tables, wherever its data begins |
| `PageTables.KernelMapIs` | src/vm.c:116-124 | of the kernel's mappings, where each page of the four regions lies in physical memory, and that all but the text can be written |
| `PageTables.Vm.Allocuvm` | src/vm.c:234-260 | every address from the old page boundary up to the new size reads 0 and may be written by the user, and all others read as before; on either failure the pages added are given back and every address space is as before, but for tables, which stay; it succeeds if and only if there is a page for each new one and each missing table |
| `PageTables.GrownReads` | src/vm.c:243-258 | pages added mean that new addresses read 0 and old ones as before |
| `PageTables.Vm.GiveBack` | src/vm.c:246-256 | the pages added so far and the one not mapped go back to the free list |
| `PageTables.Vm.Deallocuvm` | src/vm.c:267-289 | exactly the pages between the sizes are freed, whatever tables are missing: addresses below the new size read as before, and those from its page boundary up to the old size are not mapped |
| `PageTables.DroppedReads` | src/vm.c:274-287 | pages dropped mean that addresses below the new size read as before and others not at all |
| `PageTables.Vm.Freevm` | src/vm.c:293-312 | exactly the pages of the address space's tree go to the free list, and no other address space changes |
| `PageTables.Vm.FreeTables` | src/vm.c:304-311 | each table and the directory are freed once |
| `PageTables.Vm.Copyuvm` | src/vm.c:329-355 | every address below the size reads the same byte with the same flags in both address spaces, in frames of their own; it succeeds if and only if there is a page for each, for each table and for the directory; on failure the new address space is gone, and a page is lost if and only if memory ran out between a page and its table |
| `PageTables.CopiesRead` | src/vm.c:337-350 | pages copied below the size mean the same byte and flags at every address below it |
| `PageTables.CopyLosesPage` | src/vm.c:344-354 | a machine on which copying one page loses a page |
| `PageTables.Vm.Uva2ka` | src/vm.c:359-368 | the frame of a present user page, 0 for another page, and the unchecked read exactly when the page has no table |
| `PageTables.Vm.Copyout` | src/vm.c:373-392 | the addresses written read the bytes given, up to the first page that is not a present user page, and all others as before, in every address space; it succeeds if and only if there is no such page, and that page decides between refusal and unchecked read |
| `PageTables.PokedReads` | src/vm.c:373-392 | bytes put into pages mean that exactly the addresses written read differently |
| `PageTables.CopyoutUnchecked` | src/vm.c:359-392 | copyout right after setupkvm comes to the unchecked read |
| `Malloc.ListInsert` | src/umalloc.c:37-42 | linking in a block keeps the free list circular and ordered by address, with no two blocks touching |
| `Malloc.ListRemove` | src/umalloc.c:33-36 | so does unlinking one |
| `Malloc.MergePartition` | src/umalloc.c:33-41 | joining two adjacent blocks keeps every unit in exactly one block |
| `Malloc.SplitPartition` | src/umalloc.c:79-81 | so does splitting a block |
| `Malloc.AbsorbUpper` | src/umalloc.c:33-35 | joining with the free block above keeps the heap well formed |
| `Malloc.AbsorbedByLower` | src/umalloc.c:38-40 | so does joining with the one below |
| `Malloc.Inserted` | src/umalloc.c:36-42 | so does inserting between blocks that do not touch |
| `Malloc.TakenWhole` | src/umalloc.c:76-77 | taking a whole free block makes exactly its units live |
| `Malloc.TakenTail` | src/umalloc.c:78-81 | taking the tail of a larger one makes exactly the tail's units live |
| `Malloc.BlocksCoverUnits` | src/umalloc.c:24-90 | the sizes of free and live blocks add up to all units obtained from sbrk |
| `Malloc.UnitsHoldRequest` | src/umalloc.c:69-69 | the units asked for hold the request if and only if its size does not wrap, and waste less than one unit |
| `Malloc.Heap.constructor` | src/umalloc.c:21-22 | the heap starts without blocks |
| `Malloc.Heap.Locate` | src/umalloc.c:30-32 | the loop ends at the free block before the given one, at the wrap if it is outside all |
| `Malloc.Heap.JoinUpper` | src/umalloc.c:33-37 | the block and the free one above become one if they touch, and nothing else moves |
| `Malloc.Heap.JoinLower` | src/umalloc.c:38-42 | the block joins the free one below if they touch, else is linked in |
| `Malloc.Heap.FreeBlock` | src/umalloc.c:24-44 | exactly the block's units become free, the list stays circular, ordered and without touching blocks, and live blocks keep their places and sizes |
| `Malloc.Heap.Morecore` | src/umalloc.c:46-61 | at least 4096 units are added and freed, enough for the request, and live blocks stay; nothing changes if sbrk refuses |
| `Malloc.Heap.FirstFit` | src/umalloc.c:74-89 | the first block from freep on that is large enough, all before it being too small, or that there is none |
| `Malloc.Heap.Take` | src/umalloc.c:75-84 | exactly the units asked for, the last ones of the block found, become one live block, out of free ones |
| `Malloc.Heap.Find` | src/umalloc.c:74-89 | a large enough block is found, after asking for memory at most once; none only if sbrk refused and none was large enough |
| `Malloc.Heap.Malloc` | src/umalloc.c:63-90 | a new live block of the right size out of free or new units, all other live blocks as they were; 0 exactly when nothing fits and sbrk refuses |
| `Pipe.WrapKeepsIndex` | src/pipe.c:99-99 | the counters' wrap at 2^32 does not disturb the position in the ring |
| `Pipe.TestsAreExact` | src/pipe.c:87-111 | the comparisons of the wrapped counters tell full from empty, for every content |
| `Pipe.FillHolds` | src/pipe.c:81-99 | the writer's loop appends as many bytes as fit, in order |
| `Pipe.DrainHolds` | src/pipe.c:118-122 | the reader's loop takes the oldest bytes, as many as asked for and there are |
| `Pipe.Buffer.constructor` | src/pipe.c:25-39 | a new pipe is empty |
| `Pipe.Buffer.Write` | src/pipe.c:77-99 | the loop over the ring array does what FillHolds speaks of |
| `Pipe.Buffer.Read` | src/pipe.c:107-122 | the loop over the ring array does what DrainHolds speaks of |
| `Pipe.StepStream` | src/pipe.c:59-127 | every critical section keeps the bytes read a prefix of those written and the ring the rest |
| `Pipe.RunIsStream` | src/pipe.c:59-127 | in every run of any readers and writers, past any number of wraps, the bytes read are a prefix of those put in, at most PIPESIZE are on the way, and full and empty are told apart; Pipe.WriteIsWhole and Pipe.ReadTakesOldest say which bytes each call puts in and takes out |
| `Pipe.OthersKeepBytes` | src/pipe.c:59-127 | only a writer at work puts bytes in, and only a reader at work takes bytes out |
| `Pipe.WriterMoves` | src/pipe.c:81-99 | a writer at work puts in the next bytes of its source and goes on from there; it leaves before the end only if killed or the read end is closed |
| `Pipe.WriteSoFar` | src/pipe.c:77-103 | in every run, a call of pipewrite in progress has put in the bytes of its source up to its index, in order |
| `Pipe.WriteIsWhole` | src/pipe.c:77-103 | in every run, a call of pipewrite that returns has put in a prefix of its source, and all of it unless killed or the read end is closed |
| `Pipe.ReaderMoves` | src/pipe.c:110-126 | a reader at work sleeps, with no byte taken, exactly if the pipe is empty, open for writing and it is not killed; else it takes the oldest bytes and leaves |
| `Pipe.ReadTakesOldest` | src/pipe.c:106-127 | in every run, the step with which a call of piperead returns takes out the oldest bytes, as many as it asked for and there are; it finds none only if killed or the write end is closed |
| `Pipe.KillWakes` | src/proc.c:496-512 | a kill wakes a reader or writer inside the call that it is in |
| `Pipe.CloseWakes` | src/pipe.c:59-74 | closing an end closes it and wakes all who sleep for the other side |
| `Pipe.KilledNeverSleep` | src/pipe.c:87-116 | in every run no killed reader or writer sleeps |
| `Pipe.StepSleep` | src/pipe.c:77-127 | a step leaves a reader asleep on a non-empty pipe or a writer on a non-full one if and only if it is a killed writer filling the pipe |
| `Pipe.RunSleepOk` | src/pipe.c:77-127 | without kill, a sleeping reader means an empty pipe and a sleeping writer a full one, so they never both sleep |
| `Pipe.KilledWriterAbandonsReader` | src/pipe.c:87-96 | a run of five actions from an empty pipe after which a reader sleeps beside a full pipe |
| `DiskQueue.StepOk` | src/ide.c:98-156 | every action, an early wakeup included, keeps the device on the first request of the queue and every sleeper in it |
| `DiskQueue.SubmitEnters` | src/ide.c:141-155 | a request for a buffer with something to do and a block on the disk goes to the end of the queue, sleeps, and starts the device if it is first |
| `DiskQueue.ServeSyncs` | src/memide.c:38-60 | buffer and block agree afterwards, on the data of a dirty buffer and else on the block's; nothing else changes |
| `DiskQueue.StepRefines` | src/memide.c:38-60 | every action does to disk and buffers what the memory disk does for its image |
| `DiskQueue.RunRefines` | src/ide.c:69-159 | in every run, disk and buffers are the memory disk's for the images of the actions, one by one, and requests are served in the order in which they were made |
| `DiskQueue.ReturnsSynced` | src/ide.c:152-158 | iderw returns only with its buffer valid, clean and out of the queue |
| `DiskQueue.CallIsSync` | src/ide.c:130-159 | a call of iderw takes effect at one moment between its start and its return: exactly one interrupt serves it, on the buffer as handed over, with memide's effect, and the call returns that buffer, valid and clean |
| `DiskQueue.TestsAgain` | src/ide.c:152-155 | a requester that tests its buffer again returns exactly if its request has left the queue, and sleeps otherwise, however often it is woken |
| `DiskQueue.CallComesBack` | src/ide.c:98-159 | a call of iderw returns after as many interrupts as there are requests up to its own |
| `DiskQueue.Queue.constructor` | src/ide.c:31-32 | the queue starts empty |
| `DiskQueue.Queue.Append` | src/ide.c:141-151 | the walk along the links puts the buffer at the end and tells whether the device must be started |
| `DiskQueue.Queue.Pop` | src/ide.c:104-108 | the first buffer is taken off, if any |
| `Semaphore.LockSync` | src/lockFunc.h:34-43 | an xchg on the mutex keeps one holder per lock |
| `Semaphore.CountSync` | src/extracredit1.c:43-61 | a decrement or increment under the mutex loses no wakeup |
| `Semaphore.PtSync` | src/proc.c:781-818 | mysleep, which drops the mutex under ptable.lock, loses no wakeup |
| `Semaphore.SignalSync` | src/proc.c:822-830 | mywakeup leaves nobody asleep on the semaphore |
| `Semaphore.StepSync` | src/extracredit1.c:26-61 | every step keeps locks, and a signal to come for every sleeper on a semaphore above 0 |
| `Semaphore.StepConserves` | src/extracredit1.c:43-61 | the value stays the initial one plus increments less decrements, in 32 bits, and never more decrements |
| `Semaphore.StepExact` | src/extracredit1.c:51-61 | a step keeps that without the 32 bits if and only if it does not increment the largest value |
| `Semaphore.CountsBound` | src/extracredit1.c:165-205 | the semaphores bound the items between producer and consumer by 0 and the number of places |
| `Semaphore.ReadyQueue` | src/extracredit1.c:165-205 | the producer overwrites no waiting item, the consumer takes the oldest one and clears its place |
| `Semaphore.StepBuffered` | src/extracredit1.c:165-205 | every step of any thread keeps the buffer in order |
| `Semaphore.RunOk` | src/extracredit1.c:26-205 | in every run of any number of threads, counts are conserved, nobody sleeps on a semaphore above 0 without a signal to come, and the k-th item consumed is the k-th produced, for every buffer size |
| `Semaphore.WaitCall` | src/extracredit1.c:43-49 | sem_wait undisturbed takes one from a value above 0, and otherwise goes to sleep on the semaphore with all locks released |
| `Semaphore.PostCall` | src/extracredit1.c:51-61 | sem_post undisturbed adds one, and all who sleep on the semaphore, and no others, go on |
| `Semaphore.NoDeadlock` | src/extracredit1.c:26-205 | no run comes to a deadlock: in every state of every run some thread can go on |
| `Semaphore.RunExact` | src/extracredit1.c:43-61 | value and decrements make up the initial value and increments, exactly, all along a run if and only if it never increments a largest value |
| `Semaphore.PostOverflows` | src/extracredit1.c:51-61 | three steps of one post take a semaphore from its largest value to 0 |
| `Shell.GetToken` | src/sh.c:266-308 | no text is left over longer than the given one, the end is reported exactly at blank text, every other token consumes text, and words are nonempty and free of symbols and blanks |
| `Shell.ParseLine` | src/sh.c:345-359 | the mutually recursive parsers end on every text and leave no more than they were given |
| `Shell.RedirsParse` | src/sh.c:375-397 | printed redirections are parsed back in order |
| `Shell.ArgsParse` | src/sh.c:426-444 | printed arguments, fewer than MAXARGS, are parsed back in order |
| `Shell.PrintParses` | src/sh.c:345-446 | at each level of the grammar, the printed form of a command followed by anything that may follow is parsed to that command and leaves the rest |
| `Shell.RoundTrip` | src/sh.c:328-446 | every well-formed command printed, with parentheses where needed, is parsed back |
| `Shell.ParsesWellFormed` | src/sh.c:345-446 | whatever is parsed is well formed |
| `Shell.Reprint` | src/sh.c:328-446 | hence printing what was parsed and parsing again gives the same command, for every text that parses |
| `Shell.SkipFrom` | src/sh.c:272-273 | the loop over the cursor skips exactly the blanks |
| `Shell.PeekFrom` | src/sh.c:311-320 | the cursor moves past blanks, and the answer is whether one of the symbols is there |
| `Shell.WordEnd` | src/sh.c:294-298 | the loop ends at the first blank or symbol |
| `Shell.GetTokenFrom` | src/sh.c:266-308 | the cursor form of gettoken gives the token, the word's bounds in the text and the rest |
| `ShellGrammar.TokenIsWhole` | src/sh.c:266-308 | gettoken splits the text into blanks, a token and the rest; a word ends only at a blank or symbol, and > is not followed by another |
| `ShellGrammar.RedirsSound` | src/sh.c:375-397 | parseredirs takes a list of redirections, > and >> of output and < of input, and keeps them in order |
| `ShellGrammar.RestSound` | src/sh.c:414-446 | parseexec takes words and redirections in any order, and keeps each kind in its order |
| `ShellGrammar.Sound` | src/sh.c:345-446 | whatever is parsed at a level of the grammar is spelled by the tokens taken |
| `ShellGrammar.Complete` | src/sh.c:345-446 | whatever the tokens spell at a level is parsed there, before anything that may follow |
| `ShellGrammar.ParsesExactly` | src/sh.c:328-343 | for every text and every command, parsecmd returns the command if and only if the grammar says that the tokens of the text spell it |
| `ShellGrammar.SpellsOne` | src/sh.c:328-446 | no text spells two commands, and none that spells one is refused |

## Left out

- Boot, traps, system calls and drivers (bootmain.c, main.c, trap.c, mp.c, ioapic.c, picirq.c, kbd.c, uart.c, syscall.c, sysproc.c, the assembly files): hardware plumbing and argument fetching; timer interrupt, swtch and xchg are single steps here.
- proc_old.c and proc_copy2.c: older copies of proc.c that are not built.
- thread_create, thread_join and thread_exit: threads share a page directory that wait frees, so neither the lifecycle nor the page-ownership invariant extends to them.
- send in extracredit1.c: it spins while it holds the mutex.
- sysfile.c and exec.c, directories and path names, the inode cache's reference counts, ialloc of fs.c and device inodes: sequences of the modelled operations; all inodes are in memory here.
- console.c, printing, ps and dump, the user programs other than malloc, the shell's parser and the bounded buffer.
- Log.CommitIsAtomic: holds for transactions with a slot for every recorded block, and so do Log.EventIsAtomic and Log.RunIsAtomic; Log.LogsInsideExactly shows that it fails for every longer one.
- Weak memory ordering, disk errors, and writes that tear a block: accesses are sequentially consistent and block writes atomic.
- The wrap-around of nextpid: pids are unbounded.
- FileSystem represents the bitmap by its bits and not by the bytes that hold them; the number of bitmap blocks logged follows BPB.
- LogManager.LogState.Commit: assumes that nobody holds the lock of a recorded block, for which bread would wait, and excludes more recorded blocks than slots while a buffer is free, where write_log leaves the log area.
- LogManager.LogState.EndOp: assumes the same; the interleavings of operations are GroupCommit's.
- LogManager.LogState.WriteLog: nobody else uses the cache during a commit; fileread takes buffers without begin_op (src/file.c:100-103), so another process can take the last free buffer between two rounds, and commit then panics part of the way, before its commit point or after it.
- BufferCache.Cache.Bread: ends where the caller would sleep for the buffer's lock; other sections of bio.c may run between Bget, Lock and Fill, which model them one by one.
- Durable.Files.FileWrite: one operation at a time, with no buffer in use by others; files are written and truncated and not read here, and the encoding of a block's contents is any function.
- Durable.Files.Truncate: assumes that the bitmap lies in fewer than MAXOPBLOCKS blocks, so that a truncation fits its reservation; it is one block in the layout of mkfs.
- Kernel: fork, exit and wait are in ProcTable, at the grain of critical sections; sleep channels other than sleep-locks are left out, and a sleep-lock's pid is the slot number.
- Malloc.Heap.Malloc: excludes requests whose size in bytes is negative as the int that sbrk takes, for which sbrk shrinks the process; addresses are counted in header units.
- Malloc.Heap.Morecore: sbrk's address is a parameter, at or above the last one.
- Mkfs.Image.Ialloc: stops where the inodes are used up; mkfs.c goes on, past them.
- Mkfs.Image.Iappend: stops where the image is full; mkfs.c goes on, past its end.
- Mkfs.Build: stops exactly in those cases and for too large a file or bitmap, for which mkfs.c has assertions.
- PageTables: pages hold typed words or bytes, kmap is given in pages, and the loop of mappages runs once for a user page; the kernel's own frames are not owned by an address space.
- PageTables.Vm.Uva2ka: does not model the word at address 0 that the unchecked read finds.
- PageTables.Vm.Copyout: assumes an address below 4 GiB, and stops where the code goes on with that word.
- Pipe: closing an end requires that no thread uses it, which the file table's reference counts provide; the numbers that calls return are not kept, only the bytes they put in and take out.
- Semaphore: kill is left out; the lock around printing makes putting and taking an item one step each.
- Shell: nulterminate and runcmd; redirections carry their direction and file, not the mode bits.
