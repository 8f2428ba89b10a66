# A verified model of the xv6 storage, memory and process code with its course extensions

The repository holds the xv6 kernel for RISC-V, extended with double-indirect files and
symbolic links, and a stand-alone program in which a parent and its children take turns at
shared memory through semaphores. This project models the parts with the most state and
branching, in the form the C code has (classes whose methods update fields, loops with
invariants, arrays updated in place), and proves what the code is for. Each method is tied to
a specification, and the promises are theorems about the specification: over every input,
every interleaving or every run.

| file | models |
|---|---|
| `RedoLog.dfy`, `LogRuns.dfy` | the redo log: the meaning of a disk, and whole runs with crashes |
| `BufferCache.dfy` | the buffer cache: the doubly linked ring, references, locks, pins, recycling |
| `LogDisk.dfy`, `Log.dfy` | the log on a disk of bytes, and the code of log.c running through the buffer cache |
| `LogLimits.dfy` | a full log, by calls from a blank disk |
| `Blocks.dfy`, `Bitmap.dfy`, `FsTree.dfy`, `FsData.dfy`, `FsTrunc.dfy`, `FsSteps.dfy`, `Fs.dfy` | block allocation, the block trees of files, file contents, truncation, reading and writing, and what each step logs |
| `FsLimits.dfy` | what the file system's limits lead to, by calls from a formatted disk |
| `Symlink.dfy` | sys_symlink, create, and sys_open's following of links, with references, locks and transactions |
| `Sv39.dfy`, `Vm.dfy` | three-level page tables in physical memory, the page allocator, and the user address space operations |
| `SleepLock.dfy` | sleep-locks over sleep and wakeup as interleaved steps of any number of processes |
| `Pipe.dfy` | pipes with wrapping 32-bit counters |
| `Virtio.dfy` | the disk driver's descriptors and rings with wrapping 16-bit indices, against a device that acts at any time |
| `FreeList.dfy`, `Umalloc.dfy` | the user-level malloc and free on a circular list in memory |
| `Shell.dfy`, `ShellParser.dfy` | the shell's parser as a grammar and as the cursor-moving code, and its in-place termination of words |
| `Grep.dfy` | grep's matcher against a declarative meaning of patterns |
| `Handshake.dfy` | the parent and children of the first project |
| `Common.dfy` | optional values, set sizes and kernel parameters used throughout |

## Main results

- **Crash atomicity.** In every run of interleaved operations, commits, crashes at any write
  and interrupted recoveries, the disk recovers to the initial state plus some of the committed
  transactions, each whole and in order, with none missing whose commit returned
  (`LogRuns.CrashAtomicity`); a transaction's fate is final once the system is up
  (`LogRuns.FateIsFinal`); group commit never splits an operation
  (`LogRuns.OperationsAreWhole`). No bound on what operations log is assumed. The code of log.c,
  running through the buffer cache, makes only such runs: recovery and every call extend one
  (`Log.LogState.constructor`, `Log.LogState.BeginOp`, `Log.LogState.LogWrite`,
  `Log.LogState.EndOp`).
- **A logged block is not recycled.** Over any sequence of cache calls a buffer that stays
  referenced or pinned keeps its block, and its data changes only by its holder's stores
  (`BufferCache.ReferencedThroughout`); so write_log finds through bread what was logged
  (`LogDisk.LoggedStays`, `Log.LogState.CopyToSlot`).
- **A full log cannot be committed.** commit panics if and only if a log block it needs is not
  cached and every buffer is referenced (`Log.LogState.Commit`). LOGSIZE and NBUF are equal, so
  this is so for every commit of LOGSIZE blocks (`Log.LogState.FullLog`). The log area must be
  longer than LOGSIZE for that many to be listed; on every such disk three operations within
  MAXOPBLOCKS get there (`LogLimits.FillLog`). With an area of LOGSIZE blocks, header included,
  log_write panics one block earlier.
- **Log reservation.** When operations keep to MAXOPBLOCKS, for a block not yet logged the
  full-log panic is reachable if and only if the log area is shorter than LOGSIZE
  (`LogRuns.NewBlockPanicIff`). For a block already logged it is reachable whatever the size,
  because the test comes before the search (`LogRuns.AbsorbedBlockCanPanic`).
- **Log budget of filewrite.** What every operation of filewrite logs is known exactly: at most
  8 blocks and the bitmap blocks of the blocks it was given (`Fs.FileSystem.Filewrite`). So all
  stay within MAXOPBLOCKS when the bits of the files' blocks lie in at most two bitmap blocks
  (`FsLimits.WithinBudget`), and only then: on every formatted disk where they lie in three or
  more, writes and truncations lead to an operation that logs eleven (`FsLimits.OverBudget`).
  A truncation logs the inode's block and every bitmap block its file's bits lie in
  (`Fs.FileSystem.Itrunc`, `FsSteps.TruncBudget`), so it exceeds MAXOPBLOCKS exactly from ten of
  these up. A disk of FSSIZE 200000 blocks has 25 bitmap blocks.
- **Files.** bmap, writei, readi and filewrite refine one map from file offsets to bytes over
  block trees that share no block: what is written reads back, other files never change, and a
  write is complete if and only if the source is readable and the disk has a block for every slot
  still absent on the way (`Fs.FileSystem.Writei`, `FsSteps.ReadBack`, `FsSteps.DoneExact`,
  `Fs.FileSystem.Filewrite`).
- **Truncation.** itrunc frees second-level blocks without testing whether they are there. It
  panics if and only if a double-indirect tree has at least two absent second-level entries; with
  exactly one, the bit of block 0 is lost; otherwise exactly the file's blocks become free
  (`Fs.FileSystem.Itrunc`). By size: it panics from one byte past 267 blocks up to 65291 blocks
  (`FsSteps.PanicBySize`, `FsSteps.LossBySize`), and every formatted disk with 804 blocks for
  files leads to such a file by one write (`FsLimits.UntruncatableFile`).
- **bmap out of space.** When the second-level allocation is the one that fails, bmap returns a
  word of block 0 instead of 0; it is 0 because the boot block is zero
  (`Fs.FileSystem.Bmap`, predicate `BootZero`).
- **Address spaces.** Page tables in memory refine a flat map from pages to translations; every
  allocatable page is free, a table, a mapped frame or in the caller's hands, exactly one of them.
  freerange establishes this (`Vm.Kernel.constructor`). uvmalloc, uvmcopy and proc_pagetable
  succeed entirely or restore every translation and frame, fail only when the free list runs out,
  and keep the contents of all other frames and kernel pages; freewalk frees each table once
  (`Vm.Kernel.Uvmalloc`, `Vm.Kernel.Uvmcopy`, `Vm.Kernel.ProcPagetable`, `Vm.Kernel.Freewalk`).
- **Sleep-locks.** Mutual exclusion and no lost wakeup in every run
  (`SleepLock.MutualExclusion`, `SleepLock.NoLostWakeup`).
- **Links.** A path means at most one inode; where every link is complete sys_open yields that
  inode or fails exactly when there is none; cycles and more than nine links open nothing;
  references, locks and the transaction are balanced on every path (`Symlink.Sys.Open`,
  `Symlink.OpenedMeans`, `Symlink.CycleOpensNothing`). A sys_symlink that fails leaves every link
  complete if and only if the inode it wrote to is no link or was left complete
  (`Symlink.Sys.Symlink`); at a new path that is never so once the inode exists
  (`Symlink.NewLinkSound`). At the path of an existing directory sys_symlink returns 0 having
  written over the directory's first entries (`Symlink.DirectoryOverwritten`): create hands out
  any existing inode when asked for a link.
- **Pipes.** Bytes come out in the order they went in. Every call leaves nobody asleep who has
  something to do if that was so before, with one exception: a write during which readers sleep
  and the writer is killed after putting at least one byte in (`Pipe.Pipe.Write`, `Pipe.Pipe.Read`,
  `Pipe.Pipe.Close`, and `Pipe.SleptThrough` for calls that get there).
- **Disk driver.** Free descriptors plus three per outstanding request are always all of them, and
  every completion releases its own buffer (`Virtio.Conservation`, `Virtio.ClearStep`). Whatever
  the device and the handler do in between, a finished request leaves its sector and its buffer
  equal, as long as no sector being written has a second outstanding request
  (`Virtio.Driver.Finish`); block numbers below 2^31 have sectors of their own
  (`Virtio.SectorExact`).
- **malloc.** Live blocks stay disjoint from each other and from the free list and no unit of
  theirs is written, the list stays ordered and merged, and every unit obtained from sbrk is in
  exactly one of the two
  (`Umalloc.FreeKeeps`, `Umalloc.TakeKeeps`, `Umalloc.Heap.Malloc`).
- **Shell.** Parsing undoes printing for every tree, and after termination in place every word
  reads as its token (`Shell.ParsePrint`, `ShellParser.WordsRead`).
- **grep.** match is sound and complete for the meaning of patterns (`Grep.Match`).
- **Parent and children.** At most one process is at shared memory, somebody can always move, and
  a starting child always finds a place (`Handshake.MutualExclusion`, `Handshake.NoDeadlock`,
  `Handshake.FreePlace`). Every move lowers one measure, so every command table is worked through
  (`Handshake.Program.Run`).

Where code and comments disagree the model follows the code: log_write's claim that repeated
writes are absorbed, filewrite's that a chunk never exceeds the log's transaction size, bmap's that
it returns 0 when the disk is full, and itrunc's that it discards contents. sys_symlink over an
existing name keeps that inode's kind, as the code does.

## Model

| member | source | states |
|---|---|---|
| RedoLog.CommitStep | operating systems project 2/kernel/log.c:193-203 | each of the 2n+2 writes of a commit fits the disk and takes the image after k writes to the image after k+1 |
| RedoLog.CommitPrefixAbs | operating systems project 2/kernel/log.c:178-203 | stopped after any k writes, a commit leaves a disk that recovers to the old state when k <= n and to the whole new state when k > n, never to anything else |
| RedoLog.CommitAdvance | operating systems project 2/kernel/log.c:193-203 | one more write of a commit moves the prefix image on, keeps the disk well-formed, and changes what it stands for exactly when it is the header write |
| RedoLog.RecoverStep | operating systems project 2/kernel/log.c:116-123 | each recovery write fits the disk and takes one prefix image of recovery to the next |
| RedoLog.RecoverPrefixAbs | operating systems project 2/kernel/log.c:116-123 | recovery cut short anywhere leaves a disk that recovers to the same state; completed, the home blocks are that state under an empty header |
| RedoLog.RecoverAdvance | operating systems project 2/kernel/log.c:116-123 | one more write of an interrupted recovery keeps the disk well-formed and what it stands for |
| LogRuns.ReservationStep | operating systems project 2/kernel/log.c:126-142 | every step after which operations are within MAXOPBLOCKS keeps blocks logged plus what outstanding operations may still log within LOGSIZE |
| LogRuns.ReservationRun | operating systems project 2/kernel/log.c:126-142 | the same in every state of every run whose operations keep to MAXOPBLOCKS |
| LogRuns.NewBlockNeverPanics | operating systems project 2/kernel/log.c:220-221 | in every run whose operations keep to MAXOPBLOCKS, a log_write of a new block within the operation's budget does not find the log full, given a log area of LOGSIZE slots |
| LogRuns.NewBlockPanicIff | operating systems project 2/kernel/log.c:220-221 | for a new block the full-log panic is reachable if and only if the log area has fewer than LOGSIZE slots |
| LogRuns.AbsorbedBlockCanPanic | operating systems project 2/kernel/log.c:220-229 | the promise that absorption needs no room is false: three operations within budget reach a state where rewriting a logged block panics, whatever the log size |
| LogRuns.CommitPoint | operating systems project 2/kernel/log.c:193-203 | the header write alone changes what the disk stands for, and it adds exactly the net effect of the transaction's log_writes |
| LogRuns.FateReturn | operating systems project 2/kernel/log.c:146-175 | once commit() has returned its transaction is among those every later recovery replays |
| LogRuns.FateStep | operating systems project 2/kernel/log.c:116-203 | every step explains the disk by transactions kept or dropped, settles only the one being committed and never revises an earlier one |
| LogRuns.InvStep | operating systems project 2/kernel/log.c:126-235 | begin, write, end, commit writes, crash and recovery writes all keep the logging invariant, whatever operations log |
| LogRuns.InvRun | operating systems project 2/kernel/log.c:126-235 | the invariant holds in every state of every run of interleaved operations, commits, crashes and interrupted recoveries |
| LogRuns.CrashAtomicity | operating systems project 2/kernel/log.c:116-203 | in every run, whenever the system is up the home blocks are the initial state plus some of the committed transactions, each whole and in order, none missing whose commit returned; the cache holds exactly the writes not yet committed |
| LogRuns.FateIsFinal | operating systems project 2/kernel/log.c:116-203 | between any two times the system is up, crashes or not, no transaction that was in is lost and none that was out comes back |
| LogRuns.StopAt | operating systems project 2/kernel/log.c:116-123 | from every state of every run the machine may stop, which leaves a disk recovery can start from |
| LogRuns.OperationsAreWhole | operating systems project 2/kernel/log.c:12-16 | no operation has writes in two transactions, and none is outstanding while a commit runs |
| LogDisk.HeadRoundTrip | operating systems project 2/kernel/log.c:85-114 | read_head's decoding gives back the block list write_head encoded, whatever the buffer held before |
| LogDisk.FillHead | operating systems project 2/kernel/log.c:105-111 | the loop over the header buffer produces a block that decodes to the in-memory list |
| LogDisk.ReadList | operating systems project 2/kernel/log.c:89-95 | the loop over the header block yields the list it decodes to |
| LogDisk.WriteIs | operating systems project 2/kernel/bio.c:105-112 | one block write, classified as a slot, header or home write by its block number, changes exactly that part of the log's image of the disk |
| LogDisk.BlankDisk | operating systems project 2/kernel/log.c:54-65 | a disk whose header counts no blocks is well formed with an empty log, so initlog can start from it |
| LogDisk.LoggedStays | operating systems project 2/kernel/bio.c:75-87 | through any call that respects references, a block logged and pinned stays in its buffer with what was logged, as long as a holder that gives it back left that in it |
| LogDisk.UnpinnedAt | operating systems project 2/kernel/log.c:73-82 | installing the listed blocks takes exactly one pin from each of their buffers |
| LogDisk.FullLogStarves | operating systems project 2/kernel/param.h:13-15 | with as many buffers as log entries, a full log leaves no buffer for any other block |
| Log.LogState.FullLog | operating systems project 2/kernel/log.c:193-198 | once the log lists LOGSIZE blocks with none of them locked, commit finds no buffer for the header block, so it panics |
| LogLimits.FillLog | operating systems project 2/kernel/log.c:193-203 | from any blank disk with a log area longer than LOGSIZE and LOGSIZE other blocks, initlog, three begin_op and calls of bread, log_write and brelse, no operation over MAXOPBLOCKS, reach a full log whose last end_op panics |
| LogLimits.LoadAll | operating systems project 2/kernel/log.c:126-142 | three admitted operations share LOGSIZE distinct blocks and log them all, within MAXOPBLOCKS each |
| Log.LogState.ReadBlock | operating systems project 2/kernel/bio.c:96-108 | bread of a block within the calls of the log: the block's latest contents, locked, with every logged block still in its pinned buffer; panics exactly when every buffer is referenced |
| Log.LogState.Change | operating systems project 2/kernel/log.c:206-213 | the holder's store changes that buffer alone and keeps what was logged in place unless it is logged again |
| Log.LogState.Release | operating systems project 2/kernel/bio.c:118-142 | brelse of a block as logged or as on disk keeps the run and everything logged |
| Log.LogState.constructor | operating systems project 2/kernel/log.c:54-65 | initlog on any disk a run can leave behind completes that run: log empty, home blocks what the disk stood for, no buffer in use, the calls from then on continue the run, within MAXOPBLOCKS if it was |
| Log.LogState.CopyToSlot | operating systems project 2/kernel/log.c:184-189 | the slot gets what was logged for the block, read through bread from its pinned buffer; panics exactly when the slot's block is not cached and every buffer is referenced |
| Log.LogState.WriteLog | operating systems project 2/kernel/log.c:178-191 | the log slots become the logged contents of the listed blocks, in order, and nothing else changes; panics exactly when some slot's block finds no buffer |
| Log.LogState.WriteHead | operating systems project 2/kernel/log.c:102-114 | the on-disk header becomes the in-memory list by one write; panics exactly when the header block finds no buffer |
| Log.LogState.ReadHead | operating systems project 2/kernel/log.c:86-97 | the in-memory list becomes the one on disk |
| Log.LogState.InstallBlock | operating systems project 2/kernel/log.c:72-81 | one slot is copied to its home block, and the buffer unpinned unless recovering |
| Log.LogState.InstallTrans | operating systems project 2/kernel/log.c:68-83 | all listed slots reach their home blocks in order; outside recovery each listed buffer loses one pin |
| Log.LogState.RecoverFromLog | operating systems project 2/kernel/log.c:116-123 | from any well-formed disk with no buffer in use the writes issued are the recovery sequence, the result is its final image, and no buffer panic is possible |
| Log.LogState.Commit | operating systems project 2/kernel/log.c:193-203 | panics exactly when a listed commit's header or slot blocks find no buffer; otherwise the writes issued are the commit sequence for the listed blocks with their logged contents, and one pin per listed block is gone |
| Log.LogState.BeginOp | operating systems project 2/kernel/log.c:126-142 | an operation is admitted exactly when no commit is running and its reservation fits; being admitted is a step of the run |
| Log.LogState.LogWrite | operating systems project 2/kernel/log.c:214-235 | panics exactly when the log is full or no operation is open; otherwise the block is listed once, its contents are those logged, a newly listed one is pinned, and this is a step of the run |
| Log.LogState.EndOp | operating systems project 2/kernel/log.c:146-175 | the last operation out commits everything logged: home blocks become the old ones overlaid with the logged contents, header and list empty; earlier ones change neither disk nor buffers; either way the calls so far remain a run of the logging system; panics exactly during a commit or for want of buffers |
| SleepLock.NextInv | operating systems project 2/kernel/sleeplock.c:21-41 | every step of any process, of the scheduler, of a timer yield or of kill keeps the sleep-lock invariant |
| SleepLock.InvRun | operating systems project 2/kernel/sleeplock.c:21-41 | the invariant holds in every state of every run with any number of processes |
| SleepLock.MutualExclusion | operating systems project 2/kernel/sleeplock.c:21-31 | in every state of every run at most one process holds the sleep-lock, and it is the one lk->locked and lk->pid name |
| SleepLock.NoLostWakeup | operating systems project 2/kernel/proc.c:557-602 | whenever the lock is free and its inner spin-lock is not held, nobody sleeps on it or is about to |
| SleepLock.SlotTargetOk | operating systems project 2/kernel/proc.c:588-602 | a process wakeup looks at under its p->lock is entirely asleep or not at all, so making it RUNNABLE is safe |
| BufferCache.Unlink | operating systems project 2/kernel/bio.c:128-129 | splicing a buffer out of the doubly linked ring gives the ring without it, order kept |
| BufferCache.LinkFront | operating systems project 2/kernel/bio.c:130-133 | splicing a buffer in after the head gives the ring with it first |
| BufferCache.OneBuffer | operating systems project 2/kernel/bio.c:58-137 | a change to one buffer that its own block cannot tell changes no block's latest contents |
| BufferCache.Recycled | operating systems project 2/kernel/bio.c:75-87 | reassigning an idle buffer that agrees with the disk changes no block's latest contents |
| BufferCache.ReferencedThroughout | operating systems project 2/kernel/bio.c:58-151 | over any sequence of calls, a buffer that stays referenced or pinned keeps its block and stays valid once it is, and its data changes only by its holder's stores |
| BufferCache.FrontByRelease | operating systems project 2/kernel/bio.c:116-137 | moving the buffer released last to the front keeps the ring sorted by time of release |
| BufferCache.Cache.constructor | operating systems project 2/kernel/bio.c:36-53 | an empty cache with all buffers on the ring |
| BufferCache.Cache.LinkAll | operating systems project 2/kernel/bio.c:46-52 | the init loop links all NBUF buffers, last one first |
| BufferCache.Cache.FindCached | operating systems project 2/kernel/bio.c:66-73 | the forward walk finds the block's buffer if and only if there is one |
| BufferCache.Cache.FindIdle | operating systems project 2/kernel/bio.c:77-87 | the backward walk finds the least recently released buffer with no references, if any |
| BufferCache.Cache.Bget | operating systems project 2/kernel/bio.c:58-89 | panics exactly when the block is not cached and every buffer is referenced; otherwise one referenced buffer for the block, still the only one, all other buffers untouched and no block's latest contents changed |
| BufferCache.Cache.Lock | operating systems project 2/kernel/sleeplock.c:21-31 | a waiting reference turns into the lock holder |
| BufferCache.Cache.Fill | operating systems project 2/kernel/bio.c:98-101 | the locked buffer ends up valid with the block's latest contents |
| BufferCache.Cache.Bread | operating systems project 2/kernel/bio.c:92-103 | a locked buffer holding the latest contents of the block, no other block's changed; or, when another process holds it, a reference with the caller asleep; panics exactly when the block is not cached and every buffer is referenced |
| BufferCache.Cache.Resume | operating systems project 2/kernel/bio.c:66-102 | the caller woken on a released buffer holds it with the block's latest contents |
| BufferCache.Cache.Store | operating systems project 2/kernel/bio.c:1-14 | the holder's store becomes the latest contents of that block and of no other |
| BufferCache.Cache.Bwrite | operating systems project 2/kernel/bio.c:106-112 | the disk block becomes the buffer's data; panics exactly when the caller does not hold it; latest contents unchanged |
| BufferCache.Cache.Brelse | operating systems project 2/kernel/bio.c:116-137 | one reference and the lock given back; at zero references the buffer moves to the front of the ring; panics exactly when not held; the rule that idle buffers agree with the disk survives exactly when this buffer, if now idle and valid, does |
| BufferCache.Cache.TakeOut | operating systems project 2/kernel/bio.c:128-129 | the two pointer stores of the unlink give the ring without the buffer |
| BufferCache.Cache.PutFront | operating systems project 2/kernel/bio.c:130-133 | the four pointer stores of the relink put it first |
| BufferCache.Cache.MoveToFront | operating systems project 2/kernel/bio.c:126-134 | the relinked ring is a permutation, sorted by last release |
| BufferCache.Cache.Bpin | operating systems project 2/kernel/bio.c:139-144 | one more reference, nothing else |
| BufferCache.Cache.Bunpin | operating systems project 2/kernel/bio.c:146-151 | one reference less, nothing else |
| Blocks.PutWord | operating systems project 2/kernel/fs.c:412-413 | storing 32-bit word i through the uint pointer changes that word and no other |
| Bitmap.MarkAt | operating systems project 2/kernel/fs.c:75-77 | setting a block's bit changes that block's bit alone, across bytes and bitmap blocks |
| Bitmap.UnmarkAt | operating systems project 2/kernel/fs.c:98-102 | clearing a block's bit changes that block's bit alone |
| FsTree.SlotOfInjective | operating systems project 2/kernel/fs.c:388-454 | distinct file block numbers have distinct slots among direct, indirect and double-indirect entries |
| FsTree.LinkTop | operating systems project 2/kernel/fs.c:388-396 | a new block stored in the inode keeps every file's block tree, this one plus that block |
| FsTree.LinkWord | operating systems project 2/kernel/fs.c:409-415 | a new block stored in an entry of an index block keeps every other file's tree |
| FsTree.GrowTop | operating systems project 2/kernel/fs.c:388-396 | allocating and hanging a block at an inode address keeps all invariants and every file's contents |
| FsTree.GrowWord | operating systems project 2/kernel/fs.c:409-415 | allocating and hanging a block at an index entry keeps all invariants and every file's contents |
| FsTree.AllocatedFree | operating systems project 2/kernel/fs.c:65-88 | allocation takes exactly the returned block out of the free set |
| FsData.ChunkStored | operating systems project 2/kernel/fs.c:624-630 | copying a chunk into the block of an offset lays those bytes over that file there and changes no other byte of any file |
| FsData.StoreOk | operating systems project 2/kernel/fs.c:624-630 | storing data keeps the block trees, the bitmap and the free set |
| FsData.PathsSize | operating systems project 2/kernel/file.c:149-155 | four consecutive file blocks use at most four data and three index blocks |
| FsTrunc.ReleaseOne | operating systems project 2/kernel/fs.c:516-550 | freeing the next block of the tree in itrunc's order advances the released part by exactly that block |
| FsTrunc.RecordOne | operating systems project 2/kernel/fs.c:92-104 | freeing that block logs exactly its bitmap block |
| FsTrunc.RecordAll | operating systems project 2/kernel/fs.c:509-557 | over the whole tree these are the bitmap blocks of everything the file held |
| FsTrunc.EmptiedFree | operating systems project 2/kernel/fs.c:509-557 | at the end the free set has grown by exactly the blocks the file held, plus block 0 when one second-level entry was absent |
| FsSteps.SteppedTwice | operating systems project 2/kernel/fs.c:382-455 | two bmap steps compose: only blocks on the path are added and logged, everything else kept |
| FsSteps.WroteTwice | operating systems project 2/kernel/fs.c:609-643 | two rounds of the write loop compose into one write of the joined bytes |
| FsSteps.LogsTwice | operating systems project 2/kernel/fs.c:65-104 | what two steps log is exactly what each logs: new blocks, their bitmap blocks, the index blocks that name them and the data blocks written |
| FsSteps.LowestTwice | operating systems project 2/kernel/fs.c:65-88 | blocks are given out from the lowest free one up, across any number of steps |
| FsSteps.FreshCount | operating systems project 2/kernel/fs.c:65-88 | blocks given out are as many as slots that gained one, and are exactly what the free set lost |
| FsSteps.DoneExact | operating systems project 2/kernel/fs.c:609-643 | a write is carried out in full if and only if the source is readable and no more blocks are missing on the way than are free |
| FsSteps.ReadBack | operating systems project 2/kernel/fs.c:575-643 | bytes written read back from the same offset, and every other file reads as before |
| FsSteps.MineSize | operating systems project 2/kernel/file.c:149-155 | blocks of one tree sit at distinct slots, so logged blocks are counted by slots |
| FsSteps.LoggedSize | operating systems project 2/kernel/file.c:149-155 | one chunk of filewrite logs at most 4 data, 3 index and 1 inode block beside the bitmap blocks of the blocks it was given, and no more of these than the data area's bits lie in |
| FsSteps.MidBySize | operating systems project 2/kernel/fs.c:431-440 | a second-level block is present if the file reaches past its first block and absent if it ends before it |
| FsSteps.PanicBySize | operating systems project 2/kernel/fs.c:534-551 | itrunc panics exactly for sizes past 267 blocks and short of 65291; at each of these two sizes one index block decides |
| FsSteps.LossBySize | operating systems project 2/kernel/fs.c:534-551 | itrunc loses the bit of block 0 exactly for sizes past 65291 blocks and short of 65547, the two ends apart |
| FsLimits.UntruncatableFile | operating systems project 2/kernel/fs.c:534-551 | from every formatted disk with 804 blocks for files, one write leads to a sound file of 268 blocks whose double-indirect tree has two or more absent entries, where itrunc's contract is to panic |
| FsLimits.OverBudget | operating systems project 2/kernel/file.c:149-168 | from every formatted disk whose files' bits lie in three or more bitmap blocks, calls lead to a sound state in which one filewrite carries out its chunk in full and that chunk logs more than MAXOPBLOCKS blocks |
| FsLimits.WithinBudget | operating systems project 2/kernel/file.c:149-168 | with at most two such bitmap blocks, every operation of every filewrite logs at most MAXOPBLOCKS blocks |
| FsLimits.ElevenLogged | operating systems project 2/kernel/file.c:149-168 | such a chunk logs seven blocks of the file, three bitmap blocks and the inode's block |
| FsLimits.WriteOne | operating systems project 2/kernel/file.c:149-179 | a filewrite of one chunk with room and source carries it out in one operation |
| FsLimits.Append | operating systems project 2/kernel/fs.c:609-643 | a block appended to a file in a disk filled from the bottom takes the next one to three free blocks and no others |
| Fs.FileSystem.constructor | operating systems project 2/kernel/fs.h:8-23 | a formatted disk with empty files meets every invariant, with exactly the blocks past the metadata free |
| Fs.FileSystem.Balloc | operating systems project 2/kernel/fs.c:65-88 | the lowest free block, marked and zeroed, and no other block's bit or contents; 0 exactly when none is free |
| Fs.FileSystem.Scan | operating systems project 2/kernel/fs.c:74-79 | the first clear bit of one bitmap block, every bit before it being set |
| Fs.FileSystem.Bfree | operating systems project 2/kernel/fs.c:91-105 | clears the block's bit and no other; panics exactly when it was already clear |
| Fs.FileSystem.TopBlock | operating systems project 2/kernel/fs.c:388-396 | the address in the inode, allocated when 0 and possible, other files and contents unchanged |
| Fs.FileSystem.Entry | operating systems project 2/kernel/fs.c:407-417 | the address in an index block, allocated when 0 and possible, other files and contents unchanged |
| Fs.FileSystem.Bmap | operating systems project 2/kernel/fs.c:382-455 | the block for a file block number: present blocks are found, missing ones on the path allocated, exactly as many as are missing, or 0 when space runs out; when the second-level allocation is the one that fails the result is a word of block 0; panics exactly past MAXFILE |
| Fs.FileSystem.MapDirect | operating systems project 2/kernel/fs.c:388-396 | the same for a direct block |
| Fs.FileSystem.MapSingle | operating systems project 2/kernel/fs.c:399-418 | the same through the single-indirect block |
| Fs.FileSystem.MapMid | operating systems project 2/kernel/fs.c:423-440 | the second-level block, allocating both levels as needed |
| Fs.FileSystem.MapDouble | operating systems project 2/kernel/fs.c:421-455 | the same through the double-indirect tree |
| Fs.FileSystem.FreeSlot | operating systems project 2/kernel/fs.c:516-550 | freeing a present block of the tree never finds its bit clear, and logs its bitmap block |
| Fs.FileSystem.FreePresent | operating systems project 2/kernel/fs.c:517-519 | an entry is released exactly when it is present |
| Fs.FileSystem.TruncDirect | operating systems project 2/kernel/fs.c:516-521 | every direct block is released and its address cleared |
| Fs.FileSystem.FreeEntries | operating systems project 2/kernel/fs.c:526-529 | every present entry of an index block is released |
| Fs.FileSystem.TruncSingle | operating systems project 2/kernel/fs.c:523-533 | the single-indirect tree is released and its address cleared |
| Fs.FileSystem.FreeMid | operating systems project 2/kernel/fs.c:539-546 | a second-level entry is released without a test for absence: panics exactly at the second absent one |
| Fs.FileSystem.FreeZero | operating systems project 2/kernel/fs.c:546-546 | releasing the 0 of an absent entry clears block 0's bit, and panics when that happened before |
| Fs.FileSystem.FreeMids | operating systems project 2/kernel/fs.c:537-547 | over all entries: panics exactly when two or more are absent |
| Fs.FileSystem.TruncDouble | operating systems project 2/kernel/fs.c:534-551 | the double-indirect tree released; panics exactly when it is present with two or more absent entries |
| Fs.FileSystem.Itrunc | operating systems project 2/kernel/fs.c:509-557 | panics if and only if a double-indirect tree has two or more absent second-level entries, which is every size past 267 blocks and short of 65291 and no size below or above these; otherwise the inode is empty, exactly its blocks are free again (plus block 0 for one absent entry), every other file keeps its contents, and logged are exactly the inode's block and the bitmap blocks of the blocks freed |
| FsSteps.TruncBudget | operating systems project 2/kernel/fs.c:509-557 | a truncation into an empty log writes one block more than the bitmap blocks its file's bits lie in, and these are at most what the data area's bits lie in |
| Fs.FileSystem.WriteBlock | operating systems project 2/kernel/fs.c:621-631 | one block's chunk is laid over the file, or nothing is when the disk is full |
| Fs.FileSystem.WriteRound | operating systems project 2/kernel/fs.c:620-632 | a round of the loop extends what the earlier rounds wrote |
| Fs.FileSystem.WriteLoop | operating systems project 2/kernel/fs.c:620-632 | the loop writes the source's bytes up to where it stops, and says why it stopped |
| Fs.FileSystem.Writei | operating systems project 2/kernel/fs.c:609-643 | returns -1 exactly for an offset past the end or a write past MAXFILE blocks, changing nothing; otherwise exactly those bytes are laid at the offset, the size is the larger of the old one and the end written, no other file changes, the blocks logged are exactly the new ones with their bitmap blocks and the index blocks naming them, the data blocks copied whole and the inode's, and n is returned if and only if the source is readable and the disk has room |
| Fs.FileSystem.MapPresent | operating systems project 2/kernel/fs.c:587-589 | below the end of file nothing is allocated |
| Fs.FileSystem.ReadLoop | operating systems project 2/kernel/fs.c:586-598 | the loop collects the file's bytes in order |
| Fs.FileSystem.Readi | operating systems project 2/kernel/fs.c:575-600 | returns the file's bytes from the offset clipped at the end, -1 exactly when the destination faults, and changes nothing |
| Fs.FileSystem.WriteChunk | operating systems project 2/kernel/file.c:157-174 | one chunk is one logged operation: it starts with nothing logged, extends the bytes written and the series of operations, or stops the series for a stated reason |
| Fs.FileSystem.Filewrite | operating systems project 2/kernel/file.c:134-181 | returns n if and only if n is 0 or the offset is within the file, the end within MAXFILE, the source readable and the disk has room; then all n bytes are in the file; otherwise -1 with a prefix written; sizes of all files as given by the bytes reported; one operation per chunk, each starting from the state the one before left, logging exactly what Writei says and at most 8 blocks beside bitmap blocks |
| Fs.FileSystem.WriteChunks | operating systems project 2/kernel/file.c:149-179 | the loop ends with every chunk written in full, or halts at the first that is not, with what it reported and what it laid down known |
| Sv39.MakePteParts | operating systems project 2/kernel/riscv.h:360-371 | PA2PTE with flags gives back page and flags through PTE2PA and PTE_FLAGS |
| Sv39.DecodeValid | operating systems project 2/kernel/riscv.h:360-371 | a valid entry comes apart into its page and valid flags |
| Sv39.DecodeMade | operating systems project 2/kernel/riscv.h:360-371 | an entry made for a page and flags with PTE_V decodes to that mapping |
| Sv39.VpnIndices | operating systems project 2/kernel/riscv.h:373-376 | the three 9-bit indices of a page number are in range and recompose it |
| Sv39.HangTrees | operating systems project 2/kernel/vm.c:91-101 | a zeroed page hung under an empty entry keeps every table where it is and every translation |
| Sv39.StoreTrees | operating systems project 2/kernel/vm.c:143-172 | a store into a lowest-level table keeps every table of every address space where it is |
| Sv39.StoreLeaf | operating systems project 2/kernel/vm.c:143-172 | such a store changes the one translation it is for and no other |
| Sv39.TreeIsWhole | operating systems project 2/kernel/vm.c:278-294 | a page table without valid leaves consists of pointer entries only, so freewalk cannot panic on it |
| Vm.RollBack | operating systems project 2/kernel/vm.c:232-256 | unmapping what was grown restores the translations and tracked frames exactly |
| Vm.SpaceRoundTrip | operating systems project 2/kernel/proc.c:176-217 | adding an address space and dropping it again leaves the others as they were |
| Vm.Kernel.constructor | operating systems project 2/kernel/kalloc.c:26-41 | every whole page between the two addresses is on the free list once, the last one first, and nothing is mapped |
| Vm.Kernel.Kalloc | operating systems project 2/kernel/kalloc.c:68-82 | the head of the free list leaves it, None exactly when it is empty; every other page keeps contents and role |
| Vm.Kernel.Kfree | operating systems project 2/kernel/kalloc.c:46-63 | the page joins the free list, which stays duplicate free |
| Vm.Kernel.Freerange | operating systems project 2/kernel/kalloc.c:33-41 | the loop frees each whole page of the range once |
| Vm.Kernel.MakeTable | operating systems project 2/kernel/vm.c:95-100 | an empty entry gets a zeroed table taken from the free list, no translation and no other table changes; None exactly when out of memory |
| Vm.Kernel.Descend | operating systems project 2/kernel/vm.c:91-101 | one level down: the present table, a new one, or none |
| Vm.Kernel.Walk | operating systems project 2/kernel/vm.c:85-103 | the leaf entry of the page in the right table, its value the translation; panics exactly at or above MAXVA; no translation of any address space changes; with alloc it fails only when fewer than two pages are free |
| Vm.Kernel.MapOne | operating systems project 2/kernel/vm.c:161-165 | one page gets its translation, or the call fails with none changed |
| Vm.Kernel.MapNext | operating systems project 2/kernel/vm.c:160-170 | one turn extends the mapped range by a page |
| Vm.Kernel.MapRange | operating systems project 2/kernel/vm.c:158-171 | the loop maps exactly the first `done` pages of the range |
| Vm.Kernel.Mappages | operating systems project 2/kernel/vm.c:143-172 | all pages of the range are mapped to consecutive frames, or exactly a prefix is; no other translation moves; no panic when the range is aligned and unmapped |
| Vm.Kernel.ClearLeaf | operating systems project 2/kernel/vm.c:193-197 | the frame is freed if asked and the entry cleared |
| Vm.Kernel.UnmapOne | operating systems project 2/kernel/vm.c:187-197 | succeeds exactly on a leaf, then that translation alone is gone |
| Vm.Kernel.UnmapNext | operating systems project 2/kernel/vm.c:186-198 | one turn extends the cleared range by a page |
| Vm.Kernel.UnmapRange | operating systems project 2/kernel/vm.c:186-198 | the loop completes exactly when every page is a leaf |
| Vm.Kernel.Uvmunmap | operating systems project 2/kernel/vm.c:177-199 | completes exactly when aligned and every page of the range is a leaf; exactly those translations are cleared, and their frames freed once each when asked |
| Vm.Kernel.GrowOne | operating systems project 2/kernel/vm.c:243-253 | one new zeroed frame, or nothing kept |
| Vm.Kernel.GrowNext | operating systems project 2/kernel/vm.c:242-254 | one turn of the loop extends the grown range |
| Vm.Kernel.Ungrow | operating systems project 2/kernel/vm.c:244-252 | the failure path restores translations and frames exactly |
| Vm.Kernel.Uvmdealloc | operating systems project 2/kernel/vm.c:262-274 | the pages between the rounded sizes lose translation and frame, no others |
| Vm.Kernel.Uvmalloc | operating systems project 2/kernel/vm.c:232-256 | all new pages get zeroed frames of their own with the asked flags, or none and every translation and frame is as before; it fails only with fewer than three free pages per new page; the contents of every frame mapped before and of every page in the kernel's hands are kept |
| Vm.Kernel.GrowFrom | operating systems project 2/kernel/vm.c:242-254 | the loop over the pages: all of them furnished, or everything as before and too few pages free, or a panic only where something was mapped |
| Vm.Kernel.CopyOne | operating systems project 2/kernel/vm.c:321-333 | one page of the child gets a copy of the parent's frame with its flags |
| Vm.Kernel.CopyFrame | operating systems project 2/kernel/vm.c:327-333 | a new frame holds what the given frame held and is mapped with the given flags, or nothing is kept |
| Vm.Kernel.CopyNext | operating systems project 2/kernel/vm.c:320-334 | one turn of the loop extends the copied range |
| Vm.Kernel.Uvmcopy | operating systems project 2/kernel/vm.c:312-340 | every page below sz of the child maps a frame of its own equal to the parent's with the same flags, or the child and all frames are as before; it fails only with fewer than three free pages per page; the parent's and all other frames keep their contents |
| Vm.Kernel.Uncopy | operating systems project 2/kernel/vm.c:337-339 | the failure path restores the child exactly |
| Vm.Kernel.Uvmcreate | operating systems project 2/kernel/vm.c:203-212 | a new empty address space whose root is the page taken from the free list, all others unchanged |
| Vm.Kernel.FreeEntry | operating systems project 2/kernel/vm.c:282-292 | one entry: the table under it freed, if any, and the entry cleared |
| Vm.Kernel.Freewalk | operating systems project 2/kernel/vm.c:278-294 | every page of the subtree is freed exactly once and no other page is touched |
| Vm.Kernel.FreeTables | operating systems project 2/kernel/vm.c:303-303 | the address space disappears, exactly its table pages join the free list, the tables of the others stay where they were and all other pages keep their contents |
| Vm.Kernel.Uvmfree | operating systems project 2/kernel/vm.c:298-304 | completes exactly when all pages below sz are leaves; then every frame and every table page the address space held is free, the tables of the others are where they were, and all other frames and kernel pages keep their contents |
| Vm.Kernel.MapFixed | operating systems project 2/kernel/proc.c:190-199 | a kernel page is mapped without becoming a tracked frame |
| Vm.Kernel.Abandon | operating systems project 2/kernel/proc.c:191-203 | giving up restores translations, frames and tables as before uvmcreate and touches no other page's contents |
| Vm.Kernel.UnmapFixed | operating systems project 2/kernel/proc.c:200-200 | taking the trampoline mapping back restores the translations before it |
| Vm.Kernel.ProcPagetable | operating systems project 2/kernel/proc.c:176-207 | an address space holding exactly trampoline and trapframe, or nothing at all with every page, tables included, given back, which takes fewer than five free pages; frames and kernel pages keep their contents |
| Vm.Kernel.MapKernelPages | operating systems project 2/kernel/proc.c:185-204 | both kernel pages mapped, or every translation, frame and table as before the new address space |
| Vm.Kernel.UnmapKernelPages | operating systems project 2/kernel/proc.c:214-215 | both kernel pages unmapped and kept |
| Vm.Kernel.UnmapKept | operating systems project 2/kernel/proc.c:214-215 | one kernel page unmapped exactly when it is mapped, no frame freed |
| Vm.Kernel.ProcFreepagetable | operating systems project 2/kernel/proc.c:211-217 | all pages of the process, tables included, go back to the free list, kernel pages and the frames and tables of other address spaces are kept; completes exactly when everything is mapped as expected |
| FreeList.InsertGood | operating systems project 2/user/umalloc.c:24-44 | freeing into the right place keeps the list address-ordered with adjacent blocks merged |
| FreeList.InsertCovers | operating systems project 2/user/umalloc.c:24-44 | the list gains exactly the units of the freed block |
| FreeList.TakeGood | operating systems project 2/user/umalloc.c:75-84 | carving from a block keeps the list ordered and merged |
| FreeList.TakeCovers | operating systems project 2/user/umalloc.c:75-84 | the list loses exactly the carved units |
| Umalloc.Place | operating systems project 2/user/umalloc.c:30-32 | a block clear of the list has a place in it, after base or a lower block |
| Umalloc.FreeRing | operating systems project 2/user/umalloc.c:33-43 | free's pointer and size stores turn the circular list into the one with the block inserted and merged |
| Umalloc.FreeListed | operating systems project 2/user/umalloc.c:24-44 | the list in memory stays a circular, ordered, merged list within the heap |
| Umalloc.FreeKeeps | operating systems project 2/user/umalloc.c:24-44 | after free all other live blocks keep place and header, and every unit obtained is in exactly a free or a live block |
| Umalloc.GrowKeeps | operating systems project 2/user/umalloc.c:46-61 | memory from sbrk joins the free list without touching live blocks |
| Umalloc.TakeRing | operating systems project 2/user/umalloc.c:75-84 | malloc's stores turn the circular list into the one with the units taken out |
| Umalloc.TakeKeeps | operating systems project 2/user/umalloc.c:75-84 | the carved block is disjoint from every live block and from the list, and no unit is lost |
| Umalloc.TakenIntact | operating systems project 2/user/umalloc.c:75-84 | the stores of carving touch no unit of a live block |
| Umalloc.FreeIntact | operating systems project 2/user/umalloc.c:33-43 | the stores of freeing touch no unit of a block that stays live |
| Umalloc.SbrkArgumentExact | operating systems project 2/user/umalloc.c:46-61 | the int argument to sbrk is the size written to the header if and only if the request is at most 2^31 - 32 bytes |
| Umalloc.Heap.Search | operating systems project 2/user/umalloc.c:30-32 | the walk from freep terminates at the entry the block belongs after, wrap-around included |
| Umalloc.Heap.Splice | operating systems project 2/user/umalloc.c:30-43 | walk and stores together insert the block and move freep |
| Umalloc.Heap.Free | operating systems project 2/user/umalloc.c:24-44 | exactly that block stops being live, every unit of every other live block keeps its contents, and the heap stays consistent and owns the same units |
| Umalloc.Heap.Obtain | operating systems project 2/user/umalloc.c:52-58 | new memory above everything in use, with its header written |
| Umalloc.Heap.Donate | operating systems project 2/user/umalloc.c:59-59 | the new block is freed into the list, which now has a block of that size |
| Umalloc.Heap.Morecore | operating systems project 2/user/umalloc.c:46-61 | on success the list has a block of at least the asked units; on refusal nothing changed |
| Umalloc.Heap.Carve | operating systems project 2/user/umalloc.c:75-84 | a new live block of exactly n units that was not live before |
| Umalloc.Heap.Start | operating systems project 2/user/umalloc.c:70-73 | the first call makes base the whole circular list |
| Umalloc.Heap.Circuit | operating systems project 2/user/umalloc.c:74-89 | one trip round the ring finds a large enough block unless there is none |
| Umalloc.Heap.Malloc | operating systems project 2/user/umalloc.c:63-90 | terminates; on success one new live block with room for nbytes; every unit of every block live before keeps its contents; null only when no free block is large enough, with nothing obtained |
| Grep.HereOne | operating systems project 2/user/grep.c:93-94 | a literal or dot matches one fitting character and the rest |
| Grep.HereStar | operating systems project 2/user/grep.c:99-106 | a starred character matches some prefix of fitting characters, of any length, and the rest |
| Grep.HereEnd | operating systems project 2/user/grep.c:91-92 | a final dollar matches only at the end |
| Grep.MatchHere | operating systems project 2/user/grep.c:85-96 | true exactly when the text can be cut into one word per pattern item |
| Grep.MatchStar | operating systems project 2/user/grep.c:99-106 | true exactly when some number of fitting characters lets the rest match |
| Grep.Match | operating systems project 2/user/grep.c:72-82 | true exactly when the pattern matches at some position, or at the start when anchored |
| Virtio.WrapPosition | operating systems project 2/kernel/virtio_disk.c:272-277 | the ring position of a wrapped 16-bit index is that of the running count |
| Virtio.WrapEqual | operating systems project 2/kernel/virtio_disk.c:312-312 | two indices less than 2^16 apart are equal exactly when the counts are |
| Virtio.Append | operating systems project 2/kernel/virtio_disk.c:272-277 | appending to the available ring overwrites no queued entry |
| Virtio.Advance | operating systems project 2/kernel/virtio_disk.c:312-324 | the reader's next entry is the head of the queue |
| Virtio.Conservation | operating systems project 2/kernel/virtio_disk.c:155-213 | free descriptors plus three per outstanding request are all NUM of them |
| Virtio.CountTriples | operating systems project 2/kernel/virtio_disk.c:199-213 | outstanding requests use disjoint triples of descriptors |
| Virtio.IssueStep | operating systems project 2/kernel/virtio_disk.c:235-277 | issuing a request on three free descriptors keeps the driver invariant |
| Virtio.TakeStep | operating systems project 2/kernel/virtio_disk.c:271-281 | the device taking the next request keeps it |
| Virtio.CompleteStep | operating systems project 2/kernel/virtio_disk.c:309-314 | a completion in the used ring keeps it |
| Virtio.ClearStep | operating systems project 2/kernel/virtio_disk.c:312-324 | handling a completion clears exactly its own buffer |
| Virtio.FinishStep | operating systems project 2/kernel/virtio_disk.c:283-291 | freeing the chain of a finished request keeps it |
| Virtio.CompleteSettles | operating systems project 2/kernel/virtio_disk.c:240-258 | where no two outstanding requests clash on a sector, a completed request's buffer and sector agree, and no later completion makes them differ |
| Virtio.NextPosted | operating systems project 2/kernel/virtio_disk.c:271-281 | the device sees an empty available ring exactly when nothing is posted |
| Virtio.NextDone | operating systems project 2/kernel/virtio_disk.c:312-324 | the handler sees an empty used ring exactly when nothing is completed, else the head's status and buffer |
| Virtio.SectorExact | operating systems project 2/kernel/virtio_disk.c:218-218 | the 32-bit product is the block's own first sector if and only if the block number is below 2^31; beyond it two blocks share sectors |
| Virtio.Driver.constructor | operating systems project 2/kernel/virtio_disk.c:145-146 | all descriptors free, no request outstanding |
| Virtio.Driver.AllocDesc | operating systems project 2/kernel/virtio_disk.c:155-166 | the lowest free descriptor, or -1 exactly when none is free |
| Virtio.Driver.FreeDesc | operating systems project 2/kernel/virtio_disk.c:168-182 | the descriptor is free and cleared; panics on one out of range or already free |
| Virtio.Driver.Alloc3 | operating systems project 2/kernel/virtio_disk.c:199-213 | three free descriptors, or none taken and fewer than three free |
| Virtio.Driver.Submit | operating systems project 2/kernel/virtio_disk.c:215-281 | a request for the block's sector is posted with its own three descriptors, no other request disturbed, or fewer than three were free; completed requests stay settled when the sector is nobody else's to write |
| Virtio.Driver.Format | operating systems project 2/kernel/virtio_disk.c:235-269 | the chain describes header, data and status of this request |
| Virtio.Driver.DeviceTake | operating systems project 2/kernel/virtio_disk.c:271-281 | requests are taken in the order posted |
| Virtio.Driver.ReadChain | operating systems project 2/kernel/virtio_disk.c:235-269 | following the chain yields the request's command, sector and buffer |
| Virtio.Driver.DeviceComplete | operating systems project 2/kernel/virtio_disk.c:309-314 | the device moves exactly the data of the request it was given, and unsettles no completed request |
| Virtio.Driver.IntrStep | operating systems project 2/kernel/virtio_disk.c:312-324 | one completion is consumed and its own buffer released |
| Virtio.Driver.Intr | operating systems project 2/kernel/virtio_disk.c:294-327 | the loop, while the device takes and completes further requests in any order, clears exactly those completed by the time it finds the used ring empty; the rest are as they were or taken, in ring order; only buffers being read into and sectors being written change |
| Virtio.Driver.FreeChain | operating systems project 2/kernel/virtio_disk.c:184-197 | following next frees exactly the three descriptors |
| Virtio.Driver.Finish | operating systems project 2/kernel/virtio_disk.c:283-291 | the request is forgotten and its descriptors are free again; its sector and its buffer then hold the same block if no outstanding requests ever clashed on a sector |
| Pipe.CountersTell | operating systems project 2/kernel/pipe.c:88-88 | the wrapped 32-bit counters tell empty and full exactly as the running counts do |
| Pipe.CounterPosition | operating systems project 2/kernel/pipe.c:95-95 | a wrapped counter has the ring position of the running count |
| Pipe.Pipe.constructor | operating systems project 2/kernel/pipe.c:33-36 | an empty open pipe |
| Pipe.Pipe.Push | operating systems project 2/kernel/pipe.c:95-95 | the byte is queued last |
| Pipe.Pipe.Write | operating systems project 2/kernel/pipe.c:76-103 | the bytes accepted are exactly the next ones of the source; the reason for stopping is done, broken, full or fault, each exactly when it applies; if before nobody slept who had something to do then the same holds after, except if and only if readers sleep and the writer is killed after putting at least one byte in |
| Pipe.Pipe.Pop | operating systems project 2/kernel/pipe.c:123-124 | the oldest byte leaves the pipe |
| Pipe.Pipe.Read | operating systems project 2/kernel/pipe.c:105-130 | sleeps exactly while the pipe is empty and may be written, -1 exactly when killed there; otherwise the bytes delivered are the next ones accepted, in order, as many as asked, available and copyable, and nobody comes to sleep with something to do |
| Pipe.Pipe.Drain | operating systems project 2/kernel/pipe.c:120-126 | the copying loop delivers the next bytes in order, as many as asked, copyable and present, and loses at most one |
| Pipe.Pipe.Close | operating systems project 2/kernel/pipe.c:58-74 | the end is closed, exactly those asleep at the other end are woken, and the pipe is freed exactly when both are closed |
| Pipe.SleptThrough | operating systems project 2/kernel/pipe.c:82-90 | calls from a new pipe after which a reader sleeps beside a byte that is there for it |
| Symlink.CompleteRead | operating systems project 2/kernel/sysfile.c:353-357 | what sys_open reads out of a complete link does not depend on what its stack held |
| Symlink.NewLinkComplete | operating systems project 2/kernel/sysfile.c:554-565 | in a new inode exactly the whole of both writes makes a complete link |
| Symlink.NewLinkSound | operating systems project 2/kernel/sysfile.c:538-570 | with a new path every link is still complete exactly when sys_symlink returns 0 |
| Symlink.WalkOpens | operating systems project 2/kernel/sysfile.c:339-366 | where every link is complete, following ends at x if and only if x is the inode opening should give |
| Symlink.OpenedMeans | operating systems project 2/kernel/sysfile.c:339-402 | with every link complete, a descriptor refers to the inode the path means, and a refusal with a file and descriptor to be had means there is none but a bad device |
| Symlink.TargetReadBack | operating systems project 2/kernel/sysfile.c:353-357 | open reads back exactly the path sys_symlink stored, whatever the inode held before |
| Symlink.LinkLeads | operating systems project 2/kernel/sysfile.c:353-363 | a completed link leads to the inode its target names |
| Symlink.DirectoryOverwritten | operating systems project 2/kernel/sysfile.c:545-569 | sys_symlink at the path of an existing directory returns 0 and has written the target over the directory's first entry, whose name is gone |
| Symlink.DirentKept | operating systems project 2/kernel/sysfile.c:554-565 | an entry past the bytes written is kept |
| Symlink.ReachesOne | operating systems project 2/kernel/sysfile.c:339-366 | the inode d links away is unique and all on the way are links |
| Symlink.CycleOpensNothing | operating systems project 2/kernel/sysfile.c:341-346 | a chain that returns to itself opens nothing |
| Symlink.LongChainOpensNothing | operating systems project 2/kernel/sysfile.c:341-346 | more than nine links in a row open nothing |
| Symlink.OneOpens | operating systems project 2/kernel/sysfile.c:339-366 | a path means at most one inode |
| Symlink.TooDeep | operating systems project 2/kernel/sysfile.c:341-346 | a link nine links away means the open fails |
| Symlink.Dangling | operating systems project 2/kernel/sysfile.c:359-362 | a link naming nothing means the open fails |
| Symlink.Sys.constructor | operating systems project 2/kernel/sysfile.c:245-305 | the file system of a root directory alone meets what every call asks for |
| Symlink.Sys.Create | operating systems project 2/kernel/sysfile.c:245-305 | for every kind: an existing name gives its inode only where the code allows it, a new one a fresh inode entered under its names; on failure no reference, lock, name or inode is left |
| Symlink.Sys.Existing | operating systems project 2/kernel/sysfile.c:256-266 | which existing kinds create hands out |
| Symlink.Sys.Fresh | operating systems project 2/kernel/sysfile.c:268-304 | a new inode linked under the name, or given up completely |
| Symlink.Sys.Hop | operating systems project 2/kernel/sysfile.c:353-364 | one link followed, complete or not, to what the path read names, with one reference and one lock held before and after |
| Symlink.Sys.Follow | operating systems project 2/kernel/sysfile.c:339-366 | terminates; yields exactly where following at most nine links ends, incomplete ones included, or fails; O_NOFOLLOW stays |
| Symlink.Sys.Open | operating systems project 2/kernel/sysfile.c:307-402 | succeeds exactly when the path, looked up or created, leads to an inode that is no bad device and a file and descriptor are to be had; the descriptor then refers to that inode with the asked rights, O_TRUNC empties it and nothing else changes; locks, references and the transaction are balanced on every return |
| Symlink.Sys.OpenInode | operating systems project 2/kernel/sysfile.c:339-402 | the same from the first inode on |
| Symlink.Sys.Symlink | operating systems project 2/kernel/sysfile.c:538-570 | returns 0 exactly when create succeeds and both writes are complete; the inode at the path then holds the target, and otherwise what the writes managed; no other inode changes; names change only when the inode is a directory and its entries were written over; every link is still complete if and only if the inode is no link or was left complete; locks, references and the transaction are balanced on every return |
| Symlink.Sys.Find | operating systems project 2/kernel/sysfile.c:320-338 | the inode sys_open starts from, locked and referenced, or nothing held |
| Symlink.Sys.MakeLink | operating systems project 2/kernel/sysfile.c:545-569 | the same inside the transaction |
| Symlink.Sys.WriteTarget | operating systems project 2/kernel/sysfile.c:554-565 | 0 exactly when both writes are complete, and the inode holds exactly what they managed |
| Shell.GetToken | operating systems project 2/user/sh.c:266-309 | the token's span lies in order within the text, and is the end exactly at the end |
| Shell.ArgsParse | operating systems project 2/user/sh.c:430-446 | printed words parse to spans showing exactly those words |
| Shell.BlockGives | operating systems project 2/user/sh.c:400-414 | a parenthesised line with redirections gives the wrapped inner command |
| Shell.LineParses | operating systems project 2/user/sh.c:345-360 | a printed command at any position parses back to the same tree and stops where it ends |
| Shell.ParsePrint | operating systems project 2/user/sh.c:328-343 | parsing undoes printing: every tree of plain words is recovered from its printed text |
| ShellParser.LineWords | operating systems project 2/user/sh.c:345-360 | every word of a parsed command is a maximal word of the text |
| ShellParser.WordsRead | operating systems project 2/user/sh.c:328-343 | after parsecmd every argument and file name reads as exactly its token, none cut by another's terminator |
| ShellParser.NulTerminate | operating systems project 2/user/sh.c:449-494 | a zero is put exactly at the end of every word and nowhere else |
| ShellParser.EndArgs | operating systems project 2/user/sh.c:466-467 | the loop over an exec node's words |
| ShellParser.Parser.SkipBlanks | operating systems project 2/user/sh.c:272-274 | the cursor moves to the first nonblank |
| ShellParser.Parser.PeekAny | operating systems project 2/user/sh.c:311-321 | true exactly when the next nonblank is one of the given characters |
| ShellParser.Parser.NextToken | operating systems project 2/user/sh.c:266-309 | the cursor-moving code yields the token of the grammar function |
| ShellParser.Parser.Redirections | operating systems project 2/user/sh.c:375-398 | the loop computes the grammar's redirections or panics exactly when it does |
| ShellParser.Parser.Arguments | operating systems project 2/user/sh.c:430-446 | the loop computes the grammar's exec node or panics exactly when it does |
| ShellParser.Parser.Execute | operating systems project 2/user/sh.c:416-447 | parseexec computes its grammar function |
| ShellParser.Parser.Block | operating systems project 2/user/sh.c:400-414 | parseblock computes its grammar function |
| ShellParser.Parser.Pipeline | operating systems project 2/user/sh.c:362-373 | parsepipe computes its grammar function |
| ShellParser.Parser.Ampersands | operating systems project 2/user/sh.c:351-354 | the loop over ampersands computes its grammar function |
| ShellParser.Parser.Line | operating systems project 2/user/sh.c:345-360 | parseline computes its grammar function |
| ShellParser.Parser.Command | operating systems project 2/user/sh.c:328-343 | parsecmd accepts exactly texts that parse to the end |
| Handshake.MutualExclusion | operating systems project 1/ergasia1.c:490-523 | while the program runs at most one of the parent and the children is at shared memory |
| Handshake.NoDeadlock | operating systems project 1/ergasia1.c:276-440 | in every such state somebody can move |
| Handshake.TokenThere | operating systems project 1/ergasia1.c:276-440 | a move that is possible shows where the turn is |
| Handshake.FreePlace | operating systems project 1/ergasia1.c:308-322 | a child that starts always finds a free place in the pid table |
| Handshake.PlacesCount | operating systems project 1/ergasia1.c:302-327 | places in use are distinct and as many as running children |
| Handshake.ForkStep | operating systems project 1/ergasia1.c:285-334 | starting a child hands it the turn and keeps the invariant |
| Handshake.TellStep | operating systems project 1/ergasia1.c:335-393 | telling a child to end hands it the turn and keeps the invariant |
| Handshake.SeatStep | operating systems project 1/ergasia1.c:302-327 | a new child's seating returns the turn and keeps the invariant |
| Handshake.PickStep | operating systems project 1/ergasia1.c:401-439 | waking a chosen child hands it the turn and keeps the invariant |
| Handshake.WakeStep | operating systems project 1/ergasia1.c:493-499 | a woken child has the only turn |
| Handshake.AnswerStep | operating systems project 1/ergasia1.c:501-521 | a child's answer returns the turn; it ends exactly when it was told to |
| Handshake.ResumeStep | operating systems project 1/ergasia1.c:276-440 | the parent's wait returns only with the turn |
| Handshake.ParentStep | operating systems project 1/ergasia1.c:276-440 | the parent's own moves keep the invariant |
| Handshake.Replay | operating systems project 1/ergasia1.c:534-547 | replaying the command table marks exactly the active children |
| Handshake.PickActive | operating systems project 1/ergasia1.c:549-568 | the draw is an active child, none exactly when none is active |
| Handshake.BlankOut | operating systems project 1/ergasia1.c:341-358 | the scan blanks exactly the named entries and keeps a pid found there |
| Handshake.PidOf | operating systems project 1/ergasia1.c:409-416 | the scan returns a pid listed under the name |
| Handshake.Program.constructor | operating systems project 1/ergasia1.c:228-275 | the state before the first step |
| Handshake.Program.StartChild | operating systems project 1/ergasia1.c:285-334 | fails exactly at the limit; otherwise the child is active and has the turn |
| Handshake.Program.TakePlace | operating systems project 1/ergasia1.c:302-327 | the first free place becomes the child's |
| Handshake.Program.ParentWakes | operating systems project 1/ergasia1.c:332-332 | the parent goes on with the turn |
| Handshake.Program.ChildWakes | operating systems project 1/ergasia1.c:493-499 | the child goes on with the turn |
| Handshake.Program.ChildAnswers | operating systems project 1/ergasia1.c:501-521 | the turn goes back, and the child is gone exactly when told to end |
| Handshake.Program.NoCommand | operating systems project 1/ergasia1.c:283-283 | a step without a command goes on to the choice |
| Handshake.Program.EndStep | operating systems project 1/ergasia1.c:276-440 | the next step begins, or the loop is over at the end of the table |
| Handshake.Program.StopChild | operating systems project 1/ergasia1.c:335-393 | an active child is taken out of both tables and told to end; any other name changes nothing else |
| Handshake.Program.Ignore | operating systems project 1/ergasia1.c:355-358 | a name that is not active skips the rest of the step |
| Handshake.Program.PlaceOf | operating systems project 1/ergasia1.c:368-392 | a seated child's place is found |
| Handshake.Program.ChooseChild | operating systems project 1/ergasia1.c:401-439 | an active child is woken at its own semaphore, none exactly when none is active |
| Handshake.Program.Run | operating systems project 1/ergasia1.c:276-440 | the loop ends, whatever pids fork returns, whichever child is drawn and whoever moves: at the end of the table, at EXIT, or at a start with the limit reached; every move of anybody lowers one measure of what is left of the table |
| Handshake.Program.ParentMoves | operating systems project 1/ergasia1.c:276-440 | with the turn the parent always has a move, and it lowers that measure |
| Handshake.Program.OthersMove | operating systems project 1/ergasia1.c:490-523 | while the parent waits somebody has a move, and it lowers that measure |

## Left out

- Handshake.Program.StartChild: a command table that starts a process already active, uses a name outside 1 to 99 or starts more than MAX_CHILDREN processes is not modelled; the program indexes its arrays with these numbers unchecked.
- Handshake.MutualExclusion: speaks of the states before the final broadcast, which wakes every child at once by design.
- Fs.FileSystem.Itrunc: starts from a disk whose boot block is zero, as a formatted image has it; mkfs.c is not part of this model.
- FsSteps.PanicBySize: at the two end sizes an index block left behind by a write that found no room decides, and the contract says which.
- Fs.FileSystem.Readi: what the destination holds after a fault is not stated.
- Symlink.Sys.Hop: a link length that C leaves undefined as an array size (negative, or INT_MAX) is taken to read whatever the memory holds.
- Symlink.Sys.Open: itrunc's panic on large files is in Fs.dfy and not repeated here.
- Umalloc.Heap.Malloc: requests above 2^31 - 32 bytes are excluded; Umalloc.SbrkArgumentExact shows the size passed to sbrk is then wrong.
- Vm.Kernel.Uvmalloc: that memory ran out is stated as fewer than three free pages per new page, not as the exact number of tables missing; the same holds of Vm.Kernel.Uvmcopy and Vm.Kernel.ProcPagetable.
- Vm.Kernel.Kalloc: the free list is a sequence of pages; the links stored inside free pages are not modelled.
- BufferCache.Cache.Resume: who of several waiting processes gets the buffer is the sleep-lock of SleepLock.dfy.
- Log.LogState.EndOp: the last operation is stated for a moment when no listed block's buffer is locked. A reader outside any operation (fileread takes none) may hold one; commit then sleeps in bread until it is released, which is not modelled.
- Fs.FileSystem.Writei: after a fault the part of the last block copied before it is in the contents, as in the buffer; that block is not logged, so the bytes last only until its buffer is recycled, which is not modelled.
- Log.LogState.Release: asks that the buffer is as logged or as on disk; a holder that changed it without log_write is not modelled.
- Symlink.Sys.Symlink: which names are left when a directory's entries were written over is a parameter; directories are a map of names, and Symlink.Dirent only says what its bytes then hold.
- Shell.ParsePrint: printed words are plain, and printing puts every nested command in parentheses.
- Inode slots on disk (ialloc, iget, iupdate, ilock's reading), directories and path lookup: inodes are values and names a map.
- copyin, copyout, copyinstr and the kernel's own page table: a fault is a parameter saying how many bytes could be copied.
- fork, exit, wait, exec, traps, interrupts other than the timer's yield, console and file descriptor tables.
- The shell's execution of a parsed command, and grep's reading of lines.
- Reading and checking of the first project's configuration file, the text lines and the message contents.
- Spin-locks' implementation by atomic instructions; a critical section is one step, or as many as it has places where others can act.
