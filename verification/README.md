# xv6 with a multi-level feedback queue: a verified model

This project models the core of an x86 xv6 whose scheduler was replaced by a
multi-level feedback queue, and proves what its layers promise each other.
Everything is Dafny 4.11; `dafny verify dfyconfig.toml` checks the project.

**Storage.** `RedoLog` is the on-disk log at the level of single block writes:
what commit and recovery write, in which order, and what a crash between any two
writes leaves. `BufferCache` is bio.c with its doubly linked ring, reference counts
and pinned dirty buffers; `CacheSession` adds who holds which buffer, this process or
others; `Log` is log.c on top, where commit, recovery and log_write are methods whose
disk writes are proved to be those of `RedoLog`. `LogProtocol` runs begin_op, log_write
and end_op of any number of processes in any interleaving, and `LogCapacity` says what
the headers that can be reached mean for commit. `FsLayout` has the free map, on-disk
inodes and the direct/indirect block map with one ownership invariant over all of them;
`SlotMap` sees a file's block map as one sequence of slots; `FileSystem` is fs.c's
allocation, block map, truncation, reading and writing; `FileContent` says what a write
does to the byte sequences of files; `File` is file.c's chunked write, and
`LargestChunk` the file system on which a larger chunk would not do. `CrashSafety` puts
the layers on top of each other: files over the file system, whose log_writes go to the
log over the buffer cache.

**Memory.** `Heap` is umalloc.c: the circular address-ordered free list over headers
in memory. `PageTables` and `VirtualMemory` are kalloc.c and vm.c: a free list threaded
through the free pages, and two-level page tables built from them.

**Processes.** `Scheduler` is the feedback queue on one CPU; `SleepLock` is sleeplock.c
over sleep and wakeup as an interleaving protocol; `Pipe` is pipe.c.

**Shell.** `ShellGrammar` is the shell's language given independently of its parser:
the lexemes of a line, the grammar and its trees. `Shell` is sh.c's parser and the pass
that writes NULs into the line in place.

## Main results

1. Crash atomicity of the log for every crash point, with recovery itself interrupted
   any number of times (`RedoLog.CrashAtomic`), over whole runs (`RedoLog.RunAtomic`),
   for the running log over the buffer cache (`Log.LogState.CrashDuringCommit`), and for
   the contents of files, whatever group of writes a commit takes: a crash leaves every
   file as it is now or every file as of the last commit
   (`CrashSafety.Stack.Atomic`, `Write`, `Commit`).
2. Files refine byte sequences: a write splices, a read returns the clipped stretch,
   other files are untouched, every block has exactly one owner, the on-disk inode is up
   to date on return, and a write runs out of blocks exactly when there are fewer free
   blocks than empty slots to fill (`FileSystem.Fs.Writei`, `Readi`, `Itrunc`).
3. filewrite writes the longest prefix of whole chunks that fits and succeeds if and only
   if the free blocks at its start cover what it writes (`File.OpenFile.Filewrite`). A
   chunk of at most 1536 bytes logs at most 10 blocks wherever it starts
   (`File.OpenFile.WriteChunk`), and neither number can be improved: on a file system of
   16385 blocks with five free ones, 1536 bytes take ten blocks and one byte more takes
   eleven (`LargestChunk.TenBlocks`, `LargestChunk.ElevenBlocks`).
4. The heap's free and live blocks partition the core in every state, their header sizes
   add up to what sbrk has given (`Heap.Conservation`), and malloc terminates asking sbrk
   at most once, for the larger of 4096 units and the least that covers the request
   (`Heap.Allocator.Malloc`).
5. Physical pages are conserved on every path, out of memory included, and mapping,
   growing and copying an address space succeed, panic or run out of memory exactly when
   a condition on the old page tables and the number of free pages says so
   (`VirtualMemory.Memory.Mappages`, `Setupkvm`, `Allocuvm`, `Copyuvm`).
6. begin_op lets a process in if and only if nobody commits and the header has room for
   everybody (`LogProtocol.AdmissionCondition`), and no operation is stuck in it: any one
   process inside the log can by itself wake every sleeper in four steps (`LogProtocol.SleeperIsWoken`), and over every run a
   sleeper that stays asleep does so only while everybody inside stays inside
   (`LogProtocol.AsleepWhileInside`). No sleeper on a sleep lock misses a wakeup, waiting
   in the scheduler is bounded, and level and quantum are a function of the ticks charged.
7. The shell accepts exactly the lines its grammar derives and returns the one tree the
   line has; after termination in place every word of the line reads back as itself
   (`Shell.Parsecmd`).

Some expectations turned out false of the code, as these lemmas and contracts show:

- log_write tests the size of the header before it takes log.lock, so two operations can
  pass the test with room for one block and both append. Every header that can be reached
  fits the log area if and only if log.size exceeds LOGSIZE or is 1
  (`LogProtocol.FitCondition`). With 2 to 29 log blocks three operations within their
  budgets fill the header with as many as the area has blocks (`LogProtocol.Overfill`),
  and commit then overwrites the block behind it without any crash
  (`LogCapacity.OverfullCommit`). With mkfs's 30 they fill it with 30
  (`LogCapacity.OverfullMkfs`), which pins every buffer, so that commit's first bread of
  a log block panics (`LogCapacity.AllPinned`).
- A log of LOGSIZE blocks, which is what mkfs makes, refuses a new block of an operation
  that is within its budget. This never happens if and only if log.size exceeds LOGSIZE
  (`LogProtocol.RefusalCondition`).
- However large the log, a full header makes log_write panic even for a block it would
  absorb (`LogProtocol.FullHeaderRefusesAbsorption`); `Log.LogState.LogWrite` states
  exactly when it panics.
- Commit needs a buffer besides those pinned by the log and those other processes are
  using, and reading a file does not wait for commit. It succeeds if and only if nothing
  is logged or these blocks together are fewer than NBUF, which is 30
  (`Log.LogState.Commit`): 30 logged blocks are too many, and so are 29 and one reader of
  another block (`Log.OneReaderTooMany`).
- malloc's unit count covers the request if and only if the request is at most
  2^32 - 8 bytes (`Heap.UnitsCover`).

## Model

| member | source | states |
|---|---|---|
| `Bytes.SetBitBits` | xv6-public/fs.c:66-68 | setting or clearing bit i of a bitmap block by mask arithmetic on its bytes changes bit i and no other bit |
| `Bytes.WordBytes` | xv6-public/mkfs.c:39-58 | a word of a block is its four bytes, lowest first |
| `Bytes.EightBits` | xv6-public/fs.c:66-68 | the masks 1 to 128 are the eight binary digits of a byte |
| `Bytes.FirstBitsAre` | xv6-public/mkfs.c:246-250 | a block whose bytes are mkfs's first n bits set has bit k set if and only if k < n |
| `RedoLog.PutHeader` | xv6-public/log.c:101-113 | a header block written over any old contents reads back as exactly the list of block numbers |
| `RedoLog.HeaderBytes` | xv6-public/log.c:33-38 | the header in its block, byte by byte: the number of entries, then the entries, lowest byte first |
| `RedoLog.InstallAll` | xv6-public/log.c:69-82 | installing all logged blocks and clearing the header makes every home block new |
| `RedoLog.RebootUncommitted` | xv6-public/log.c:115-122 | with an empty header, any number of interrupted recoveries changes no home block |
| `RedoLog.RebootCommitted` | xv6-public/log.c:115-122 | once the header is on disk, any number of interrupted recoveries ends with all home blocks new |
| `RedoLog.CommitDone` | xv6-public/log.c:192-202 | the full sequence of commit's writes leaves all home blocks new and the log empty |
| `RedoLog.CrashAtomic` | xv6-public/log.c:69-122 | stopping commit after any k writes and rebooting with interrupted recoveries leaves home blocks all new exactly when the header write was among the k, all old otherwise, log empty |
| `RedoLog.RunAtomic` | xv6-public/log.c:192-202 | over any run of committed and crashed transactions every home block holds its last committed value |
| `BufferCache.MoveLinks` | xv6-public/bio.c:132-137 | the pointer updates of brelse, in their order, turn the ring into the same ring with the buffer in front |
| `BufferCache.Cache.constructor` | xv6-public/bio.c:38-56 | after binit the ring is a permutation of all buffers and the cache shows exactly the disk |
| `BufferCache.Cache.Lookup` | xv6-public/bio.c:68-76 | the forward scan finds the buffer of a block if there is one, else says there is none |
| `BufferCache.Cache.Victim` | xv6-public/bio.c:78-91 | the backward scan finds the least recently released clean unreferenced buffer, or that there is none |
| `BufferCache.Cache.Bget` | xv6-public/bio.c:61-93 | panics exactly when the block is not cached and no buffer is recyclable; otherwise takes the cached buffer or recycles the least recently released one; the logical disk is unchanged |
| `BufferCache.Cache.Bread` | xv6-public/bio.c:96-106 | returns the latest logged or written value of the block |
| `BufferCache.Cache.Bwrite` | xv6-public/bio.c:109-116 | the disk and the write trace get the buffer's block; the logical disk is unchanged |
| `BufferCache.Cache.MoveToFront` | xv6-public/bio.c:130-138 | the ring stays a permutation ordered by last release, with the buffer now first |
| `BufferCache.Cache.Brelse` | xv6-public/bio.c:120-141 | reference dropped, buffer most recently released when it was the last, logical disk unchanged; the cache stays coherent exactly when a change to the buffer has been written or logged |
| `CacheSession.Available` | xv6-public/bio.c:61-93 | bget finds a buffer exactly when the block is pinned, held or in use by another process, or such blocks together are fewer than the buffers |
| `CacheSession.Session.Clean` | xv6-public/bio.c:78-91 | a block neither pinned nor held is the same in the cache's view and on disk |
| `CacheSession.Session.Get` | xv6-public/bio.c:96-106 | with buffers in use by this process and by others, bread fails exactly when the block has no buffer in use and every buffer is; what others hold does not change |
| `Log.LogState.Record` | xv6-public/log.c:224-230 | log_write's scan absorbs a block already in the header and appends a new one, keeping entries distinct |
| `Log.LogState.LogWrite` | xv6-public/log.c:213-233 | accepted exactly under the two size checks and inside an operation; records and pins the block, changes the logical disk only |
| `Log.LogState.ReadBlock` | xv6-public/log.c:204-212 | a logged block reads back its logged value while its home copy on disk is unchanged; fails exactly when every buffer is in use and none has the block |
| `Log.LogState.UpdateBlock` | xv6-public/log.c:204-233 | bread, modify, log_write, brelse changes exactly one block of the logical disk and leaves the disk alone; fails exactly for want of a buffer or of room in the header |
| `Log.LogState.Replay` | xv6-public/log.c:204-233 | the log_writes of an operation one after the other: accepted exactly when each finds the header not full, and then the logical disk has them all in order |
| `Log.RoomAccepts` | xv6-public/log.c:218-221 | an operation is accepted if the header would still have room with all its blocks in it |
| `Log.LogState.WriteHead` | xv6-public/log.c:101-113 | the loop over entries writes the header block that reads back as the list |
| `Log.LogState.WriteLog` | xv6-public/log.c:177-190 | the cached contents of every logged block go to consecutive log blocks, exactly when the pinned blocks and those in use by other processes leave a buffer |
| `Log.LogState.InstallTrans` | xv6-public/log.c:69-82 | every log block goes to its home and nothing stays pinned |
| `Log.LogState.Commit` | xv6-public/log.c:192-202 | succeeds exactly when nothing is logged or the logged blocks and those other processes are reading are fewer than NBUF; its disk writes are those of the crash model; afterwards disk and cache agree and home blocks keep their logical contents |
| `Log.OneReaderTooMany` | xv6-public/file.c:106-109 | one reader of a block that is not logged is enough to make a commit of NBUF - 1 blocks fail |
| `Log.LogState.ReadHead` | xv6-public/log.c:85-96 | the loop reads back exactly the entries of the header block |
| `Log.LogState.RecoverFromLog` | xv6-public/log.c:115-122 | its disk writes are those of the recovery model and the log is empty afterwards |
| `Log.LogState.CrashDuringCommit` | xv6-public/log.c:177-202 | a crash after any k writes of the running log's commit, with interrupted recoveries, leaves home blocks as the cache had them if the header was written, else as the disk had them |
| `LogProtocol.NextKeeps` | xv6-public/log.c:125-174 | every critical section of begin_op, log_write and end_op keeps the protocol invariant |
| `LogProtocol.AdmissionCondition` | xv6-public/log.c:125-141 | in every reachable state begin_op lets a process in if and only if nobody is in a commit and the header has room for a whole operation of everybody inside and of the newcomer; else it sleeps |
| `LogProtocol.LeavingCondition` | xv6-public/log.c:145-174 | in every reachable state end_op makes the process the committer if and only if no other one is inside an operation; else it leaves and every sleeper is awake |
| `LogProtocol.PanicCondition` | xv6-public/log.c:145-233 | in every reachable state the only panic is log_write's on the size of the header, and it happens exactly when the header has LOGSIZE or log.size - 1 blocks |
| `LogProtocol.EverybodyMoves` | xv6-public/log.c:125-174 | in every reachable state without a panic every process that is not asleep has a step to take |
| `LogProtocol.HeaderIsUncommitted` | xv6-public/log.c:213-233 | over every run the header lists, once each, exactly the blocks log_written since the last commit |
| `LogProtocol.RunInv` | xv6-public/log.c:125-174 | the invariant holds in every state of every interleaving |
| `LogProtocol.CommitExclusive` | xv6-public/log.c:145-174 | committing implies no outstanding operation and no second committer, and freezes the header until commit clears it |
| `LogProtocol.SleeperIsWoken` | xv6-public/log.c:125-174 | every run ending with some process inside an operation or commit can be continued by at most four steps of that process alone, none of them a new begin_op or log_write, to a state with nobody asleep |
| `LogProtocol.SomebodyInside` | xv6-public/log.c:125-174 | whenever a process sleeps in begin_op another one is inside an operation or a commit |
| `LogProtocol.AsleepWhileInside` | xv6-public/log.c:125-174 | over every run: while a process stays asleep somebody is inside, everybody inside stays inside, no commit finishes and no operation ends without becoming the committer |
| `LogProtocol.RoomForNewBlock` | xv6-public/log.c:125-141 | header count plus unused budgets never exceeds LOGSIZE, so a new block of an operation within budget finds room |
| `LogProtocol.RefusalCondition` | xv6-public/log.c:218-221 | a new block of an operation within its budget is never refused if and only if log.size exceeds LOGSIZE |
| `LogProtocol.NewBlockRefused` | xv6-public/mkfs.c:25 | the run in which a log of at most LOGSIZE blocks refuses such a block |
| `LogProtocol.FullHeaderRefusesAbsorption` | xv6-public/log.c:218-230 | with a full header log_write panics even on a block already in it |
| `LogProtocol.Overfill` | xv6-public/log.c:218-230 | for every log.size from 2 to LOGSIZE a run without panic in which the header gets as many blocks as the whole log area |
| `LogProtocol.FitCondition` | xv6-public/log.c:218-230 | every reachable header has fewer entries than log.size if and only if log.size exceeds LOGSIZE or is 1 |
| `LogCapacity.ReachableIsGood` | xv6-public/log.c:125-141 | with more than LOGSIZE log blocks every reachable header of home blocks is a transaction the crash theorems cover |
| `LogCapacity.OverfullCommit` | xv6-public/log.c:177-190 | with 2 to LOGSIZE - 1 log blocks a reachable header of distinct home blocks, fewer than there are buffers, whose commit overwrites a home block that is not in it |
| `LogCapacity.OverfullMkfs` | xv6-public/mkfs.c:25 | with mkfs's LOGSIZE log blocks a reachable header of LOGSIZE blocks, as many as there are buffers |
| `LogCapacity.AllPinned` | xv6-public/log.c:177-186 | with NBUF blocks logged bread of any other block, so write_log's of a log block, panics |
| `FsLayout.InodeRoundTrip` | xv6-public/fs.c:220-236 | an inode copied into its slot reads back and the other inodes of the block are untouched |
| `FsLayout.InodeBytes` | xv6-public/fs.h:29-36 | where every field of an inode lies in its block, byte by byte: 64 bytes an inode, lowest byte first |
| `FsLayout.InodeOnDisk` | xv6-public/fs.h:29-42 | inode i is at byte 64 i of the inode blocks, seen as one stretch of bytes, with every field in its place |
| `FsLayout.BitOnDisk` | xv6-public/fs.h:44-48 | bit b of the free map is bit b mod 8 of byte b / 8 of the map, seen as one stretch of bytes |
| `FsLayout.AllocDirect` | xv6-public/fs.c:378-388 | giving a free block to an empty direct or indirect slot keeps the ownership invariant and changes no other slot |
| `FsLayout.AllocEntry` | xv6-public/fs.c:389-394 | the same for an entry of an indirect block |
| `FsLayout.OwnedIsSet` | xv6-public/fs.c:87-92 | an owned block's bit is set, so freeing a free block is unreachable |
| `FsLayout.FreeIndirect` | xv6-public/fs.c:421-431 | freeing the indirect block after its entries leaves no trace of them |
| `FsLayout.WriteData` | xv6-public/fs.c:498-504 | overwriting one file block disturbs no slot, no bit and no other file's block |
| `FileContent.Splice` | xv6-public/fs.c:481-511 | the reference meaning of a write on byte sequences |
| `FileContent.BlockWritten` | xv6-public/fs.c:498-504 | one round of writei writes its bytes and settles everything already allocated |
| `FileContent.WrittenTrans` | xv6-public/fs.c:498-504 | rounds compose |
| `FileContent.WrittenContent` | xv6-public/fs.c:506-509 | with the size updated, the contents are the old ones with the data spliced in |
| `FileContent.ChunkBound` | xv6-public/file.c:126-133 | the bound on logged blocks stays within MAXOPBLOCKS for every chunk of at most 1536 bytes at every offset |
| `SlotMap.FreeCount` | xv6-public/fs.c:56-78 | every data block is owned or has a clear bit, and not both: the two numbers add up to the number of data blocks |
| `SlotMap.WantedStep` | xv6-public/fs.c:498-504 | the slots one more block fills, with what earlier blocks have filled, are those the whole range fills from the start |
| `SlotMap.MarksStep` | xv6-public/fs.c:498-504 | the same for the blocks logged |
| `SlotMap.WantedSplit` | xv6-public/fs.c:498-504 | the slots two ranges that meet or share a block fill one after the other are those the joined range fills at once, none twice |
| `SlotMap.MarksSize` | xv6-public/file.c:119-125 | a range of file blocks logs at most two blocks each, less one for a block that exists, plus the indirect block and its free-map block |
| `FileSystem.Fs.FindFree` | xv6-public/fs.c:62-77 | the nested scan finds the lowest clear bit, or that there is none |
| `FileSystem.Fs.Balloc` | xv6-public/fs.c:56-78 | panics exactly on a full disk; otherwise the lowest free block, marked, zeroed and logged |
| `FileSystem.Fs.Bfree` | xv6-public/fs.c:81-95 | panics exactly on a block whose bit is clear; otherwise clears that bit |
| `FileSystem.Fs.AllocAddr` | xv6-public/fs.c:379-388 | a slot of the inode gets an unowned zeroed block and nothing allocated before changes |
| `FileSystem.Fs.AllocInd` | xv6-public/fs.c:389-394 | an entry of the indirect block gets an unowned zeroed block and nothing allocated before changes |
| `FileSystem.Fs.Bmap` | xv6-public/fs.c:372-400 | panics exactly out of range or when the free blocks do not cover the empty slots to be filled; returns the mapped block, filling exactly those slots with zeroed blocks nobody owned; states exactly which blocks are logged |
| `FileSystem.Fs.Iupdate` | xv6-public/fs.c:220-236 | the inode reads back from disk, every other inode, slot and bit is unchanged |
| `FileSystem.Fs.TruncDirect` | xv6-public/fs.c:414-419 | the direct blocks are given back one by one, ownership intact after each |
| `FileSystem.Fs.TruncIndirect` | xv6-public/fs.c:421-431 | the entries of the indirect block and the block itself are given back |
| `FileSystem.Fs.Itrunc` | xv6-public/fs.c:407-435 | never panics, frees exactly the file's blocks, leaves other files' contents alone, logs only free-map blocks and the inode, ends with the inode on disk |
| `FileSystem.Fs.WriteBlocks` | xv6-public/fs.c:498-504 | the loop writes all of src exactly when the free blocks cover the empty slots of the range; the slots filled and the blocks logged are exactly those of the range |
| `FileSystem.Fs.Writei` | xv6-public/fs.c:481-511 | refused exactly past the end, on 32-bit overflow or past the largest file; panics exactly when there are fewer free blocks than empty slots to fill; otherwise splices src in, other files unchanged, every inode on disk again; the blocks logged are given exactly, lie above the log, and its log_writes in order take the old blocks to the new |
| `FileSystem.Fs.Readi` | xv6-public/fs.c:452-476 | refused exactly past the end or on 32-bit overflow; otherwise the stretch of the contents clipped to the size; allocates and changes nothing |
| `File.SpliceTwice` | xv6-public/file.c:135-152 | consecutive splices are one splice |
| `File.OpenFile.WriteChunk` | xv6-public/file.c:140-145 | one transaction: at most MAXOPBLOCKS blocks logged, all on the disk and above the log, and its log_writes take the old blocks to the new; the chunk spliced in, exactly the empty slots of its range filled and the offset advanced, or refused with nothing changed; panics exactly for want of free blocks |
| `File.OpenFile.Filewrite` | xv6-public/file.c:117-156 | writes all of src if it fits, else the largest number of whole chunks that fits, and nothing past the end of the file; panics if and only if the free blocks at the start do not cover the empty slots of what it has to write; the result is n or -1 accordingly; one operation within MAXOPBLOCKS for each chunk and one for the refusal, which in order take the old blocks to the new; other files unchanged |
| `File.FitLengthIs` | xv6-public/file.c:135-156 | the length written ends with the data or a whole chunk, stays within the largest file, and one chunk more would not |
| `File.SpentAffords` | xv6-public/file.c:135-152 | after n bytes m more can be paid for if and only if n + m could at the start |
| `File.StoredFails` | xv6-public/file.c:135-152 | a chunk that cannot be paid for means that the whole could not at the start |
| `CrashSafety.SameFs` | xv6-public/mkfs.c:20-21 | a file system depends only on its inode, free-map and data blocks |
| `CrashSafety.Boot` | xv6-public/log.c:54-66 | a machine started on any disk whose header recovery can read has the recovered disk and an empty log |
| `CrashSafety.Stack.constructor` | xv6-public/log.c:54-66 | the stack over it shows the recovered file system |
| `CrashSafety.Stack.Atomic` | xv6-public/log.c:177-202 | with any group of operations waiting, a crash after any k writes of their commit, with interrupted recoveries, leaves a consistent file system: every file as it is now if the header was written, every file as of the last commit if not |
| `CrashSafety.Stack.Write` | xv6-public/file.c:140-145 | a chunk written through an open file, its log_writes replayed through the log and the buffer cache, changes no block on disk and keeps the stack atomic at every crash point; panics in block allocation exactly for want of free blocks, accepted by the log exactly when each of its blocks finds room in the header, so whenever there is room for a whole operation and one block more |
| `CrashSafety.Stack.Commit` | xv6-public/log.c:192-202 | succeeds exactly with fewer than NBUF blocks logged, and then the disk holds every file as it is now |
| `LargestChunk.IsOwned` | xv6-public/fs.h:24-48 | a file system whose five free blocks have their bits in five different free-map blocks satisfies the ownership invariant |
| `LargestChunk.ElevenBlocks` | xv6-public/file.c:119-133 | on it, appending 1537 to 2048 bytes to a file of twelve blocks succeeds and logs eleven blocks |
| `LargestChunk.TenBlocks` | xv6-public/file.c:119-133 | on it, appending 1536 bytes in the middle of the twelfth block logs exactly ten |
| `Heap.Join` | xv6-public/umalloc.c:33-42 | two adjoining blocks become one and every unit still has exactly one owner |
| `Heap.Split` | xv6-public/umalloc.c:78-82 | cutting the tail off a block keeps every unit with exactly one owner |
| `Heap.Allocator.FindPlace` | xv6-public/umalloc.c:30-32 | the walk round the ring terminates at the ring member behind which the block belongs |
| `Heap.Allocator.AttachUpper` | xv6-public/umalloc.c:33-37 | the block takes in its upper neighbour exactly when they touch |
| `Heap.Allocator.AttachLower` | xv6-public/umalloc.c:38-43 | the block joins its lower neighbour or the ring; the list is one ordered cycle again without touching blocks |
| `Heap.Allocator.FreeBlock` | xv6-public/umalloc.c:24-44 | exactly the block's units become free, other live blocks and the size of the core are untouched, the invariant holds |
| `Heap.Allocator.Morecore` | xv6-public/umalloc.c:46-61 | the new core, the larger of 4096 units and the request, becomes free, and freep or its successor is then large enough |
| `Heap.Allocator.Search` | xv6-public/umalloc.c:74-89 | terminates with the first block behind freep that fits, asking sbrk once and exactly when no free block fitted |
| `Heap.Allocator.Take` | xv6-public/umalloc.c:75-85 | hands out exactly the requested units, the whole block or its tail |
| `Heap.Allocator.Malloc` | xv6-public/umalloc.c:63-90 | fails exactly when nothing fits and sbrk refuses; otherwise a new block from units that were free or new, of the least number of units that covers the request and its header, other live blocks untouched; the core grows only when nothing fitted, by the larger of 4096 units and the request |
| `Heap.AllPassed` | xv6-public/umalloc.c:86-88 | back at freep without a fit there was none, and sbrk has not been asked before |
| `Heap.UnitsCover` | xv6-public/umalloc.c:69 | the unit count covers the request if and only if it is at most 2^32 - 8 |
| `Heap.UnitsLeast` | xv6-public/umalloc.c:69 | the unit count is the least that covers the request and its header, and one when the rounding wraps around |
| `Heap.Conservation` | xv6-public/umalloc.c:24-90 | in every state the header sizes of the blocks on the free list and of the blocks handed out add up to the core obtained from sbrk |
| `Heap.BlocksApart` | xv6-public/umalloc.c:24-90 | no two blocks overlap and no two free blocks touch |
| `PageTables.Entry` | xv6-public/vm.c:73 | address, flags and present bit can be read back from an entry |
| `PageTables.LowFlags` | xv6-public/mmu.h:92-95 | the three lowest bits of an entry are PTE_P, PTE_W and PTE_U |
| `PageTables.NoSharing` | xv6-public/vm.c:60-80 | no physical page is reached through two entries, of one address space or of two |
| `PageTables.NewTable` | xv6-public/vm.c:45-52 | a new page table changes no other entry and keeps ownership |
| `PageTables.UnmapUser` | xv6-public/vm.c:269-276 | freeing a page and zeroing its entry changes no other entry and keeps ownership |
| `PageTables.FreeTable` | xv6-public/vm.c:291-296 | a page table without user pages can go while its directory is torn down |
| `VirtualMemory.Memory.Freerange` | xv6-public/kalloc.c:46-53 | the pages of the range, and only they, become free |
| `VirtualMemory.Memory.Kalloc` | xv6-public/kalloc.c:82-95 | fails exactly on an empty list; otherwise takes the first page off it |
| `VirtualMemory.Memory.Kfree` | xv6-public/kalloc.c:59-77 | the junked page becomes the head of the list threaded through the pages |
| `VirtualMemory.Memory.Walkpgdir` | xv6-public/vm.c:35-55 | finds or makes the page table, fails exactly when it is missing and cannot be made; no other entry changes and a page off the free list is a new page table |
| `VirtualMemory.Memory.Mappages` | xv6-public/vm.c:60-80 | maps the range to consecutive pages under the given permissions, exactly when none of it is mapped and the free pages cover the missing page tables; panics exactly when it gets to a mapped page before memory runs out; everything outside is untouched |
| `VirtualMemory.NextNeed` | xv6-public/vm.c:45-52 | whether the next page needs a page table can be told from the first directory and the range: only the first page of a directory entry without one does |
| `VirtualMemory.Memory.UnmapPage` | xv6-public/vm.c:269-276 | frees exactly the page behind one entry |
| `VirtualMemory.ScanHole` | xv6-public/vm.c:266-268 | a stretch without mapped pages adds nothing to a page-by-page scan |
| `VirtualMemory.Memory.Deallocuvm` | xv6-public/vm.c:255-279 | frees exactly the mapped pages of the range, in the order a page-by-page scan would, 4 MB skips included |
| `VirtualMemory.Memory.FreeTables` | xv6-public/vm.c:291-296 | every page table of the directory goes back to the list |
| `VirtualMemory.Memory.Freevm` | xv6-public/vm.c:283-298 | every page of the address space becomes free and no other page changes |
| `VirtualMemory.Memory.Setupkvm` | xv6-public/vm.c:118-136 | succeeds exactly with 65 free pages or more and takes 65; then every page from KERNBASE on is mapped as the kernel has it: to itself less KERNBASE up to PHYSTOP, to itself from DEVSPACE on, writable except the text, never for the user, and nothing in between or below; on failure every page is as before; it never remaps |
| `VirtualMemory.Memory.Allocuvm` | xv6-public/vm.c:221-249 | grows by fresh zeroed pages, everything else untouched, exactly when none of the range is mapped and the free pages cover the pages and the missing page tables; panics exactly when it gets to a mapped page before memory runs out; out of memory the mapping is the old one, if nothing was mapped there, and what was taken is free again or a page table |
| `VirtualMemory.Memory.Copyuvm` | xv6-public/vm.c:315-345 | the child has equal contents and flags on pages of its own and the kernel's mapping, exactly when the parent has all the pages and there are 65 free pages, one per page copied and one per 1024 of them; panics exactly when it gets to a page the parent lacks before memory runs out; out of memory every page is as before |
| `VirtualMemory.NeedFresh` | xv6-public/vm.c:326-338 | in a directory without user tables n pages take n pages and one page table for every 1024 of them |
| `Scheduler.LedgerStep` | xv6-public/trap.c:112-138 | one more tick on the ledger is what the checks do to level and quantum |
| `Scheduler.Table.Allocproc` | xv6-public/proc.c:111-134 | the first unused slot starts at level 0 with quantum 2 |
| `Scheduler.Table.PriorityBoosting` | xv6-public/proc.c:382-401 | every process of the queue starts over at level 0 with quantum 2 and no ticks charged, slots outside the queue stay as they are, and the positions are reset |
| `Scheduler.Table.CanMlfq` | xv6-public/proc.c:403-416 | whether a level has a ready process |
| `Scheduler.Table.NextRoundRobin` | xv6-public/proc.c:424-436 | the first ready slot from the queue position on, or none, and the position moves behind it |
| `Scheduler.Table.NextByPriority` | xv6-public/proc.c:437-457 | the ready slot of highest priority, the first such from the position on, or none exactly when no slot is ready |
| `Scheduler.Table.Select` | xv6-public/proc.c:587-606 | the lowest level with a ready process, then that level's rule |
| `Scheduler.Table.Checks` | xv6-public/trap.c:112-138 | exactly one transition fires, and only for a used-up quantum at a level the remaining checks cover |
| `Scheduler.Table.TimerTrap` | xv6-public/trap.c:50-60 | one tick is charged, the process stays on its ledger and yields exactly when its quantum is used up; level 3 loses one priority, not below 0 |
| `Scheduler.Table.Recheck` | xv6-public/trap.c:112-138 | without a charge none of the checks fires: neither those left after a yield, boosted meanwhile or not, nor those of another trap |
| `Scheduler.Table.SetState` | xv6-public/proc.c:640-728 | yield, sleep and wakeup change the state of a live process only, so it stays on its ledger |
| `Scheduler.RoundRobinBound` | xv6-public/proc.c:424-436 | a process that stays ready in levels 0 to 2 is chosen within NPROC selections of its level |
| `Scheduler.PriorityStep` | xv6-public/proc.c:437-457 | in level 3 total priority above the process, then its distance, decreases lexicographically at each selection of another |
| `Scheduler.PriorityBound` | xv6-public/proc.c:437-457 | so it waits for at most NPROC selections per unit of priority above it, and its distance |
| `Scheduler.EqualsTakeTurns` | xv6-public/proc.c:437-457 | with nobody ready above it a process is chosen within NPROC selections |
| `SleepLock.NextKeeps` | xv6-public/sleeplock.c:22-42 | every step of acquire, release, sleep, wakeup and kill keeps the protocol invariant |
| `SleepLock.RunInv` | xv6-public/proc.c:671-706 | the invariant holds in every state of every interleaving |
| `SleepLock.MutualExclusion` | xv6-public/sleeplock.c:22-42 | at most one process holds the sleep lock |
| `SleepLock.NoLostWakeup` | xv6-public/proc.c:671-728 | with the spin lock free and the sleep lock not held, nobody is asleep on it |
| `SleepLock.Progress` | xv6-public/sleeplock.c:22-42 | some process inside can always move: no deadlock and no stuck sleeper |
| `SleepLock.HoldingSleepIsHolder` | xv6-public/sleeplock.c:44-53 | in every reachable state holdingsleep is true of the holder and of nobody else, and a free lock names nobody |
| `SleepLock.OutOnlyAfterHolder` | xv6-public/sleeplock.c:22-42 | over every run a process that has entered acquiresleep leaves it only as the holder |
| `SleepLock.WokenUnderTableLock` | xv6-public/proc.c:708-751 | over every run others move only a sleeper, and only while they have ptable.lock |
| `SleepLock.FreeLockIsTaken` | xv6-public/sleeplock.c:22-32 | with the lock and both spin locks free any process on the way in gets it by at most five steps of its own |
| `SleepLock.HolderReleases` | xv6-public/sleeplock.c:34-42 | with both spin locks free the holder gives the lock back by six steps of its own and leaves nobody asleep on it |
| `Pipe.PipeBuf.FullTest` | xv6-public/pipe.c:85 | the tests on wrapping counters mean full and empty |
| `Pipe.PipeBuf.Write` | xv6-public/pipe.c:78-98 | accepts bytes in order until done or full; sleeps or fails exactly on a full pipe |
| `Pipe.PipeBuf.Read` | xv6-public/pipe.c:100-121 | delivers the next accepted bytes in order, as many as asked for and there, so that what has been delivered is a prefix of what has been accepted; sleeps exactly on an empty open pipe |
| `Pipe.PipeBuf.Close` | xv6-public/pipe.c:59-75 | one end is shut and what is in flight stays |
| `Pipe.RingIndex` | xv6-public/pipe.c:93 | the ring index survives the counter's wrap-around because 512 divides 2^32 |
| `Shell.Peek` | xv6-public/sh.c:310-320 | skips white space only and tells whether one of the characters stands there |
| `Shell.Gettoken` | xv6-public/sh.c:265-308 | reads exactly the next lexeme of the reference lexer |
| `ShellGrammar.RedirsUnique` | xv6-public/sh.c:380-395 | the redirections a line starts with are determined by its lexemes |
| `ShellGrammar.SimpleUnique` | xv6-public/sh.c:429-442 | the words and redirections of a simple command are determined by its lexemes |
| `ShellGrammar.TooMany` | xv6-public/sh.c:439-440 | with MAXARGS words or more the grammar has no command |
| `ShellGrammar.BlockOnly` | xv6-public/sh.c:399-413 | a block has no other tree than the one put together from its parts, and none when a part fails |
| `ShellGrammar.PipeOnly` | xv6-public/sh.c:361-372 | the same for commands joined by bars |
| `ShellGrammar.BackOnly` | xv6-public/sh.c:349-353 | the same for trailing ampersands |
| `ShellGrammar.LineOnly` | xv6-public/sh.c:354-358 | the same for lists |
| `Shell.Parseredirs` | xv6-public/sh.c:374-397 | reads redirections with their meaning, in order; fails only when the lexemes start with none that can end there |
| `Shell.Parseblock` | xv6-public/sh.c:399-413 | reads a parenthesised line and its redirections; panics only when there is no such block |
| `Shell.Parseexec` | xv6-public/sh.c:415-446 | reads a block or a simple command of fewer than MAXARGS words; panics only when there is neither |
| `Shell.Parsepipe` | xv6-public/sh.c:361-372 | reads commands joined by bars, to the right; panics only when there are none |
| `Shell.Parseline` | xv6-public/sh.c:344-359 | terminates; on success the tree is the one the grammar gives the lexemes read, and it panics only when the grammar has none |
| `Shell.Nulterminate` | xv6-public/sh.c:449-493 | overwrites exactly the ends of the tree's tokens, which `Shell.LineFrom` says are all the words of the line |
| `Shell.WordsSurvive` | xv6-public/sh.c:449-493 | no word contains another's end, so each C string is its word |
| `Shell.LineFrom` | xv6-public/sh.c:344-359 | the tokens in the tree of a sentence are its words: each of them is one, and each word is there |
| `Shell.Parsecmd` | xv6-public/sh.c:327-342 | succeeds exactly when the grammar has a tree for the whole line, which is unique and returned; then every word of the line reads back as a C string with its text, only ends of words have changed, and the tokens of the tree are exactly these words; on a panic the line is untouched |

## Left out

- The layers meet at the logical disk: `FileSystem` computes on the sequence of blocks that bread shows, and `CrashSafety.Stack.Write` passes its log_writes on to the log and the buffer cache after the operation rather than during it.
- Interleaving at the level of single buffers in `CrashSafety.Stack`: operations of different processes may share a commit there, but each runs by itself.
- Device inodes (readi and writei through devsw), directories, path names, link counts, inode allocation and the inode cache's reference counts.
- The premise that every block below a file's size is allocated: mkfs rounds the root directory's size up to the next whole block even when it is whole already, so an image whose root directory exactly fills its blocks starts outside it.
- `Log.LogState.LogWrite`: the unlocked size checks and the append are one step here; the race between them is in `LogProtocol.Overfill`.
- `Log.LogState.ReadHead`: a header on disk with more than LOGSIZE entries, which the source reads past the end of its array, or with entries that are not distinct home blocks, is excluded; a log written with more than LOGSIZE blocks never has one.
- `Log.LogState.RecoverFromLog`: the same headers are excluded, and no other process runs yet.
- `Log.LogState.Commit`: the buffers other processes use are the same throughout a commit, and none of its own blocks is locked by a reader, since bread waits for that.
- File system operations other than a write in one transaction: the log's budget of 10 blocks is proved for filewrite's chunks only.
- `FileSystem.Fs.Writei`: when block allocation panics only ownership is stated, not the contents of the file being written.
- sbrk's own behaviour: the heap takes as premises that core comes from above all earlier core and that programs do not write over headers.
- `Heap.Allocator.Malloc`: requests whose unit count times 8 reaches 2^31 are excluded; sbrk takes an int, so they would lower the break.
- The TLB, cr3, inituvm, loaduvm, copyout, clearpteu and the guard page.
- `VirtualMemory.Memory.Mappages`: takes the rounded page numbers; a range that wraps round the address space or a size of 0, for which the source's loop would not stop at the right place, is excluded, and user pages are mapped one at a time, as every caller does.
- `Scheduler.Table.NextByPriority`: the position of level 3 after a scan that finds nothing, which the source computes from a null pointer and its caller never lets happen.
- Locks of kalloc.c and pipe.c: a call, or the stretch between two sleep points, is one step.
- More than one CPU, where selection and marking RUNNING are separate critical sections and only CPU 0 charges ticks; the monopoly queue, setmonopoly and setpriority during a wait; the period of boosting, which is an event here.
- Wakeups of pipe readers and writers; only the order and number of bytes is stated.
- Running commands, exec, the console, interrupts, device drivers, boot code and all other user programs.
