# The hard parts of an xv6 laboratory, in Dafny

A model of the parts of the repository that carry an argument, and proofs of what they promise. Most of
them are in the xv6 kernel; the shell parser, the regular expression matcher, the user-level threads and
two laboratory programs complete it. Code that updates state in place is a class with that state or a
method with the source's loops; code that several processes run at once is a set of steps over a shared
state, and the claims are about every run.

| file | models |
|---|---|
| Wal, LogSpace, MruList, BufferCache, Log | the write-ahead log (`log.c`) over the buffer cache (`bio.c`) and the disk (`memide.c`) |
| DiskFormat, Files, FileImage, FileWrite | the content layer of the file system (`fs.c`) and `filewrite` (`file.c`) |
| CrashedWrite, GroupCommit | both together: a write, or several in one transaction, that a crash interrupts |
| PageTables | page tables and physical pages (`vm.c`, `kalloc.c`) |
| KrHeap | the storage allocator (`umalloc.c`) |
| SleepLock, Pipes, PipeCalls, ProcessTree | sleep locks, pipes and the process table (`sleeplock.c`, `pipe.c`, `proc.c`) |
| Shell, ShellGrammar, ShellText, Grep | the command parser (`sh.c`), its grammar, the lines it accepts, and the matcher (`grep.c`) |
| UserThreads, BoundedBuffer, PageReplacement | `uthreadlib.c`, `lab-05/buf.c`, `lab-07/sim.c` |
| Basics, Folding | shared types, and a way to keep large definitions folded in proofs |

The main results:

- **Crash atomicity** (`Wal.CrashAtomicity`): crash a commit after any block write, let recovery crash and
  restart any number of times, and the home blocks are all old or all new. `Log.RedoLog.Do` extends this to
  whole runs, in which other processes read between the block writes of a commit: at every crash point the
  disk recovers to a committed version, never to an earlier version than a crash before it, and the header
  write of a commit alone adds a version. In the same runs each block sits in at most one buffer, a read sees
  the latest logged contents, nothing uncommitted reaches a home block, a locked buffer stays as its holder
  left it, and a call fails exactly when it has to wait for log space or no buffer is idle. Each call's effect
  is exact, so whole operations compose from calls (`Log.RedoLog.Update`). Recovery always completes.
- **Crashed writes** (`CrashedWrite.CrashDuringWrite`): whichever block write of whichever chunk a crash
  interrupts in a `filewrite`, after recovery the file has a prefix of the data written, which ends between
  two chunks and has exactly the chunks whose header write had happened; every other file is as before. With
  several operations in one transaction a crash leaves the effects of all of them or of none
  (`GroupCommit.AllOrNothing`).
- **Log space** (`LogSpace.PanicFreeIff`): the panic in `log_write` is out of reach exactly when every
  operation appends fewer than 10 blocks; three operations begin with an empty log and a fourth sleeps
  (`LogSpace.ThreeBegin`); a `filewrite` chunk logs at most 7 (`FileWrite.WriteChunk`).
- **Files** (`Files.Fs.Writei`, `Readi`, `Itrunc`): reads and writes are reads and overlays of one byte
  sequence per file, through direct and indirect blocks, down to the bytes of the inode and free-map
  blocks (`FileImage.ContentIsImage`); no other file changes; the free map stays exact; the inode cache is write-through although
  `writei` writes the inode only when the file grows. A write panics exactly if it needs more new blocks,
  the indirect block among them, than are free.
- **Pages** (`PageTables.Vm`): with `kalloc` failing anywhere, every frame is on the free list or has exactly
  one owner, a failed `allocuvm` or `copyuvm` is undone, `freevm` frees all of a directory and nothing else,
  and a forked copy has the same bytes and flags on frames of its own. What the hardware makes of both levels of
  entries is stated too: a program can read and write every page it gets from `allocuvm`, a forked copy has the
  access of its parent, and the kernel's addresses are mapped where `memlayout.h` says. `setupkvm`, `allocuvm` and `copyuvm`
  succeed exactly if as many frames are free as they map pages and lack page tables.
- **Heap** (`KrHeap.Heap`): the free list is circular, in address order and coalesced, blocks tile the memory
  obtained from `sbrk`, the search in `free` ends, and `malloc` always takes the next fit if there is one and
  otherwise asks for memory exactly once. Which units are free determines the whole list
  (`KrHeap.Canonical`), so `free` undoes `malloc` header by header (`KrHeap.FreeUndoesMalloc`).
- **Concurrency**: no lost wakeup and no deadlock for sleep locks. For pipes, with counters that wrap: the bytes a
  `write` has put are always an initial part of its data, in order, and all of it when it returns without giving up
  (`PipeCalls.WritesInOrder`); a `read` gets bytes that went in next to one another, at most as many as it asked for, and
  none only at the end of the file (`PipeCalls.ReadsInOneGo`); what a sole writer writes is what comes out
  (`PipeCalls.ReadsWhatWasWritten`). A wakeup of a pipe's readers is lost in a run exactly if in that run a writer
  gives up on a full pipe while a reader sleeps (`Pipes.ReadersWakeIff`), and without that a pipe's processes stand still
  exactly when all of them wait for the other end (`Pipes.NoDeadlock`). The process tree, its pids and its
  stacks and page tables over every run of fork, exit, wait, exec and kill: a process's parent is the process that
  forked it until that exits, and then init (`ProcessTree.ParentIsForker`).
- **Languages**: a line parses to a command exactly if it is a spelling of the command in the grammar, written out with
  blanks around its tokens (`ShellText.ParsesIffWritten`), and the grammar is unambiguous. Which blanks they are and how
  many makes no difference (`ShellText.BlanksAlike`, `BlanksBetween`, `BlanksAround`). Parsing a printed command gives the command back,
  whether it is printed with parentheses everywhere, only where precedence needs them, or anything between, with `>` or
  `>>`, and with any blanks (`ShellText.RoundTrip`); every parse result has such printed forms. The matcher decides the
  language of the pattern.

## Model

| member | source | states |
|---|---|---|
| `Wal.RecoverPrefix` | xv6/log.c:68-122 | any number of recovery's writes leave a disk with the same meaning that can be recovered again; all of them leave an empty log and that meaning in the home blocks |
| `Wal.CommitPoint` | xv6/log.c:98-113 | writing the header is what makes a transaction part of the disk's meaning |
| `Wal.LogImage` | xv6/log.c:24-37 | at that point the header has the number of blocks and then their numbers, the blocks after it their contents in that order, and every home block is as it was |
| `Wal.CommitPrefix` | xv6/log.c:176-202 | after k writes of a commit the disk means the old contents up to the header write and the new ones from it on |
| `Wal.CrashAtomicity` | xv6/log.c:68-122 | a crash after any write of commit, then any number of crashed recoveries and a complete one, leaves every home block old or every home block new |
| `Wal.DurableCommit` | xv6/log.c:192-202 | a commit cut short anywhere keeps the property that each crash point of the run recovers to a committed version, in order |
| `Wal.DurableRecovery` | xv6/log.c:115-122 | a recovery cut short anywhere has it too |
| `LogSpace.StepKeeps` | xv6/log.c:124-174 | every step of an operation keeps the slots in use and promised below the log size |
| `LogSpace.FullOperationsPanic` | xv6/log.c:213-221 | operations that append MAXOPBLOCKS blocks can reach the panic |
| `LogSpace.ThreeBegin` | xv6/log.c:124-141 | of any number of operations that try to begin with an empty log, three begin and the others sleep |
| `LogSpace.PanicFreeIff` | xv6/log.c:213-221 | with 30 blocks of log, the panic is unreachable in all interleavings exactly for operations of fewer than 10 blocks |
| `MruList.UnlinkRing` | xv6/bio.c:132-133 | unlinking a buffer removes it from the circular list and keeps the rest in order |
| `MruList.PushFrontRing` | xv6/bio.c:134-137 | linking behind the head makes it the first of the list |
| `MruList.MoveToFrontRing` | xv6/bio.c:132-137 | both together: the list with that buffer moved to the front |
| `BufferCache.ReplaceBuffer` | xv6/bio.c:61-141 | replacing one buffer under these conditions keeps one buffer per block, logged contents and pins |
| `BufferCache.Bcache.constructor` | xv6/bio.c:38-56 | the list holds every buffer once, nothing is cached |
| `BufferCache.Bcache.Iderw` | xv6/memide.c:35-60 | a dirty buffer goes to its block in one write, a clean one is filled from it |
| `BufferCache.Bcache.FindCached` | xv6/bio.c:66-76 | finds the block exactly if a buffer has it |
| `BufferCache.Bcache.FindIdle` | xv6/bio.c:78-91 | finds the least recently used buffer that is free of references and pins, exactly if there is one |
| `BufferCache.Bcache.Bget` | xv6/bio.c:58-93 | the buffer of the block, recycled only from an idle one; the panic exactly if no buffer has the block and none is idle |
| `BufferCache.Bcache.LockAndRead` | xv6/bio.c:95-106 | after the wait for the lock the buffer still has the block, with its latest logged contents |
| `BufferCache.Bcache.Bread` | xv6/bio.c:95-106 | returns the block locked, with its latest logged contents; disk unchanged |
| `BufferCache.Bcache.Bwrite` | xv6/bio.c:108-116 | one write, and the contents become those of the block |
| `BufferCache.Bcache.MoveToFront` | xv6/bio.c:130-138 | the list with the buffer first, still all buffers once |
| `BufferCache.Bcache.Brelse` | xv6/bio.c:118-141 | gives up one reference and moves the buffer to the front when it was the last |
| `Log.RedoLog.constructor` | xv6/log.c:53-66 | boot from whatever disk a crash left |
| `Log.RedoLog.AllOnDisk` | xv6/bio.c:61-141 | with nothing pinned the disk has all logged contents |
| `Log.RedoLog.WriteLog` | xv6/log.c:176-190 | copies the transaction to the log blocks in order, nothing else |
| `Log.RedoLog.InstallTrans` | xv6/log.c:68-82 | copies the log blocks home in order and leaves nothing pinned |
| `Log.RedoLog.WriteHead` | xv6/log.c:98-113 | one write, of a header that names the blocks of the transaction |
| `Log.RedoLog.ReadHead` | xv6/log.c:84-96 | the header in memory is the one on disk |
| `Log.RedoLog.CommitBlocks` | xv6/log.c:192-202 | commit makes exactly the writes of the crash argument, in that order, all of them exactly if a buffer is idle |
| `Log.RedoLog.Commit` | xv6/log.c:192-202 | readers see the same contents, the disk has them, and they are the next version of the run; it completes exactly if there is nothing to commit or a buffer is idle |
| `Log.RedoLog.TryBeginOp` | xv6/log.c:124-141 | begins exactly if no commit runs and the reservation fits |
| `Log.RedoLog.FindSlot` | xv6/log.c:224-227 | the place of the block in the header, or the next one |
| `Log.RedoLog.Record` | xv6/log.c:213-233 | absorbs a block already in the transaction and appends any other; neither panic is reachable |
| `Log.RedoLog.LogWrite` | xv6/log.c:213-233 | the buffer's contents become the logged contents, pinned, with no write to disk |
| `Log.RedoLog.EndOp` | xv6/log.c:143-174 | exactly the last operation to end commits, which adds a version if anything was logged, and no reader sees a difference |
| `Log.RedoLog.RecoverFromLog` | xv6/log.c:115-122 | recovery completes with exactly its scripted writes, and the file system sees the version the crash left committed |
| `Log.RedoLog.Turn` | xv6/log.c:176-202 | one block write of a commit between the reads of other processes: it is the next of the script, readers see the same contents, every crash point recovers to a committed version |
| `Log.RedoLog.Do` | xv6/log.c:68-233 | whatever the calls and their order, also in the middle of a commit: every crash point recovers to a committed version, reads see the latest logged contents, only log_write changes them, only the header write of a commit adds a version; each call's success and effect are exact, and a locked buffer stays as its holder left it |
| `Log.RedoLog.Update` | xv6/fs.c:41-51 | begin_op, bread, a change, log_write, brelse, end_op and the commit, composed of such calls, make the change the next version; two idle buffers are enough |
| `DiskFormat.PutWord` | xv6/fs.c:389-394 | a word of an indirect block is set and every other word kept, byte for byte little-endian |
| `DiskFormat.WordHalves` | xv6/fs.c:389-394 | a word is the number of four bytes, and its halves of two each, the lowest first |
| `DiskFormat.InodeLayout` | xv6/fs.h:28-36 | each field of dinode k is at its place in bytes 64 k to 64 k + 63 of the block |
| `DiskFormat.GetInode` | xv6/fs.c:299-306 | reads the dinode in its slot of the block, each field from its own bytes |
| `DiskFormat.PutInode` | xv6/fs.c:226-233 | the dinode read back is the one written, each field in its own bytes; the other dinodes of the block are kept |
| `DiskFormat.TestBit` | xv6/fs.c:66-67 | bit i % 8, counted from the lowest, of byte i / 8 |
| `DiskFormat.PutBit` | xv6/fs.c:66-69 | one bit of the free map changes, and with it one byte, by a power of two |
| `Files.SetUse` | xv6/fs.c:56-95 | setting or clearing the bit of a block nothing refers to keeps the links and the exact free map |
| `Files.LinkDirect` | xv6/fs.c:378-382 | a held block becomes a part of a file through the inode |
| `Files.LinkIndirect` | xv6/fs.c:386-388 | a zeroed block becomes the indirect block |
| `Files.LinkEntry` | xv6/fs.c:389-394 | a held block becomes a part of a file through the indirect block |
| `Files.OthersKept` | xv6/fs.c:56-511 | files whose blocks are not written look the same |
| `Files.OtherBytes` | xv6/fs.c:481-511 | a file other than the one written keeps its inode, its blocks and its bytes |
| `Files.WriteChunk` | xv6/fs.c:499-503 | writing within one block of a file overlays those bytes of that file |
| `Files.OverlayContent` | xv6/fs.c:481-511 | the bytes after a write are the old bytes with the new ones laid over them |
| `FileImage.ContentIsImage` | xv6/fs.h:24-42 | the contents of a file are the bytes in the blocks that the bytes of its dinode and of its indirect block name, in order |
| `FileImage.MapIsImage` | xv6/fs.h:44-48 | the bit of block b is bit b % 8 of its byte, in block b / 4096 of the free map |
| `Files.Fs.FindFree` | xv6/fs.c:62-77 | the first free block, or none is free |
| `Files.Fs.Balloc` | xv6/fs.c:56-78 | a zeroed block that was free, now marked, with no file changed; the panic means a full disk |
| `Files.Fs.Bfree` | xv6/fs.c:80-95 | clears that bit of the free map alone |
| `Files.Fs.MapDirect` | xv6/fs.c:378-382 | the block of a direct part, made if missing, and the file otherwise extended only by zeros |
| `Files.Fs.MapIndirect` | xv6/fs.c:385-388 | the indirect block, made if missing |
| `Files.Fs.MapEntry` | xv6/fs.c:389-397 | the block of an indirect part, made if missing |
| `Files.Fs.Bmap` | xv6/fs.c:372-400 | the block of a part; a part that has one changes nothing, a new one changes no byte of any file |
| `Files.Fs.Iupdate` | xv6/fs.c:220-236 | the inode on disk is the one in memory, other inodes and all files are kept |
| `Files.Fs.Ilock` | xv6/fs.c:287-312 | an inode read again from disk is the one that was in memory |
| `Files.Fs.Readi` | xv6/fs.c:452-476 | returns exactly the bytes of the file from off, fails exactly past the end or on overflow, changes nothing |
| `Files.Fs.WriteLoop` | xv6/fs.c:498-504 | overlays the bytes; a file that does not grow gets no new block; it gets a block for each part that lacks one, or all free blocks are gone |
| `Files.Fs.Writei` | xv6/fs.c:481-511 | overlays src at off, keeps all other files, the free map and the write-through inode cache, logs only the blocks it may; errors change nothing; the panic exactly if more new blocks are needed than are free |
| `Files.SuppliedIff` | xv6/fs.c:372-400 | a run of block allocations for given bytes of a file succeeds exactly if as many blocks are free as parts lack one |
| `Files.NoneNew` | xv6/fs.c:481-511 | a write inside the file needs no new block |
| `Files.Fs.FreeDirect` | xv6/fs.c:414-419 | frees the blocks of the direct parts |
| `Files.Fs.FreeEntries` | xv6/fs.c:421-428 | frees the blocks of the indirect parts |
| `Files.Fs.FreeIndirect` | xv6/fs.c:421-431 | and then the indirect block |
| `Files.Fs.Itrunc` | xv6/fs.c:407-435 | frees exactly the blocks of this file, leaves it empty on disk too, keeps the others |
| `FileWrite.FewBlocks` | xv6/file.c:127-133 | with one block of free map, a write of n parts logs at most n + 3 blocks |
| `FileWrite.WriteChunk` | xv6/file.c:135-145 | a chunk logs at most 7 blocks, below MAXOPBLOCKS, and is in the file or changes nothing |
| `FileWrite.ChunkEnds` | xv6/file.c:127-133 | the chunks of a write end after 1536, 3072, ... bytes, the last one at the end of the data |
| `FileWrite.ChunksFit` | xv6/file.c:127-145 | any interleaving of operations as small as these chunks stays clear of the log-space panic |
| `FileWrite.Filewrite` | xv6/file.c:117-156 | the chunks together are one overlay; what is left out would pass the largest file size; between chunks the disk has the chunks so far, each added by a transaction of at most 7 blocks; the panic exactly at the first chunk that needs more blocks than are left |
| `CrashedWrite.CrashedHolds` | xv6/log.c:68-202 | a crash in the commit of a transaction recovers to the file-system disk before it or the one after it |
| `CrashedWrite.CrashDuringWrite` | xv6/file.c:117-156 | a write crashed at any block write of any chunk leaves the file with exactly the chunks whose header was written, and every other file as before |
| `CrashedWrite.ChunkFitsLog` | xv6/file.c:127-133 | the log takes the transaction of every chunk |
| `GroupCommit.WriteGroup` | xv6/log.c:9-15 | writes to any files in one transaction: the contents of all files are those the writes give one after the other, and at most 7 blocks each are logged |
| `GroupCommit.AllOrNothing` | xv6/log.c:9-15 | a crash of that transaction's commit leaves the effects of all of the writes or of none |
| `PageTables.Link` | xv6/vm.c:42-53 | hanging a frame in an entry keeps ownership exact |
| `PageTables.Unlink` | xv6/vm.c:269-276 | freeing the frame of an entry and clearing it keeps ownership exact |
| `PageTables.OtherDirectory` | xv6/vm.c:60-80 | growing one directory leaves the pages of every other as they were |
| `PageTables.Vm.constructor` | xv6/kalloc.c:31-44 | all frames on the free list |
| `PageTables.Vm.Freerange` | xv6/kalloc.c:46-53 | the frames of the range are free, the others as before |
| `PageTables.Vm.Kalloc` | xv6/kalloc.c:82-95 | a frame that was free, now held by the caller; none only if the list is empty |
| `PageTables.Vm.Kfree` | xv6/kalloc.c:59-77 | the frame is filled with junk and heads the free list |
| `PageTables.Translated` | xv6/mmu.h:65-101 | the access a processor has to an address, from both entries of the two tables, is that of the page as the model has it: the entries of a directory take no right away |
| `PageTables.Vm.Walk` | xv6/vm.c:35-55 | the table of the entry; a new one is zeroed, hangs in an entry that is present, writable and open to the user, and changes no mapping; failure changes nothing |
| `PageTables.Vm.Mappages` | xv6/vm.c:60-80 | maps the pages in order to the frames in order, a prefix of them on failure, and nothing else |
| `PageTables.Kmap` | xv6/vm.c:105-115 | the kernel's regions are in kernel space and do not overlap |
| `PageTables.Vm.Setupkvm` | xv6/vm.c:118-136 | a directory with exactly the kernel's mappings, or every frame as it was; the first exactly if the frames it takes are free |
| `PageTables.KernelAccess` | xv6/vm.c:105-115 | in such a directory the addresses of the kernel are mapped to the physical ones of the memory map, its text read-only, all of them closed to the user, and no other address is mapped |
| `PageTables.Vm.Deallocuvm` | xv6/vm.c:255-279 | unmaps every page of the range and frees its frames, no others, although it skips whole directory entries |
| `PageTables.Vm.Allocuvm` | xv6/vm.c:221-249 | new zeroed pages, which the user can read and write, on frames that were free, or the old mapping with at most page tables gained; the first exactly if the pages and the missing page tables fit in the free frames |
| `PageTables.Vm.Freevm` | xv6/vm.c:283-298 | every user page, page table and the directory are free, every other frame is untouched |
| `PageTables.Vm.Copyuvm` | xv6/vm.c:315-345 | the child has the parent's bytes, flags and access on frames that were free, the parent is unchanged; on failure every frame is as it was; it succeeds exactly if the frames it takes are free |
| `PageTables.CopyCost` | xv6/vm.c:315-345 | those are the frames of a kernel directory, one per page, and one page table per 1024 pages begun |
| `KrHeap.Conservation` | xv6/umalloc.c:46-61 | the sizes of the live and free blocks add up to the units obtained from sbrk |
| `KrHeap.OneBlock` | xv6/umalloc.c:33-42 | free units next to each other are in one free block |
| `KrHeap.Canonical` | xv6/umalloc.c:24-44 | two sound, coalesced heaps with the same free units have the same list with the same headers |
| `KrHeap.FreeUndoesMalloc` | xv6/umalloc.c:24-90 | freeing a block that was taken without growing the heap restores the free list, headers and all |
| `KrHeap.JoinedUpper` | xv6/umalloc.c:33-37 | joining the block after keeps list and tiling |
| `KrHeap.JoinedLower` | xv6/umalloc.c:38-42 | joining the block before leaves no free blocks that touch |
| `KrHeap.Heap.FindPlace` | xv6/umalloc.c:30-32 | the search ends, at the block the freed one belongs after |
| `KrHeap.Heap.Link` | xv6/umalloc.c:33-43 | the headers the two joins give |
| `KrHeap.Heap.Free` | xv6/umalloc.c:24-44 | exactly the units of the block become free, other live blocks keep their units and headers, the list stays sorted, circular and coalesced, freep is the free block before it |
| `KrHeap.Heap.Morecore` | xv6/umalloc.c:46-61 | new units above the break become free and a block is large enough, or nothing changes |
| `KrHeap.Heap.Round` | xv6/umalloc.c:74-89 | a round of the list finds a large enough block exactly if there is one, and then the first one after freep |
| `KrHeap.Heap.FindFit` | xv6/umalloc.c:74-89 | a large enough block is found without calling morecore; without one morecore is called exactly once |
| `KrHeap.Heap.Carve` | xv6/umalloc.c:75-84 | the last n units of the block become a live block, the rest stays on the list |
| `KrHeap.Heap.Malloc` | xv6/umalloc.c:63-90 | a new live block, the least with room for nbytes, disjoint from all others: always the tail of the next fit if there was one, and otherwise, after asking sbrk exactly once, a block exactly if sbrk gave memory; on failure the list, the headers and the break are as before |
| `SleepLock.StepKeeps` | xv6/sleeplock.c:22-42 | every step keeps who holds the spin locks, who holds the sleep lock and why a process sleeps |
| `SleepLock.NoLostWakeup` | xv6/proc.c:417-474 | at most one holder, holdingsleep is right, and a sleeper implies a locked lock or a wakeup to come |
| `SleepLock.NoDeadlock` | xv6/sleeplock.c:22-42 | while a process is in the functions or has the lock, some such process can take a step |
| `Pipes.CounterTests` | xv6/pipe.c:85-114 | the tests for full and empty are right for counters that wrap |
| `Pipes.PutFifo` | xv6/pipe.c:93 | writing a byte keeps the buffer in order |
| `Pipes.TakeFifo` | xv6/pipe.c:116 | the byte read is the oldest |
| `Pipes.StepKeeps` | xv6/pipe.c:59-121 | every step of readers, writers, close and kill keeps the order and the reasons for sleeping |
| `Pipes.FirstInFirstOut` | xv6/pipe.c:78-121 | in every run the bytes delivered are a prefix of those accepted, at most PIPESIZE behind |
| `PipeCalls.WritesInOrder` | xv6/pipe.c:78-100 | in every run the bytes a call has put are an initial part of its data, in order, among those of other writers; all of them when it is done, and when it has returned exactly if it did not give up on a full pipe |
| `PipeCalls.ReadsWhatWasWritten` | xv6/pipe.c:78-121 | while there is one writer, what is delivered is a prefix of what had been accepted before and then its data, all of which gets in unless it gives up |
| `PipeCalls.ReadsInOneGo` | xv6/pipe.c:102-121 | in every run the bytes a call has taken are at most n that were accepted next to one another; n of them or all there are when it is done; none only for n = 0 or an empty pipe without writers |
| `PipeCalls.ReadEnds` | xv6/pipe.c:108-121 | a read that finds an empty pipe with writers sleeps, or returns if it has been killed; it returns otherwise only after its last wakeup |
| `Pipes.NoLostWakeup` | xv6/pipe.c:84-111 | in every run a writer sleeps without a wakeup to come only if the pipe is full and open |
| `Pipes.StarvesIff` | xv6/pipe.c:84-111 | where no reader sleeps in vain, a step makes one do so exactly if a writer gives up on a full pipe while a reader sleeps |
| `Pipes.ReadersWakeIff` | xv6/pipe.c:78-121 | in a run no reader ever sleeps in vain, that is without a wakeup to come on a pipe with something to read or no writer, exactly if the run has no such step |
| `Pipes.NoDeadlock` | xv6/pipe.c:78-121 | in a run without such a step, no process in a call can take a step exactly if all of them are readers that wait on an empty pipe with a writing end, or all writers that wait on a full pipe with a reading end |
| `Pipes.KilledWriterLosesWakeup` | xv6/pipe.c:85-89 | a run in which a killed writer leaves a full pipe and a sleeping reader |
| `ProcessTree.StepKeeps` | xv6/proc.c:73-312 | every step of fork, exit, wait, exec and kill keeps the tree and the ownership of stacks and page tables |
| `ProcessTree.ExitKeeps` | xv6/proc.c:227-268 | so does exit |
| `ProcessTree.ExitHands` | xv6/proc.c:249-266 | exit gives every child to init and no one else another parent, makes only the process a zombie, and wakes only its parent, and init if that gets a zombie |
| `ProcessTree.ParentIsForker` | xv6/proc.c:180-268 | in every run the parent of a process is the one whose fork made it until that exits, and then init |
| `ProcessTree.NeverWaitsInVain` | xv6/proc.c:271-312 | in every run a process that sleeps in wait has a child that has not exited |
| `ProcessTree.SlotStays` | xv6/proc.c:73-312 | a slot keeps its pid while it keeps its state, and only kill marks it |
| `ProcessTree.LifeCycle` | xv6/proc.c:73-312 | a slot is taken by allocproc with the next pid, started or given up by the fork it is for, made a zombie by its own exit and unused by a wait of its parent, and in no other way |
| `ProcessTree.TreeHolds` | xv6/proc.c:180-312 | in every run live pids differ, every started process but init has a live parent, no waiting process has a child to reap, nothing is held by an unused slot |
| `ProcessTree.ReapFrees` | xv6/proc.c:287-299 | the wait that returns a pid frees that zombie's stack and page table, which were held until then, and nothing else |
| `ProcessTree.ZombieKeeps` | xv6/proc.c:250-266 | a zombie keeps its pid, stack and page table until it is reaped |
| `ProcessTree.FreedForGood` | xv6/proc.c:287-299 | what has been freed is never freed again |
| `ProcessTree.FreedByWait` | xv6/proc.c:271-312 | in every run the stack and the page table of a zombie are its own until the wait that returns its slot, and freed from then on |
| `Shell.TokenIff` | xv6/sh.c:244-291 | a token is what gettoken returns exactly if the line has it, written in the characters of the token, after blanks and before blanks, and it does not go on |
| `Shell.Parser.NextToken` | xv6/sh.c:247-291 | returns that token and leaves the cursor after the blanks that follow it |
| `Shell.Parser.PeekAt` | xv6/sh.c:293-302 | skips spaces and tests the next character |
| `Shell.Parser.ParseRedirections` | xv6/sh.c:360-385 | reads all redirections, or panics exactly for one without a file |
| `Shell.Parser.ParseArguments` | xv6/sh.c:417-434 | reads arguments mixed with redirections, panics at MAXARGS |
| `Shell.Parser.ParseExecCmd` | xv6/sh.c:403-435 | reads what the grammar says, as do the next three, and ends on every line |
| `Shell.Parser.ParseBlockCmd` | xv6/sh.c:387-401 | a block and the redirections after it |
| `Shell.Parser.ParsePipeCmd` | xv6/sh.c:346-358 | pipes, to the right |
| `Shell.Parser.ParseLineCmd` | xv6/sh.c:327-344 | background marks and lists |
| `Shell.Parser.ParseCmd` | xv6/sh.c:309-325 | the whole line or a panic |
| `ShellGrammar.LineSound` | xv6/sh.c:327-344 | the tokens a line parser has read are those of a spelling of the command it returns |
| `ShellGrammar.LineComplete` | xv6/sh.c:327-344 | tokens that spell a command, before anything that may follow it, are read as that command |
| `ShellGrammar.ParseIff` | xv6/sh.c:309-435 | a line parses to a command exactly if its tokens spell it: nothing is dropped, invented or refused |
| `ShellGrammar.OneMeaning` | xv6/sh.c:309-435 | no line spells two commands |
| `ShellText.TokensOfText` | xv6/sh.c:244-291 | tokens written out with blanks, where they need any, are read back |
| `ShellText.TextOfTokens` | xv6/sh.c:244-291 | every line is its tokens written out with blanks |
| `ShellText.ParsesIffWritten` | xv6/sh.c:244-435 | a line parses to a command exactly if it is a spelling of it in the grammar, written out with blanks |
| `ShellText.BlanksAlike` | xv6/sh.c:244 | putting any of space, tab, carriage return, newline and vertical tab for another leaves the meaning of a line |
| `ShellText.BlanksPart` | xv6/sh.c:244-291 | the tokens of a line are those before a blank and then those after it |
| `ShellText.BlanksBetween` | xv6/sh.c:244-291 | putting any number of blanks for one leaves the meaning of a line too |
| `ShellText.BlanksAround` | xv6/sh.c:309-325 | and so do blanks before and after it |
| `ShellText.NewlineAfter` | xv6/sh.c:309-325 | and the newline it is read with |
| `ShellText.WritableIff` | xv6/sh.c:309-435 | the tokens of a spelling can be written exactly if the command can be printed |
| `ShellText.SpellMeans` | xv6/sh.c:309-435 | the spelling of a printed command means it, for any choice of parentheses beyond those precedence needs and of `>` or `>>` |
| `ShellText.RoundTrip` | xv6/sh.c:309-435 | parsing a printed command gives that command, for any such choice and any blanks between the tokens and at both ends |
| `ShellText.PrintParses` | xv6/sh.c:309-435 | every command the parser returns prints as lines that parse to it |
| `Grep.HereItem` | xv6/grep.c:85-106 | a pattern matches here exactly if a first part matches its first item and the rest of it what follows |
| `Grep.MatchHere` | xv6/grep.c:85-96 | true exactly if some start of the text is in the language |
| `Grep.MatchStar` | xv6/grep.c:99-106 | true exactly if some run of accepted characters is followed by a match |
| `Grep.Match` | xv6/grep.c:72-82 | true exactly if some piece of the text is in the language, a start of it under ^ |
| `UserThreads.Table.Schedule` | xv6/uthreadlib.c:42-79 | the first runnable thread after the last index, going round; the current one or thread 0 only if there is none |
| `UserThreads.Nearer` | xv6/uthreadlib.c:42-79 | each call chooses a waiting thread or brings it nearer, and marks the one it chooses as running and no other |
| `UserThreads.FallbackOnly` | xv6/uthreadlib.c:61-71 | a thread that was not runnable runs next only if none was |
| `UserThreads.BoundedWait` | xv6/uthreadlib.c:42-108 | whatever the threads and the main program do, a runnable thread runs within MAX_THREAD calls |
| `UserThreads.Table.Create` | xv6/uthreadlib.c:81-94 | the first free slot becomes runnable |
| `BoundedBuffer.StepKeeps` | lab-05/buf.c:39-71 | every step keeps the semaphores, the mutex and the ring |
| `BoundedBuffer.ValuesInOrder` | lab-05/buf.c:33-71 | in every interleaving the k-th value read is k, no slot is overwritten early, the semaphores add up, one thread at most is in the critical section |
| `BoundedBuffer.Progress` | lab-05/buf.c:33-71 | no deadlock before both threads finish, and the steps left go down by one each time |
| `PageReplacement.Simulator.FindPage` | lab-07/sim.c:128-144 | found exactly if the page is resident |
| `PageReplacement.Simulator.FindFrame` | lab-07/sim.c:147-157 | the first empty frame, or else one with the largest counter |
| `PageReplacement.HitRow` | lab-07/sim.c:134-141 | the counters after a hit |
| `PageReplacement.AgeRow` | lab-07/sim.c:185-189 | the counters after a load |
| `PageReplacement.LoadKeeps` | lab-07/sim.c:159-183 | replacing a page keeps resident pages and occupied frames one to one |
| `PageReplacement.NearlyOldest` | lab-07/sim.c:149-157 | the page with the largest counter has at most one resident page older than it |
| `PageReplacement.Simulator.Assign` | lab-07/sim.c:127-191 | the page becomes resident, at most one other goes, only if memory is full; that one is the oldest page in memory, each counted in the requests of its own process, and the least or second least recently used of its process |

## Left out

- Disk drivers and boot code, spin locks and memory barriers: acquire and release are atomic; the disk is a
  sequence of blocks and one block write is one step.
- Log.RedoLog.Commit: nobody has a block of the transaction locked; `Log.RedoLog.Turn` has readers between the
  writes and waits for the one block it needs. One block write with the reads before it is one step.
- Log.RedoLog.EndOp: the same, for the last operation.
- Log.RedoLog.Record: operations that append fewer than MAXOPBLOCKS blocks, which is when the panic is out of reach.
- Log.RedoLog.LogWrite: the same.
- Log.RedoLog.TryBeginOp: a call that sleeps is a call that has not been made; no claim about when a waiting operation begins.
- BufferCache.Bcache.Bget: the guarantee of one buffer per block is for the file-system device; device 0 marks a buffer
  that has never been used. Buffer contents are 32-bit words in these modules and bytes in `DiskFormat` and `Files`;
  `CrashedWrite` joins the two.
- BufferCache.Bcache.Brelse: the lock and the reference are given up in one step, and a buffer that has been changed is
  logged before it is released.
- Files.Fs.Readi: device inodes and files with holes, which `writei` does not make.
- Files.Fs.WriteLoop: the same.
- Files.Fs.Writei: the same; what is on disk after the panic for a full disk, which the log discards.
- Files.Fs.Ilock: the inode cache has an entry for every inode; the 50 slots, reference counts and `iput` are not modelled.
- FileWrite.Filewrite: files only, not pipes; the check that the file is open for writing; begin_op and end_op are the
  start and the end of a set of logged blocks.
- CrashedWrite.CrashDuringWrite: each chunk is committed by itself; `GroupCommit` has several operations in one
  transaction.
- GroupCommit.WriteGroup: the operations are writes of at most a chunk, and run one after the other.
- PageTables.Vm.Mappages: several pages at once in kernel space only, as the source calls it.
- `ialloc`, directories and path names (`fs.c` from line 513), `mkfs`.
- PageTables.Vm.Copyuvm: the panics for a page that is not present are preconditions; `loaduvm`, `inituvm`, `clearpteu`,
  `copyout` and the switch of address spaces are not modelled.
- KrHeap.Heap.Malloc: sizes that overflow an unsigned or the argument of `sbrk`; freeing what is not live; what the
  program keeps in its blocks.
- SleepLock.NoDeadlock: no fairness, so no claim that a given waiter gets the lock.
- Pipes.NoLostWakeup: writers only, since for readers it is false; a reader tests whether it has been killed and sleeps in
  one step; copying to and from user memory, and a freed pipe, which no process can be using.
- ProcessTree.TreeHolds: pids do not wrap; open files, the scheduler's own states and the trap frame are not modelled; a
  slot's page table pointer is dropped when the table is freed, where the source leaves it dangling.
- ShellText.RoundTrip: `nulterminate`, which cuts the words out of the line, is the copying of words here; `>` and `>>` open
  the file alike, as in the source, so both are one redirection; running commands.
- Grep.Match: the loop that reads lines into a buffer; NUL characters.
- UserThreads.Table.Create: with no free slot the source writes past the table, which is a precondition here; stacks.
- PageReplacement.Simulator.Assign: secondary storage, which only fills up; requests out of range; the option for
  first in, first out, which the source ignores.
- BoundedBuffer.ValuesInOrder: the random delays and the printing at the end.
- The other laboratory exercises, `usertests.c` and the user utilities.
