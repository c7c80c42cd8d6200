# Stride-scheduler xv6, modelled and proved in Dafny

This project models the core of a small Unix-like teaching kernel (xv6 with a
stride scheduler) and of three of its user programs, and proves what that code
is for. Each part keeps the form of the C code: objects with fields that methods
update in place, loops with invariants, index arrays for linked lists, and step
systems where the point is what happens between several processes. Every method
is tied to a function or a property of the old state, and the theorems are about
those. `dafny verify dfyconfig.toml` covers the whole project.

| part | files | source |
|---|---|---|
| write-ahead log, crash recovery, group commit | `LogDisk`, `LogOverlap`, `Log`, `LogProtocol` | `log.c` |
| buffer cache | `BufferCache` | `bio.c` |
| block allocation, block maps, file contents | `FsLayout`, `FsOwnership`, `FsFiles`, `FileSystem` | `fs.c`, `file.c` |
| the file system on the log: disk layout, what is logged, crashes, operations at once | `FsDisk`, `FsLogging`, `FsCrash`, `FsFrames`, `FsInterleave` | `fs.h`, `fs.c`, `file.c`, `log.c` |
| open files and descriptors | `FileRefs`, `FileTable` | `file.c`, `sysfile.c`, `proc.c` |
| process table, process tree, stride scheduling | `Process`, `ProcTree`, `ProcTable`, `Stride` | `proc.c`, `trap.c` |
| pipes, sleep and wakeup | `Pipe`, `PipeProtocol` | `pipe.c`, `proc.c` |
| page allocator, page tables, address spaces | `VmTables`, `VmSpaces`, `Vm` | `kalloc.c`, `vm.c` |
| malloc and free | `MallocHeap`, `Malloc` | `umalloc.c` |
| shell parser | `ShellLex`, `ShellGrammar`, `ShellPrint`, `Shell` | `sh.c` |
| regular expression matcher | `Grep` | `grep.c` |

`Types` holds the machine integers they share.

Main results, one line each:

- `Log.CommitTraceAtomic`, `LogProtocol.GroupCommit`: stop the machine after any single block write of any
  interleaving, recover with any number of further crashes, and the files are exactly those of whole operations up to a commit.
- `FsInterleave.CrashSafeInterleaved`: with any number of writes and truncations at once, on one bitmap and shared inode blocks,
  whenever power is lost a reboot finds the disk of a sound file system, that of a moment with no operation under way, and
  reads from it the files which the committed operations make, one after another.
- `FsCrash.CrashSafe`, `FileWriteCrash`: the same for the transactions that the methods of `FileSystem` produce; after a crash in
  `filewrite` the file read back holds whole chunks. What is said of files, here and above, is said as long as no file has a
  block in the log area (`BelowLog`, which is to say that no bit of that area is set, `FsDisk.BelowLogIff`).
- `FsDisk.FileOnDisk`, `BitmapOnDisk`, `InodeOnDisk`: reading the raw words of the disk by its format gives every byte of every
  file and the state of every block, so these are what a reboot finds.
- `LogProtocol.FailsIff`, `NoFailureIff`: for each of the three ways to fail (`bget`, the device, the list) exactly the sizes at
  which some run ends in it; at the sizes of param.h and mkfs it is `bget` and only `bget` (`ShippedSizesFail`).
- `LogOverlap.CommitsIff`: a transaction that lists blocks of the log itself commits whatever it logs exactly if none of them is
  the log block of another.
- `FileSystem.FileSystem.WriteI`, `FsLogging.WriteCost`, `SafeChunk`: exactly which blocks a write logs, how many they are,
  and that writes keep to the budget of an operation everywhere if and only if they have at most 3073 bytes.
- `FileSystem.FileSystem.WriteI`, `ReadI`, `Itrunc`: a file is a flat byte sequence; every block has one owner; truncation frees each block once.
- `BufferCache`: over any use of the cache, `bread` returns the latest published contents and recycling drops nothing.
- `Stride.PassGap`, `Fairness`, `ShareBound`, `NoStarvation`, `OverflowPoint`: from any counters, how far apart two processes get
  while the others do as they please, with timer ticks only and with any traps; how long one waits; exactly when the limit wraps.
- `ProcTree.ProcessTree`: live and zombie processes form a tree under init, and nobody sleeps in wait beside a zombie child;
  every method of `ProcTable.Ptable` is a step of that system. `NoLostWakeup`: whoever is asleep has had no wakeup since it went to
  sleep. `BornUnmarked`: exactly when a mark of `kill` can outlive its process.
- `PipeProtocol.LostWakeup`, `FreedOnce`: someone is stuck asleep on a pipe exactly when a killed writer has returned without
  waking a sleeping reader, and a pipe is freed once, when nobody uses it any more.
- `FileRefs.CountsHolders`, `NeverPanics`, `PipeClosedOnce`, `CloseAgrees`: a file's count is always the number of its holders, and
  an end of a pipe is closed once, after the last of them, which is what `FreedOnce` needs.
- `Vm.Kernel`: page tables refine a map, no two places share a page, `freevm` returns exactly what was taken, and the exact
  shortages at which `setupkvm`, `allocuvm` and `copyuvm` fail, lose pages or panic.
- `Malloc.Heap`: one address-ordered, fully coalesced free list; every unit in one block; live blocks untouched.
- `ShellGrammar.ParserIsGrammar`, `ShellPrint.ParserRange`: the parser accepts exactly the lines of its grammar and gives each its
  meaning; the commands some line parses to are exactly those with at most nine words per exec.
- `Grep.Match`: yes exactly when the pattern describes some part of the text.

Where the code and what is said about it differ, the model follows the code:

- mkfs sets the log area to LOGSIZE blocks including the header (`stride_scheduler_xv6/mkfs.c:23`), while a transaction may have LOGSIZE blocks besides it (`SmallLogFails`, with buffers to spare);
  and the cache has LOGSIZE buffers (`stride_scheduler_xv6/param.h:12`), all of which such a transaction pins, so `bget` panics first (`FewBuffersFail`, `ShippedSizesFail`).
- mkfs does not mark the log area in the bitmap, so `balloc` hands it out once all blocks before it are used, and a transaction that logs such a block goes wrong when it needs it for the log (`FsCrash.LogBlockHandedOut`, `LogOverlap.CommitsIff`).
- `filewrite` says its chunk fits the per-operation budget; a full chunk never does (`ChunkBudget`), ten blocks to an empty file do not (`TenBlocks`), and three chunks at once leave `bget` without a buffer, all three operations open; with more buffers than param.h has they would run over the list (`ThreeChunksFail`).
- the shell opens the file of `>>` as for `>`, without appending (`stride_scheduler_xv6/sh.c:388-393`); `Cmd.RedirCmd` has one case for both (`AppendTruncates`).
- `deallocuvm` jumps 1024 pages from where it stands, not to the next table (`Skipped`, `ClearsAllIff`, `SkippedExample`).
- `allocuvm` ignores a failing `mappages` (`AllocUvm`, `LossExample`), and `copyuvm` and `setupkvm` do not give everything back when they fail (`CopyUvm`, `CopyLossExample`, `SetupKvm`, `SetupLeakExample`).
- `dup` fills a descriptor before it counts it, and `exit` clears one after the file may be gone (`FileRefs.Mid`); neither does harm (`NeverPanics`).
- `kill` compares pids of free slots too, so kill(0) marks one, and `allocproc` does not clear the mark (`KillZero`, `BornUnmarked`).
- a process killed between its test of `killed` and `sleep` sleeps on (`KilledAsleep`, `KilledCanSleep`).
- the stride scan also picks sleeping processes (`Eligible`), so every wait is modelled with spurious wakeups.

## Model

| member | source | states |
|---|---|---|
| LogDisk.EncodeHead | stride_scheduler_xv6/log.c:100-112 | what `write_head` writes decodes to the same list, and the words behind it keep what an older transaction left |
| LogDisk.HeadFormat | stride_scheduler_xv6/log.c:33-36 | the count is in the first word of the header and the block numbers in those after it |
| LogDisk.RecoverWriteKeepsLogical | stride_scheduler_xv6/log.c:114-121 | every single write of recovery keeps the logical disk |
| LogDisk.RecoveryFinished | stride_scheduler_xv6/log.c:114-121 | after the last one the home blocks are the logical disk |
| LogDisk.HeaderWriteCommits | stride_scheduler_xv6/log.c:189-199 | the header write turns the logical disk into the old one with the whole transaction over it |
| LogDisk.CommitWriteAdvances | stride_scheduler_xv6/log.c:189-199 | each of the 2n + 2 writes of commit takes one commit point to the next |
| LogDisk.CommitPointLogical | stride_scheduler_xv6/log.c:189-199 | before the header write a reboot sees the old files, from it on the new ones |
| LogDisk.StrayWrite | stride_scheduler_xv6/log.c:68-81 | writing over a log block of a committed transaction changes what a reboot sees at the block logged there, and nothing else |
| Log.RecoverTraceKeepsLogical | stride_scheduler_xv6/log.c:114-121 | recovery cut short after any number of its writes leaves the same logical disk |
| Log.CommitTracePoint | stride_scheduler_xv6/log.c:189-199 | every prefix of a commit's writes is at its commit point |
| Log.CommitTraceAtomic | stride_scheduler_xv6/log.c:189-199 | a crash after any write of commit leaves all of the transaction or none of it, decided by the header write |
| Log.EndMedia | stride_scheduler_xv6/log.c:144-171 | every medium that the commit of the last `end_op` passes through recovers to whole operations: those committed before, or from the header write on all |
| Log.EndCommitted | stride_scheduler_xv6/log.c:162-171 | after that commit the invariant of the shared log holds again, with everything durable |
| Log.Log.WriteHead | stride_scheduler_xv6/log.c:100-112 | the header block on the medium becomes the encoded list |
| Log.Log.ReadHead | stride_scheduler_xv6/log.c:84-95 | the in-memory list becomes the one on the medium |
| Log.Log.InstallTrans | stride_scheduler_xv6/log.c:68-81 | its writes are the steps of a recovery trace and the pinned buffers become clean |
| Log.Log.RecoverFromLog | stride_scheduler_xv6/log.c:114-121 | from whatever a crash left, the home blocks become the logical disk and the log is empty |
| Log.Log.WriteLog | stride_scheduler_xv6/log.c:174-187 | copies the pinned buffers to the log, without touching what a reboot sees; it fails exactly when the list is as long as the log area, or pins every buffer of the cache |
| Log.Log.LogTransaction | stride_scheduler_xv6/log.c:189-194 | the log blocks and then the header, as a commit trace; it fails exactly when `write_log` does |
| Log.Log.InstallTransaction | stride_scheduler_xv6/log.c:195-197 | the installing half extends the same commit trace to its end |
| Log.Log.Commit | stride_scheduler_xv6/log.c:189-199 | home blocks end as the old ones with the transaction over them, all 2n + 2 writes form a commit trace; a failing commit has changed nothing a reboot sees |
| Log.Log.constructor | stride_scheduler_xv6/log.c:52-64 | a machine coming up on any crash state ends recovery with an empty log |
| Log.Log.TryBeginOp | stride_scheduler_xv6/log.c:124-140 | admits an operation exactly when the shared log can take that step, which keeps its invariant; if operations keep to what is reserved there is then room for all of it, the newcomer included |
| Log.Log.LogWrite | stride_scheduler_xv6/log.c:210-231 | pins the buffer and lists the block once; distinctness is kept, and what `bread` shows changes at that block only; fails exactly when a new block finds no buffer or no room |
| Log.Log.LogWriteBy | stride_scheduler_xv6/log.c:210-231 | as a write of one operation it is a step of the shared log, the failing step when it fails; with operations that keep to what is reserved it does not |
| Log.Log.EndLast | stride_scheduler_xv6/log.c:144-171 | the last operation out commits everything logged; each medium on the way recovers to whole operations; fails exactly when the commit does |
| Log.Log.EndOp | stride_scheduler_xv6/log.c:144-171 | the last operation out commits, others only leave; both are in step with the shared log |
| LogProtocol.InitInv | stride_scheduler_xv6/log.c:52-64 | a formatted disk satisfies the invariant |
| LogProtocol.BeginOpKeeps | stride_scheduler_xv6/log.c:124-140 | admission keeps the reservation of MAXOPBLOCKS per operation within LOGSIZE |
| LogProtocol.LogWriteKeeps | stride_scheduler_xv6/log.c:210-231 | a logged write keeps list, cache, reservations and committed files in step |
| LogProtocol.EndOpKeeps | stride_scheduler_xv6/log.c:144-171 | so does leaving, which starts a commit when nobody is left |
| LogProtocol.CommitBlockKeeps | stride_scheduler_xv6/log.c:174-199 | so does each block write of a commit |
| LogProtocol.CommitDoneKeeps | stride_scheduler_xv6/log.c:160-171 | so does the end of a commit |
| LogProtocol.CrashKeeps | stride_scheduler_xv6/log.c:114-121 | a crash at any moment keeps exactly the committed prefix of the history |
| LogProtocol.RecoverBlockKeeps | stride_scheduler_xv6/log.c:68-81 | each write of recovery keeps it |
| LogProtocol.RunInv | stride_scheduler_xv6/log.c:124-231 | the invariant holds at every point of every run, crashes and reboots included |
| LogProtocol.GroupCommit | stride_scheduler_xv6/log.c:144-199 | at every moment a reboot recovers the effect of whole operations up to some commit, and a commit runs with nothing outstanding |
| LogProtocol.NoWriteDuringCommit | stride_scheduler_xv6/log.c:210-231 | no `log_write` lands while a commit is under way |
| LogProtocol.LogSpace | stride_scheduler_xv6/log.c:124-140 | the list never exceeds LOGSIZE, is distinct, and what is reserved always fits beside it |
| LogProtocol.Durable | stride_scheduler_xv6/log.c:144-171 | what is committed stays committed, over any later crashes |
| LogProtocol.NeverFails | stride_scheduler_xv6/log.c:174-187 | no state of any run has a failure that the sizes rule out |
| LogProtocol.FewBuffersFail | stride_scheduler_xv6/bio.c:82-96 | with LOGSIZE buffers or fewer beside those held, a run in which commit finds no buffer is constructed |
| LogProtocol.ListsFail | stride_scheduler_xv6/log.c:221-227 | three operations that log ten given blocks each and then one more fail with all of them open, in the list if there is a buffer for that block and in `bget` if not |
| LogProtocol.SmallLogFails | stride_scheduler_xv6/log.c:174-187 | with LOGSIZE log blocks or fewer and more buffers than log blocks, a run that reaches the device panic is constructed |
| LogProtocol.FailsIff | stride_scheduler_xv6/log.c:124-231 | some run ends in `bget`, in the device or past the end of the list if and only if the sizes say so: no more buffers than LOGSIZE and those held; no more log blocks than LOGSIZE, fewer than buffers; operations past their reservation and more than LOGSIZE buffers |
| LogProtocol.NoFailureIff | stride_scheduler_xv6/log.c:124-231 | no run fails, by `bget`, the device or the list, if and only if operations keep to MAXOPBLOCKS blocks, the log area exceeds LOGSIZE blocks and the cache LOGSIZE buffers beside those held |
| LogProtocol.ShippedSizesFail | stride_scheduler_xv6/param.h:10-12 | with the sizes of param.h and mkfs some run ends in `bget`, and none in the device or past the end of the list, whatever operations log |
| LogOverlap.CommittedFrom | stride_scheduler_xv6/log.c:68-81 | where each block of a transaction that lists log blocks ends up getting its contents from, copies and installs in the order of the code |
| LogOverlap.CommitsIff | stride_scheduler_xv6/log.c:174-199 | such a transaction commits whatever is logged if no listed block is the log block of another, and goes wrong if one is and the contents differ |
| BufferCache.UpdateConsistent | stride_scheduler_xv6/bio.c:111-120 | changing one held buffer and its block only keeps the cache consistent |
| BufferCache.PublishConsistent | stride_scheduler_xv6/log.c:210-231 | pinning a changed buffer keeps it consistent with the new published contents |
| BufferCache.WriteConsistent | stride_scheduler_xv6/bio.c:111-120 | writing a buffer through does too |
| BufferCache.RecycleConsistent | stride_scheduler_xv6/bio.c:82-94 | reassigning an idle clean buffer loses nothing |
| BufferCache.Bcache.constructor | stride_scheduler_xv6/bio.c:39-57 | an empty cache linked into one ring, in agreement with the medium |
| BufferCache.UnlinkLinks | stride_scheduler_xv6/bio.c:131-132 | the two pointer writes that take a buffer out leave the rest linked both ways, in the same order |
| BufferCache.PushLinks | stride_scheduler_xv6/bio.c:133-136 | so do the four that put it in front |
| BufferCache.ToFrontKeeps | stride_scheduler_xv6/bio.c:131-136 | moving a buffer to the front loses none |
| BufferCache.Bcache.Unlink | stride_scheduler_xv6/bio.c:131-132 | takes exactly one buffer off the doubly linked list |
| BufferCache.Bcache.PushFront | stride_scheduler_xv6/bio.c:133-136 | puts it in front and the list stays linked both ways |
| BufferCache.Bcache.FindCached | stride_scheduler_xv6/bio.c:70-80 | finds the buffer of a block, or shows no buffer has it |
| BufferCache.Bcache.FindVictim | stride_scheduler_xv6/bio.c:85-94 | finds an idle clean buffer from the old end, or shows there is none |
| BufferCache.Bcache.BGet | stride_scheduler_xv6/bio.c:62-96 | never two buffers for one block; recycles only idle clean ones; waits or panics exactly when it must |
| BufferCache.Bcache.BRead | stride_scheduler_xv6/bio.c:99-109 | the buffer returned holds the latest published contents of the block |
| BufferCache.Bcache.Modify | stride_scheduler_xv6/fs.c:481-485 | a holder's own change of a buffer keeps the cache consistent, and leaves the medium and the published contents alone |
| BufferCache.Bcache.LogWrite | stride_scheduler_xv6/log.c:210-231 | publishes and pins |
| BufferCache.Bcache.BWrite | stride_scheduler_xv6/bio.c:111-120 | medium and published contents become the buffer's |
| BufferCache.Bcache.BRelse | stride_scheduler_xv6/bio.c:122-142 | the released buffer becomes the most recently used, no buffer leaves the list |
| FsLayout.BitsIndependent | stride_scheduler_xv6/fs.c:61-66 | setting or clearing one bitmap bit changes no other |
| FsLayout.WordBits | stride_scheduler_xv6/fs.c:367-381 | words on the disk are little-endian, bit by bit |
| FsOwnership.MarkFresh | stride_scheduler_xv6/fs.c:52-77 | marking and zeroing a free block disturbs no reference and no byte of any file |
| FsOwnership.LinkFresh | stride_scheduler_xv6/fs.c:358-386 | storing a fresh block number keeps every block owned once and no byte changes |
| FsOwnership.AllocateFor | stride_scheduler_xv6/fs.c:358-386 | the two together give the place a block, leak nothing and change no file |
| FsOwnership.StoreBlock | stride_scheduler_xv6/fs.c:481-486 | new contents of one data block change exactly that block of that file |
| FsOwnership.Truncate | stride_scheduler_xv6/fs.c:393-421 | freeing all blocks of one file leaves every other reference and byte |
| FsOwnership.FreeStep | stride_scheduler_xv6/fs.c:79-95 | the next block to free is marked, so it is never freed twice |
| FsOwnership.FreedAll | stride_scheduler_xv6/fs.c:393-421 | exactly the blocks the file owned are unmarked |
| FsFiles.BlockStep | stride_scheduler_xv6/fs.c:478-487 | one pass of the write loop puts its bytes in place and no others |
| FsFiles.WriteDone | stride_scheduler_xv6/fs.c:489-493 | a finished write with the size updated is a splice of one flat file and nothing else |
| FsFiles.TruncateDone | stride_scheduler_xv6/fs.c:393-421 | after truncation that file is empty, all others are as before, nothing leaks |
| FsDisk.BitmapOnly | stride_scheduler_xv6/fs.h:42-46 | marking or freeing a block changes one block of the disk, its bitmap block |
| FsDisk.InodeOnly | stride_scheduler_xv6/fs.c:200-217 | updating an inode changes one block of the disk, its inode block |
| FsDisk.LogStep | stride_scheduler_xv6/fs.c:38-47 | when only the block being logged has changed, the log goes on accounting for every difference to the disk at begin_op |
| FsDisk.BelowLogIff | stride_scheduler_xv6/fs.c:61-63 | no file has a block in the log exactly as long as no bit from the log on is set |
| FsDisk.BitmapOnDisk | stride_scheduler_xv6/fs.h:42-46 | bit k of word w of the bitmap on the disk is the bit of block 32 w + k, for all w and k |
| FsDisk.InodeOnDisk | stride_scheduler_xv6/fs.h:27-40 | the third word of a dinode is the size, the thirteen after it the addresses |
| FsDisk.FileOnDisk | stride_scheduler_xv6/fs.c:358-386 | whoever reads the home blocks by the format alone, dinode, direct or indirect address, byte, finds every byte of every file, as long as that is so |
| FsDisk.DiskBits | stride_scheduler_xv6/fs.h:42-46 | the home blocks determine for every block whether it is in use |
| FsDisk.DiskDetermines | stride_scheduler_xv6/fs.h:27-46 | as long as no file has a block in the log, they determine every inode, every reference, every byte of every file and every bit |
| FsLogging.NextBlock | stride_scheduler_xv6/fs.c:478-487 | one pass of the write loop adds exactly the block it writes to and what mapping it logs |
| FsLogging.TrailNoted | stride_scheduler_xv6/fs.c:478-487 | so all passes together log exactly the blocks of the range and what mapping them logs |
| FsLogging.WriteCost | stride_scheduler_xv6/fs.c:464-494 | their number, inode block included, is a function of the size of the file, the offset and the length |
| FsLogging.ChunkBudget | stride_scheduler_xv6/file.c:126-132 | a full chunk of `filewrite` logs more blocks than begin_op reserves, wherever it goes |
| FsLogging.TenBlocks | stride_scheduler_xv6/file.c:126-132 | ten blocks written to an empty file log twelve |
| FsLogging.SafeChunk | stride_scheduler_xv6/file.c:126-137 | writes of n bytes keep to the reservation at every offset of every file if and only if n is at most 3073 |
| FileSystem.FileSystem.Balloc | stride_scheduler_xv6/fs.c:38-77 | the lowest free block, marked and zeroed; the panic exactly when all are used; logs that block and its bitmap block as they then are on the disk (BitmapOnDisk) |
| FileSystem.FileSystem.Bfree | stride_scheduler_xv6/fs.c:79-95 | clears one bit and logs its block as it then is on the disk (BitmapOnDisk); panics exactly when the bit is clear already |
| FileSystem.FileSystem.Bmap | stride_scheduler_xv6/fs.c:358-386 | the block of the file, new only if there was none; every other reference and byte kept; logs exactly what a new block needs |
| FileSystem.FileSystem.ReadI | stride_scheduler_xv6/fs.c:436-461 | the bytes of the flat file in the range, up to its end; -1 exactly when the source says so; nothing allocated and nothing logged |
| FileSystem.FileSystem.WriteLoop | stride_scheduler_xv6/fs.c:478-487 | its passes follow one another from the old file system to the new one, each mapping a block and copying into it, until all bytes are written |
| FileSystem.FileSystem.WriteI | stride_scheduler_xv6/fs.c:464-494 | splices exactly the range and extends the file if it reaches past the end; other files keep their contents; the log accounts for the whole change of the disk and lists exactly the blocks it must, as many as WriteCost says |
| FileSystem.FileSystem.ReadBack | stride_scheduler_xv6/fs.c:436-494 | `readi` after `writei` returns the bytes written |
| FileSystem.FileSystem.FileWrite | stride_scheduler_xv6/file.c:116-155 | what is written is one splice at the offset, of all bytes or, exactly when they do not fit, of the chunks that do; each transaction leads from one sound file system to the next |
| FileSystem.FileSystem.FreeIndirect | stride_scheduler_xv6/fs.c:407-417 | the indirect block and all it lists are freed, without a panic |
| FileSystem.FileSystem.Itrunc | stride_scheduler_xv6/fs.c:393-421 | never panics, unmarks exactly the file's own blocks, empties it, leaves the others; the log accounts for the whole change of the disk |
| FsCrash.HistoryDisk | stride_scheduler_xv6/log.c:124-171 | after n whole transactions the home blocks are those of the n-th file system |
| FsCrash.WholeTransactions | stride_scheduler_xv6/log.c:144-171 | a committed history in which no operation is open consists of whole transactions |
| FsCrash.CrashSafe | stride_scheduler_xv6/log.c:114-199 | at every moment of every run of transactions one after another a reboot finds the home blocks of the file system after some number of whole ones, and whatever sound file system is read from them has its blocks in use, and its files if none of these has a block in the log |
| FsCrash.FileWriteCrash | stride_scheduler_xv6/file.c:134-151 | so after a crash during `filewrite` the file read back holds whole chunks, and every other file is as it was |
| FsCrash.RecoveredFiles | stride_scheduler_xv6/fs.h:27-46 | whatever sound file system is read from the home blocks of one without blocks in the log has the same files |
| FsCrash.RewriteLogs | stride_scheduler_xv6/fs.c:478-487 | rewriting the first chunk of a file logs its thirteen blocks and nothing else |
| FsCrash.ThreeChunksFail | stride_scheduler_xv6/file.c:132-144 | a run in which three writers of a chunk are admitted together, each storing to its own file's blocks, and with all three open the next block finds no buffer, or with more than LOGSIZE buffers no room in the list |
| FsCrash.LogBlockHandedOut | stride_scheduler_xv6/fs.c:52-77 | `balloc` returns a log block exactly when every block before the log is in use; a transaction that lists it and needs it as the log block of another does not commit what it logged |
| FsFrames.MarkStep | stride_scheduler_xv6/fs.c:61-68 | marking a free block puts it in hand and touches no file |
| FsFrames.HandStore | stride_scheduler_xv6/fs.c:38-47 | what a block in hand holds is part of no file |
| FsFrames.LinkStep | stride_scheduler_xv6/fs.c:358-386 | linking it gives it to one file; no other file and no byte changes |
| FsFrames.FileStore | stride_scheduler_xv6/fs.c:481-486 | storing into a block of a file changes that block of that file only, whatever others have in hand |
| FsFrames.SeizeStep | stride_scheduler_xv6/fs.c:393-421 | a truncation takes all blocks of its file in hand, and no others |
| FsFrames.UnmarkStep | stride_scheduler_xv6/fs.c:79-95 | freeing a block in hand touches no file |
| FsInterleave.WorkKeeps | stride_scheduler_xv6/fs.c:267-315 | a step that keeps to the inode its operation has locked, and leaves that in order, keeps every other operation and every other file in order |
| FsInterleave.MarkKeeps | stride_scheduler_xv6/fs.c:52-77 | so each step of `writei` keeps the invariant of all operations: the bitmap half of `balloc` |
| FsInterleave.ZeroKeeps | stride_scheduler_xv6/fs.c:38-47 | `bzero` |
| FsInterleave.LinkKeeps | stride_scheduler_xv6/fs.c:358-386 | the store of the block number, in memory or in the indirect block |
| FsInterleave.CopyKeeps | stride_scheduler_xv6/fs.c:478-487 | the copy into the block |
| FsInterleave.FinishKeeps | stride_scheduler_xv6/fs.c:489-493 | the new size |
| FsInterleave.FreeKeeps | stride_scheduler_xv6/fs.c:393-421 | each `bfree` of `itrunc`, whose block another operation may take at once |
| FsInterleave.UpdateKeeps | stride_scheduler_xv6/fs.c:200-217 | `iupdate`, into an inode block that others share |
| FsInterleave.ReleaseKeeps | stride_scheduler_xv6/fs.c:300-315 | the release of the inode, which now holds the splice, or nothing |
| FsInterleave.NeverStuck | stride_scheduler_xv6/fs.c:358-494 | an operation inside an inode lock can always go on unless the disk is full; it waits for no other operation |
| FsInterleave.FilesAsWritten | stride_scheduler_xv6/fs.c:464-494 | at every moment a file nobody has locked is what its writes and truncations make, in the order in which they released it, in memory and in the buffers of the disk |
| FsInterleave.BlocksOwned | stride_scheduler_xv6/fs.c:52-95 | at every moment every marked block has one owner, a file or one operation |
| FsInterleave.CrashSafeInterleaved | stride_scheduler_xv6/log.c:114-199 | at every moment of every interleaving a reboot finds the file system of a moment with no operation under way, with the files of the operations committed, whole, and reads its blocks in use, and these files if none has a block in the log |
| FileRefs.AllocKeeps | stride_scheduler_xv6/file.c:26-39 | allocating a file keeps counts and holders in step |
| FileRefs.DupRefKeeps | stride_scheduler_xv6/sysfile.c:53-64 | so does the count of a `dup`, which comes after its descriptor |
| FileRefs.DropKeeps | stride_scheduler_xv6/file.c:56-80 | so does a `fileclose` |
| FileRefs.ExitDropKeeps | stride_scheduler_xv6/proc.c:240-246 | so does that of `exit`, which leaves its descriptor for a moment |
| FileRefs.ForkStoreKeeps | stride_scheduler_xv6/proc.c:175-177 | so does handing a reference to a child |
| FileRefs.RunInv | stride_scheduler_xv6/sysfile.c:39-103 | counts, kinds and descriptors are in order at every point of every interleaving of open, dup, close, pipe, fork, exit, reads and writes |
| FileRefs.CountsHolders | stride_scheduler_xv6/file.c:26-80 | a file's count is the number of references to it, and zero exactly when nobody has one |
| FileRefs.NeverPanics | stride_scheduler_xv6/file.c:44-63 | neither `filedup` nor `fileclose` ever meets a file without references |
| FileRefs.PipeClosedOnce | stride_scheduler_xv6/file.c:56-80 | `pipeclose` is called once for an end, when its last reference goes and nobody is inside a call on it; from then on nobody calls on it |
| FileRefs.CallAgrees | stride_scheduler_xv6/file.c:96-102 | a read or write through a descriptor is a call that the pipe protocol admits |
| FileRefs.CloseAgrees | stride_scheduler_xv6/pipe.c:58-75 | a close comes when the pipe protocol admits it, and takes the reference to that end |
| FileRefs.OtherAgrees | stride_scheduler_xv6/file.c:26-80 | no other step changes what the pipe protocol sees |
| FileTable.Ftable.constructor | stride_scheduler_xv6/file.c:19-22 | no file is open |
| FileTable.Ftable.FileAlloc | stride_scheduler_xv6/file.c:26-39 | the lowest free file, or none exactly when all are in use |
| FileTable.Ftable.FileClose | stride_scheduler_xv6/file.c:56-80 | one reference less; the last frees the file and closes its pipe end; panics exactly without one |
| FileTable.Ftable.FdAlloc | stride_scheduler_xv6/sysfile.c:39-50 | the lowest free descriptor takes over the reference |
| FileTable.Ftable.SysDup | stride_scheduler_xv6/sysfile.c:53-64 | the lowest free descriptor and one more reference, or nothing changes |
| FileTable.Ftable.SysClose | stride_scheduler_xv6/sysfile.c:91-101 | the descriptor is free, the file one reference shorter and closed if it was the last |
| FileTable.Ftable.PipeAlloc | stride_scheduler_xv6/pipe.c:21-56 | two new files of one pipe, or everything as it was, exactly when two files and a page are free |
| FileTable.Ftable.SysPipe | stride_scheduler_xv6/sysfile.c:421-442 | two descriptors on the ends of a new pipe, or every file and descriptor as it was; succeeds exactly when two files, two descriptors and a page are free |
| FileTable.Ftable.ForkFiles | stride_scheduler_xv6/proc.c:175-177 | the child has the parent's descriptors, and every file as many references more |
| FileTable.Ftable.ExitFiles | stride_scheduler_xv6/proc.c:240-246 | no descriptor is left, and every file has lost exactly the references of this process |
| ProcTable.Ptable.constructor | stride_scheduler_xv6/proc.c:94-118 | a table with init alone, with its 300 tickets, is a beginning of the process system |
| ProcTable.Ptable.Pick | stride_scheduler_xv6/proc.c:366-380 | the first slot of least pass among the eligible ones and slot 0 |
| ProcTable.Ptable.Dispatch | stride_scheduler_xv6/proc.c:363-403 | the picked process, and only it, is charged and runs |
| ProcTable.Ptable.Trap | stride_scheduler_xv6/trap.c:106-111 | the running process keeps the CPU exactly when it is below its limit and the trap is not the timer's, and otherwise is runnable; a step of the process system that keeps its invariant |
| ProcTable.Ptable.Wakeup1 | stride_scheduler_xv6/proc.c:505-513 | nobody is asleep on the channel any more; who was is runnable, every other field and every other process as before |
| ProcTable.Ptable.AllocProc | stride_scheduler_xv6/proc.c:37-90 | the lowest unused slot, with the next pid; or none exactly when all are used |
| ProcTable.Ptable.Publish | stride_scheduler_xv6/proc.c:163-195 | the end of a fork is a step of the process system that keeps its invariant: the child becomes runnable under its parent |
| ProcTable.Ptable.GiveUp | stride_scheduler_xv6/proc.c:157-162 | so is giving up a fork: the slot is free again |
| ProcTable.Ptable.Wakeup | stride_scheduler_xv6/proc.c:515-522 | the same, as a step of the process system that keeps its invariant |
| ProcTable.Ptable.Exit | stride_scheduler_xv6/proc.c:228-274 | children go to init, init is woken for a zombie one, the parent is woken, the caller is a zombie |
| ProcTable.Ptable.WaitOnce | stride_scheduler_xv6/proc.c:279-318 | reaps a zombie child if there is one, gives up exactly when there is no child or the caller is killed, else sleeps |
| ProcTable.Ptable.Sleep | stride_scheduler_xv6/proc.c:467-503 | a step of the process system that keeps its invariant: the caller sleeps on a channel other than that of wait, which is WaitOnce's, and gives up the CPU |
| ProcTable.Ptable.Kill | stride_scheduler_xv6/proc.c:527-545 | the process with the pid is marked, and nobody with it is asleep; -1 exactly when none has it |
| ProcTree.ExitKeeps | stride_scheduler_xv6/proc.c:228-274 | exit keeps the tree, the half-made children and the waiting parents in order |
| ProcTree.PublishKeeps | stride_scheduler_xv6/proc.c:146-195 | so does the end of a fork |
| ProcTree.ReapKeeps | stride_scheduler_xv6/proc.c:279-318 | so does reaping |
| ProcTree.NextInv | stride_scheduler_xv6/proc.c:146-545 | so does every step of every operation |
| ProcTree.ClimbToInit | stride_scheduler_xv6/proc.c:228-274 | the parents of a live or zombie process lead to init through live processes |
| ProcTree.ProcessTree | stride_scheduler_xv6/proc.c:146-318 | at every moment of every run: a tree under init, inner nodes live, no parent asleep in wait beside a zombie child |
| ProcTree.StepPids | stride_scheduler_xv6/proc.c:37-60 | no step gives a pid to two slots |
| ProcTree.PidGone | stride_scheduler_xv6/proc.c:295-305 | a pid that `wait` has returned is nobody's at any later moment of any run |
| ProcTree.WakeupReaches | stride_scheduler_xv6/proc.c:505-522 | after a wakeup no slot is asleep on the channel, each that was is runnable and otherwise as it was, all others are equal |
| ProcTree.TrapDecides | stride_scheduler_xv6/trap.c:106-111 | who has the CPU after a trap, and what it paid for it, over the fields |
| ProcTree.KillMarks | stride_scheduler_xv6/proc.c:527-545 | every process with the pid is marked and none is asleep; nothing else changes |
| ProcTree.StillAsleep | stride_scheduler_xv6/proc.c:467-545 | whoever is asleep on a channel after a step was so before it and the step was none that wakes it, or has just gone to sleep on it |
| ProcTree.NoLostWakeup | stride_scheduler_xv6/proc.c:467-522 | at every moment of every run, a process asleep on a channel went to sleep on it at some step, and since then there was no wakeup of the channel, no exit of a child it waits for, no kill of it and no dispatch |
| ProcTree.BornUnmarked | stride_scheduler_xv6/proc.c:527-545 | over every run: every process begins unmarked if and only if every `kill` names a published process |
| ProcTree.KillZero | stride_scheduler_xv6/proc.c:533-540 | a run in which kill(0) marks a free slot, and the process made there begins killed |
| ProcTree.SlotsAccounted | stride_scheduler_xv6/proc.c:146-195 | at every moment of every run a half-made slot is being made by somebody |
| ProcTree.MadeByParent | stride_scheduler_xv6/proc.c:163-195 | at every moment of every run a process's parent is the process that forked it, and has been ever since, or init |
| Stride.TriClosed | stride_scheduler_xv6/proc.c:382-386 | the sum that the limit follows is n(n+1)/2 |
| Stride.QuantumStep | stride_scheduler_xv6/proc.c:382-386 | one timer quantum takes pass = k s and limit = s (k+1)(k+2)/2 to k + 1, if nothing wraps |
| Stride.QuantaExact | stride_scheduler_xv6/trap.c:106-108 | so after k quanta from allocation both are exactly that |
| Stride.OverflowPoint | stride_scheduler_xv6/proc.c:382-386 | the first quantum whose limit exceeds 2^31 - 1 wraps it negative, and the next charge no longer raises pass |
| Stride.DefaultForkOverflow | stride_scheduler_xv6/proc.c:56-59 | for 500 tickets 14652 quanta are exact and the next one wraps |
| Stride.LimitStep | stride_scheduler_xv6/trap.c:106-108 | from any counters, one more timer-ended dispatch in closed form, the pass staying below the limit |
| Stride.EveryDispatchCharged | stride_scheduler_xv6/proc.c:363-403 | from any counters, while its own have not wrapped, a process whose dispatches the timer ends has pass and limit exactly as its dispatches make them: all charged, but for the first if it had reached its limit |
| Stride.PassGap | stride_scheduler_xv6/proc.c:366-380 | from any counters of the two, a process that has been dispatched is at most one of its strides ahead of one that could be picked whenever it was; the others block, trap, exit and fork |
| Stride.Fairness | stride_scheduler_xv6/proc.c:366-403 | n_i s_i - n_j s_j is at most s_i for two processes with fresh counters, j eligible whenever i was dispatched |
| Stride.ShareBound | stride_scheduler_xv6/proc.c:363-403 | with blocking, system calls and forks of others in any order, i is dispatched at most twice per stride between its pass at the beginning and that of j at the end, and twice more |
| Stride.EventWeight | stride_scheduler_xv6/proc.c:363-403 | while one process waits, every dispatch of another uses up potential and only forks add any |
| Stride.NoStarvation | stride_scheduler_xv6/proc.c:375-394 | with blocking, traps and forks in any order, every other process is dispatched at most twice per stride its pass lies below the waiting one's, and twice more |
| Stride.WaitBound | stride_scheduler_xv6/proc.c:375-394 | so with strides of at least S the wait ends within (2 (pass / S) + 2)(NPROC + forks) dispatches |
| Stride.TrapsProgress | stride_scheduler_xv6/trap.c:106-111 | whatever traps come between, the counters move toward the next charge |
| Stride.TwoDispatches | stride_scheduler_xv6/proc.c:382-386 | two dispatches of one process raise its pass by at least one stride |
| Stride.TrapsPaid | stride_scheduler_xv6/trap.c:106-111 | while a process keeps the CPU every trap costs it a stride, none is the timer's, and each found it below its limit |
| Stride.TrapBudget | stride_scheduler_xv6/trap.c:106-111 | so it keeps the CPU for at most (limit - pass) / stride traps, rounded up |
| Stride.TrapEnds | stride_scheduler_xv6/trap.c:106-108 | it loses the CPU exactly at the first trap that is the timer's or finds it at its limit |
| Stride.FreshLosesCpu | stride_scheduler_xv6/trap.c:106-108 | a process fresh from fork is off the CPU at its first trap, whatever it is |
| Stride.DispatchSound | stride_scheduler_xv6/proc.c:382-394 | whatever the counters, a dispatched process has no negative pass, and a wrapped one starts afresh |
| Stride.StepIsEvent | stride_scheduler_xv6/proc.c:146-545 | every step of the process system in range is an event of the runs that these results are about |
| Pipe.WrapIndex | stride_scheduler_xv6/pipe.c:83-93 | the ring index does not notice the counters wrapping, since 512 divides 2^32 |
| Pipe.WrapCompare | stride_scheduler_xv6/pipe.c:83-93 | the wrapped tests for empty and full are the real ones, and the wrapped difference is the fill |
| Pipe.Pipe.constructor | stride_scheduler_xv6/pipe.c:21-45 | an empty pipe open at both ends |
| Pipe.Pipe.WriteUntilBlocked | stride_scheduler_xv6/pipe.c:77-97 | bytes go in, in order, until done or full; what happens when full is decided exactly |
| Pipe.Pipe.ReadOnce | stride_scheduler_xv6/pipe.c:99-120 | the oldest unread bytes, as many as wanted or there; all bytes ever read stay a prefix of all ever stored |
| Pipe.Pipe.Close | stride_scheduler_xv6/pipe.c:58-75 | from then on the other side waits for nothing; contents and the other end are kept; the pipe is released exactly when the other end was closed already |
| PipeProtocol.LockInv | stride_scheduler_xv6/pipe.c:82 | taking the pipe lock keeps the invariant |
| PipeProtocol.TestReadInv | stride_scheduler_xv6/pipe.c:105-111 | so does the head of the reader's wait loop |
| PipeProtocol.TestWriteInv | stride_scheduler_xv6/pipe.c:83-93 | so does a turn of the writer's loops, unless it abandons a reader |
| PipeProtocol.SleepInv | stride_scheduler_xv6/proc.c:467-503 | so does every step of the two-lock sleep |
| PipeProtocol.WakeupInv | stride_scheduler_xv6/proc.c:505-522 | so does a wakeup under ptable.lock |
| PipeProtocol.NextInv | stride_scheduler_xv6/pipe.c:58-120 | so does every step of any reader, writer, closer, kill or dispatch |
| PipeProtocol.StuckMeansLost | stride_scheduler_xv6/pipe.c:83-116 | with the pipe lock free, no writer sleeps with room and no reader beside data, unless a wakeup was lost before |
| PipeProtocol.LosesIffAbandons | stride_scheduler_xv6/pipe.c:85-88 | a step loses a wakeup if and only if it is a killed writer's return from a full pipe with unsignalled bytes and a reader asleep |
| PipeProtocol.LostWakeup | stride_scheduler_xv6/pipe.c:58-120 | over whole runs, someone was stuck at some time if and only if such a step was taken |
| PipeProtocol.NoDeadlock | stride_scheduler_xv6/proc.c:467-503 | the two locks never deadlock: while anyone is under way and awake, someone can step |
| PipeProtocol.WakeupCanBeLost | stride_scheduler_xv6/pipe.c:85-88 | a run with a killed writer of 513 bytes that leaves a reader stuck |
| PipeProtocol.KilledAsleep | stride_scheduler_xv6/pipe.c:83-110 | over every run, whoever sleeps although it was killed was killed between its test of the mark and `sleep`, and has not been woken since |
| PipeProtocol.KilledCanSleep | stride_scheduler_xv6/pipe.c:105-110 | a run in which a reader killed there sleeps |
| PipeProtocol.FreedOnce | stride_scheduler_xv6/pipe.c:58-75 | over whole runs the pipe is freed at most once, by the last close, and nobody is inside a call on it then or later |
| VmTables.AddTable | stride_scheduler_xv6/vm.c:55-63 | a blank page becomes a table that grants everything its entries do, and ownership still matches the tables |
| VmTables.AddPage | stride_scheduler_xv6/vm.c:79-84 | mapping a page in hand gives it to exactly that place |
| VmTables.DropPage | stride_scheduler_xv6/vm.c:263-270 | clearing an entry takes it back |
| VmTables.Retire | stride_scheduler_xv6/vm.c:277-292 | a directory without user pages can be given up with all its tables |
| VmTables.Unshared | stride_scheduler_xv6/vm.c:70-90 | no physical page is mapped at two user places, in one address space or two |
| VmTables.Effective | stride_scheduler_xv6/vm.c:55-63 | what user code may read and write, asked of both levels, is what the entry of the page says, in every address space |
| VmSpaces.PutWalks | stride_scheduler_xv6/vm.c:79-84 | setting one entry changes one translation, in one address space |
| VmSpaces.TableWalks | stride_scheduler_xv6/vm.c:55-63 | adding a table changes none |
| VmSpaces.ClearsAllIff | stride_scheduler_xv6/vm.c:258-271 | `deallocuvm` unmaps its whole range if and only if nothing mapped is passed over |
| VmSpaces.NothingSkipped | stride_scheduler_xv6/vm.c:258-262 | nothing is passed over from the start of a table or from one that exists |
| VmSpaces.SkippedExample | stride_scheduler_xv6/vm.c:260-262 | an address space in which a mapped page is passed over |
| VmSpaces.LossExample | stride_scheduler_xv6/vm.c:231-241 | with one free page and no table, `allocuvm` loses the page |
| VmSpaces.KernelMap | stride_scheduler_xv6/vm.c:115-126 | the rows of the kernel's map are in the kernel half and do not overlap |
| VmSpaces.KernelHalf | stride_scheduler_xv6/vm.c:103-126 | in a space `setupkvm` made, page v from KERNBASE to PHYSTOP is physical page v - KERNBASE, the text read-only; devices are where they are; user code reads nothing above KERNBASE and nothing else is mapped there |
| VmSpaces.GrownOpen | stride_scheduler_xv6/vm.c:239-240 | user code can write every page that `allocuvm` adds |
| VmSpaces.CopiedOpen | stride_scheduler_xv6/vm.c:317-331 | user code may read and write a copied page exactly as the page it was copied from |
| VmSpaces.KernelTables | stride_scheduler_xv6/vm.c:115-144 | they need 64 tables, so `setupkvm` needs 65 pages and with 64 loses them all |
| VmSpaces.CopyShort | stride_scheduler_xv6/vm.c:317-331 | where the free list runs out decides how `copyuvm` ends |
| Vm.Kernel.Kalloc | stride_scheduler_xv6/kalloc.c:82-95 | pops one page, none exactly when the list is empty |
| Vm.Kernel.Kfree | stride_scheduler_xv6/kalloc.c:59-77 | the page is free again, once, filled with ones, and no other page changes |
| Vm.Kernel.FreeRange | stride_scheduler_xv6/kalloc.c:45-52 | exactly the pages of the range join the list |
| Vm.Kernel.WalkPgdir | stride_scheduler_xv6/vm.c:45-65 | the table for an address, made if wanted, under a directory entry with all three permissions; no translation anywhere changes |
| Vm.Kernel.MapPage | stride_scheduler_xv6/vm.c:78-90 | one translation appears; out of memory and remap exactly when they should be |
| Vm.Kernel.MapPages | stride_scheduler_xv6/vm.c:70-90 | a whole range of translations appears and no other changes; remap only if some page of it was mapped, out of memory only if the tables it lacks exceed the free pages |
| Vm.Kernel.SetupKvm | stride_scheduler_xv6/vm.c:128-144 | a new address space with exactly the kernel's rows, out of free pages, others untouched; fails exactly when the free pages are fewer than a directory and the tables, and loses pages exactly when there were some |
| Vm.Kernel.DeallocUvm | stride_scheduler_xv6/vm.c:249-273 | every page of the range not passed over is unmapped and free again, all else is as it was |
| Vm.Kernel.FreeVm | stride_scheduler_xv6/vm.c:277-292 | the pages of one address space, all of them and no others, are free again |
| Vm.Kernel.AllocUvm | stride_scheduler_xv6/vm.c:220-243 | fresh blank pages that user code can write throughout, or all undone; panics exactly when it comes to a mapped page with a page in hand; a page is lost if and only if the list runs out between a page and its table |
| Vm.Kernel.CopyUvm | stride_scheduler_xv6/vm.c:309-337 | the child has equal bytes, flags and effective permissions on pages that were free, the parent is untouched; whether it completes, fails in `setupkvm`, loses a page or panics is decided exactly by the number of free pages and the first page the parent lacks |
| Vm.SetupLeakExample | stride_scheduler_xv6/vm.c:128-144 | a machine with 64 free pages that loses them all |
| Vm.CopyLossExample | stride_scheduler_xv6/vm.c:309-337 | a machine on which copying a one-page process loses a page |
| MallocHeap.Disjoint | stride_scheduler_xv6/umalloc.c:24-90 | no two blocks, live or free, share a unit |
| MallocHeap.Insert | stride_scheduler_xv6/umalloc.c:33-42 | linking a block in address order keeps one ordered cycle and the partition |
| MallocHeap.Merge | stride_scheduler_xv6/umalloc.c:33-41 | joining two touching free blocks keeps both |
| MallocHeap.Unlink | stride_scheduler_xv6/umalloc.c:76-77 | so does taking a whole block |
| MallocHeap.Split | stride_scheduler_xv6/umalloc.c:78-82 | so does cutting units off the end of one |
| MallocHeap.Grant | stride_scheduler_xv6/umalloc.c:54-58 | so do new units from sbrk |
| MallocHeap.Scribble | stride_scheduler_xv6/umalloc.c:84 | and what a program writes into its own blocks |
| MallocHeap.OneCycle | stride_scheduler_xv6/umalloc.c:74 | the pointers lead from `base` to every free block |
| Malloc.RequestSizes | stride_scheduler_xv6/umalloc.c:69 | the unit count holds the request exactly up to 2^32 - 8 bytes, and sbrk is asked for what the header claims exactly up to 2^31 - 16 or after the count has wrapped; `morecore` asks for what is wanted, and for 32768 bytes if that is less |
| Malloc.FreeGood | stride_scheduler_xv6/umalloc.c:33-43 | the writes of `free` leave the list ordered, partitioned and fully coalesced |
| Malloc.TakeGood | stride_scheduler_xv6/umalloc.c:75-84 | the writes of `malloc` make one block of the wanted size live, out of free units |
| Malloc.Walk | stride_scheduler_xv6/umalloc.c:74-87 | the walk finds the first fit, and after a whole round nothing fits |
| Malloc.Heap.FindPlace | stride_scheduler_xv6/umalloc.c:30-32 | the pointer walk ends, at the block's place in address order |
| Malloc.Heap.Free | stride_scheduler_xv6/umalloc.c:24-44 | the block stops being live, its units become free, other live blocks keep header and contents |
| Malloc.Heap.MoreCore | stride_scheduler_xv6/umalloc.c:46-61 | exactly the granted units are added, and then the request fits |
| Malloc.Heap.Search | stride_scheduler_xv6/umalloc.c:74-87 | first fit, found exactly when some block fits |
| Malloc.Heap.Malloc | stride_scheduler_xv6/umalloc.c:63-90 | a new live block just large enough, first fit, out of units that were free or are new; null exactly when nothing fits and sbrk fails |
| Malloc.Heap.Write | stride_scheduler_xv6/umalloc.c:84 | a program writing into its block leaves the allocator intact |
| ShellLex.TokensGood | stride_scheduler_xv6/sh.c:266-309 | repeated scanning yields symbols, and words without blanks or symbols in them |
| ShellLex.LongestToken | stride_scheduler_xv6/sh.c:266-309 | what is scanned at a place is spelled there, and no longer token is |
| ShellLex.ScanWhole | stride_scheduler_xv6/sh.c:266-309 | scanning loses and invents nothing: the tokens, glued together, are the line without its blanks |
| ShellLex.TokensShift | stride_scheduler_xv6/sh.c:266-309 | what is scanned does not depend on what lies before the cursor |
| ShellLex.SpellScan | stride_scheduler_xv6/sh.c:266-309 | scanning spelled-out tokens gives the same tokens |
| ShellGrammar.ItemsParse | stride_scheduler_xv6/sh.c:375-447 | words and redirections in any order parse to their words under their redirections, the last outermost |
| ShellGrammar.JobsParse | stride_scheduler_xv6/sh.c:345-447 | every line the grammar derives parses to its meaning, and the parser stops where it ends |
| ShellGrammar.JobsDerived | stride_scheduler_xv6/sh.c:345-447 | whatever parses has a derivation that spells what was read and means what was returned |
| ShellGrammar.ParserIsGrammar | stride_scheduler_xv6/sh.c:328-447 | for every token list and command: the parser returns the command if and only if the grammar derives it from the whole list |
| ShellGrammar.RedirectionsRead | stride_scheduler_xv6/sh.c:375-398 | a parsed command has exactly the redirections of its line, in order, with their files, each an input exactly when its token is `<` |
| ShellGrammar.AppendTruncates | stride_scheduler_xv6/sh.c:388-393 | for every token list, replacing every `>>` by `>` changes nothing |
| ShellPrint.JobsOfMeans | stride_scheduler_xv6/sh.c:328-447 | every producible command has a derivation |
| ShellPrint.PrintParse | stride_scheduler_xv6/sh.c:328-343 | the parser inverts the printer on every producible tree |
| ShellPrint.JobsGood | stride_scheduler_xv6/sh.c:266-447 | a derived line can be scanned if and only if what it means is producible: at most nine words per exec, all of them words |
| ShellPrint.TextRoundTrip | stride_scheduler_xv6/sh.c:266-447 | printed, spelled out and read again, every producible command is itself |
| ShellPrint.ParserRange | stride_scheduler_xv6/sh.c:328-447 | a tree is producible if and only if some line parses to it |
| Shell.Parser.GetToken | stride_scheduler_xv6/sh.c:266-309 | the next token, its span in the line, and the cursor after it; 0 exactly at the end |
| Shell.Parser.Peek | stride_scheduler_xv6/sh.c:311-321 | whether the next token begins with one of the characters; no token is consumed |
| Shell.Parser.ParseRedirs | stride_scheduler_xv6/sh.c:375-398 | agrees with the parser whose grammar ParserIsGrammar gives, result and cursor; `>>` as `>` (AppendTruncates) |
| Shell.Parser.ParseExec | stride_scheduler_xv6/sh.c:416-447 | agrees with the grammar |
| Shell.Parser.ParseBlock | stride_scheduler_xv6/sh.c:400-414 | agrees with the grammar |
| Shell.Parser.ParsePipe | stride_scheduler_xv6/sh.c:362-373 | agrees with the grammar |
| Shell.Parser.ParseLine | stride_scheduler_xv6/sh.c:345-360 | agrees with the grammar, and ends on every input |
| Shell.NulTerminate | stride_scheduler_xv6/sh.c:450-494 | a NUL after every word of the tree and no other byte changed |
| Shell.CutTexts | stride_scheduler_xv6/sh.c:450-494 | then every word reads as a C string exactly as it was parsed |
| Shell.ParseCmd | stride_scheduler_xv6/sh.c:328-343 | accepts exactly the lines of the grammar (ParserIsGrammar), and leaves the command each derives as C strings in the buffer |
| Grep.DescribesFirst | stride_scheduler_xv6/grep.c:85-106 | items describe a text exactly when the first takes a prefix and the others describe the rest |
| Grep.MatchHere | stride_scheduler_xv6/grep.c:85-96 | yes exactly when some split of a prefix satisfies the items |
| Grep.MatchStar | stride_scheduler_xv6/grep.c:99-106 | yes exactly when some number of repetitions leaves a rest that matches |
| Grep.Match | stride_scheduler_xv6/grep.c:72-82 | sound and complete for the meaning of the whole pattern |
| Grep.SimpleSearch | stride_scheduler_xv6/grep.c:72-82 | a pattern with no special character but `.` is a substring search |
| Grep.WholeLine | stride_scheduler_xv6/grep.c:72-96 | ^text$ matches the lines of that length that agree with it, `.` with any character |
| Grep.StarLine | stride_scheduler_xv6/grep.c:99-106 | ^c*$ matches the lines of nothing but c, or every line if c is `.` |

## Left out

- Device, boot and hardware code; a disk block read or write is one atomic step, and `swtch` is a change of running process.
- More than one CPU under the stride scheduler; the documented run has one, and the scan does not exclude running slots.
- The round-robin branch of `scheduler`, debug printing and `procdump`: no hard property.
- Directories, path lookup, `exec`, the console, device inodes, `mkfs` and the other user programs: easier members than these.
- Reference counts of in-core inodes, and the inode side of `sys_open`; FileRefs has the file it fills in.
- The superblock, and type, device numbers and links of a disk inode; FsDisk keeps those words as mkfs left them.
- FsCrash.CrashSafe: transactions run one after another, as the methods of FileSystem produce them; FsInterleave.CrashSafeInterleaved is for operations at once. In both, and in LogProtocol.RunInv, stores go to blocks before the log, so LogBlockHandedOut is outside them, and what a reboot reads is said of states with BelowLog.
- FsInterleave.CrashSafeInterleaved: an operation writes or truncates one inode at a time, and the run it speaks of is that of the operations which later crashes did not undo. A truncation takes its blocks in hand when it locks the inode; in the source they stay listed in memory until they are freed, which nobody else can see.
- FileSystem.FileSystem.Balloc: asks that the bitmap marks everything before the data blocks, as mkfs leaves it.
- FsLogging.WriteCost: for a disk with one bitmap block, as mkfs makes it; WriteI says which blocks are logged for any.
- fork and exit beyond the process table: memory and files of a process are in the other parts, not tied to it step by step.
- grep's line buffering; only the matcher is modelled.
- The links of kalloc's free list inside the pages; the list is a sequence of page numbers. Page 0 and pages of the kernel image are never given to the list.
- Malloc.Heap.Malloc: asks for at most 2^31 - 16 bytes, because beyond that the argument of sbrk is no longer what the header claims (RequestSizes says exactly when); sbrk is a parameter that grants unit-aligned memory above `base` or nothing.
- LogProtocol.RunInv: runs begin with a recovered log. The stride branch of `forkret` never calls `initlog` (`stride_scheduler_xv6/proc.c:442-453`), so this is a premise about the start. Reading a block, changing it, `log_write` and `brelse` are one step of an operation; buffers held between steps are counted, at most `holders` of them. Each operation logs at most `budget` new blocks; `log_write` itself has its checks commented out (`stride_scheduler_xv6/log.c:215-219`), and `exit` calls `iput` outside an operation (`stride_scheduler_xv6/proc.c:248-254`).
- Log.Log.TryBeginOp: one pass of the loop in `begin_op`; the sleep between passes is LogProtocol's business.
- Log.Log.LogWrite: asks for a home block; what a block of the log in the list leads to is LogOverlap's business.
- Log.Log.LogWriteBy: by an operation that may log the block, `budget` being any number from MAXOPBLOCKS on.
- BufferCache.Bcache.BGet: returns Wait where the source sleeps on a busy buffer and tries again.
- BufferCache.Bcache.BRelse: asks that the holder published what it changed, which is the premise of coherence.
- Stride.PassGap: as long as the counters of the two processes compared have not wrapped and neither slot is recycled; wrapped limits break the count (OverflowPoint).
- Stride.NoStarvation: for runs in which no counter wraps; so is Stride.ShareBound.
- Process.Int32: signed overflow, undefined in C, is taken to wrap.
- ProcTable.Ptable.Exit: closing files and the working directory before it is not modelled.
- ProcTree.NextInv: each section under ptable.lock is one step, and a fork's copying between taking the slot and publishing it is invisible to others.
- ProcTree.PidGone: pids are integers without bound; in the source they repeat after 2^32 forks.
- Pipe.Pipe.WriteUntilBlocked: runs up to where `pipewrite` sleeps; sleeping and going on is PipeProtocol's business. The same holds for Pipe.Pipe.ReadOnce.
- PipeProtocol.NextInv: `wakeup` takes and releases ptable.lock within one step, and the contents of the pipe are a count.
- Vm.Kernel.DeallocUvm: for sizes up to KERNBASE, which `freevm`, `allocuvm` and `growproc` keep to; above it the source would free pages of the kernel.
- Vm.Kernel.AllocUvm: when the list runs out below a page that was mapped already, the undoing unmaps that page too; the contract says only that nothing outside the stretch is mapped differently.
- Vm.Kernel.CopyUvm: for sizes up to KERNBASE; a failing `setupkvm` inside it leaves its pages behind.
- Vm.Kernel.MapPages: for ranges in the kernel half, as `setupkvm` calls it; user pages go one at a time, through MapPage.
- Shell.Parser.ParseExec: the argv array that `parseexec` fills through a second pointer is the exec command at the bottom of the tree (AddArg); failing malloc is left out.
