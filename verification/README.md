# xv6 with page encryption: verified models

Dafny models of the parts of an x86 xv6 kernel, extended with page encryption, that carry the
most state, and of two of its user programs. `dafny verify dfyconfig.toml` checks everything.
Nothing here runs the kernel; the claims are about the models, which follow the C code function by
function. Methods take the code's own form (loops, arrays, cursors, linked lists by index) and are
tied to functions on values; the theorems are about those functions and about whole runs.

| files | what they model | main results |
|---|---|---|
| `Log.dfy`, `LogOps.dfy`, `LogProtocol.dfy` | the redo log, one disk write at a time | crash atomicity with interrupted recoveries; safety of every run of operations, group commits, crashes and recoveries; finished operations are durable |
| `FsCodec.dfy`, `FsModel.dfy`, `FsOps.dfy`, `FsJournal.dfy`, `FsFile.dfy`, `FsWrite.dfy`, `FileWrite.dfy` | bitmap, inodes, direct and indirect blocks, reads and writes, chunked file writes | each block has one owner and its bit; files are flat byte sequences; every changed block is logged; transactions stay within their reservation |
| `FsTight.dfy`, `FsFullDisk.dfy` | the largest transaction, and a disk on which it happens | the reservation of ten blocks is met exactly |
| `FsImage.dfy`, `CrashFs.dfy`, `CrashFull.dfy` | the file system as the words of its disk blocks, written through the log | a crash anywhere in filewrite leaves a sound file system with a whole number of chunks written |
| `Umalloc.dfy` | the storage allocator | circular, ordered, coalesced free list; conservation of units; first fit; at most one request for more memory |
| `Clock.dfy`, `ClockRing.dfy` | the CLOCK working set | the ring refines a second-chance queue; residency over every run |
| `VmModel.dfy`, `VmOps.dfy`, `VmCrypt.dfy` | frames, page tables, growing, shrinking, copying, encrypting | frames are partitioned through every failure exit, and each exit is taken exactly when frames run out; encryption keeps plaintext; the sweep evicts exactly one page |
| `BioList.dfy`, `Bio.dfy` | the buffer cache | a read yields the last change logged or written, over every run |
| `SleepWakeup.dfy`, `ProcTable.dfy`, `Pipe.dfy` | sleep and wakeup, the process table, pipes | no lost wakeup; parents alive and each child reaped once; first in, first out under wrap-around |
| `ShellGrammar.dfy`, `ShellPhrases.dfy`, `ShellWords.dfy`, `ShellLex.dfy`, `ShellText.dfy`, `Shell.dfy` | the shell's parser | it accepts exactly the lines of a grammar and returns the tree each stands for; round trip from any text of a line; words terminated in place read back |
| `Grep.dfy` | the pattern matcher | it decides the pattern's language |

Where a promise does not hold as such, the exact condition is proved:

- The guard of `log_write` comes before its search for the block. On an operation that keeps within
  MAXOPBLOCKS, with a log area of more than LOGSIZE blocks, it fires if and only if LOGSIZE blocks
  are logged; the block is then one of them (`GuardExactly`), and runs get there
  (`LoggedBlockRefused`). With an area of LOGSIZE blocks or fewer, which is what `src/mkfs.c` lays
  out, it also refuses a new block of an operation that has reservation left (`NewBlockRefused`).
- `mdecrypt` of a page that is not encrypted complements its plaintext: it keeps all plaintext if and
  only if PTE_E was set (`DecPageKeeps`, `Decrypted`).
- `malloc` hands out too small a block if and only if rounding the request up wraps around
  (`RoomUnlessWrapped`).
- `filewrite` keeps within MAXOPBLOCKS for files without holes (`ChunkLogs`); the bound is met
  exactly (`TightChunk`, `FullRun`).
- `readi` fills holes, which needs an open transaction, and `fileread` opens none: with no operation
  outstanding a read panics if and only if its range has a hole (`Readi`).

A panic in the kernel or the shell ends the model's run: methods report it in their result, and the
invariants are not claimed after it. Where the comment on `filewrite` speaks of two blocks of slop,
the bound proved is the one the code's arithmetic gives. The parser opens the file of `>>` exactly as
that of `>`, and so does the model (`AppendIsOutput`).

## Model

| member | source | states |
|---|---|---|
| RedoLog.Header | src/log.c:102-113 | The first word is the count, the next ones are the listed block numbers, every other word stays; reading it back gives exactly the list |
| RedoLog.RecoveryCrash | src/log.c:70-122 | A recovery stopped after any number of its block writes leaves a disk that stands for the same contents and has the same recovery still to do; a complete one installs everything and empties the log |
| RedoLog.CommitCrashBefore | src/log.c:178-202 | Until the header is written, a stopped commit leaves a disk that recovers to the old contents |
| RedoLog.CommitCrashAfter | src/log.c:193-202 | From the header write on, a stopped commit leaves a disk that recovers to the new contents |
| RedoLog.CommitCrash | src/log.c:193-202 | Stopping a commit after any single block write gives all-old or all-new, decided by the header write alone |
| RedoLog.Interrupted | src/log.c:116-122 | Any number of recoveries, each stopped anywhere, leave what the disk stands for unchanged |
| RedoLog.Recovered | src/log.c:116-122 | After any number of stopped recoveries, a complete one leaves in the home blocks exactly what the disk stood for |
| RedoLog.CrashAtomicity | src/log.c:70-122 | Crash atomicity end to end: commit stopped anywhere, recoveries stopped anywhere any number of times, then one complete recovery: all home blocks old or all new |
| LogOps.Absorb | src/log.c:222-230 | Recording a block extends the list by it exactly when it is not there, and keeps the list free of duplicates |
| LogOps.Log.constructor | src/log.c:54-66 | initlog: after boot the home blocks and the cache hold whatever contents the disk stood for, the log is empty, and the writes done are those of a recovery |
| LogOps.Log.Bwrite | src/bio.c:110-116 | One block changes on disk and in the cache, and the write is recorded in order |
| LogOps.Log.ReadHead | src/log.c:86-96 | The count and the block numbers in memory become the first words of the header on disk |
| LogOps.Log.WriteHead | src/log.c:102-113 | The in-memory list becomes the list on disk in one block write |
| LogOps.Log.WriteLog | src/log.c:178-190 | Log block i holds what the cache had for the i-th listed block and no other block changes; the writes are exactly those that the crash lemmas analyse, in that order |
| LogOps.Log.InstallTrans | src/log.c:70-82 | The i-th listed block holds what log block i held and no other block changes; the writes are exactly those that the crash lemmas analyse, in that order |
| LogOps.Log.InstallAndErase | src/log.c:118-121 | Installing and erasing leaves the committed contents in the home blocks and in the cache, and an empty log |
| LogOps.Log.RecoverFromLog | src/log.c:116-122 | Recovery at boot leaves in the home blocks whatever contents the disk stood for, with an empty log |
| LogOps.Log.Commit | src/log.c:193-202 | A commit makes the cached contents durable by exactly the writes of CommitCrash and leaves an empty log |
| LogOps.Log.TryBeginOp | src/log.c:126-141 | An operation is admitted exactly when no commit runs and MAXOPBLOCKS blocks for it and for every outstanding one still fit |
| LogOps.Log.LogWrite | src/log.c:214-233 | Panics exactly on a full log or outside an operation, else absorbs the block, without duplicates |
| LogOps.Log.EndOp | src/log.c:146-174 | The last operation out commits, any other changes nothing on disk; ending during a commit panics |
| LogProtocol.UnspentBounds | src/log.c:126-141 | What outstanding operations may still add lies between zero and MAXOPBLOCKS each |
| LogProtocol.AlwaysRecovers | src/log.c:116-122 | In every reachable state a recovery started now would produce exactly the committed contents |
| LogProtocol.StepKeeps | src/log.c:116-233 | Begin, log, end, each disk write of commit and recovery, and a crash all keep the invariant of the log |
| LogProtocol.RunSafety | src/log.c:126-174 | In every run: the disk recovers to the committed contents, lh.n plus unspent reservations stays within LOGSIZE, logged blocks are distinct, committing means nothing is outstanding |
| LogProtocol.StandsForOne | src/log.c:116-122 | A disk stands for one contents only, outside the log |
| LogProtocol.DiskChangesAtHeader | src/log.c:193-202 | What the disk recovers to changes only at the header write of a commit, when nothing is outstanding, and then to the cached contents of all home blocks; what those are is FinishedAreDurable |
| LogProtocol.FinishedAreDurable | src/log.c:126-233 | Durability over the list of steps: after any run without a crash in which every operation has ended and its commit has finished, every home block holds, on disk and through the cache, the data of the last log_write of it in the run, or what the disk held at first |
| LogProtocol.UnfinishedLeaveNoTrace | src/log.c:116-202 | After such a run, whatever operations begin and log and however they are stopped before the next commit, a recovery shows exactly what the finished operations logged |
| LogProtocol.SettledRun | src/log.c:116-122 | Any run of crashes and recovery writes keeps the committed contents |
| LogProtocol.CrashKeepsCommitted | src/log.c:116-122 | After a crash in any state and any interrupted recoveries, a finished recovery shows the last committed contents on disk and through the cache |
| LogProtocol.GuardExactly | src/log.c:218-219 | On an operation within its promise, with a log area larger than LOGSIZE blocks, the guard fires if and only if LOGSIZE blocks are logged; then no reservation is left and the block is one that is logged already |
| LogProtocol.NewBlockRefused | src/log.c:218-219 | With a log area of at most LOGSIZE blocks, a run exists in which the guard fires on a new block of an operation that has reservation left |
| LogProtocol.LoggedBlockRefused | src/log.c:218-227 | With a larger area, a run exists in which the guard fires on a block that its operation has logged before |
| FsCodec.WordOfPut | src/fs.c:390-393 | Storing an address in an indirect block changes that entry and no other |
| FsCodec.PutWordBytes | src/fs.c:390-393 | Byte by byte: an address is stored least significant byte first and no other byte changes |
| FsCodec.BitOfSet | src/fs.c:66-69 | Setting a bitmap bit sets that bit and no other |
| FsCodec.BitOfClear | src/fs.c:89-92 | Clearing a bitmap bit clears that bit and no other |
| FsCodec.BitIs | src/fs.c:64-69 | Bit b of a bitmap block is in byte b / 8, at the place worth 2 to the power b % 8 |
| FsModel.SingleOwnership | src/fs.c:57-95 | No block is held by two slots of any inodes; a bitmap bit is set exactly for metadata blocks and for blocks some slot holds |
| FsModel.AllocKeeps | src/fs.c:57-78 | Taking a free block keeps ownership and the contents of every file |
| FsModel.FreeKeeps | src/fs.c:82-95 | Returning an unowned block keeps ownership and the contents of every file |
| FsModel.PointAtKeeps | src/fs.c:378-388 | Hanging a new block into a direct slot, or as indirect block, keeps ownership and every other slot |
| FsModel.EntryAtKeeps | src/fs.c:391-394 | Hanging a new block into the indirect block keeps ownership and every other slot |
| FsModel.WriteBlockKeeps | src/fs.c:499-502 | Changing the bytes of a block a file holds changes that block of that file only |
| FsModel.ResizeKeeps | src/fs.c:506-509 | Changing a file's size keeps ownership and every other file |
| FsModel.DetachKeeps | src/fs.c:414-419 | Clearing a slot gives up exactly the block it held |
| FsOps.FileSystem.Balloc | src/fs.c:57-78 | First fit: the lowest free block, marked and zeroed; fails exactly when every block is in use; no block changes without being logged |
| FsOps.FileSystem.FreeBit | src/fs.c:64-74 | The inner loop: the lowest free block that a bitmap block covers, or that it covers none |
| FsOps.FileSystem.Bfree | src/fs.c:82-95 | Frees exactly the block asked for and logs its bitmap block; panics exactly on a block that is free already; no block changes without being logged |
| FsOps.FileSystem.LoadIndirect | src/fs.c:386-389 | The indirect block of a file, allocated and zeroed if it is missing |
| FsOps.FileSystem.MapEntry | src/fs.c:389-396 | An entry of the indirect block, allocated and zeroed if it is missing |
| FsOps.FileSystem.Bmap | src/fs.c:373-400 | The block of a file at an index, allocated on demand, with the exact set of blocks logged; fails only out of range or with every block in use, having added at most the indirect block |
| FsOps.FileSystem.Iupdate | src/fs.c:221-236 | The stored inode becomes the one in memory, and its block is logged |
| FsImage.ReadsInode | src/fs.c:298-306 | The words of an inode block, read where ilock reads them, give back the inode stored there |
| FsOps.FileSystem.Itrunc | src/fs.c:408-435 | Every block the file owned is freed exactly once, bfree never panics, none leaks, and all other files are unchanged; logged are exactly the bitmap blocks of the freed blocks and the inode's block, and no block changes without being logged |
| FsOps.FileSystem.FreeDirect | src/fs.c:414-419 | The direct blocks are freed, each exactly once; logged are exactly their bitmap blocks |
| FsOps.FileSystem.FreeIndirect | src/fs.c:421-431 | The blocks behind the indirect block and the indirect block itself are freed, each exactly once; logged are exactly their bitmap blocks |
| FsFile.Readi | src/fs.c:453-476 | Returns exactly the slice of the file's flat contents, cut at its end; refuses a bad offset and wrap-around; changes no file's contents; with no operation outstanding it changes nothing and panics if and only if the range has a hole, with one it panics only when every block is in use |
| FsFile.ReadBlocks | src/fs.c:468-474 | The block loop of readi collects exactly the bytes of the range, or stops as readi says |
| FsFile.ReadPiece | src/fs.c:469-473 | One turn of it yields the next bytes of the file |
| FsWrite.Writei | src/fs.c:482-511 | Refused exactly for a start past the end, wrap-around or an end past the largest file; otherwise splices the bytes, sets the size to the maximum, changes no other inode in memory or stored, logs every block it changes and, for a file without holes, at most WriteCost blocks; panics only when every block is in use and one of the range is missing |
| FsWrite.WriteBlocks | src/fs.c:498-504 | The block loop of writei puts the bytes in place, one allocation per missing block |
| FsWrite.WritePiece | src/fs.c:499-503 | One turn of it maps, patches and logs one block |
| FsFile.Locate | src/fs.c:499-500 | Splits an offset into block and position and cuts the piece at the block's end |
| FsWrite.WriteDone | src/fs.c:482-511 | Bytes in place and the size set make a splice of the flat contents, with all other files as before |
| FsWrite.FinishWrite | src/fs.c:506-510 | Storing the grown inode completes the write and its bound on logged blocks |
| FsWrite.Grow | src/fs.c:506-509 | A file that grew gets its new size, in memory and stored; any other stays |
| FsJournal.JournalStep | src/fs.c:498-504 | One more block: whatever changed is logged, with the data block, each new block and its bitmap block, and nothing before the inode blocks |
| FsWrite.ReadBack | src/fs.c:453-511 | Reading the range that was written gives the bytes written; the size is the larger of the old size and the end of the write |
| FsWrite.CheapStep | src/fs.c:498-504 | One more block of a write adds at most its data block, its bitmap block and, once, the indirect block and its bitmap block |
| FsWrite.ChunkFits | src/file.c:133-145 | The bound on a chunk of filewrite is at most MAXOPBLOCKS at any offset up to the size, and equals it for an unaligned append of three blocks |
| FileWrite.ChunkLogs | src/file.c:133-145 | A chunk of filewrite logs at most MAXOPBLOCKS blocks, for a file without holes |
| FsTight.TightChunk | src/file.c:133-145 | A chunk that writei appends across the last direct block, on a disk whose free blocks have bitmap blocks of their own, logs exactly ten blocks |
| FsTight.NotStuck | src/fs.c:498-504 | With four blocks free, that chunk does not run out of blocks |
| FsFullDisk.FullInv | src/fs.c:57-95 | A disk of 12289 blocks with four free ones satisfies the ownership invariant |
| FsFullDisk.FullFits | src/fs.c:57-95 | On it a file ends inside its last direct block, and the free blocks have four bitmap blocks |
| FsFullDisk.FullRun | src/file.c:133-145 | On that disk writei of the chunk succeeds and logs exactly ten blocks, so the bound is met |
| FileWrite.SpliceSplice | src/file.c:136-153 | A splice followed by one where it ended is one splice |
| FileWrite.WriteWrite | src/file.c:136-153 | Two writes in a row have the effect of one |
| FileWrite.BetweenReturns | src/file.c:141-152 | What a value returned by writei means for the write as a whole: the chunk is in, or nothing changed and the file would grow too large |
| FileWrite.HistoryStep | src/file.c:136-153 | One more transaction extends the run of chunks by the next one |
| FileWrite.Transaction | src/file.c:141-146 | One chunk in one transaction, within its reservation for a file without holes |
| FileWrite.WriteChunks | src/file.c:134-154 | The chunks together splice the whole buffer; it stops early only at the largest file size |
| FileWrite.Filewrite | src/file.c:118-156 | The whole buffer is spliced at the offset and the offset advanced, or -1; every transaction of a file without holes stays within MAXOPBLOCKS; its states form a run of chunks, also when a transaction panics |
| FsImage.MountImage | src/fs.c:298-306 | Booting from a disk that holds a file system reads back its inodes and every block past them |
| FsImage.SameFsKeeps | src/fs.c:57-95 | Soundness, addresses and data depend only on the inodes and on the blocks past them |
| CrashFs.Unlogged | src/fs.c:482-511 | A block that a write did not log holds on disk what it held, inode blocks included |
| CrashFs.ChunkLoggable | src/file.c:141-146 | The blocks a chunk logs are a transaction that the log can commit |
| CrashFs.RunEffect | src/file.c:134-154 | After k transactions the file holds the first k chunks |
| CrashFs.FilewriteCrash | src/file.c:134-154 | Crash safety of filewrite: stopped after any disk write of any of its transactions, with any stopped recoveries after that, a finished recovery boots into a sound file system in which a whole number of chunks has been spliced and nothing else has changed |
| CrashFs.FilewriteStop | src/file.c:141-146 | Stopped outside the commits, as by a panic in a transaction, the machine boots into what the last finished transaction left |
| CrashFull.FullCrash | src/file.c:133-145 | On the full disk, with the log that mkfs lays out, the ten-block chunk runs, and every crash in its commit recovers to none or all of it |
| Umalloc.FreedCoalesced | src/umalloc.c:25-44 | After free no two free blocks touch |
| Umalloc.FreedLinked | src/umalloc.c:25-44 | After free the list is circular through all free blocks in address order |
| Umalloc.FreedFields | src/umalloc.c:33-43 | The field updates of free are exactly insertion followed by the two merges |
| Umalloc.FreedInto | src/umalloc.c:33-43 | The freed units and the free blocks they touch become one block; every other free block is as before |
| Umalloc.FoundFirst | src/umalloc.c:74-76 | The scan stops at the first block after freep, around the list in address order, that is large enough |
| Umalloc.UnitsAddUp | src/umalloc.c:25-90 | Conservation: units of free and of live blocks add up to the units obtained, and no block is both |
| Umalloc.RoomUnlessWrapped | src/umalloc.c:69 | The block handed out has room for the bytes asked for if and only if rounding up does not wrap |
| Umalloc.SbrkArgument | src/umalloc.c:52-54 | The count passed to sbrk fits a signed int if and only if the rounded request is below 2^31 bytes |
| Umalloc.Allocator.constructor | src/umalloc.c:21-22 | Nothing obtained and nothing handed out before the first call |
| Umalloc.Allocator.FindPlace | src/umalloc.c:30-32 | The search from freep ends at the free block below the one being freed, wherever it starts |
| Umalloc.Allocator.Free | src/umalloc.c:25-44 | A live block leaves the live blocks, no unit changes hands, the list is again circular, ordered and coalesced; the block and the free blocks it touched are one, the others are as before, and freep is the free block below it |
| Umalloc.Allocator.Attach | src/umalloc.c:33-42 | The two ifs of free set exactly the fields of the block above and the block below |
| Umalloc.Allocator.Morecore | src/umalloc.c:47-61 | At least 4096 units from sbrk become free as free() would make them, and freep is the block below them; or nothing changes |
| Umalloc.Allocator.Malloc | src/umalloc.c:64-90 | Ends after at most one morecore, which is called exactly when no free block is large enough; hands out a new live block of the right number of units: the tail of the first fit after freep, or of the block the new memory went to; freep is the free block below that one; fails only when sbrk does |
| Umalloc.Allocator.Search | src/umalloc.c:74-89 | The loop of malloc, from any state of the list |
| Umalloc.Allocator.Carve | src/umalloc.c:77-85 | An exact fit is unlinked, else the tail of the block is cut off; the rest of the list stays as it was and freep is the block before |
| Clock.RefResident | clock.c:162-173 | A reference brings its page in, decrypted and marked, and keeps residency: one of PTE_P and PTE_E, decrypted exactly when queued, no page twice, at most CLOCKSIZE decrypted, encrypted pages unmarked |
| Clock.SecondChance | clock.c:60-86 | A page is evicted exactly when the queue is full, all pages ahead of it are referenced, and it is unreferenced, or it is the oldest and all are referenced |
| Clock.Reorders | clock.c:60-86 | The pages ahead of the evicted one move behind the others, in order, and the new page comes last |
| Clock.RefEntries | clock.c:60-173 | What a reference does to every entry: its own is marked and decrypted, the evicted one encrypted, those passed over lose their ref bit exactly when the ring is full and all pages up to them are referenced, all others stay |
| Clock.RunResident | clock.c:60-182 | Residency holds after every run of page references and removals |
| Clock.WithoutAt | clock.c:96-128 | Removing a page keeps the order of the others |
| Clock.Flags | clock.c:33-50 | What encryption, decryption and the ref bit do to the three flags |
| Clock.OtherBits | clock.c:33-50 | Encryption and decryption change no bit but PTE_P and PTE_E, the ref bit functions none but PTE_A |
| Clock.DecryptEncrypt | clock.c:33-50 | On a page with one of PTE_P and PTE_E, encryption and decryption undo each other |
| ClockRing.AtHead | clock.c:64-67 | The slot after the hand holds the oldest page of a full queue, else it is empty |
| ClockRing.Rotates | clock.c:83-85 | Moving the hand over a page of a full ring makes the oldest page the youngest |
| ClockRing.Fills | clock.c:67-81 | Filling the slot after the hand appends a page, in place of the oldest if the ring is full |
| ClockRing.Closed | clock.c:113-127 | Shifting the slots up to the hand and moving the hand back removes one page, across the wrap too |
| ClockRing.Ring.constructor | clock.c:24-25 | An empty ring with the hand at -1 |
| ClockRing.Ring.Clear | clock.c:132-137 | The ring is empty, page flags are unchanged |
| ClockRing.Ring.Insert | clock.c:60-90 | The ring does what the second-chance queue does, in one move of the hand more than there are referenced pages ahead, at most CLOCKSIZE + 1 |
| ClockRing.Ring.Advance | clock.c:62-86 | One move of the hand places the page or gives one page its second chance |
| ClockRing.Ring.Remove | clock.c:96-128 | Deletes the page from the queue, keeping the order of the rest and the circular run |
| ClockRing.Ring.CloseGap | clock.c:115-121 | The pages behind the gap each move one slot back |
| ClockRing.Ring.Find | clock.c:102-108 | Finds the slot of a page exactly when it is queued |
| ClockRing.Ring.RefPage | clock.c:162-173 | A reference does what the specification says and keeps residency |
| ClockRing.Ring.RemovePage | clock.c:178-182 | Deallocating a page keeps residency of the others |
| VmModel.OneHolder | src/kalloc.c:60-96 | A frame has one holder: a place in the free list, a directory, a page table, a user page of one address space, or the hands of kernel code |
| VmModel.TakeKeeps | src/kalloc.c:83-96 | Allocation moves one frame from the free list and keeps the partition |
| VmModel.GiveKeeps | src/kalloc.c:60-77 | Freeing moves one frame to the free list and keeps the partition |
| VmModel.AddTableKeeps | src/vm.c:50-57 | A new page table keeps the partition |
| VmModel.AddEntryKeeps | src/vm.c:76-86 | A new entry takes over its frame and keeps the partition |
| VmModel.DropPageKeeps | src/vm.c:284-292 | A cleared entry gives up its frame and keeps the partition |
| VmModel.DropSpaceKeeps | src/vm.c:307-315 | An address space without user pages gives up its tables and its directory and keeps the partition |
| VmModel.ScanSkips | src/vm.c:281-283 | Skipping pages that are not mapped does not change what a scan frees |
| VmModel.ScanFrees | src/vm.c:279-294 | A scan page by page unmaps exactly the mapped pages of the range and appends exactly their frames, in page order, to the free list |
| VmOps.Vm.constructor | src/kalloc.c:47-53 | At the start every managed frame is on the free list once |
| VmOps.Vm.Kalloc | src/kalloc.c:83-96 | Takes the head of the free list; fails exactly when the list is empty |
| VmOps.Vm.Kfree | src/kalloc.c:60-77 | Puts the frame at the head of the list, filled with ones; no other frame changes |
| VmOps.Vm.Walkpgdir | src/vm.c:41-60 | Finds or creates the page table of a page; fails exactly without one when not asked to allocate or out of frames, and then changes nothing; takes one frame exactly for a missing table |
| VmOps.Vm.MapOne | src/vm.c:74-86 | One turn of the loop of mappages |
| VmOps.Vm.Mappages | src/vm.c:66-95 | Maps exactly the range to consecutive frames, stops with a panic at a page that is mapped already and with an error when a page table cannot be had; the frames taken are exactly those of the missing page tables; all other entries and frames keep their state |
| VmOps.Vm.FreeOne | src/vm.c:284-292 | Frees one mapped page |
| VmOps.Vm.Deallocuvm | src/vm.c:271-295 | Frees exactly what a scan page by page would, although it skips whole directory entries; every other frame keeps holder and contents |
| VmOps.Vm.GrowPage | src/vm.c:248-262 | One turn of the loop of allocuvm: a zeroed page more, a panic at a page mapped already, or the frame left over without memory for its page table, each with the number of free frames that leads to it |
| VmOps.Vm.GrowInto | src/vm.c:256-261 | The second half of that turn: the zeroed frame is mapped, or stays in hand |
| VmOps.Vm.GiveUp | src/vm.c:250-261 | Either failure exit of allocuvm unmaps the whole range again and returns all its frames, the one in hand too |
| VmOps.Vm.Allocuvm | src/vm.c:237-264 | Grows by zeroed pages in frames that were free if and only if the free frames suffice for the pages and the missing page tables; else unmaps the whole range again and returns all its frames; panics if and only if a page of the range was mapped before and the free frames suffice to get to the first such page |
| VmOps.SpentIsNeeded | src/vm.c:41-60 | The frames taken are the pages and one page table for each directory entry of the range that had none |
| VmOps.Vm.Freevm | src/vm.c:300-316 | Returns every frame of the address space to the free list and touches no other frame |
| VmOps.Vm.MapRegion | src/vm.c:144-149 | One turn of the loop of setupkvm: the next region is mapped, or there were not frames for the kernel's page tables |
| VmOps.Vm.Setupkvm | src/vm.c:134-151 | A new address space with exactly the kernel's mappings and 64 page tables if and only if 65 frames are free, which are then taken; never a remap panic; else the same frames free as before |
| VmOps.KernelLaidOut | src/vm.c:120-130 | Page by page: which frame each kernel page is mapped to and with which flags, and that no other page is mapped |
| VmOps.Vm.CopyPage | src/vm.c:343-357 | One turn of the loop of copyuvm: a page more in a frame of its own, a panic exactly at a page that is missing, or the frame taken given back without memory for it or its page table |
| VmOps.Vm.CopyInto | src/vm.c:353-356 | The second half of that turn: the filled frame is mapped into the child, or freed |
| VmOps.Vm.Copyuvm | src/vm.c:334-363 | A child whose pages have the flags and bytes of the parent's in frames of their own if and only if the free frames suffice for a directory, the kernel's page tables, the pages and their page tables; else the same frames free as before; panics if and only if a page of the parent is missing and the frames suffice to get there |
| VmOps.TablesKept | src/vm.c:41-95 | Whatever mapping does, the page tables a directory had are still its tables |
| VmOps.RestoredFree | src/vm.c:360-362 | After a failed copy exactly the frames that were free are free |
| VmCrypt.FromPartition | src/vm.c:429-563 | The frame partition gives every user page a frame of its own, which encryption relies on |
| VmCrypt.EncPageKeeps | src/vm.c:549-558 | Encrypting a page keeps the plaintext of every page of the address space |
| VmCrypt.EncKeeps | src/vm.c:545-559 | Encrypting a range keeps every plaintext, sets PTE_E and clears PTE_P in exactly the range |
| VmCrypt.EncTwice | src/vm.c:549-552 | Encrypting a range again changes nothing |
| VmCrypt.DecPageKeeps | src/vm.c:509-518 | Decryption keeps the plaintext of every other page, and that of its page if and only if the page was encrypted |
| VmCrypt.DecEnc | src/vm.c:495-563 | Decryption undoes encryption |
| VmCrypt.EvictedKeeps | src/vm.c:442-465 | Clearing ref bits and evicting a page keep every plaintext |
| VmCrypt.EvictedSweeps | src/vm.c:442-465 | The state of every page after the sweep: ref bits cleared exactly on the pages passed, the victim encrypted, all else as before |
| VmCrypt.StaysResident | src/vm.c:429-522 | If every page that can be reached and is not encrypted is in the ring, that is so after a decryption and the replacement it causes |
| VmCrypt.Decrypted | src/vm.c:495-522 | Decryption together with the eviction it causes keeps all plaintext if and only if its page was encrypted |
| VmCrypt.Process.FlipBytes | src/vm.c:514-518 | The byte loop complements every byte of the page and no other page |
| VmCrypt.Process.Uva2ka | src/vm.c:372-383 | The frame of a page exactly when it is mapped, encrypted or not, and open to users; a page without a page table, which the code would dereference, is told apart |
| VmCrypt.Process.Mencrypt | src/vm.c:524-563 | Encrypts the whole range if every page of it can be reached, keeping every plaintext and setting PTE_E and clearing PTE_P in exactly the range; else changes nothing, and the first page that cannot be reached decides between the error and the use of a missing page table |
| VmCrypt.Process.Sweep | src/vm.c:441-465 | The hand passes over the referenced pages, clearing their ref bits, and stops at the first slot that is empty or holds an unreferenced page |
| VmCrypt.Process.Enset | src/vm.c:429-468 | Puts a page that has a page table into the first slot after the hand that is empty or unreferenced, clearing the ref bits of exactly the pages passed and encrypting exactly the page that was there; the hand stays at that slot; a page in the ring changes nothing |
| VmCrypt.Process.InRing | src/vm.c:437-439 | Finds a page exactly when a slot in use holds it |
| VmCrypt.Process.Mdecrypt | src/vm.c:495-522 | Refuses exactly kernel addresses and unmapped pages, changing nothing; else the page is decrypted and put into the ring, every other entry changes as Enset says, decrypted pages are in the ring if they were before, and all plaintext is kept if and only if the page was encrypted |
| BioList.Unlinks | src/bio.c:132-133 | Linking the neighbours of a buffer takes exactly it out of the list |
| BioList.Pushes | src/bio.c:134-137 | Linking a buffer in behind the head puts exactly it in front |
| Bio.RecycledKeeps | src/bio.c:81-91 | Giving a clean unused buffer to an uncached block loses no data and keeps one buffer per block |
| Bio.ReadIsLatest | src/memide.c:39-60 | What is read into an invalid buffer is the latest contents of its block |
| Bio.LoggedKeeps | src/log.c:231 | Pinning a changed buffer keeps the agreement with the block store |
| Bio.WrittenKeeps | src/bio.c:110-116 | Writing a buffer keeps the agreement with the block store; which bytes go where is stated by Bwrite and Iderw |
| Bio.LatestIs | src/bio.c:97-116 | What a block holds: the bytes of the last change to it that was logged or written, else its contents at boot |
| Bio.BufferCache.constructor | src/bio.c:39-56 | All NBUF buffers are linked and nothing is cached |
| Bio.BufferCache.PushFront | src/bio.c:48-55 | A buffer becomes the first of the list |
| Bio.BufferCache.Unlink | src/bio.c:132-133 | A buffer leaves the list, the order of the rest stays |
| Bio.BufferCache.Bget | src/bio.c:62-93 | The buffer that has the block, else the least recently used one that is free and clean, never a dirty one; fails exactly if there is none |
| Bio.BufferCache.Lookup | src/bio.c:69-76 | Finds a buffer exactly when the block is cached |
| Bio.BufferCache.FindFree | src/bio.c:81-91 | Finds the least recently used buffer that is free and clean, exactly when there is one |
| Bio.BufferCache.AcquireSleep | src/bio.c:73 | A waiting process gets a buffer nobody is changing |
| Bio.BufferCache.Fetch | src/bio.c:97-106 | bread yields the bytes of the last logged or written change to the block, over any run since boot |
| Bio.BufferCache.Iderw | src/memide.c:39-60 | Writes the bytes of a dirty buffer to its block, which become its latest contents, or reads the latest contents into an invalid one; panics exactly unless the caller holds the lock, with nothing to do, for another device, or for a block out of range |
| Bio.BufferCache.Edit | src/log.c:206-212 | A holder's change is private until it is logged or written |
| Bio.BufferCache.Pin | src/log.c:231 | log_write marks the buffer dirty and makes its bytes the latest contents of its block; the disk and all other buffers stay |
| Bio.BufferCache.Bwrite | src/bio.c:110-116 | The bytes of the buffer become the contents of its block on disk and the latest contents, the buffer is clean, nothing else changes; panics exactly unless the caller holds the lock |
| Bio.BufferCache.ReleaseSleep | src/bio.c:121-126 | Giving up the lock keeps the agreement with the block store; panics exactly unless the caller holds the lock |
| Bio.BufferCache.Drop | src/bio.c:128-140 | One reference less; the last one moves the buffer to the front of the list and the order of the rest stays |
| Bio.BufferCache.MoveToFront | src/bio.c:131-138 | Exactly one buffer moves, to the front; the order of the rest stays |
| SleepWakeup.NoLostWakeupKept | src/proc.c:431-487 | Every step of any process keeps: who sleeps with the condition true still has a waker coming |
| SleepWakeup.RunInv | src/proc.c:431-487 | In every interleaving of any number of processes no wakeup is lost, and the condition stays false between its test and the release of lk |
| SleepWakeup.QuietMeansAwake | src/proc.c:471-487 | Once all wakers have finished nobody sleeps with the condition true |
| SleepWakeup.NeverStuck | src/proc.c:431-487 | While somebody sleeps with the condition true, a step of the wakeup, or of whoever holds ptable.lock, can be taken |
| SleepWakeup.OneHolderKept | src/sleeplock.c:23-42 | The test of the lock and the later store together keep one holder, because nothing changes the lock while lk is held |
| SleepWakeup.MutualExclusion | src/sleeplock.c:23-42 | A sleep lock that only holders release has at most one holder in every state of every run |
| SleepWakeup.TwoWithoutLock | src/sleeplock.c:25-29 | Two processes that both found the lock free, which lk rules out, would both become holders |
| ProcTable.AllocKeeps | src/proc.c:74-92 | Taking an entry keeps the invariant of the table and gives a pid nobody has or had |
| ProcTable.ExitKeeps | src/proc.c:241-281 | After exit the children belong to init, the parent and, if need be, init are awake, and the invariant holds |
| ProcTable.ReapKeeps | src/proc.c:300-312 | A reaped pid was not reaped before, and the invariant holds |
| ProcTable.RousedKeeps | src/proc.c:471-478 | Waking sleepers keeps the invariant |
| ProcTable.KillKeeps | src/proc.c:493-512 | Kill keeps the invariant |
| ProcTable.StepKeeps | src/proc.c:74-325 | Every section of allocproc, fork, exit, wait, sleep, wakeup, kill and the scheduler keeps the invariant |
| ProcTable.RunKeeps | src/proc.c:74-325 | In every run: parents of processes past EMBRYO are alive, nobody sleeps in wait with a ZOMBIE child, pids are unique |
| ProcTable.ReapedOnce | src/proc.c:286-325 | No pid is reaped twice in a run |
| ProcTable.SleepsUntil | src/proc.c:241-512 | In one step a sleeping process keeps its channel, and becomes runnable exactly if the step is a wakeup of its channel, a kill of it, or an exit that wakes its channel: that of the parent, or of init if a ZOMBIE is passed on |
| ProcTable.SleeperRun | src/proc.c:241-512 | A process asleep on a channel at the start of a run is asleep on it in every state of the run if and only if no step wakes it |
| ProcTable.Processes.constructor | src/proc.c:120-153 | The table with only the first process, runnable, satisfies the invariant |
| ProcTable.Processes.Wakeup1 | src/proc.c:471-478 | Exactly the processes sleeping on the channel become runnable, nobody sleeps on it afterwards, and nothing else changes |
| ProcTable.Processes.Wakeup | src/proc.c:482-487 | The same under the lock, keeping the invariant |
| ProcTable.Processes.Allocproc | src/proc.c:74-92 | Takes the first unused entry with a pid above all in use, or fails exactly when there is none |
| ProcTable.Processes.Abandon | src/proc.c:95-98 | A failed creation leaves the entry unused |
| ProcTable.Processes.Launch | src/proc.c:203-221 | A finished creation makes the entry a runnable child of its creator |
| ProcTable.Processes.Exit | src/proc.c:241-281 | Entry by entry: the caller is a ZOMBIE without children, its children belong to init, the parent and, if a child is a ZOMBIE, init are woken, and nothing else changes; only init panics |
| ProcTable.Processes.PassChildren | src/proc.c:268-275 | Entry by entry: children go to init, which is woken exactly if one of them is a ZOMBIE |
| ProcTable.Processes.Wait | src/proc.c:286-325 | Reaps the first ZOMBIE child exactly when there is one, gives up exactly when there are no children or the caller was killed, else sleeps |
| ProcTable.Processes.Kill | src/proc.c:493-512 | Marks the first process with the pid, which is runnable afterwards if it slept, and changes nothing else; fails exactly when there is none |
| ProcTable.Processes.Sleep | src/proc.c:452-455 | Going to sleep on another channel keeps the invariant |
| ProcTable.Processes.Schedule | src/proc.c:336-369 | Running a process keeps the invariant |
| ProcTable.Processes.Yield | src/proc.c:399-405 | Giving up the processor keeps the invariant |
| Pipe.CountersWrap | src/pipe.c:85-114 | 32-bit counters compare as unbounded ones do, as long as they are at most PIPESIZE apart |
| Pipe.SlotWraps | src/pipe.c:93-116 | A wrapped counter finds the same slot, because PIPESIZE divides 2^32 |
| Pipe.Fifo | src/pipe.c:79-121 | Bytes read, followed by bytes in the ring, are the bytes written; at most PIPESIZE are in the ring |
| Pipe.PutKeeps | src/pipe.c:93 | Storing a byte overwrites none that is unread |
| Pipe.GetKeeps | src/pipe.c:116 | The byte read is the oldest unread one |
| Pipe.RunFifo | src/pipe.c:79-121 | The same after every interleaving of any number of reads and writes of single bytes |
| Pipe.PipeBuffer.constructor | src/pipe.c:23-40 | A new pipe is empty and open at both ends |
| Pipe.PipeBuffer.Write | src/pipe.c:79-98 | Appends its bytes in order; sleeps or fails exactly with the ring full |
| Pipe.PipeBuffer.Read | src/pipe.c:101-121 | Returns the oldest bytes, as many as asked for or as there are; sleeps or fails exactly with the ring empty and writers left |
| Pipe.PipeBuffer.Close | src/pipe.c:60-75 | Closing an end changes no byte, and frees the pipe exactly when the other end is closed too |
| ShellGrammar.ParseRedirs | src/sh.c:375-397 | Afterwards no redirection is next |
| ShellPhrases.LineRead | src/sh.c:345-446 | Parsing any way of writing a line, with redirections anywhere among the words, nested blocks and any number of ampersands, gives the tree that line stands for and leaves what follows |
| ShellPhrases.UnitRead | src/sh.c:400-446 | The same for simple commands and blocks with their redirections |
| ShellPhrases.ItemsRead | src/sh.c:416-446 | The same for the words and redirections of a command in any order |
| ShellPhrases.PipeRead | src/sh.c:362-372 | The same for pipelines |
| ShellPhrases.LineWas | src/sh.c:345-446 | Whatever the parser accepts was written as some line that stands for the tree it returns |
| ShellPhrases.ParseExactly | src/sh.c:328-446 | The parser accepts a token list if and only if it is a way of writing a line, and then returns exactly the tree that line stands for |
| ShellPhrases.PrintedLine | src/sh.c:328-446 | Every well-formed tree has a way of being written |
| ShellPhrases.LineWell | src/sh.c:328-446 | Every line that can be written stands for a well-formed tree |
| ShellWords.ParseMap | src/sh.c:328-446 | The parser never looks inside a word |
| ShellWords.AppendIsOutput | src/sh.c:388-394 | A line with every '>>' replaced by '>' is parsed to the same tree |
| ShellWords.LineDrawn | src/sh.c:328-446 | Every word of a parsed tree is a word of the line |
| ShellLex.WordsApart | src/sh.c:266-308 | Words lie in the line, are not empty, and different words are at least one character apart |
| ShellLex.LexRender | src/sh.c:266-308 | Tokens written out with any white space between them, none where none is needed, are read back as the same tokens |
| Shell.Parser.constructor | src/sh.c:328-333 | The cursor at the start of a NUL-terminated line |
| Shell.Parser.Peek | src/sh.c:311-320 | Tells whether the next token starts with one of the characters, skipping only white space |
| Shell.Parser.GetToken | src/sh.c:266-308 | Returns the next token and leaves exactly the tokens after it |
| Shell.Parser.ScanToken | src/sh.c:277-300 | The token at a position and where it ends |
| Shell.Parser.ParseRedirs | src/sh.c:375-397 | Ends, and agrees with the grammar |
| Shell.Parser.ParseExec | src/sh.c:416-446 | Ends, and agrees with the grammar, including the limit on arguments |
| Shell.Parser.ParseBlock | src/sh.c:400-413 | Ends, and agrees with the grammar |
| Shell.Parser.ParsePipe | src/sh.c:362-372 | Ends, and agrees with the grammar |
| Shell.Parser.ParseLine | src/sh.c:345-359 | Ends, and agrees with the grammar |
| Shell.Parser.NulTerminate | src/sh.c:450-493 | Writes a NUL at the end of every word of the tree and nowhere else |
| Shell.Parser.ParseCmd | src/sh.c:328-342 | Ends on every line, accepts exactly what the grammar accepts, and afterwards every word and file name reads as a C string with exactly its text |
| Shell.WordReads | src/sh.c:450-493 | No terminator lands inside a word |
| ShellText.RoundTrip | src/sh.c:266-446 | Parsing any text of any way of writing a line returns the tree that line stands for |
| ShellText.PrintedTrip | src/sh.c:266-446 | Parsing the printed text of a well-formed tree returns that tree |
| Grep.Match | src/grep.c:73-82 | Holds exactly when the pattern's language has a string in the text where the anchors allow it |
| Grep.MatchHere | src/grep.c:85-96 | Holds exactly when the text begins with a string of the pattern's language, and is one if the pattern ends in '$' |
| Grep.MatchStar | src/grep.c:99-106 | Holds exactly when the text begins with a run of the character followed by the pattern |
| Grep.ConsBegins | src/grep.c:85-106 | A text begins with an item and more exactly when it splits into a piece for the item and a rest that begins with the others |

## Left out

- Device drivers, boot code, assembly, traps, segments, TLB and context switches: hardware behaviour; the disk is the contract of `src/memide.c`, and the processor setting PTE_A is a step of the environment.
- Clock queue of `src/vm.c` beyond insertion: `cq_remove`, the copying of queues in `fork` and encryption in `growproc` do not keep residency in general; residency is proved for the ring of `clock.c`.
- Directories, path names, inode allocation, inode reference counts and locks, and system call wrappers: they would add many easy members.
- `src/exec.c`, `src/mkfs.c`, `runcmd` of the shell, the read loop of grep, and the other user programs: loading and input/output around the pieces modelled.
- Integer width of pids, reference counts and file sizes other than where a member says so; in particular `nextpid` does not wrap.
- Freedom from running out of memory, buffers, blocks or process entries: such a panic is a stop.
- FsOps.FileSystem.Iupdate: keeps stored inodes as records without device numbers and link counts; their layout in the words of a block is in `FsImage.dfy`.
- FsFile.Readi: takes what a device would return, and whether an operation is outstanding, as parameters; that a read inside another process's operation may overfill the log is not modelled.
- FsWrite.Writei: takes what a device would return as a parameter.
- CrashFs.FilewriteCrash: is about a file without holes and a filewrite that has the log to itself; operations that commit together are in `LogProtocol.dfy`.
- FileWrite.Filewrite: does not model devices and pipes, and takes offsets below 2^31 and buffers shorter than 2^31 bytes, so that the offset does not wrap.
- LogOps.Log.Bwrite: the cache in front of the disk is the map from blocks to what bread returns, which `Bio.dfy` justifies.
- Umalloc.Allocator.Malloc: sbrk is a parameter that gives fresh memory above `base` or nothing; requests for which its argument is negative (`SbrkArgument`) are not covered.
- ClockRing.Ring.Remove: needs the hand to have moved once, since the code otherwise indexes the ring at -1.
- VmOps.Vm.Deallocuvm: does not model the call of cq_remove, and takes sizes up to KERNBASE, as all callers pass.
- VmOps.Vm.Mappages: page tables are maps from page numbers to entries that are not zero; that they are stored in the frames they occupy is not modelled.
- VmOps.Vm.Setupkvm: the linker's address of the kernel's data is a parameter between KERNLINK and PHYSTOP.
- VmCrypt.Process.Mencrypt: the use of a page table that does not exist, which the code does not check for, is the result Fault; user pages are taken to be writable.
- VmCrypt.Process.Enset: requires the slots in use to stand for different user pages of the same address space.
- Bio.BufferCache.Edit: a holder may change a buffer only through this method, which stands for the callers' writes into the data of a locked buffer.
- Bio.BufferCache.ReleaseSleep: a holder that has changed a buffer logs or writes it before giving it up, as all callers do.
- SleepWakeup.RunInv: one channel and one lock; sleepers on other channels are outside the protocol.
- ProcTable.Processes.Launch: the parts of fork that copy memory, files and names are left out.
- Pipe.PipeBuffer.Write: a writer that sleeps calls it again for the rest; the wakeups themselves are in `SleepWakeup.dfy`.
- Shell.Parser.ParseExec: command nodes are values; that the code fills in arguments of a node already wrapped in redirections appears as collecting both and wrapping at the end.
- Grep.Match: text and pattern are without their terminating NUL.
