# Operating-system components, modelled and proved in Dafny

The repository collects the code of an operating-systems course: the xv6 kernel with its
user programs, the SdFat library for FAT16 and FAT32 on SD cards, the memory manager of
MINIX, and exercises such as the dining philosophers. This project models the parts whose
correctness rests on invariants kept over many steps, and proves those invariants and what
follows from them.

`dafny verify dfyconfig.toml` checks the whole project.

| files | what they model |
|---|---|
| `LogModel`, `LogSafety`, `LogTheorems`, `LogDevice` | the redo log of `xv6/log.c`: one step per block write, a crash between any two steps, recovery, group commit, log space |
| `FsBits`, `FsModel`, `FsContent`, `FileSystem` | blocks and inodes of `xv6/fs.c`: the bitmap allocator, block maps with an indirect block, `readi`, `writei`, `itrunc` |
| `Sequences` | two notions that several models share |
| `Bio` | the buffer cache of `xv6/bio.c`: the doubly linked ring, and every interleaving of its users |
| `Umalloc` | the circular free list of `xv6/umalloc.c` |
| `Minix` | the hole table of `minix.c` |
| `LittleEndian`, `FatCache`, `FatChain`, `SdVolume` | the FAT, its one-block write-back cache and the cluster allocator of `SdVolume.cpp` |
| `FilePosition`, `FileWrite`, `SdFile` | reading, writing, seeking and truncating files in `SdFile.cpp` |
| `Pipe` | `xv6/pipe.c` with sleep and wakeup |
| `Proc` | `fork`, `exit`, `wait`, `sleep`, `wakeup`, `kill` and the scheduler of `xv6/proc.c` |
| `PageTable`, `VmAccount`, `Vm` | two-level page tables, `setupkvm`, `copyuvm`, `deallocuvm` and `freevm` of `xv6/vm.c`, with an account of every frame |
| `Shell`, `ShellPrint`, `ShellGrammar`, `ShellCommand` | the command parser of `xv6/sh.c`, a printer for its commands, and its language as a grammar |
| `Grep` | the regular-expression matcher of `xv6/grep.c` |
| `Philosophers` | the dining philosophers of `Filosofos/filosofos.c`, for any number of at least two |

## How to read it

Code that updates state in place is a class whose methods are proved against functions of the
old state; what the source promises is then proved about those functions, as lemmas over
values. Concurrency is a step system: `Enabled` and `Next` say which steps there are and what
they do, `Exec` runs a list of them, an invariant is proved for every step, and the theorems
are about every run from the start state. Where a class and a step system model the same code,
the methods' contracts and the steps are stated with the same functions, or in the same terms.

Words that the C code keeps in 32 bits are written with their wrap-around where it matters:
the pipe's counters, the size of the last row of `kmap`, the request sizes of `malloc`, the
offsets of `readi` and `writei`.

Functions that panic return a value that says so. Blocking is a step that is not enabled, or
a method result that says the caller sleeps.

## What the proofs found

* `log_write` needs `log.size` to be greater than `LOGSIZE`; this is exactly the condition under
  which it never rejects a new block of an operation within its budget
  (`LogTheorems.NoOverflowIffLogFits`). `mkfs` makes a log that is one block short
  (`xv6/mkfs.c:23`).
* Crash safety does not depend on how much an operation logs. The log space account does: an
  operation over its budget can leave no room for another one's first block
  (`LogTheorems.GreedyOperationStarvesAnother`). `filewrite` writes 13 data blocks in one
  operation, besides inode, bitmap and indirect blocks (`xv6/file.c:132`), which is more than
  `MAXOPBLOCKS`.
* `log_write` tests for room before it looks for the block in the log, so a full log rejects a
  block that needs no room (`LogTheorems.AbsorbedWriteCanPanic`).
* A killed writer that gives up on a pipe it has just filled wakes no reader. This is the only
  step that leaves a sleeper without reason (`PipeProtocol.StepKeepsAwake`), and there is a run
  with it (`PipeProtocol.KilledWriterLosesWakeup`).
* `SdFile::write` of a whole block forgets the cached block's number but not its dirty mark; the
  cache is lost exactly when it held that block dirty (`SdFile.SdFile.PutChunk`). Three calls that
  lose it are in `SdFile.OverwriteLosesCache`.
* `malloc` computes its sizes correctly exactly up to the bound of `Umalloc.FitsExactly`.
* `free_mem` panics on a full table even when the freed block would merge and need no slot
  (`Minix.Memory.FreeMem`). Calls that get there are in `Minix.FullTablePanics`.

* `copyuvm` gives back what it took when it fails, except the frame it has filled and could not
  map for want of a table. This happens exactly when, of the frames free at the start, those left
  by `setupkvm`, which takes 65, are one more than a multiple of 1025 and too few
  (`Vm.Machine.CopyUvm`). Calls that lose a frame are in `Vm.LastFrameIsLost`. A failing `setupkvm`
  keeps all it took.

## Model

| member | source | states |
|---|---|---|
| LogSafety.EncodeDecode | xv6/log.c:84-112 | reading back a header block that was written gives the block numbers written |
| LogSafety.InstallKeepsRecovered | xv6/log.c:68-81 | copying a logged block home, at any moment, does not change what recovery would yield |
| LogSafety.AllInstalled | xv6/log.c:68-81 | once every logged block is home, the log adds nothing to the home blocks |
| LogSafety.CommitKeepsCrashInv | xv6/log.c:189-199 | writing the header is the instant at which the open group becomes part of what recovery yields |
| LogSafety.StepKeepsCrashInv | xv6/log.c:68-230 | every step keeps: what recovery yields is the initial contents with the committed groups applied |
| LogSafety.StepKeepsBudget | xv6/log.c:124-171 | every step within its operation's budget keeps the account: logged blocks plus unused budget stay within LOGSIZE |
| LogSafety.StepKeepsAtom | xv6/log.c:144-199 | every step keeps each operation wholly committed, wholly open, or wholly lost |
| LogSafety.AdvanceKeepsCrashInv | xv6/log.c:114-199 | a started commit or recovery can always take its next step, and it keeps the invariant |
| LogTheorems.CrashSafety | xv6/log.c:68-199 | for every run with crashes at any block writes, whatever the operations log, recovery yields a whole number of committed groups, and each operation is entirely in or entirely out |
| LogTheorems.OperationsSeeTheirWrites | xv6/log.c:210-230 | between commits, disk and cache together are the committed groups followed by the open operations' writes |
| LogTheorems.RecoveryKeepsGroups | xv6/log.c:114-121 | recovery, however often it is cut off, adds and drops no group |
| LogTheorems.RecoveryRestoresCommitted | xv6/log.c:114-121 | when recovery ends, the home blocks are exactly the committed groups and the log is empty |
| LogTheorems.RecoveryLeavesNothingPinned | xv6/log.c:114-121 | after recovery no block is pinned in the cache |
| LogTheorems.CommitAndRecoveryFinish | xv6/log.c:173-199 | from every reachable state a commit or recovery reaches its end, within a stated number of block writes |
| LogTheorems.LogSpace | xv6/log.c:124-171 | in every run at most LOGSIZE distinct blocks are logged and committing means no open operation; if no operation exceeds its budget, logged blocks plus unused budget stay within LOGSIZE |
| LogTheorems.AdmitsWhenRoom | xv6/log.c:124-140 | outside a commit begin_op admits exactly when a whole budget is left for each open operation and the new one; with nothing logged, three at once |
| LogTheorems.BigLogNeverOverflows | xv6/log.c:215-216 | with log.size above LOGSIZE no run within budget makes log_write reject a new block within an operation's budget |
| LogTheorems.NoOverflowIffLogFits | xv6/log.c:215-216 | log_write never rejects such a block if and only if log.size is greater than LOGSIZE |
| LogTheorems.AbsorbedWriteCanPanic | xv6/log.c:215-224 | a reachable state, all operations within budget, in which an already logged block is rejected |
| LogTheorems.GreedyOperationStarvesAnother | xv6/log.c:215-216 | the budget is needed: in every log with room for more than one operation's budget, one operation over its budget can make log_write reject the first block of another |
| LogDevice.BuildHeader | xv6/log.c:100-112 | the header loop builds the encoding, which decodes to the same list: the count, the block numbers in order, the old words behind them |
| LogDevice.ParseHeader | xv6/log.c:84-95 | the loop of read_head decodes the header block: as many numbers as word 0 says, in order |
| LogDevice.FindBlock | xv6/log.c:221-224 | the absorption search finds the block's place, or the end exactly when it is not logged |
| LogDevice.CommitEffect | xv6/log.c:144-171 | ending the last operation makes durable exactly what the operations saw |
| LogDevice.RecoveryEffect | xv6/log.c:114-121 | after recovery the home blocks are what the old disk would recover to |
| LogDevice.Log.constructor | xv6/log.c:52-65 | power-on state: empty memory, the given disk |
| LogDevice.Log.WriteHead | xv6/log.c:100-112 | the header block, and only it, becomes the encoding of the list |
| LogDevice.Log.InstallTrans | xv6/log.c:68-81 | runs the install steps one block write at a time, up to the last |
| LogDevice.Log.WriteLog | xv6/log.c:173-187 | runs the log-copy steps one block write at a time, up to the commit point, where block i of the log holds the i-th logged block |
| LogDevice.LogHolds | xv6/log.c:173-187 | in every run, when the header is about to be written, the log has the pinned contents of all logged blocks |
| LogDevice.Log.RecoverFromLog | xv6/log.c:114-121 | afterwards the home blocks are what the disk at power-on promised, and the log is empty |
| LogDevice.Log.Begin | xv6/log.c:124-140 | admits an operation exactly when no commit runs and a budget is left for it and for each open one |
| LogDevice.Log.WriteBlock | xv6/log.c:210-230 | logs the block once, at the end of the list, however many the operation has logged, pins its contents, panics exactly when the log is full or no operation is open |
| LogDevice.Log.Commit | xv6/log.c:189-199 | makes the open group durable and empties the log |
| LogDevice.Log.End | xv6/log.c:144-171 | the last operation to end commits: the home blocks become what the operations saw |
| FsBits.BitSetBit | xv6/fs.c:62-65 | setting a bitmap bit sets that bit and no other |
| FsBits.BitClearBit | xv6/fs.c:86-90 | clearing a bitmap bit clears that bit and no other |
| FsBits.BitPlaceUnique | xv6/fs.c:60-64 | different blocks have different places in the bitmap |
| FsBits.BitOnDisk | xv6/fs.c:60-64 | a block is in use exactly if bit b % 8 of byte b / 8 of the bitmap is set |
| FsModel.NoSharedBlocks | xv6/fs.c:356-384 | no block is named by two slots of any inodes |
| FsModel.BitmapExact | xv6/fs.c:53-93 | with no block in transit, a bit is set exactly for metadata and for blocks named by a slot |
| FsModel.AllocInv | xv6/fs.c:53-75 | a block whose bit is clear belongs to nobody, and allocating it keeps the invariant with the block in transit |
| FsModel.FreeInv | xv6/fs.c:78-93 | clearing the bit of a block in transit keeps the invariant |
| FsModel.AttachDirect | xv6/fs.c:362-366 | storing a block in transit in a direct slot gives it its one owner |
| FsModel.AttachIndirectBlock | xv6/fs.c:370-372 | storing a zeroed indirect block keeps all other slots as they were |
| FsModel.AttachIndirect | xv6/fs.c:373-381 | storing a block in transit in an indirect entry gives it its one owner |
| FsModel.DetachDirect | xv6/fs.c:398-403 | clearing a direct slot of an empty file puts its block in transit |
| FsModel.DetachIndirect | xv6/fs.c:405-415 | clearing the indirect slot puts that block and all it names in transit |
| FsContent.WroteChunk | xv6/fs.c:479-484 | one chunk of writei extends what was written and changes no other byte of any file |
| FsContent.WrittenIsBacked | xv6/fs.c:462-492 | after a write no block below its end is missing |
| FsContent.ReadIsSlice | xv6/fs.c:434-458 | what readi returns is the slice of the file's contents |
| FsContent.ContentsByte | xv6/fs.c:356-384 | byte p of a file is byte p % 512 of the block that the inode's address p / 512 names, or the indirect block's entry beyond the twelfth |
| FsContent.WriteIsUpdate | xv6/fs.c:462-492 | what writei does to a file is the update of a byte sequence |
| FsContent.WriteKeepsOthers | xv6/fs.c:462-492 | a write leaves every other file's contents as they were |
| FileSystem.FileSystem.constructor | xv6/fs.c:28-36 | a file system whose disk satisfies the invariant |
| FileSystem.FileSystem.Balloc | xv6/fs.c:53-75 | the lowest free block, marked and zeroed; fails exactly when no block is free |
| FileSystem.FileSystem.Bfree | xv6/fs.c:78-93 | clears exactly that bit; panics exactly when the block is free already |
| FileSystem.FileSystem.Iupdate | xv6/fs.c:199-215 | the in-memory inode becomes the inode on disk |
| FileSystem.FileSystem.BmapDirect | xv6/fs.c:362-366 | the address in the inode for that block, allocated once if there was none, all data kept |
| FileSystem.FileSystem.BmapIndirect | xv6/fs.c:367-382 | the word of the indirect block for that block, with the indirect block allocated first if needed, all data kept |
| FileSystem.FileSystem.Bmap | xv6/fs.c:356-384 | for every n below MAXFILE the inode's n-th address, or word n - 12 of its indirect block, allocated if there was none; a panic above |
| FileSystem.FileSystem.Readi | xv6/fs.c:434-458 | -1 exactly for a start beyond the end or a 32-bit overflow, otherwise the file's bytes cut at its end; nothing changes |
| FileSystem.FileSystem.WriteBytes | xv6/fs.c:479-484 | the copy loop writes exactly the given bytes, across direct and indirect blocks and partial blocks |
| FileSystem.FileSystem.Writei | xv6/fs.c:462-492 | the exact error cases; otherwise the bytes are in the file, no other byte of any file changes, the bitmap invariant holds, and the inode on disk lists every owned block |
| FileSystem.FileSystem.FreeDirect | xv6/fs.c:398-403 | the direct blocks of a file become free, without a panic |
| FileSystem.FileSystem.FreeIndirect | xv6/fs.c:405-415 | the indirect block and all it names become free, without a panic |
| FileSystem.FileSystem.Itrunc | xv6/fs.c:391-419 | never panics; exactly the file's blocks become free and the empty inode is on disk |
| FileSystem.WriteThenRead | xv6/fs.c:434-492 | writei and then readi: the exact error cases of both; otherwise the bytes are the slice of the updated contents, and every other file's contents stay |
| BufferRing.Unlink | xv6/bio.c:131-132 | the two assignments take the buffer out of the ring, in both directions |
| BufferRing.PushFront | xv6/bio.c:133-136 | the four assignments put the buffer behind the head, in both directions |
| BufferCache.Cache.constructor | xv6/bio.c:39-57 | the ring holds all buffers once, the last initialised first |
| BufferCache.Cache.FindCached | xv6/bio.c:71-81 | the first scan finds the first buffer of the block, or shows there is none |
| BufferCache.Cache.FindVictim | xv6/bio.c:86-94 | the second scan finds the buffer released longest ago that is neither busy nor dirty, or shows there is none |
| BufferCache.Cache.Bget | xv6/bio.c:62-96 | the block's buffer, a sleep when it is busy; else the buffer released longest ago that is neither busy nor dirty; panics exactly when the block has no buffer and every buffer is busy or dirty |
| BufferCache.Cache.Iderw | xv6/memide.c:37-59 | writes a dirty buffer or fills an invalid one; panics exactly when not busy or nothing to do |
| BufferCache.Cache.Bread | xv6/bio.c:99-109 | a valid buffer of the block: what it held if it was valid, else what the disk has; panics exactly when bget does; no other buffer changes |
| BufferCache.Cache.Bwrite | xv6/bio.c:112-119 | the block on disk becomes the buffer's contents |
| BufferCache.Cache.Brelse | xv6/bio.c:123-142 | the buffer moves to the front of the ring and is no longer busy; all else stays |
| BufferRuns.StepKeepsInv | xv6/bio.c:62-142 | every step of every process, careful or not, keeps: one buffer per block, the ring in order of release, busy exactly when held |
| BufferRuns.OneBufferPerBlock | xv6/bio.c:62-96 | in every run a block of a real device is in at most one buffer |
| BufferRuns.HeldAndPinnedStay | xv6/bio.c:71-94 | in every run a held buffer goes to nobody else, and a dirty buffer is never recycled and keeps its data unless changed |
| BufferRuns.RingIsByRelease | xv6/bio.c:39-57 | in every run the ring is a permutation of the buffers ordered by last release |
| BufferRuns.GetsUnlessHeldOrFull | xv6/bio.c:62-96 | in every run a process can get a buffer exactly when the block's own is held by nobody or, if it has none, some buffer is neither held nor dirty |
| BufferRuns.ReadsAreOverlaidDisk | xv6/bio.c:99-142 | in every careful run a valid buffer of a block holds the data of the block's last change, or what the disk had at first, and so does the disk unless a pinned buffer of the block exists |
| BufferRuns.StepKeepsData | xv6/bio.c:62-142 | every step keeps that, unless it releases a buffer that was changed and neither logged nor written |
| BufferRuns.LoadedShowsBlock | xv6/bio.c:99-109 | after bread fills a buffer in a careful run, it holds the data of its block's last change |
| FreeList.InsertSorted | xv6/umalloc.c:24-44 | inserting with merging keeps the list sorted, disjoint and fully merged |
| FreeList.InsertCovers | xv6/umalloc.c:33-42 | merging loses no unit and invents none |
| FreeList.FreeLinks | xv6/umalloc.c:33-43 | free's header writes turn the circular list into the one for the new contents |
| FreeList.RemoveLinks | xv6/umalloc.c:75-77 | taking a whole block relinks its neighbours |
| FreeList.ShrinkLinks | xv6/umalloc.c:78-82 | taking a tail changes one size and no link |
| HeapInvariant.FreeBlockInv | xv6/umalloc.c:24-44 | free blocks and live blocks tile exactly the memory obtained, before and after a free |
| HeapInvariant.TakeInv | xv6/umalloc.c:75-84 | the same before and after an allocation |
| HeapInvariant.FreeUndoesTake | xv6/umalloc.c:24-90 | freeing a block just carved restores the free list exactly |
| Umalloc.FitsExactly | xv6/umalloc.c:52-69 | the exact bound up to which the 32-bit size computations are right |
| Umalloc.UnitsLeast | xv6/umalloc.c:69-69 | the units are the least number that holds the request and a header |
| Umalloc.Search | xv6/umalloc.c:30-32 | from any point of the list the search of free stops at the block's place |
| Umalloc.ScanComplete | xv6/umalloc.c:74-89 | when the scan is back at its start, no free block is big enough |
| Umalloc.Allocator.constructor | xv6/umalloc.c:21-22 | the empty allocator |
| Umalloc.Allocator.Release | xv6/umalloc.c:24-44 | the block joins the free list at its place, merged with what it touches |
| Umalloc.Allocator.Free | xv6/umalloc.c:24-44 | the block stops being live and its units are free, nothing else changes |
| Umalloc.Allocator.Sbrk | xv6/umalloc.c:54-56 | fails, or gives memory above all obtained before |
| Umalloc.Allocator.Morecore | xv6/umalloc.c:46-61 | one new block of the units asked for, but at least 4096, joins the free list, or nothing changes |
| Umalloc.Allocator.Carve | xv6/umalloc.c:75-84 | the tail of the block becomes live and the rest stays free |
| Umalloc.Allocator.Malloc | xv6/umalloc.c:63-90 | the tail of the first block that is big enough, going round from where the last search ended, with at most one growth and only if nothing fitted; null only if growing failed; the next search starts before that block |
| HoleList.LowestFit | Gerência de Memória/minix.c:271-290 | first fit is the lowest address that fits, and fails exactly when nothing fits |
| HoleList.TakeCoalesced | Gerência de Memória/minix.c:275-284 | allocation keeps the holes sorted, disjoint and coalesced |
| HoleList.TakeConserves | Gerência de Memória/minix.c:275-284 | the clicks handed out are exactly those that leave the holes |
| HoleList.PutConserves | Gerência de Memória/minix.c:297-344 | the clicks freed are exactly those that join the holes |
| HoleList.PutCoalesced | Gerência de Memória/minix.c:297-344 | freeing keeps the holes sorted, disjoint and coalesced |
| HoleList.FreeUndoesAlloc | Gerência de Memória/minix.c:257-344 | freeing a block just allocated gives back the same holes |
| HoleList.MergeIsPut | Gerência de Memória/minix.c:373-407 | the two tries of merge are enough for full coalescing |
| HoleList.PutGrowsIffApart | Gerência de Memória/minix.c:311-342 | a freed block needs a hole of its own exactly when it touches none |
| HoleTable.UnlinkedTabled | Gerência de Memória/minix.c:350-367 | del_slot moves one entry to the spare slots; every entry stays in exactly one list |
| HoleTable.EnteredTabled | Gerência de Memória/minix.c:311-342 | free_mem's insertion moves one spare slot into the holes; every entry stays in exactly one list |
| Minix.AllocIffMax | Gerência de Memória/minix.c:257-291 | a positive request succeeds exactly when it is at most max_hole |
| Minix.AllocNothing | Gerência de Memória/minix.c:273-280 | a request for nothing returns the first hole's address and changes nothing |
| Minix.Memory.constructor | Gerência de Memória/minix.c:455-458 | all NR_HOLES entries are spare slots |
| Minix.Memory.DelSlot | Gerência de Memória/minix.c:350-367 | removes exactly that hole and puts its entry first among the spare slots |
| Minix.Memory.TryAbsorb | Gerência de Memória/minix.c:391-396 | a hole takes in its successor exactly when they touch |
| Minix.Memory.Merge | Gerência de Memória/minix.c:373-407 | merge's effect on the holes, for any list |
| Minix.Memory.MaxHole | Gerência de Memória/minix.c:413-427 | the largest length among the holes, 0 if there is none |
| Minix.Memory.AllocMem | Gerência de Memória/minix.c:257-291 | the first hole that fits is cut or removed; NO_MEM exactly when none fits |
| Minix.Memory.FreeMem | Gerência de Memória/minix.c:297-344 | the block joins the holes, coalesced; panics exactly when no spare slot is left |
| Minix.FullTablePanics | Gerência de Memória/minix.c:310-311 | from an empty table, calls that fill it, after which a freed block that touches a hole, and so needs no slot, makes free_mem panic |
| LittleEndian.PutGet16 | SD/utility/SdVolume.cpp:158-159 | a stored 16-bit word reads back and other words stay |
| LittleEndian.PutGet32 | SD/utility/SdVolume.cpp:160-162 | a stored 32-bit word reads back and other words stay |
| LittleEndian.Bytes32 | SD/utility/SdVolume.cpp:160-162 | the bytes of a 32-bit word in memory, low byte first |
| LittleEndian.CopyInto | SD/utility/SdFile.cpp:1190-1192 | the copy loop: the bytes are in the block and the others stay |
| FatCache.PutEntryTable | SD/utility/SdVolume.cpp:174-186 | storing an entry in its block is a table update and nothing else, for FAT16 and FAT32 |
| FatCache.TableOnCard | SD/utility/SdVolume.cpp:151-164 | entry c of the table is the c-th 16-bit or 32-bit little-endian word of the FAT's bytes, of which FAT32 uses 28 bits |
| FatCache.StoreEntryOk | SD/utility/SdVolume.cpp:181-190 | storing in the cache keeps the cache invariant and updates the table |
| FatCache.WriteHome | SD/utility/SdVolume.cpp:101-103 | writing the dirty block, even badly, changes nothing the program sees |
| FatCache.WriteMirror | SD/utility/SdVolume.cpp:105-109 | writing the mirror, even badly, changes nothing the program sees |
| FatCache.CleanIsSynced | SD/utility/SdVolume.cpp:99-114 | a clean cache means the card holds everything and both FATs agree |
| FatCache.DirectWrite | SD/utility/SdFile.cpp:1170-1177 | writing around the cache changes that block and no other |
| FatChain.AllocateNewFile | SD/utility/SdVolume.cpp:78-96 | all chains stay acyclic and pairwise disjoint when a new chain is made of free clusters |
| FatChain.AllocateGrowsFile | SD/utility/SdVolume.cpp:78-96 | the same when the run is linked onto the tail of a chain |
| FatChain.FreeRemovesFile | SD/utility/SdVolume.cpp:195-210 | freeing one chain frees exactly its clusters and keeps every other chain |
| FatChain.OtherFilesSurvive | SD/utility/SdVolume.cpp:31-97 | chains of other files survive any change of the FAT that keeps the used entries outside one file's chain |
| FatChain.AllocateKeepsFat | SD/utility/SdVolume.cpp:78-96 | adding a free cluster to a chain is such a change |
| FatChain.CutKeepsFat | SD/utility/SdFile.cpp:1085-1095 | ending a chain early and freeing the rest is such a change |
| FatChain.NothingFoundOne | SD/utility/SdVolume.cpp:59-77 | for one cluster the search fails exactly when no cluster is free |
| FatChain.FoundUnlessStraddling | SD/utility/SdVolume.cpp:59-77 | a missed run crosses the start of the search |
| FatChain.FailsIffNoRun | SD/utility/SdVolume.cpp:59-77 | from the first cluster, or from behind a cluster in use, the search fails exactly when there is no free run of that length |
| FatChain.WalkFollowsChain | SD/utility/SdVolume.cpp:199-207 | the walk of freeChain follows the chain if there is one |
| FatChain.BrokenWalk | SD/utility/SdVolume.cpp:199-207 | a walk that leaves the FAT shows there was no chain |
| FatChain.CyclicWalk | SD/utility/SdVolume.cpp:199-207 | a walk that comes back to a freed cluster shows there was no chain |
| FatChain.ChainUnique | SD/utility/SdVolume.cpp:199-207 | a cluster starts at most one chain |
| FatChain.CutChain | SD/utility/SdFile.cpp:1085-1095 | ending a chain early leaves its front a chain and frees the rest |
| SdVolume.SdVolume.constructor | SD/utility/SdVolume.cpp:22-28 | an empty cache over a card whose FATs agree |
| SdVolume.SdVolume.CacheFlush | SD/utility/SdVolume.cpp:99-114 | after success the card holds everything and the second FAT equals the first, also after failed attempts |
| SdVolume.SdVolume.CacheRawBlock | SD/utility/SdVolume.cpp:116-124 | the cache holds the block as the program sees it, and the view of all blocks stays |
| SdVolume.SdVolume.CacheZeroBlock | SD/utility/SdVolume.cpp:127-137 | the block reads as zeros and every other block as before |
| SdVolume.SdVolume.FatGet | SD/utility/SdVolume.cpp:151-164 | exact table lookup; fails exactly outside the FAT or on an I/O error |
| SdVolume.SdVolume.FatPut | SD/utility/SdVolume.cpp:167-192 | exact table update; fails exactly for reserved clusters, outside the FAT or on an I/O error |
| SdVolume.SdVolume.FindRun | SD/utility/SdVolume.cpp:53-77 | without I/O errors, finds a free run exactly when a stretch of the search has one, and then the first one from the start on, going round |
| SdVolume.SdVolume.LinkClusters | SD/utility/SdVolume.cpp:78-85 | links the run in ascending order to the end mark |
| SdVolume.SdVolume.AllocContiguous | SD/utility/SdVolume.cpp:31-97 | takes the first free run from the search start on, links it and joins it to the old tail; without I/O errors succeeds exactly when there is a free run of that length, for every length; keeps the cluster before the search start in use; used clusters keep their entries on failure |
| SdVolume.SdVolume.FreeChain | SD/utility/SdVolume.cpp:195-210 | stops on every FAT contents; without I/O errors succeeds exactly when there is a chain, and frees exactly it |
| FilePosition.IndexStep | SD/utility/SdFile.cpp:677-687 | moving forward enters the next cluster exactly at a cluster start |
| FilePosition.DataBlockInjective | SD/utility/SdFile.cpp:688-688 | different clusters, and different blocks of a cluster, are different blocks of the card |
| FilePosition.DataBlockPlaces | SD/utility/SdFile.cpp:688-688 | the data area starts with cluster 2, the blocks of a cluster and the clusters follow each other in order |
| FilePosition.ByteOnCard | SD/utility/SdFile.cpp:673-688 | byte p of a file is byte p % 512 of the block the volume's geometry gives for its cluster of the chain |
| FilePosition.PositionUnique | SD/utility/SdFile.cpp:673-688 | cluster and block determine the 512 bytes a position is in, and with the byte in the block the position |
| FileWrite.WroteChunk | SD/utility/SdFile.cpp:1162-1195 | one chunk of write extends what was written and changes no other byte of the file |
| SdFile.SdFile.constructor | SD/utility/SdFile.cpp:502-538 | an opened file at position 0 |
| SdFile.SdFile.SeekSet | SD/utility/SdFile.cpp:916-946 | the relative seek reaches the cluster that walking from the first one reaches |
| SdFile.SdFile.Read | SD/utility/SdFile.cpp:660-711 | the next bytes of the file, cut at its end, and the position stays right |
| SdFile.SdFile.FetchChunk | SD/utility/SdFile.cpp:690-706 | part of a block as the program sees it, cached or not |
| SdFile.SdFile.EnterCluster | SD/utility/SdFile.cpp:677-687 | at a cluster start the current cluster becomes the one of the next byte |
| SdFile.SdFile.AddCluster | SD/utility/SdFile.cpp:33-42 | one free cluster joins the end of the chain, a new first cluster marks the directory entry, other files' FAT entries stay; fails only on an I/O error or a full card |
| SdFile.SdFile.EnterClusterForWrite | SD/utility/SdFile.cpp:1140-1161 | the same for write, with a cluster added at the end of the chain; other files' FAT entries stay |
| SdFile.SdFile.PutChunk | SD/utility/SdFile.cpp:1162-1193 | the bytes are in the block and no other byte changes; the exact condition for losing the cache |
| SdFile.SdFile.Sync | SD/utility/SdFile.cpp:957-981 | the card holds everything and the directory entry records size and first cluster, whether or not it was marked; no other byte of the directory block changes; fails on a lost cache |
| SdFile.SdFile.WriteBytes | SD/utility/SdFile.cpp:1139-1196 | the loop of write writes exactly the given bytes; other files' FAT entries stay |
| SdFile.SdFile.WriteChunk | SD/utility/SdFile.cpp:1140-1196 | the loop's body: one chunk more is in the file, everything else as before |
| SdFile.SdFile.FinishWrite | SD/utility/SdFile.cpp:1197-1210 | the size grows to the position and marks the directory entry, and with O_SYNC everything goes to the card |
| SdFile.SdFile.Write | SD/utility/SdFile.cpp:1124-1215 | the bytes replace those from the position on, the file grows as needed, the position stays right; the directory entry records the file unless it is marked, and with O_SYNC the card holds everything; every other file's chain survives and no other byte of the directory block changes |
| SdFile.WriteThenSync | SD/utility/SdFile.cpp:957-1215 | after a write and a successful sync the card's directory entry records the new size and first cluster |
| SdFile.OverwriteLosesCache | SD/utility/SdFile.cpp:1170-1177 | a partial write, a seek back and a whole-block write leave the cache dirty with no block, after which sync fails |
| SdFile.SdFile.FreeAll | SD/utility/SdFile.cpp:1081-1084 | truncating to nothing frees the whole chain and keeps other files' FAT entries |
| SdFile.SdFile.FreeAfterCurrent | SD/utility/SdFile.cpp:1085-1096 | the clusters behind the current one become free, the chain ends there, other files' FAT entries stay |
| SdFile.SdFile.Truncate | SD/utility/SdFile.cpp:1065-1106 | the file keeps its first bytes, the clusters behind are free, and the card holds everything, with the new size and first cluster in the directory entry; every other file's chain survives and no other byte of the directory block changes; the exact failure cases |
| SdFile.SdFile.FinishTruncate | SD/utility/SdFile.cpp:1097-1105 | the new size and first cluster reach the directory entry on the card, and the position is set |
| SdFile.UpdateEntry | SD/utility/SdFile.cpp:965-970 | the directory entry records size and first cluster, and every byte of the block outside those fields stays |
| PipeBuffer.RingIndex | xv6/pipe.c:92-92 | ring positions follow the true counts although the 32-bit counters wrap |
| PipeBuffer.CountersCompare | xv6/pipe.c:84-84 | comparing wrapped counters is comparing the true counts |
| PipeBuffer.Pipe.constructor | xv6/pipe.c:21-56 | an empty pipe with both ends open |
| PipeBuffer.Pipe.Fill | xv6/pipe.c:83-93 | the copy loop stores as many bytes as fit, in order |
| PipeBuffer.Pipe.Store | xv6/pipe.c:92-92 | one byte goes to the end of the stream |
| PipeBuffer.Pipe.Drain | xv6/pipe.c:112-116 | the oldest bytes come out in order, at most n |
| PipeBuffer.Pipe.WriteSection | xv6/pipe.c:77-97 | one locked section of pipewrite: what is stored, the result, and who is woken |
| PipeBuffer.Pipe.ReadSection | xv6/pipe.c:99-120 | one locked section of piperead: what comes out, the result, and who is woken |
| PipeProtocol.StepKeepsInv | xv6/pipe.c:58-120 | every step keeps: what was read is a prefix of what was written, the rest is in the ring |
| PipeProtocol.StepKeepsAwake | xv6/pipe.c:58-120 | a step leaves only justified sleepers if and only if it is not a killed writer giving up on a full pipe while readers sleep |
| PipeProtocol.BytesInOrder | xv6/pipe.c:77-120 | in every run bytes come out in order and exactly once |
| PipeProtocol.NoLostWakeup | xv6/pipe.c:58-120 | in every run without kill, readers sleep only on an empty pipe and writers only on a full one, with the other end open |
| PipeProtocol.KilledWriterLosesWakeup | xv6/pipe.c:85-88 | a run with kill in which a reader sleeps on a full pipe |
| ProcTable.Table.constructor | xv6/proc.c:10-17 | the table at the start |
| ProcTable.Table.Wakeup1 | xv6/proc.c:389-397 | makes runnable exactly the processes asleep on the channel |
| ProcTable.WokenMeans | xv6/proc.c:389-397 | the sleepers of the channel become runnable and no other field of any process changes |
| ProcTable.Table.Allocate | xv6/proc.c:40-50 | takes the first unused slot with a new pid, or finds none |
| ProcTable.Table.Exit | xv6/proc.c:194-209 | becomes a zombie, hands all children to init; the sleepers woken are the parent in wait and, if a child is a zombie, init in wait; no other field changes |
| ProcTable.ExitedMeans | xv6/proc.c:194-209 | the same, field by field, for every table |
| ProcTable.Table.Wait | xv6/proc.c:222-254 | reaps the first zombie child exactly when there is one; else fails exactly when there is no child or the caller is killed; else sleeps on itself |
| ProcTable.Table.Kill | xv6/proc.c:411-429 | finds a process exactly when one has the pid, sets its killed mark and leaves it not asleep; nothing else changes |
| ProcRuns.SectionsAreSteps | xv6/proc.c:194-209 | the locked sections of exit and wakeup are the steps of the runs |
| ProcRuns.WaitIsStep | xv6/proc.c:222-254 | the locked section of wait is a step of the runs |
| ProcRuns.StepKeepsTree | xv6/proc.c:128-255 | every step keeps the parent, fork and sleep invariants |
| ProcRuns.StepKeepsHistory | xv6/proc.c:128-255 | every step keeps the pids apart and the account of exited and reaped processes |
| ProcRuns.ParentsAreLive | xv6/proc.c:128-255 | in every run each live or zombie process but init has another process as parent that is neither unused, embryo nor zombie |
| ProcRuns.NoLostExit | xv6/proc.c:194-253 | in every run nobody asleep in wait has a zombie child |
| ProcRuns.ReapedAtMostOnce | xv6/proc.c:194-244 | in every run no pid is reaped twice, and a process that exited is a zombie exactly until it is reaped |
| PageTable.EntryParts | xv6/vm.c:83-83 | address and flags can be read back from an entry |
| PageTable.PteIsWalk | xv6/vm.c:45-65 | the translation of an address is the two-level walk on memory: ten bits pick the table, ten bits its entry |
| PageTable.SetPte | xv6/vm.c:83-83 | writing an entry changes the translation of its page and of no other |
| PageTable.AddTablePte | xv6/vm.c:55-62 | adding a zeroed table changes no translation |
| PageTable.AddTableDir | xv6/vm.c:55-62 | adding a table from a frame of its own keeps the directory well formed |
| VmMemory.TableAdded | xv6/vm.c:52-63 | a table taken from the free list keeps memory, directory and all translations |
| VmMemory.EntrySet | xv6/vm.c:83-83 | writing one entry keeps memory and directory and sets one translation |
| KernelMap.RowsMakeLayout | xv6/vm.c:115-125 | the four rows of kmap, the last of which wraps at 2^32, give the documented layout |
| KernelMap.RowsApart | xv6/vm.c:115-125 | no row of kmap maps a page of an earlier one |
| Vm.Machine.Kalloc | xv6/kalloc.c:82-95 | the first free frame, or failure exactly when none is free |
| Vm.Machine.Kfree | xv6/kalloc.c:59-77 | the frame is filled with junk and first on the free list; panics exactly outside the memory handed to the allocator |
| Vm.Machine.WalkPgdir | xv6/vm.c:45-65 | the page's table exists afterwards, or memory ran out; no translation changes, and a frame is taken exactly for a missing table |
| Vm.Machine.MapPages | xv6/vm.c:70-90 | the pages map to consecutive frames with the flags, all others as before; takes exactly the missing tables; panics only on a page that was mapped, fails only with fewer frames than missing tables |
| Vm.Machine.SetupKvm | xv6/vm.c:128-144 | a new directory made of free frames whose translation is exactly the kernel layout; takes 65 frames and succeeds exactly when there are that many |
| Vm.Machine.CopyPage | xv6/vm.c:319-331 | one page more is copied, or frames ran out, or the page is not present; which frame is lost when mapping fails |
| Vm.Machine.MapCopy | xv6/vm.c:329-330 | mapping the filled frame never meets a mapped page, and fails only for want of a table |
| Vm.Machine.CopyUvm | xv6/vm.c:309-337 | on success every page below sz is a private copy, made of 65 frames, the pages and a table for every 1024 begun; fails only with fewer frames than that and then gives back all but the lost frames, whose number is exact; the parent's translation and all frames in use stay as they were; panics only on a page that is not present |
| Vm.Machine.DeallocUvm | xv6/vm.c:249-273 | unmaps exactly the mapped pages it visits and frees exactly their frames, without a panic |
| Vm.Machine.FreeVm | xv6/vm.c:277-292 | frees exactly the user pages, tables and directory of an address space, without a panic, and touches no other frame |
| VmTables.WalkTakes | xv6/vm.c:52-63 | the frames taken for a range of pages are the tables that were missing |
| VmTables.RowCost | xv6/vm.c:115-125 | the number of tables each row of kmap adds, wherever the kernel's data start |
| VmTables.WasteAt | xv6/vm.c:327-330 | the exact numbers of free frames at which the last one is filled and cannot be mapped |
| VmFree.UnmapOne | xv6/vm.c:263-269 | freeing and clearing one page keeps the directory, all other translations and all other frames |
| VmFree.AllVisited | xv6/vm.c:258-262 | from the start of a table, or inside one that is there, deallocuvm visits every page that has a table |
| VmFree.MissedFromInside | xv6/vm.c:258-262 | from inside a missing table it misses the first page of the next one |
| VmFree.OneTable | xv6/vm.c:285-290 | each round frees one table that is not free yet, and nothing else |
| VmFree.DirFreed | xv6/vm.c:277-292 | with pages, tables and directory freed, exactly the address space has joined the free list |
| Vm.CopyUndone | xv6/vm.c:333-336 | freeing a partial copy restores the free frames but for the lost one, and all frames in use are as before the copy |
| Vm.CopyThenFree | xv6/vm.c:277-337 | a copy and then freevm of the child leave the same frames free |
| Vm.LastFrameIsLost | xv6/vm.c:327-336 | from 133 free frames, setting up a process of one page and copying it fails and loses a frame |
| Vm.ChildIsPrivateCopy | xv6/vm.c:309-337 | equal bytes and flags in frames distinct from each other, from the child's tables and from the parent's; the rest is the kernel layout |
| ShellTokens.GetToken | xv6/sh.c:266-309 | token bounds in order, end of input exactly at the end, other tokens not empty |
| ShellTokens.WordSpan | xv6/sh.c:296-301 | a word token is a maximal run of word characters |
| ShellTokens.SkipLoop | xv6/sh.c:273-274 | the loop over white space |
| ShellTokens.WordLoop | xv6/sh.c:298-299 | the loop over a word |
| ShellTokens.NextToken | xv6/sh.c:266-309 | gettoken with its loops is the token function |
| ShellTokens.LookAhead | xv6/sh.c:311-321 | peek with its loop is the peek function |
| ShellParser.ParseLine | xv6/sh.c:345-360 | parsing stops on every input and never leaves the line |
| ShellTrees.LineOk | xv6/sh.c:345-447 | every word of a parsed command is a whole word of the line, and no command has MAXARGS words |
| ShellTrees.TextWellFormed | xv6/sh.c:345-447 | a parsed command is a well-formed tree |
| ShellPrinter.RedirsTrip | xv6/sh.c:375-398 | parseredirs reads back printed redirections, in order |
| ShellPrinter.RedirsCommute | xv6/sh.c:427-446 | redirections may be parsed before or after the arguments are stored in the simple command |
| ShellPrinter.ArgsTrip | xv6/sh.c:432-443 | the argument loop reads back the printed words and redirections |
| ShellPrinter.ExecTrip | xv6/sh.c:400-447 | parseexec reads back what is printed for it, parentheses included |
| ShellPrinter.PipeTrip | xv6/sh.c:362-373 | parsepipe reads back what is printed for it |
| ShellPrinter.BackTrip | xv6/sh.c:350-354 | the ampersand loop reads back every printed ampersand |
| ShellPrinter.LineTrip | xv6/sh.c:345-360 | parseline reads back what is printed for it |
| ShellPrinter.RoundTrip | xv6/sh.c:328-447 | every well-formed tree, printed, parses back to itself with all input used |
| ShellPrinter.BuildableIffWellFormed | xv6/sh.c:328-447 | the trees the parser can build are exactly the well-formed ones |
| ShellPrinter.Normalizes | xv6/sh.c:328-447 | every accepted line means the same as the printed form of its tree |
| ShellLanguage.TokensAreLexemes | xv6/sh.c:266-309 | the tokens gettoken gives are those of a definition on the characters of the line |
| ShellLanguage.SoundLine | xv6/sh.c:345-447 | what the parser builds, the tokens it used stand for |
| ShellLanguage.CompleteLine | xv6/sh.c:345-447 | what the tokens stand for, the parser builds, whatever follows |
| ShellLanguage.AcceptsIffStands | xv6/sh.c:328-447 | for every line and command: the parser builds the command from the line exactly when the line's tokens stand for it by the grammar |
| ShellLanguage.OneMeaning | xv6/sh.c:328-447 | no line stands for two commands, and one that makes the parser panic stands for none |
| ShellCommand.ReadRedirs | xv6/sh.c:375-398 | the loop of parseredirs is the redirection function |
| ShellCommand.ReadExec | xv6/sh.c:416-447 | parseexec with its loop is the function, panics included |
| ShellCommand.ReadBlock | xv6/sh.c:400-414 | parseblock is the function |
| ShellCommand.ReadPipe | xv6/sh.c:362-373 | parsepipe is the function |
| ShellCommand.ReadLine | xv6/sh.c:345-360 | parseline with its loop is the function |
| ShellCommand.NulTerminate | xv6/sh.c:450-494 | exactly the places just past the command's words become NUL |
| ShellCommand.NulTerminateArgs | xv6/sh.c:464-468 | the same for the arguments of a simple command |
| ShellCommand.WordsReadBack | xv6/sh.c:450-494 | after NUL-termination every word reads back as exactly its token |
| ShellCommand.ReadCommand | xv6/sh.c:328-343 | parsecmd builds the one command that the line's tokens stand for and panics exactly when there is none, and every word of the result reads back from the buffer |
| Grep.SplitFirst | xv6/grep.c:84-96 | a string is in a pattern's language exactly when some prefix is in the first item's and the rest in the others' |
| Grep.HereMany | xv6/grep.c:98-106 | a starred item matches here exactly when some number of accepted characters can be skipped |
| Grep.StarInPattern | xv6/grep.c:89-106 | c* and then a pattern matches here exactly when some number of accepted characters can be skipped before it |
| Grep.CharInPattern | xv6/grep.c:92-95 | a plain character and then a pattern matches here exactly when the character is accepted and the pattern matches behind it |
| Grep.MatchHere | xv6/grep.c:85-96 | true exactly when a prefix of the text is in the pattern's language, the whole text with a final dollar |
| Grep.MatchStar | xv6/grep.c:99-106 | the loop finds such a number exactly when there is one |
| Grep.Match | xv6/grep.c:72-82 | true exactly when some start position matches, only the first with a leading caret |
| Ring.Modular | Filosofos/filosofos.c:9-10 | the neighbours are the source's expressions, and left and right undo each other |
| Philosophers.StepKeepsInv | Filosofos/filosofos.c:61-86 | every step of every philosopher keeps the invariant |
| Philosophers.NoNeighboursEat | Filosofos/filosofos.c:61-86 | in every interleaving no two neighbours eat |
| Philosophers.FreeMutexState | Filosofos/filosofos.c:61-86 | with the mutex free, EATING is exactly one token or one philosopher past the wait, and a HUNGRY one is blocked next to an EATING one |
| Philosophers.NeverDeadlocks | Filosofos/filosofos.c:61-86 | in every reachable state some philosopher can go on |
| DinnerTable.Dinner.constructor | Filosofos/filosofos.c:108-132 | all think and no semaphore has a token |
| DinnerTable.Dinner.Test | Filosofos/filosofos.c:80-86 | the philosopher starts to eat exactly when hungry with no eating neighbour, and gets one token |
| DinnerTable.Dinner.TakeForks | Filosofos/filosofos.c:61-68 | afterwards the philosopher eats or waits next to an eating one; all others as before |
| DinnerTable.Dinner.PutForks | Filosofos/filosofos.c:70-77 | exactly the neighbours that can eat start to eat and are woken; no hungry philosopher is left without an eating neighbour |

## Left out

- Hardware, boot code, device drivers, the interrupt paths and the scheduler's context switch: registers without a meaning of their own.
- The student allocators, `LeitorRedator.c`, `barbeiro.c`, `ProdutorConsumidor*.c`, the game and the socket programs: smaller forms of what is modelled, or input and output around unseen libraries.
- Liveness and fairness: only safety, termination of the code itself and freedom from deadlock are stated.
- Spin locks: a section that holds a lock is one step or one method.
- `xv6/fs.c` directories, path names, the inode cache and its locks, device inodes, and the byte layout of inode blocks: inodes are records. The calls to `log_write` inside `fs.c` are block writes here.
- The log and the file system are not composed. How many blocks an operation logs is free in the log model; `xv6/file.c:132` allows more than MAXOPBLOCKS, so the results on log space, which suppose that no operation exceeds it, do not cover the operations of `filewrite`.
- LogDevice.Log.constructor: takes log.start and log.size as given; reading them from the superblock is left out.
- FileSystem.FileSystem.constructor: takes the superblock as a record; the bytes `readsb` copies are left out.
- FileSystem.FileSystem.Iupdate: keeps inodes as records, so the byte layout of an inode block and its other inodes are left out.
- FileSystem.FileSystem.Writei: leaves out the branch for device inodes.
- FileSystem.FileSystem.Readi: leaves out the branch for device inodes. It takes an invariant by which every block below a file's size is allocated, as the starting point for every file.
- BufferCache.Cache.Iderw: does not test the device number and the block range, which the model has no bounds for.
- BufferCache.Cache.Bget: ends where the C code sleeps; the caller's second look is another call.
- BufferRuns.ReadsAreOverlaidDisk: is about runs in which callers log or write what they change before they release a buffer, as the comments of bio.c ask; without that a change is lost when the buffer is recycled. BufferRuns.StepKeepsData and BufferRuns.LoadedShowsBlock suppose the same, the other results on bio.c do not.
- BufferRuns.StepKeepsData: the same restriction.
- BufferRuns.LoadedShowsBlock: the same restriction.
- Umalloc.Allocator.Malloc: takes request sizes for which the 32-bit computations do not overflow, whose exact bound is Umalloc.FitsExactly. Addresses count header units, and the static header lies below the heap.
- Minix.Memory.AllocMem: does not model the width of `phys_clicks`; physical addresses are unbounded.
- Minix.Memory.FreeMem: takes blocks that are not free already, as its callers give it. The questions mem_init asks the kernel are left out.
- FAT12, volume and partition detection in `SdVolume::init`, directories, long operations on names, and time stamps of `SdFile`: not part of this model.
- SdVolume.SdVolume.constructor: takes the volume's geometry as given. A second `SdVolume::init` of the same object on another card, which does not reset the search start, is left out.
- SdFile.SdFile.constructor: leaves out the attribute tests, O_TRUNC and the directory case of `openCachedEntry`.
- SdFile.SdFile.Write: does not model the narrowing of the result to 16 bits, the wrap of the file size at 32 bits, the time-stamp callback and FAT16 root directories.
- SdFile.SdFile.Read: the same restrictions.
- PipeBuffer.Pipe.constructor: leaves out the failures of `pipealloc` to get files or memory.
- PipeProtocol.NoLostWakeup: is about runs without kill, since kill makes it fail; the exact step is in PipeProtocol.StepKeepsAwake.
- ProcRuns.ReapedAtMostOnce: does not model the wrap of `nextpid`; pids are unbounded.
- Files, the current directory, memory and names of processes in `xv6/proc.c`: not part of this model.
- Vm.Machine.DeallocUvm: takes sizes up to KERNBASE and pages that have their frames to themselves, as its callers give it. No caller starts it inside a missing table with pages behind it.
- Vm.Machine.Kfree: takes a frame that is not free, which the source does not test.
- `allocuvm`, `loaduvm`, `copyout` and user pointers: not part of this model.
- Vm.Machine.MapPages: takes a size of at least one byte that does not pass the end of the address space, and a page-aligned physical address, as all its callers give it.
- `runcmd` and the line reader of `xv6/sh.c`, and memory exhaustion in its constructors: not part of this model.
- The buffering loop of `xv6/grep.c`: only the matcher is modelled.
- `mostrar` and the thread start-up of `filosofos.c`, which passes all threads the address of one loop variable: each philosopher has its own fixed number.
