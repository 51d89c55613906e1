# A Dafny model of xv6 with shared memory

This project models the parts of an xv6 kernel (x86, with System V style shared
memory) and of two of its user programs whose correctness depends on whole runs, and
proves what they promise. Code that updates state in place is a class whose methods
change its fields; protocols between processes are step machines over which safety
is proved for every run, and that no run gets stuck; recursive code is functions.

| part | files |
|---|---|
| redo log over a buffer cache over a disk | `Blocks`, `CrashLog`, `LruList`, `Buffers`, `BufferCache`, `Log`, `LogProtocol` |
| file blocks | `FsLayout`, `FsOwnership`, `FsContents`, `FsWrite`, `FsSpace`, `FileSystem`, `OpenFile`, `FsCrash` |
| user heap | `FreeList`, `Heap` |
| physical pages, page tables, shared memory | `PageTables`, `Mappings`, `Vm`, `ShmSlots`, `Shm` |
| processes, sleep locks, pipes | `ProcTable`, `SleepLocks`, `Pipe`, `PipeProtocol` |
| shell parser and regular expressions | `Shell`, `ShellParser`, `ShellGrammar`, `ShellRoundTrip`, `Grep` |

`dafny verify dfyconfig.toml` checks the project.

## How the parts fit together

**Crash safety.** A disk is a sequence of blocks and one block write is one step.
`CrashLog` lists the image each block write of a commit and of a recovery leaves, and
proves that recovery from any of them yields the whole old or the whole new state,
however often recovery is itself cut short. `Log` is the code; its contracts say that
the disk goes through exactly those images, whatever other processes read between its
steps, so the theorems are about the code, and that a commit stops only with every buffer
pinned or referenced or at a block that another process has locked. `FsCrash.CommitFiles`
says it for files.
`BufferCache` proves that cache, pins and disk always present one map from block to
contents, and counts the buffers in use: there is one to recycle exactly while fewer than
NBUF are pinned or referenced. `LogProtocol` is the concurrent side: operations are never split over two
commits, the "too big a transaction" panic is unreachable exactly when operations
log fewer than MAXOPBLOCKS distinct blocks, and then no operation is shut out for good.

**Files.** `FileSystem` works on the logical disk that cache and log present. A ghost
map gives each allocated block the one inode slot that names it; the bitmap agrees with
that map before and after every operation. On top of it reads and writes refine slicing and overwriting a
byte string, every block that changes is logged, and a write meets the panic "out of
blocks" exactly when there are fewer free blocks than the blocks it touches lack
(`FsSpace`). `FsCrash` joins the two halves: wherever a commit stops, what is recovered
is a sound file system whose files are all as before or all as after. A chunk of
`filewrite` logs at most 7 blocks when one bitmap block covers
the disk, which is within the budget for which the log cannot panic; on larger disks the
bound is 10, and 10 is exactly the budget for which `LogProtocol` exhibits a panic.

**Heap.** The free list is a ring of headers in memory. Every unit obtained from sbrk is
in one free block or one live block; the list is ordered by address and fully coalesced.
The bytes that malloc returns are in the new block alone.

**Address spaces.** Each physical page has one role: free, held by the kernel, a page
directory, the page table of one directory entry, or the page of one user entry. All of
`vm.c`'s routines keep the roles and the tables in agreement, from the state that
`freerange` makes at boot. Shared-memory attachments
are proved aligned, in range, pairwise disjoint and mapped, through first fit and
SHM_REMAP, and the pages of a region belong to it alone.

**Processes.** `ProcTable` interleaves the CPUs, with ptable.lock handed over through
swtch; the scan of `wait` is one step per table entry. `SleepLocks` and `PipeProtocol` interleave processes at the granularity of one
spin-lock operation per step. In all three a run is a list of enabled actions from the
initial state, and in every state a run can reach some step is possible, or, for a pipe
whose writers are not killed, every call under way waits for the other end.

**Shell and grep.** Words in a parse tree are pairs of offsets into the line, as in the
source. `ShellParser` is the cursor-moving code, proved equal to the functions of
`Shell`; `ShellGrammar` states the grammar by derivations and proves that exactly the lines
it derives are accepted, each with the tree of its derivation; `ShellRoundTrip` prints
trees and parses them back, in both orders. `Grep` compares the matcher
with the set of strings that split into one piece per pattern item.

## Where code and expectation differ

- `begin_op` reserves LOGSIZE blocks but `log_write` refuses the last one and refuses
  before it absorbs. `LogProtocol.PanicFreeExactly` gives the exact budget.
- The comment in `file.c` counts slop blocks; the bound proved comes from what `writei`
  logs.
- `shmat` with an address that is not page-aligned and without SHM_RND attaches at
  HEAPLIMIT. The model does the same (`Shm.Chosen`).
- `shmat` looks for an attachment that holds the target address only, so a segment that
  begins in a gap and runs into an attachment panics, SHM_REMAP or not. `Shm.Shm.Shmat`
  says exactly when, for an attach that gets as far as mapping with memory enough;
  `Shm.RemapPanics` is a run that panics.
- A commit takes buffers while readers hold some, since `fileread` does not enter the
  log, so a commit can meet the panic "no buffers" (`Log.ReadersStopCommit`: three
  operations that log 28 blocks, two readers, and the last `end_op`). If the readers
  stand still, it does exactly when every buffer is pinned or referenced and some log
  block it needs is not among them (`Log.Log.Commit`); that is, when nobody references
  the log, exactly when the n logged blocks and the clean buffers referenced make up
  NBUF (`Log.Log.RoomToCommit`). It panics before the commit point.
- An attach that runs out of memory or of slots leaves the pages it mapped; the call of
  `deallocuvm` there does nothing, since its second size is the larger.
- `shmget` counts one page more than its comment says when the size is a multiple of
  the page size, and a second IPC_PRIVATE request finds the first private region.
- A writer that is killed while the pipe is full returns without waking readers.
  `PipeProtocol.SafeExactly` says exactly when that can lose a wakeup.
- `>>` gives the same tree as `>`.

## Model

| member | source | states |
|---|---|---|
| CrashLog.HeaderRoundTrip | log.c:86-113 | read_head returns the list write_head stored, for every list that fits |
| CrashLog.HeaderWords | log.c:102-113 | the header block holds the count in its first word and the listed block numbers in the next ones |
| CrashLog.Installed | log.c:70-82 | the first k copies change only home blocks listed among the first k entries |
| CrashLog.LogWritten | log.c:178-190 | after k copies log block i holds the cached contents of the ith listed block, and nothing else has changed |
| CrashLog.InstallAbsorbs | log.c:70-82 | installing over a disk on which some listed blocks were already installed gives the same blocks |
| CrashLog.PartInstallRecovers | log.c:70-122 | recovery from a partly installed disk gives what recovery from the original would |
| CrashLog.RecoveryIdempotent | log.c:116-122 | every image recovery can leave when it crashes recovers to the same disk |
| CrashLog.RepeatedCrashesInRecovery | log.c:116-122 | any number of interrupted recoveries, each of what the last left, end in the same disk |
| CrashLog.InstalledFromLog | log.c:70-82 | after installing, each listed block holds its cached contents, also when listed twice |
| CrashLog.CommitPointRecovers | log.c:98-113 | once the header is on disk, recovery gives the new state outside the log |
| CrashLog.CommitTailIsRecovery | log.c:193-202 | after the header write, commit writes what recovery would write |
| CrashLog.CommitImageAt | log.c:177-202 | which image the ith block write of a commit leaves |
| CrashLog.CommitIsAtomic | log.c:69-122 | wherever commit stops, recovery yields the whole old state before the header write and the whole new state from it on |
| CrashLog.CommitCompletes | log.c:193-202 | a commit of n blocks makes 2n+2 writes and ends with an empty log and the new state |
| CrashLog.InvariantSurvivesCrashes | log.c:69-202 | a property of home blocks that holds before and after a transaction holds of what is finally recovered, for every crash point and every chain of interrupted recoveries |
| LruList.List.constructor | bio.c:45-55 | binit links every buffer into one ring, both ways, the last one as the most recently used |
| LruList.List.MoveToFront | bio.c:129-138 | the released buffer becomes the most recently used; the order of the others is kept |
| BufferCache.Cache.constructor | bio.c:39-56 | an empty cache shows the disk, its buffers in the order binit leaves |
| BufferCache.Cache.FindCached | bio.c:69-77 | finds the buffer of the block if there is one, and reports none only if there is none |
| BufferCache.Cache.FindFree | bio.c:79-91 | finds the least recently used buffer that is neither referenced nor dirty |
| BufferCache.Cache.Bget | bio.c:62-93 | returns a buffer for the block with a reference counted; "no buffers" exactly when the block is not cached and no buffer can be recycled |
| BufferCache.Cache.ReadIn | bio.c:97-106 | bread returns the contents last logged or written |
| BufferCache.Cache.Pin | log.c:231 | a logged buffer becomes the pinned current copy of its block |
| BufferCache.Cache.Bwrite | bio.c:110-116 | one disk write; the block then needs no pin |
| BufferCache.Cache.BrelseUnlock | bio.c:121-127 | releasing a buffer keeps the view |
| BufferCache.Cache.BrelseDrop | bio.c:128-140 | the reference is dropped; only the last one relinks the buffer |
| BufferCache.Cache.Other | bio.c:62-141 | what each step of another process's bread or brelse does, and that one that is not possible does nothing; none writes to the disk or changes a buffer that this process holds, awaits or is dropping |
| BufferCache.Cache.Turn | bio.c:62-141 | all steps of a turn of the other processes happen, one after the other, and leave this process undisturbed |
| BufferCache.Cache.Bread | bio.c:97-106 | bread among other processes: it ends with the block's current contents held by the caller, or with the panic, and then the block is not cached and no buffer can be recycled, or waiting for the lock, which is then held; when others take no steps, each exactly under that condition before the call |
| BufferCache.Cache.Brelse | bio.c:121-141 | brelse as one call, between whose halves others may take the buffer |
| Buffers.Recycled | bio.c:79-91 | recycling a free buffer loses no update and duplicates no block |
| Buffers.Logged | log.c:231 | logging changes the presented map at one block, which is then pinned |
| Buffers.Written | bio.c:110-116 | writing makes the disk agree with the presented map at that block |
| Buffers.NotElsewhere | bio.c:79-106 | a block whose buffer is not valid is current on disk |
| Buffers.FreeExactly | bio.c:79-92 | a buffer can be recycled if and only if fewer than all buffers are dirty or referenced |
| Buffers.PinsAndReaders | bio.c:79-92 | the buffers in use are as many as the pinned blocks and the clean buffers that are referenced |
| Buffers.GetsBuffer | bio.c:69-92 | bget of a block that is not pinned finds a buffer if and only if one can be recycled or somebody references the block |
| Buffers.StillObtainable | bio.c:79-92 | whatever a process takes and gives back, no fewer buffers can be recycled, no further block is locked and every reference stays |
| Buffers.NoMoreObtainable | bio.c:79-92 | while the same blocks are pinned, exactly the same blocks can be had |
| BufferCache.Cache.CopyBlock | log.c:74-81 | the copy loop's body, among other processes, moves the current contents of one block over another with one disk write, or changes nothing and panics with no buffer to recycle or waits for a lock that another process has; when others take no steps and have locked neither block, it succeeds with two buffers to recycle, and for a pinned second block exactly when the first can be had |
| Log.Log.constructor | log.c:54-66 | initlog ends with the recovered disk, an empty log and a cache that agrees with the disk, through exactly the images of recovery; every buffer is free |
| Log.Log.BeginOp | log.c:126-141 | an operation enters exactly when no commit is running and a full budget still fits |
| Log.Log.Absorb | log.c:222-228 | the header lists the block once |
| Log.Log.LogWrite | log.c:214-233 | refuses exactly for lack of space or of an outstanding operation; otherwise the block is listed once, pinned, and its new contents are what readers see |
| Log.Log.ReadHead | log.c:86-96 | the in-memory header becomes the one on disk: the count is its first word, the block numbers the next ones |
| Log.Log.WriteHead | log.c:102-113 | one disk write that stores the count and the block numbers of the in-memory header, or none, and then no buffer can be recycled or another process has the header block; when others take no steps, one exactly when the header block can be had |
| Log.Log.InstallTrans | log.c:70-82 | among other processes the disk goes through the first k images of installing and no others; done, every pin is released; it stops early only with no buffer to recycle or at a block of the transaction or the log that another process has |
| Log.Log.WriteLog | log.c:178-190 | among other processes the disk goes through the first k images of writing the log, stopping early only for the same two causes; when they take no steps, it ends exactly when every log block it needs can be had |
| Log.Log.RecoverFromLog | log.c:116-122 | the disk goes through the images of recovery and ends recovered |
| Log.Log.CommitPoint | log.c:195-197 | the disk goes through the log writes to the commit point, or stops on the way there for one of the two causes |
| Log.Log.Commit | log.c:193-202 | for every schedule of readers the disk goes through the first k images for which atomicity is proved, all of them when it ends, and then equals the presented contents, whose home part is unchanged; each image recovers to the old or to the new home blocks; it panics only when no buffer can be recycled and waits only for a block of the log or the transaction that another process has; when the readers take no steps and have locked no block of the transaction, it ends if and only if nothing is logged or every log block it needs can be had, and panics before the commit point otherwise |
| Log.ImagesRecover | log.c:69-202 | every image that a commit leaves recovers to the home blocks of the disk or of the presented contents |
| Log.Log.EndOp | log.c:146-174 | the last operation out commits, with all that Commit states, others leave; "log.committing" panics exactly when a commit is running; committing is cleared exactly when the commit ends |
| Log.ReadersStopCommit | log.c:126-202 | a run on mkfs's layout, initlog, three begin_op, 28 log_write, two reads and three end_op, that ends in the panic "no buffers" |
| Log.Log.RoomToCommit | log.c:177-202 | the buffers in use are the n logged blocks' and the clean ones that are referenced; while nobody references the log, a commit has room if and only if the latter are fewer than NBUF - n |
| LogProtocol.HeaderBound | log.c:126-233 | for every interleaving of operations of at most k < MAXOPBLOCKS blocks the header has at most MAXOPBLOCKS + 2k entries |
| LogProtocol.FullBudgetPanics | log.c:132-219 | a run of three operations of MAXOPBLOCKS blocks each, all admitted, ends in the panic |
| LogProtocol.PanicFreeExactly | log.c:132-230 | the log's panics are unreachable if and only if operations log fewer than MAXOPBLOCKS distinct blocks, absorbed writes included |
| LogProtocol.RunKeepsReservation | log.c:126-233 | admission accounting is kept by every run and no panic occurs |
| LogProtocol.RunKeepsHistory | log.c:126-202 | in every run each operation's blocks belong to one transaction |
| LogProtocol.OperationsNeverSplit | log.c:126-202 | committing implies no outstanding operation; the blocks of one operation are all in one commit; a commit has blocks of ended operations only |
| LogProtocol.NeverShutOut | log.c:126-174 | from every reachable state some run admits a process that waits in begin_op |
| FsLayout.TestBitIs | fs.c:66-67 | the bit tested is the last binary digit of the byte shifted right |
| FsLayout.TestAfterSet | fs.c:66-68 | setting a bit changes that bit of the byte and no other |
| FsLayout.TestAfterClear | fs.c:89-92 | clearing a bit changes that bit of the byte and no other |
| FsLayout.InodeRoundTrip | fs.c:221-312 | ilock reads back what iupdate wrote, and other inodes of the block are untouched |
| FsOwnership.BitAfterMark | fs.c:57-78 | balloc sets one bitmap bit over the whole disk |
| FsOwnership.BitAfterUnmark | fs.c:82-95 | bfree clears one bitmap bit over the whole disk |
| FsOwnership.AllocPointer | fs.c:378-390 | giving an inode pointer a new block keeps bitmap and reachability in agreement and changes no other slot |
| FsOwnership.AllocEntry | fs.c:391-396 | the same for an entry of the indirect block |
| FsOwnership.WriteData | fs.c:498-504 | storing into a data block changes no slot of any inode |
| FsOwnership.FreePointer | fs.c:414-419 | freeing a direct block finds its bit set and keeps agreement |
| FsOwnership.FreeEntry | fs.c:421-427 | freeing an entry finds its bit set although the number stays in the block |
| FsOwnership.FreeIndirect | fs.c:429-430 | freeing the indirect block last restores full agreement |
| FsOwnership.StoreInode | fs.c:221-236 | iupdate changes one inode on disk, no ownership and no data |
| FsContents.OneBlockPerSlot | fs.c:373-400 | distinct file blocks, of one file or of two, are never the same disk block |
| FsContents.WriteBytes | fs.c:498-504 | patching one block overwrites exactly those bytes of the file |
| FsContents.GrownFile | fs.c:373-400 | allocation changes no byte of any file |
| FsWrite.StepWriting | fs.c:498-504 | each turn of writei's loop extends the overwritten range and keeps all else |
| FsWrite.FinishInside | fs.c:506-510 | a write inside the file leaves the on-disk inode equal to the one in memory without iupdate |
| FsWrite.FinishExtended | fs.c:506-510 | a write that grows the file leaves the same after iupdate |
| FsWrite.ReadSlice | fs.c:469-474 | the bytes readi copies are the file's |
| FsWrite.TruncatedOwners | fs.c:408-435 | exactly the blocks of the truncated inode lose their owner |
| FsWrite.FinishTruncate | fs.c:432-435 | after itrunc the state is sound and the file empty |
| FsSpace.FullExactly | fs.c:57-78 | every data block is in use if and only if no free block is left to count |
| FsSpace.NeedStep | fs.c:373-400 | what a range of file blocks needs is what its first block needs, the indirect block included, and what the others need once that is mapped |
| FsSpace.SpentNext | fs.c:498-504 | one more block mapped: the free blocks taken are exactly those needed so far, and no other block of the file has moved |
| FsSpace.SpentShort | fs.c:498-504 | a write that cannot map its next block needed more free blocks than there were |
| FsSpace.SpentThen | file.c:133-152 | the same across two writes, the second of which may start in the last block of the first |
| FileSystem.FileSystem.FindFree | fs.c:63-76 | the first block whose bit is clear, or none when all are set |
| FileSystem.FileSystem.Balloc | fs.c:57-78 | a zeroed data block that nothing reaches, the lowest such, its bit set; both blocks changed are logged; none exactly when every data block is in use |
| FileSystem.FileSystem.Bfree | fs.c:82-95 | clears the bit and logs its block; panics exactly when the bit is clear, and then changes nothing |
| FileSystem.FileSystem.Bmap | fs.c:373-400 | an existing block is returned with nothing changed; otherwise a new one is, every file keeping its bytes; every block that changes is logged, at most one bitmap block per allocation; within range it fails exactly when fewer free blocks are left than the block and the indirect block lack |
| FileSystem.FileSystem.Iupdate | fs.c:221-236 | stores the inode and logs its block, the only one that changes |
| FileSystem.FileSystem.WriteLoop | fs.c:498-504 | the bytes written so far are laid over the old file; every block that changes is logged, and those logged are counted; it runs out of blocks if and only if fewer are free than the file blocks touched lack |
| FileSystem.FileSystem.Extend | fs.c:506-510 | the new size is in the inode in memory and on disk, the block map is the same and the inode block is logged |
| FileSystem.FileSystem.Writei | fs.c:482-511 | a device gets its driver's answer, and nothing changes; a file returns -1 exactly for a start past the end, a wrap-around or a too large file; otherwise the file is the old byte string with src laid over it, no other file changes, no hole appears, and inodes on disk equal those in memory; every block that changes is logged, and their number is bounded; "out of blocks" occurs if and only if fewer blocks are free than the file blocks touched lack, and otherwise exactly so many are taken |
| FileSystem.FileSystem.Readi | fs.c:453-476 | a device gets its driver's answer; a file returns the slice of the file, cut at its end, or -1 exactly when off is past the end or off+n wraps; allocates and changes nothing |
| FileSystem.FileSystem.TruncDirect | fs.c:413-419 | frees the direct blocks; the panic "freeing free block" does not occur |
| FileSystem.FileSystem.TruncIndirect | fs.c:421-431 | frees the entries and the indirect block; the panic does not occur |
| FileSystem.FileSystem.Itrunc | fs.c:408-435 | the file becomes empty, exactly its blocks become free, every other file keeps its bytes; every block that changes is logged |
| FileSystem.Format | mkfs.c:238-251 | zeroing a disk and marking its metadata blocks gives a sound file system of empty files, for every layout whose metadata one bitmap block covers |
| FileSystem.FormattedSound | mkfs.c:110-165 | a disk whose bitmap marks exactly the metadata blocks, and whose inode blocks are zero, is a sound file system of empty files |
| OpenFile.ChunkSpan | file.c:133-139 | a chunk touches at most four blocks, three when aligned |
| OpenFile.ChunkCost | file.c:128-152 | a chunk logs at most MAXOPBLOCKS blocks at any offset, at most 7 when one bitmap block covers the disk |
| OpenFile.OpenFile.WriteChunk | file.c:141-145 | one transaction: the file is overwritten at the offset, which advances, or nothing changes; every block that changes is logged, within the bound; out of blocks exactly when too few are free |
| OpenFile.OpenFile.Write | file.c:118-156 | the file ends with a prefix of the data laid over it: all of it when it fits, otherwise as many whole chunks as fit from an offset within the file, none past its end; every block that changes is in one of the transactions, each within the bound; out of blocks if and only if fewer are free than the blocks of that prefix lack |
| OpenFile.ChunkStored | file.c:133-152 | a chunk is within the prefix stored if it ends within the largest file, and the first that does not starts where the prefix ends |
| FsCrash.SoundElsewhere | log.c:69-122 | a file system is sound, with the same files, on every disk that differs in the log only |
| FsCrash.FilesSurviveCrashes | log.c:69-202 | for every crash point of a commit and every chain of interrupted recoveries the recovered file system is sound, with every file as before the transaction or every file as after it |
| FsCrash.CommitFiles | log.c:69-202 | for the code, every schedule of readers, every image left on disk and every chain of interrupted recoveries from it: a sound file system with all files old or all files new; done, 2n + 2 blocks have been written; otherwise the commit has stopped for one of its two causes |
| FreeList.JoinAboveOpens | umalloc.c:33-37 | joining the block above keeps the ring ordered and leaves only the join below open |
| FreeList.JoinBelowMerges | umalloc.c:38-40 | joining the block below closes the ring, fully coalesced |
| FreeList.JoinBelowLinks | umalloc.c:41-42 | linking without a join closes the ring, fully coalesced |
| FreeList.TakeWhole | umalloc.c:76-77 | an exact fit leaves a well-formed ring |
| FreeList.TakeTail | umalloc.c:78-82 | a split leaves a well-formed ring and a tail that is not on it |
| FreeList.FreePartition | umalloc.c:25-44 | free moves the block's units from live to free and conserves every unit |
| FreeList.TakePartition | umalloc.c:75-85 | malloc moves units from free to live and conserves every unit |
| Heap.LiveOwnsBytes | umalloc.c:64-90 | each byte behind the header of a live block is in a unit of that block, of no other live block and of no free block |
| Heap.StopsAtGap | umalloc.c:30-32 | the search condition stops at the gap for the block and at no other list element |
| Heap.Heap.Search | umalloc.c:30-32 | from any position the search terminates at the block's predecessor |
| Heap.Heap.Free | umalloc.c:25-44 | a live block becomes free, coalesced with its neighbours; every other block stays; freep is left at the last free block below |
| Heap.Heap.Morecore | umalloc.c:47-61 | a failed sbrk changes nothing; otherwise the new memory, at least 4096 units, is one free extent |
| Heap.Heap.Scan | umalloc.c:74-86 | the first large enough block after freep round the ring, or none only if all are smaller |
| Heap.Heap.Take | umalloc.c:75-85 | hands out the block or its tail and leaves the rest; no free unit follows what is handed out |
| Heap.Heap.Malloc | umalloc.c:64-90 | terminates with at most one morecore, called only when nothing fits; the block returned is new, disjoint from live blocks and is the tail of the first fit; behind its header it has nbytes rounded up to whole headers, all of them in no other live or free block; failure leaves the list unchanged |
| PageTables.PteAfterStore | vm.c:40-84 | a store through walkpgdir is seen at one page of one directory only |
| PageTables.MapUser | vm.c:65-84 | mapping an absent user page hands the frame from the kernel to that entry |
| PageTables.UnmapUser | vm.c:272-279 | unmapping gives the frame back; no other entry had it |
| PageTables.AddTable | vm.c:49-57 | a new page table changes no mapping |
| PageTables.FreeTable | vm.c:296-301 | freeing a page table leaves every other directory's mappings |
| PageTables.FreeDir | vm.c:302 | freeing the directory last leaves ownership exact |
| PageTables.NewDir | vm.c:128-130 | a cleared page is an address space that maps nothing |
| Mappings.SkipAbsent | vm.c:270-271 | skipping absent pages does not change the page-by-page result |
| Mappings.UnmapSkip | vm.c:268-271 | skipping the rest of a directory entry equals unmapping its pages one by one |
| Mappings.UnmapOne | vm.c:272-280 | freeing one page releases exactly its role |
| Mappings.MapUserPage | vm.c:72-82 | one turn of mappages below HEAPLIMIT |
| Mappings.MapKernelPage | vm.c:72-82 | one turn of mappages above it |
| Mappings.DropRestores | vm.c:288-350 | dropping an address space built from free pages restores every page's role |
| Mappings.FreeSetRestored | kalloc.c:60-95 | the roles of the pages determine the free list up to its order |
| Mappings.KernelAbsent | vm.c:111-116 | the rows of kmap do not overlap, so setupkvm cannot panic |
| Vm.Vm.constructor | kalloc.c:32-37 | kinit1 leaves every page up to its bound free, listed once and filled with junk, the others with the kernel, and ownership exact |
| Vm.Vm.Freerange | kalloc.c:39-52 | exactly the whole pages in the range become free, the last one first in the list; with kinit2's range it completes the allocator |
| Vm.Vm.Kalloc | kalloc.c:83-95 | pops a free page or reports that none is left |
| Vm.Vm.Kfree | kalloc.c:60-77 | pushes the page; each free page is listed once afterwards if and only if the page was not free already |
| Vm.Vm.Walkpgdir | vm.c:40-59 | finds the page table, or adds an empty one exactly when asked and a page is free |
| Vm.Vm.Mappages | vm.c:65-84 | the first k pages are mapped and nothing else; all of them, or the next page was present (panic), or no page was left for a table; it takes at most one page for each page table spanned |
| Vm.Vm.Deallocuvm | vm.c:260-283 | equals unmapping page by page, free list included; exactly the pages in range are unmapped and freed; the panic on page 0 cannot occur |
| Vm.Vm.Freevm | vm.c:288-303 | exactly the pages of the address space become free; other address spaces and their contents are unchanged |
| Vm.Vm.Setupkvm | vm.c:123-140 | a new address space with the kernel's mappings and no others, or every page as before; it fails only with at most 67 pages free |
| Vm.Vm.Allocuvm | vm.c:226-253 | new zeroed pages in the range and nothing else, or, when memory runs out, the user mapping as before with only page tables added; it fails only with fewer than two free pages per page asked for |
| Vm.Vm.Copyuvm | vm.c:321-350 | a copy with equal contents and permissions in frames of its own, or every page as before; dropping the copy restores all roles; it panics only if a page below the size is absent, and makes no copy then; it runs out of memory only with at most 67 pages and two for each page copied free, so with more it makes the copy if and only if every page below the size is present |
| Vm.Vm.CopyAndFree | vm.c:288-350 | copying an address space and freeing the copy puts every page back where it was, and the free list holds what it held; with memory enough the copy is made if and only if every page below the size is present |
| ShmSlots.GetLeastvaidx | vm.c:533-548 | the attachment with the least start at or above the address, or -1 exactly when there is none |
| ShmSlots.FirstFit | vm.c:653-665 | the lowest address from HEAPLIMIT on where the segment overlaps no attachment: every lower address is blocked |
| ShmSlots.SearchStep | vm.c:655-663 | moving past an attachment that leaves too small a gap skips only blocked addresses |
| ShmSlots.EvictNext | vm.c:682-693 | detaching the lowest overlapping attachment evicts exactly up to its end |
| Shm.Shm.constructor | proc.c:115-123 | a new process has no attachments |
| Shm.Shm.Shmget | vm.c:418-527 | an existing key gives its region exactly when size, mode and flags agree and changes nothing; a new key gives the first unused region, of size / PGSIZE + 1 zeroed pages of its own and the mode asked for, or -1 exactly under the stated conditions; keys stay unique |
| Shm.Shm.Create | vm.c:481-522 | a new region's pages were free, are zeroed and are in no other region; without memory no region appears |
| Shm.Shm.Shmdt | vm.c:553-611 | succeeds exactly when an attachment starts there; exactly its pages are cleared, its slot is emptied and its region's attach count follows; clean tables stay clean |
| Shm.Shm.Evict | vm.c:678-699 | SHM_REMAP's loop terminates and detaches exactly the attachments that overlap the new range |
| Shm.Shm.MapSegment | vm.c:710-716 | maps the region's frames page by page; pages it fails to reach are untouched; it runs out of memory only with no free page and no table for the next page |
| Shm.Shm.Install | vm.c:710-735 | on success the attachment is recorded in the first empty slot; without a slot the pages stay mapped |
| Shm.Shm.Place | vm.c:678-737 | room is made only by evicting overlapping attachments; the result is an attachment, a refusal or the remap panic, each under its condition; permission is refused exactly when the attach is not read-only and the mode is neither; pages and slot get PTE_W with PTE_U exactly for mode RW_SHM without SHM_RDONLY, and PTE_U otherwise; with no slot left nothing collided; tables that were clean are clean after an attach and after one that mapped nothing |
| Shm.Shm.Shmat | vm.c:616-738 | in every outcome attachments stay aligned, in range, disjoint and mapped; each refusal is given its exact condition, among them "no space" exactly when the chosen address does not leave room below KERNBASE; permission is refused exactly when the attach is not read-only and the mode is neither; on success every page of the segment shows its frame, writable exactly for mode RW_SHM without SHM_RDONLY, and the slot records that; attach counts of other processes are unchanged and no page of a region changes hands; on clean tables (every present page between HEAPLIMIT and KERNBASE belongs to an attachment) an attach that is not refused for permission or memory panics if and only if no attachment holds the target and the segment overlaps one, which holds in advance given more free pages than the segment has; so not with shmaddr 0 and not with SHM_REMAP inside an attachment; clean tables stay clean unless an attach fails after mapping a page |
| Shm.RemapPanics | vm.c:671-716 | from boot: shmget twice, one page attached at HEAPLIMIT + PGSIZE, then two pages at HEAPLIMIT with SHM_REMAP panic |
| Shm.CleanCollides | vm.c:671-716 | on clean tables some page of the segment is present and not about to be evicted if and only if nothing is evicted and the segment overlaps an attachment |
| Shm.AttachClean | vm.c:710-731 | a successful attach keeps every present page attached |
| Shm.EvictClean | vm.c:677-708 | so does an attach that maps nothing, its evictions included |
| Shm.DetachClean | vm.c:553-579 | so does a detach |
| Shm.FreshClean | vm.c:123-140 | the space that setupkvm makes is clean |
| Shm.CopyClean | vm.c:321-350 | so is the space that copyuvm makes |
| Shm.HeapClean | vm.c:226-283 | growing and shrinking the heap keep the tables clean |
| ProcTable.OneCpuEach | proc.c:354-413 | for every interleaving a process is on at most one CPU, its kernel stack exists, and it is RUNNING or its CPU still has ptable.lock |
| ProcTable.StepRunning | proc.c:354-413 | a RUNNING process is always on some CPU |
| ProcTable.StepScans | proc.c:310-341 | the entries that wait's scan has passed are no zombie children, whatever other CPUs do, until the process sleeps |
| ProcTable.ScanAsSteps | proc.c:310-341 | the steps of a scan end as its loop does: with the first zombie child reaped, or past the last entry with the process asleep on itself |
| ProcTable.ReapedIsOffCpu | proc.c:304-343 | whenever wait may free a child, no CPU is on the child's stack |
| ProcTable.FamilyHolds | proc.c:190-343 | every started process but init has a parent that is neither unused, embryo nor zombie; a parent asleep in wait has no zombie child |
| ProcTable.StepForks | proc.c:74-245 | an embryo belongs to the one process whose fork builds it, through the writes fork makes without the lock |
| ProcTable.StepInv | proc.c:190-413 | every step of every CPU keeps the whole invariant |
| ProcTable.NoDeadlock | proc.c:354-413 | in every reachable state some CPU can take a step: the holder of ptable.lock, or, when it is free, any |
| ProcTable.RunnableRuns | proc.c:354-387 | an idle CPU, with ptable.lock free, can pick any runnable process and run it, and changes nothing else |
| ProcTable.ForkLaunches | proc.c:74-245 | the steps of a fork that has its memory make an unused entry a runnable child with a kernel stack and the caller as its parent, and change nothing else |
| ProcTable.KillWakes | proc.c:511-529 | the steps of kill make the process runnable if it sleeps, and change nothing else |
| ProcTable.Table.Wakeup1 | proc.c:489-496 | an entry changes if and only if it was sleeping on the channel, and then only its state, to runnable |
| ProcTable.Table.Exit | proc.c:281-296 | the children pass to init and the process becomes a zombie; another entry changes state if and only if it slept on the parent, or on init while a child is a zombie, and becomes runnable; nothing else changes |
| ProcTable.Table.ScanChildren | proc.c:310-340 | the first zombie child is reaped, or there is none and the caller learns whether it has children |
| SleepLocks.NoLostWakeup | sleeplock.c:22-42 | in every run, once the guarding spin lock is free a process asleep on the sleep lock means the lock is held |
| SleepLocks.MutualExclusion | sleeplock.c:22-42 | in every run at most one process has the sleep lock, and its pid is recorded |
| SleepLocks.StepSleepers | proc.c:449-505 | taking ptable.lock before releasing the guard keeps every sleeper justified |
| SleepLocks.NoDeadlock | sleeplock.c:22-42 | in every reachable state some process can get on |
| SleepLocks.FreeLockTaken | sleeplock.c:22-32 | from acquiresleep on a free lock a process comes, by its own steps, to hold it, with both spin locks free |
| SleepLocks.HeldLockAwaited | proc.c:449-479 | from acquiresleep on a held lock it comes, by its own steps, to sleep, with both spin locks free, and kill makes it try again |
| SleepLocks.ReleaseWakesAll | sleeplock.c:34-42 | releasesleep frees the lock and makes every process asleep on it runnable |
| Pipe.RingGap | pipe.c:82-105 | the tests on the wrapped 32-bit counters mean full and empty; their difference modulo 2^32 is the number of bytes held, 0 to PIPESIZE |
| Pipe.Pipe.WriteRun | pipe.c:84-94 | bytes are accepted in order until the pipe is full or all are in |
| Pipe.Pipe.ReadRun | pipe.c:113-117 | the oldest bytes held are delivered in order, n of them or all |
| Pipe.Pipe.Close | pipe.c:60-75 | one end closes; the pipe is freed exactly when both are closed |
| PipeProtocol.NoLostWakeup | pipe.c:78-121 | in every run in which no process that writes is killed, once the pipe's lock is free a sleeping reader means an empty pipe with its write end open, a sleeping writer a full pipe with its read end open |
| PipeProtocol.KilledWriterForgets | pipe.c:85-88 | a run that ends with the lock free, a full pipe and a reader asleep on it |
| PipeProtocol.SafeExactly | pipe.c:78-121 | no reachable state forgets a sleeper if and only if no process that may write may be killed |
| PipeProtocol.StuckExactly | pipe.c:78-121 | in a run in which no process that writes is killed, no call can go on if and only if each is a reader asleep on an empty pipe with its write end open or a writer asleep on a full one with its read end open, never both kinds |
| PipeProtocol.ReadReturns | pipe.c:101-121 | a read that nobody disturbs, of a pipe with bytes or without writers, delivers the n oldest bytes or all there are, wakes the writers and returns with both spin locks free |
| PipeProtocol.WriteReturns | pipe.c:79-98 | a write that nobody disturbs, with the read end open, puts in what there is room for and wakes the readers; it returns if that is all of it and sleeps with the rest otherwise |
| PipeProtocol.CloseReturns | pipe.c:60-75 | a close that nobody disturbs closes its end and wakes the other side |
| PipeProtocol.DeliversInOrder | pipe.c:78-121 | for any number of readers and writers, any first contents of the ring and counters that wrap at 2^32, the bytes delivered are a prefix of the bytes accepted, and nwrite - nread modulo 2^32 is how far they are behind, at most PIPESIZE |
| PipeProtocol.StepFifo | pipe.c:84-117 | every step keeps the ring cells from nread to nwrite, modulo PIPESIZE, equal to the accepted bytes not yet delivered |
| PipeProtocol.OtherJustified | proc.c:449-505 | no step of one process leaves another asleep without reason |
| Shell.Gettoken | sh.c:266-308 | the cursor advances past any token; a word token consists of word characters and ends where none follows |
| Shell.ParseLine | sh.c:345-359 | parsing terminates on every text and the cursor never moves back |
| ShellParser.Parser.GetToken | sh.c:266-308 | the scanning loops compute the next token |
| ShellParser.Parser.PeekAt | sh.c:311-320 | skips white space and tests the next character |
| ShellParser.Parser.Redirs | sh.c:375-397 | the loop collects the redirections in order |
| ShellParser.Parser.Line | sh.c:345-359 | the loop over & and the recursion after ; compute the line's tree |
| ShellParser.Parser.Pipeline | sh.c:362-372 | computes the pipeline's tree |
| ShellParser.Parser.Block | sh.c:400-413 | computes the block's tree or the missing parenthesis |
| ShellParser.Parser.Simple | sh.c:416-446 | arguments and redirections in any order, or a syntax error, or too many arguments |
| ShellParser.Parser.Command | sh.c:328-342 | the whole line is a command or an error |
| ShellParser.NulTerminate | sh.c:450-493 | a NUL is stored at the end of every word of the tree and nowhere else |
| ShellParser.WordsSurvive | sh.c:449-493 | for every line that parses, each argument and file is after nulterminate the C string scanned; no terminator damages another word |
| ShellGrammar.TokenText | sh.c:266-308 | only white space lies before and behind a token, and it is a whole word, >>, one operator, or the end of the line |
| ShellGrammar.LineSound | sh.c:328-446 | what the parser accepts has a derivation that yields its lexemes and has its tree |
| ShellGrammar.LineComplete | sh.c:328-446 | whatever lexemes a derivation yields, wherever it ends, the parser reads to the derivation's tree |
| ShellGrammar.DerivedIsParsed | sh.c:328-446 | a line that the grammar derives is parsed, to the tree of its derivation |
| ShellGrammar.AcceptsExactly | sh.c:328-446 | a line is accepted if and only if the grammar derives it, with fewer than MAXARGS arguments to each command; every other line is an error |
| ShellRoundTrip.ParsePrint | sh.c:266-446 | for every tree with valid words and fewer than MAXARGS arguments, parsing its printed form gives the tree back |
| ShellParser.LineFormed | sh.c:266-446 | every tree the parser returns consists of words of the line, with fewer than MAXARGS arguments to a command |
| ShellRoundTrip.PrintParsed | sh.c:266-446 | every tree the parser returns for a line can be printed, and parsing that gives the same tree |
| ShellRoundTrip.HeadToken | sh.c:266-308 | scanning printed tokens yields them one by one |
| ShellRoundTrip.LineBack | sh.c:345-359 | a printed line followed by what may follow a line is read as that line |
| ShellRoundTrip.ExecBack | sh.c:400-446 | a printed simple command or block is read as that command |
| Grep.FirstPiece | grep.c:85-106 | a string is in the language of a list of items exactly when it begins with a piece for the first item and the rest is in the language of the rest |
| Grep.PrefixOne | grep.c:93-94 | the branch for one character |
| Grep.PrefixStar | grep.c:89-90 | the branch for a starred character |
| Grep.PrefixEnd | grep.c:91-92 | the branch for a final $ |
| Grep.MatchHere | grep.c:85-96 | true exactly when a prefix of the text is in the pattern's language, all of it when $ ends the pattern |
| Grep.MatchStar | grep.c:99-106 | true exactly when some run of the starred character is followed by a match |
| Grep.Match | grep.c:73-82 | true exactly when the text has a substring in the pattern's language, at the start when ^ begins the pattern, at the end when $ ends it |

## Left out

- Log.Log.Commit: other processes take the steps of bread and brelse only, since operations wait while a commit runs; the exact panic condition is for readers that stand still, the cause of a panic for all; the log area has at most LOGSIZE blocks, as mkfs makes it.
- Log.Log.LogWrite: models the section under log.lock together with the space test before it; `LogProtocol` has them as separate steps.
- FileSystem.FileSystem.Balloc: one file-system operation at a time; two processes that allocate for different inodes are not interleaved between the bitmap update and the store of the block number.
- FileSystem.FileSystem.Readi: what a driver does; its answer is a parameter, here and in Writei.
- FileSystem.FileSystem.Writei: the files are taken to have no holes before the first write.
- FileSystem.Format: adds no files; mkfs goes on to fill the root directory.
- OpenFile.OpenFile.Write: pipes and files not open for writing.
- Heap.Heap.Malloc: sizes whose header count overflows 32 bits; sbrk's answer is a parameter, assumed above `base` and not handed out before.
- Vm.Vm.Kfree: the kernel panic on an address that is not an allocatable page; callers prove that the page is not free, the code does not test it.
- Vm.Vm.Mappages: a size of zero bytes, and ranges that wrap around 2^32.
- Vm.Vm.Deallocuvm: an old size above HEAPLIMIT when pages are to be freed, which no caller passes.
- Vm.Vm.Allocuvm: pages above the old size are absent, as the process size promises; otherwise the kernel panics.
- Shm.Shm.Shmat: shmid 64, which the bound check lets through to index past the table; other processes between the lock releases of SHM_REMAP.
- Shm.Shm.Shmdt: deferred deletion of regions marked by IPC_RMID while attached, which indexes the region table with the process's slot.
- Pipe.Pipe.Close: its wakeups, which are steps of `PipeProtocol`.
- Shell.ParseLine: bounds the cursor only; what it accepts and what the tree is, `ShellGrammar` states.
- ProcTable.Table.ScanChildren: the killed flag, pid and name of the reaped process.
- shmctl: field copies, and removal of regions; the latter is in scope only for regions without attachments.
- fork with live attachments: it copies them without raising the attach count.
- Directories, path names, link counts and inode allocation.
- Device drivers, interrupts, boot code, segment setup and address-space switches.
- System-call argument fetching, exec and ELF loading, user programs other than the shell's parser and grep's matcher, and grep's line buffering.
- The spin-lock implementation and weak memory: acquire and release are atomic steps.
