# Verified models of the xv6 RISC-V kernel

The modules here model the parts of xv6 whose correctness is not visible from any one
function, and prove what those parts are for. Imperative code is a class whose methods have
the loops and branches of the C functions; each method is proved against a specification
function or relation, and the promises of the component are lemmas about that specification.
Protocols between processes, and between the kernel and a crash, are state machines whose
invariants are proved for every step and so for every run. A panic is an outcome, not a
precondition.

- **Redo log and buffer cache.** `Redo` is the on-disk protocol: what any prefix of the
  writes of commit and of recovery leaves, and where recovery ends. `LogMachine` interleaves
  bget, bread, log_write, brelse, begin_op, end_op, the block writes of commit, and crashes,
  and refines them to a transactional block store. `LogCode` is log.c and bio.c as code; its
  methods follow the machine's events and the disk states of `Redo`. `LogLimits` holds the
  exact conditions under which the reservation falls short, `LogBoot` what a boot that
  recovers a block does to a later update of it.
- **File contents.** `FsModel` and `FsCode`: bitmap, direct and indirect addresses, readi,
  writei, itrunc, and filewrite with what each of its transactions logs, down to the bits and
  words of the disk blocks. `Dir` is directories as bytes of a file: dirlookup and dirlink.
  `Mkfs` builds the image that the kernel starts from, and finds and reads back by name what
  was put into it.
- **Buddy allocator.** `Buddy` (the tree kept in two bitmaps and the free lists), `BuddyInit`
  (marking and the first lists), `BuddyLayout` (sizes and bitmaps for a number of bytes),
  `BuddyAddr` (addresses and indices). `Bits` and `List` are the bitmaps and the circular lists
  underneath, `BuddyStore` relates them to the tree, and `BuddyCode` is the code over them.
- **Page tables and page frames.** `VmModel`, `VmRange`, `VmGrow`, `VmFree` (the tree, ranges
  of pages, growing and copying, freeing) and `VmCode` (kalloc.c and vm.c as code). The entry
  layout and the three-level translation are those of section 4.4 (Sv39) of the RISC-V
  privileged architecture.
- **Processes.** `Sched`: processes, CPUs and sleep locks as one machine; mutual exclusion and
  no lost wakeup over every run. `WaitExit`: exit, wait and reparent over p->lock and p->parent.
- **User-level malloc.** `Umalloc`: the allocator of section 8.7 of The C Programming
  Language, 2nd edition.
- **Shell parser.** `Sh`: the recursive descent over a buffer with pointers into it.
  `ShGrammar`: the language and its meaning, independent of the parser, and that the parser
  accepts exactly this language with exactly this meaning.
- `Options` and `Params` hold what several modules share.

Where the code does not do what its comments or callers expect, the code is modelled as it
is and the exact condition is proved:

- Recovery unpins buffers that nobody pinned, so a reference count wraps to 2^32-1. A state
  that satisfies the cache's invariant has the buffers that recovery leaves if and only if
  nothing was recovered (`LogCode.CleanBootExact`). After a boot that recovered a block,
  `LogBoot.UpdateLost` is an execution of the code that loses a logged update of that block.
- Recovery of a header with NBUF blocks panics for lack of buffers, at every boot, and with
  fewer it never does (`LogCode.Kernel.RecoverFromLog`).
- begin_op reserves up to LOGSIZE blocks, mkfs makes a log area of LOGSIZE blocks with the
  header. An operation that still has reserved space is never refused a new block if and only
  if the area has more than LOGSIZE blocks (`LogLimits.ReservationExact`). log_write panics for
  a running operation exactly when its list is full (`LogLimits.PanicExact`); operations that
  stay within MAXOPBLOCKS can fill it whatever the size of the area, and the check also comes
  before absorption (`LogLimits.AbsorptionRefused`).
- bd_init panics if and only if the left and right pair of some size coincide, or the right
  pair lies behind the heap and reads as half marked in the next bitmap
  (`BuddyInit.InitPanicExact`). It can lay out 176 bytes or more, and of these it panics exactly
  for 224 to 255 bytes, for 320 to 511, and for every power of two from 1024 on
  (`BuddyLayout.InitPanicBytes`, `BuddyCode.BdInit`). Both are for heaps below 2^31 bytes: the
  int in which blk_index keeps an offset gives the right index at every size if and only if the
  offset is below 2^31 (`BuddyAddr.IntIndexExact`).
- readi and writei return the full count also when a copy from or to the caller fails midway.
  `FsCode.Cut` says how many of the bytes are then in the file, some of them in a buffer that is
  not logged (`FsCode.FileSystem.Writei`).
- mkfs rounds the size of the root directory up; when it is a multiple of the block size
  already, the rounding adds a block that does not exist. The kernel finds the image without
  holes if and only if it is not (`Mkfs.Make`).
- exit's comment says that init may miss a wakeup. init is the only process that can sleep in
  wait with a zombie child, and only one that was given to it while exiting
  (`WaitExit.NoMissedChild`). That happens in some run if and only if there is room for three
  processes (`WaitExit.MissExact`).
- uvmdealloc unmaps nothing if the old size is above 2^64 - 4096, where PGROUNDUP wraps to 0
  (`VmCode.PhysMem.Uvmdealloc`).
- uvmcopy's comment says that it returns -1 when memory runs out. If it runs out before the
  first page is copied, the range to unmap is empty, wraps around, and uvmunmap panics; with
  the parent's pages present that is the only panic (`VmCode.PhysMem.Uvmcopy`).
- proc_freepagetable of an empty process leaves the page-table pages allocated
  (`VmCode.PhysMem.ProcFreepagetable`).
- malloc's request reaches sbrk unchanged if and only if it is below 2^27 units
  (`Umalloc.SbrkExact`); above, the free list covers memory that the process does not have
  (`Umalloc.CoreExists`).

## Model

| member | source | states |
|---|---|---|
| Redo.HeaderRoundTrip | kernel/log.c:86-113 | the header that write_head writes reads back as the same list of blocks |
| Redo.RecoverMeaning | kernel/log.c:116-122 | recovery puts every logged block at its home address, changes no other home block, and leaves an empty log |
| Redo.RecoveryIsRestartable | kernel/log.c:69-122 | a crash after any write of recovery does not change where the next recovery ends, log area included |
| Redo.InterruptedRecoveries | kernel/log.c:69-122 | the same for any number of interrupted recoveries in a row |
| Redo.CrashBeforeHeader | kernel/log.c:178-202 | before the header write a crash leaves every home block as it was |
| Redo.CommittedLog | kernel/log.c:178-202 | the header write leaves the whole group in the log and no home block changed |
| Redo.CommitIsRecovery | kernel/log.c:193-202 | from the header write on, commit goes through exactly the disk states of recovery |
| Redo.CrashAtomicity | kernel/log.c:116-202 | a crash after any write of commit, then any number of interrupted recoveries: a completed recovery gives all of the group if and only if the header write had happened, and none of it otherwise |
| Redo.CommitCompletes | kernel/log.c:193-202 | an uninterrupted commit applies the group and leaves an empty log |
| LogMachine.StepKeeps | kernel/log.c:126-235 | every event of the cache and log, a crash with nothing left to recover included, keeps the invariant: one buffer per block, pins, reservations, what the disk and the log hold in each phase |
| LogMachine.StepRefines | kernel/log.c:126-235 | every event is one action of a transactional block store or none: only log_write changes what is read, only the header write what is durable, such a crash goes back to that |
| LogMachine.RunKeeps | kernel/log.c:126-235 | the invariant holds in every state of every run in which each boot that the run goes on from finds an empty header |
| LogMachine.RunRefines | kernel/log.c:126-235 | every such run behaves as a run of the transactional store |
| LogMachine.DurableIsQuiescent | kernel/log.c:126-202 | at any moment of any such run the durable store is the store at an earlier moment when no file system call was in progress |
| LogMachine.CrashAnywhere | kernel/log.c:116-202 | a crash at any moment of any such run, whatever is in the log, then any number of interrupted recoveries: the last recovery leaves every home block as the store had it at a moment when no file system call was in progress |
| LogMachine.DurableStep | kernel/log.c:193-202 | only the header write moves the durable store, and it moves it to the current one between calls |
| LogMachine.LogStore | kernel/log.c:214-235 | log_write, absorbed or not, changes the store at its block and nowhere else |
| LogMachine.BudgetBound | kernel/log.c:126-141 | unspent reservations never exceed MAXOPBLOCKS for each operation in progress |
| LogMachine.ReadSeesStore | kernel/bio.c:58-101 | an unmodified locked buffer holds the store's contents of the block bget was asked for |
| LogMachine.HeldKeepsBlock | kernel/bio.c:58-87 | a buffer keeps its block from bget to brelse, whoever waits and whatever else happens |
| LogMachine.UnusedIsClean | kernel/bio.c:58-87 | a valid buffer with reference count 0 equals the disk, so recycling it loses nothing |
| LogMachine.FillIsCurrent | kernel/bio.c:91-101 | a block without a valid buffer has its current contents on the disk |
| LogMachine.EndOpNeverPanics | kernel/log.c:146-174 | end_op of a running operation never finds a commit in progress |
| LogMachine.PinsBalance | kernel/log.c:69-82 | after a commit no buffer is pinned, so each pin was undone once |
| LogLimits.ReservationExact | mkfs/mkfs.c:25 | over all runs with three or more processes, an operation that still has reserved space is never refused a new block by log_write, if and only if the log area has more than LOGSIZE blocks |
| LogLimits.EnoughRoom | kernel/log.c:126-141 | with such a log area no operation that still has reserved space is refused, in every reachable state |
| LogLimits.PanicExact | kernel/log.c:214-222 | log_write by a running operation panics if and only if the list is full: LOGSIZE entries or all of the log area; with more than LOGSIZE blocks in the area no operation then has reserved space left |
| LogLimits.AbsorptionRefused | kernel/log.c:214-235 | for every log area and three or more processes, a run of operations within MAXOPBLOCKS after which the list is full and log_write refuses even a block that is already in the log |
| LogCode.Kernel.constructor | kernel/bio.c:36-52 | after binit every buffer is unused, on the list once, and the log is empty |
| LogCode.Kernel.Bget | kernel/bio.c:58-87 | finds the block's buffer or recycles the least recently used free one; panics if and only if the block is not cached and no buffer is free |
| LogCode.Kernel.Bread | kernel/bio.c:91-101 | as bget, and the buffer holds the cached data or the disk's |
| LogCode.Kernel.Bwrite | kernel/bio.c:105-110 | exactly one block of the disk becomes the buffer's data |
| LogCode.Kernel.Brelse | kernel/bio.c:115-135 | unlocks, drops one reference, and moves a buffer nobody uses to the front of the list |
| LogCode.MoveToFrontOrder | kernel/bio.c:115-135 | moving a buffer to the front keeps every buffer on the list exactly once |
| LogCode.Kernel.Bpin | kernel/bio.c:138-142 | the reference count goes up by one as an unsigned int |
| LogCode.Kernel.Bunpin | kernel/bio.c:145-149 | the reference count goes down by one as an unsigned int |
| LogCode.Kernel.ClientBread | kernel/bio.c:91-101 | bread of a home block performs the machine's bget, lock and fill events and returns the store's current contents |
| LogCode.Kernel.ClientBrelse | kernel/bio.c:115-135 | brelse performs the machine's unlock and release events |
| LogCode.Kernel.FindEntry | kernel/log.c:224-228 | the search finds the entry to absorb into, or the end of the list |
| LogCode.Kernel.LogWrite | kernel/log.c:214-235 | succeeds if and only if both size checks and the outstanding check pass, and then performs the machine's log_write |
| LogCode.Kernel.Append | kernel/log.c:214-235 | log_write on any buffer: the three checks, the absorbed or appended entry, and one pin for a new one |
| LogCode.Kernel.Reserve | kernel/log.c:126-141 | the test and the reservation of begin_op alone |
| LogCode.Kernel.BeginOp | kernel/log.c:126-141 | starts the operation if and only if no commit runs and the reservation fits in LOGSIZE |
| LogCode.Kernel.EndOp | kernel/log.c:146-174 | the last operation commits with the writes of Redo.CommitState in order; fails exactly when there is something to commit and no buffer is free |
| LogCode.Kernel.WriteLogOne | kernel/log.c:182-189 | one block is copied from the cache to its place in the log area |
| LogCode.Kernel.WriteLog | kernel/log.c:178-190 | the disk goes through the copying states of Redo.CommitState, one write each |
| LogCode.Kernel.FillHeader | kernel/log.c:102-110 | the header buffer becomes the encoding of the block list |
| LogCode.Kernel.WriteHead | kernel/log.c:102-113 | one write puts the encoded list on disk; fails exactly when no buffer is free |
| LogCode.Kernel.InstallOne | kernel/log.c:73-81 | one logged block goes home and its buffer loses its pin |
| LogCode.Kernel.InstallTrans | kernel/log.c:69-82 | the disk goes through the installing states of Redo.CommitState, one write each |
| LogCode.Kernel.Commit | kernel/log.c:193-202 | the sequence of disk states is that of Redo.CommitState; the panic for lack of buffers happens exactly when there is something to commit and none is free, with nothing written |
| LogCode.InstalledPinned | kernel/log.c:73-81 | in commit, install_trans leaves the buffer with one reference less |
| LogCode.InstalledUnpinned | kernel/log.c:73-81 | in recovery it leaves a reference count of 2^32-1 |
| LogCode.Kernel.ReadHead | kernel/log.c:86-96 | the list in memory is the one on disk |
| LogCode.Kernel.RecoverFromLog | kernel/log.c:116-122 | the disk goes through the states of Redo.RecoverState and ends as Redo.Recover, and every installed block keeps a buffer for good; panics if and only if the header lists NBUF blocks, after NBUF-1 writes and with that header still on disk |
| LogCode.TwoFree | kernel/log.c:69-82 | only blocks already installed occupy buffers during recovery, so it can run out only after NBUF-1 of them |
| LogCode.BootFull | kernel/log.c:69-82 | after NBUF-1 installed blocks at most one buffer is left |
| LogCode.CleanBootExact | kernel/log.c:69-122 | some state that satisfies the invariant has the buffers that recovery leaves, if and only if recovery had nothing to install |
| LogCode.Kernel.Initlog | kernel/log.c:53-64 | after an empty header the kernel is in the machine's boot state; after any other no state that satisfies the invariant has its buffers; panics as recovery does |
| LogBoot.Nearer | kernel/bio.c:58-135 | recycling another buffer leaves one free buffer less behind a given free one on the list |
| LogBoot.LogUpdate | kernel/log.c:214-235 | begin_op, bread, log_write and brelse of a recovered block leave its buffer free although the log lists it |
| LogBoot.UpdateLost | kernel/log.c:69-122 | then reading and releasing NBUF other blocks recycles that buffer: the log lists the block, and bread returns the old data |
| LogBoot.LostAfterBoot | kernel/log.c:53-122 | the same from the disk a crash leaves: binit, initlog, and the update is lost |
| FsModel.PutGetWord | kernel/fs.c:392-403 | writing one number of an indirect block changes that number and no other |
| FsModel.AllocKeeps | kernel/fs.c:66-87 | a block from balloc is nobody's: bitmap bits are exactly metadata, blocks in one slot, and blocks just allocated |
| FsModel.LinkDirect | kernel/fs.c:383-387 | putting a new block in an empty direct address keeps exclusive ownership |
| FsModel.LinkIndirect | kernel/fs.c:390-394 | so does a new, zeroed indirect block |
| FsModel.LinkEntry | kernel/fs.c:395-403 | so does an entry of the indirect block |
| FsModel.WriteKeeps | kernel/fs.c:500-508 | writing file data changes no block address of any inode |
| FsModel.WriteDone | kernel/fs.c:487-518 | after the loop and the size update the file is the old contents with the bytes spliced in, and all other files are the same |
| FsModel.SpliceSplice | kernel/file.c:150-172 | splicing two pieces one behind the other is splicing both at once |
| FsModel.WrittenTwice | kernel/file.c:150-172 | so two consecutive transactions write one piece |
| FsModel.SlotOwner | kernel/fs.c:414-441 | a block is among the slots of an inode exactly when its one slot is |
| FsModel.UnlinkKeeps | kernel/fs.c:414-441 | emptying slots and clearing the bits of exactly their blocks keeps exclusive ownership |
| FsModel.TruncDone | kernel/fs.c:414-441 | after itrunc exactly the inode's blocks are free again, it is empty, and other files are unchanged |
| FsModel.CostJoin | kernel/fs.c:379-406 | the blocks a range of a file lacks, with the indirect block, are those a first part lacks and those the rest lacks then, wherever in the first part the rest starts |
| FsModel.RangeJoin | kernel/file.c:157-174 | two writes one behind the other map exactly the blocks that one write of both maps |
| FsModel.WrittenCut | kernel/fs.c:500-510 | bytes that a failed copy has stored behind the end of the file are not part of it |
| FsCode.FileSystem.Balloc | kernel/fs.c:66-87 | returns the first free block, zeroed and marked; panics if and only if none is free |
| FsCode.FileSystem.Bfree | kernel/fs.c:91-104 | clears the bit; panics if and only if the block was free |
| FsCode.FileSystem.Bmap | kernel/fs.c:379-406 | the block for that part of the file, allocated at most once, with ownership kept, no other file changed, every block changed logged, and the blocks logged bounded; out of blocks if and only if fewer are free than the block and a missing indirect block need |
| FsCode.FileSystem.Readi | kernel/fs.c:460-480 | the bytes read are the slice of the contents clipped to the size, up to the byte where a copy to the caller fails; the result does not tell of the failure; the error cases, and nothing changes |
| FsCode.FileSystem.WriteChunk | kernel/fs.c:498-506 | one round writes its piece of one block, or the part of it that the caller could give; every block changed is logged, except the piece's block after a failed copy; a failed copy into an existing block logs nothing; the blocks logged are bounded |
| FsCode.FileSystem.Writei | kernel/fs.c:487-518 | the contents become the splice of all bytes, or of those that Cut names when a copy fails, and the result is the full count in both cases; -1 exactly for the two range errors, out of blocks if and only if fewer blocks are free than the missing blocks of the rounds begun and a missing indirect block, a short write logs at most MAXOPBLOCKS blocks, and every data, bitmap and inode block changed is logged, except the one block in which a copy failed |
| FsCode.WholeIs | kernel/fs.c:497-511 | the rounds before the first failing copy end at Whole, and no later round begins |
| FsCode.CutFacts | kernel/fs.c:500-510 | less than all bytes are in the file after a failed copy; those stored and not in it lie behind the old end |
| FsCode.FileSystem.TruncDirect | kernel/fs.c:420-425 | frees the direct blocks; the panic for a free block is unreachable; every bitmap block changed is logged |
| FsCode.FileSystem.TruncIndirect | kernel/fs.c:427-437 | frees the entries and the indirect block itself, without a panic; every bitmap block changed is logged |
| FsCode.FileSystem.Itrunc | kernel/fs.c:414-441 | never panics, frees exactly the inode's blocks, empties the file, leaves the others, and logs every block changed |
| FsCode.StartMapped | kernel/file.c:141-148 | an unaligned write starts in a block that exists, as there are no holes |
| FsCode.LogBound | kernel/file.c:141-150 | the arithmetic of filewrite's chunk: at any offset it logs at most MAXOPBLOCKS distinct blocks |
| FsCode.FileSystem.Filewrite | kernel/file.c:135-181 | writes the bytes in order in one transaction for each CHUNK bytes, each logging at most MAXOPBLOCKS blocks and together every block changed; out of blocks if and only if fewer are free at the start than all transactions together need; otherwise writes all bytes, or as many whole chunks as the largest file has room for, or none past the end, and returns n or -1 accordingly |
| FsCode.CoveredTwice | kernel/file.c:157-174 | consecutive transactions take exactly the blocks that one write of all their bytes would |
| FsCode.LackingLater | kernel/file.c:157-174 | too few blocks for a later transaction are too few for the whole |
| FsCode.ReachMore | kernel/file.c:155-175 | which chunk is the last one that fits the largest file |
| FsCode.FileSystem.constructor | kernel/fs.c:41-46 | the file system on a disk, with the places its superblock names |
| FsCode.BitBlock | kernel/fs.h:47-51 | the bitmap bit of block b is bit b % BPB of block BBLOCK(b): nothing in any other block matters to it |
| FsCode.InodeBlock | kernel/fs.h:31-45 | size and addresses of inode i lie in block IBLOCK(i): nothing in any other block matters to them |
| FsCode.FileSystem.LogSuffices | kernel/fs.c:66-518 | writing just the blocks that were logged from the cache to a disk that holds the state before gives a disk that holds the state after: bitmap bits, inode words and data |
| Dir.Strncmp | kernel/string.c:57-65 | 0 exactly when the strings agree up to the first NUL or n characters |
| Dir.DirentFields | kernel/fs.h:56-59 | an entry that was written reads back as its inode number, low byte first, and matches exactly the names that its name does in 14 characters |
| Dir.Dirlookup | kernel/fs.c:530-554 | on the bytes of the directory: the first entry in use whose name matches, its offset and its inode number; not found exactly when no entry matches; panics exactly when none matches before a partial entry at the end; nothing changes |
| Dir.FindFree | kernel/fs.c:570-576 | the first unused entry, or the end of the directory |
| Dir.Dirlink | kernel/fs.c:557-584 | refuses exactly when the name is found; otherwise the entry is spliced in at the first unused place and no other file changes; panics exactly for a partial entry, or when the largest file or the free blocks leave no room |
| Dir.LinkLookup | kernel/fs.c:530-584 | after dirlink the new name is found at its entry with its inode, and every other name is found, or not, exactly as before |
| Mkfs.Image.constructor | mkfs/mkfs.c:94-113 | an image of zeroes is a file system without files |
| Mkfs.Image.Ialloc | mkfs/mkfs.c:231-243 | the next inode, which is empty |
| Mkfs.Image.MapBlock | mkfs/mkfs.c:278-293 | the block for that part of the file, taken from the first blocks not handed out, with ownership kept and no other file changed; fails exactly when they do not suffice |
| Mkfs.TidyStep | mkfs/mkfs.c:275-302 | a file has blocks only up to its end, and zeroes behind it in the last one |
| Mkfs.Image.Iappend | mkfs/mkfs.c:264-305 | the bytes are appended to that file and no other file changes; takes exactly the blocks by which the two sizes differ, with the indirect block; fails exactly beyond MAXFILE blocks or when the disk does not have these blocks |
| Mkfs.AppendCost | mkfs/mkfs.c:276-301 | the blocks that appending takes depend on the size before and after only |
| Mkfs.Image.AppendFile | mkfs/mkfs.c:160-161 | the file read block by block becomes the contents of its inode, and no other file changes; fails exactly when it is larger than MAXFILE blocks or than the rest of the disk |
| Mkfs.Image.AddFile | mkfs/mkfs.c:131-164 | the new inode holds the file's bytes and the root directory gains an entry with its name and number, behind the others; fails exactly when an inode, room in the directory, or blocks are missing |
| Mkfs.RootRounded | mkfs/mkfs.c:166-171 | rounding the size of the root directory leaves no hole if and only if it was not a multiple of the block size, and then adds only empty entries |
| Mkfs.EntryAt | mkfs/mkfs.c:119-158 | the k-th 16 bytes of the root directory are the entry of ".", of "..", or of the k-2nd file |
| Mkfs.RootLookup | kernel/fs.c:530-554 | looking a name up in the root directory that mkfs wrote, padding included, finds exactly the first of ".", ".." and the files given whose name matches, with the inode number it was given, and nothing for any other name |
| Mkfs.Make | mkfs/mkfs.c:68-176 | succeeds if and only if inodes, the size limit of files and directory, the disk and the first bitmap block suffice for the files, as Mkfs.Fits counts; then every file holds its bytes, the image has no holes if and only if the directory's size before rounding is not a multiple of the block size, and then the root directory is the entries of all files, which Mkfs.RootLookup reads |
| Mkfs.ReadBack | kernel/fs.c:460-480 | any range of any file given to mkfs is what readi reads from the image |
| Mkfs.ReadNamed | kernel/fs.c:460-554 | mkfs, then dirlookup of a name in the root directory, then readi of the inode found: the bytes are those of the first file given under that name; not found exactly when none was; no panic |
| Buddy.TakeKeeps | kernel/buddy.c:137-139 | taking the first free block keeps the tree and makes that block live |
| Buddy.SplitKeeps | kernel/buddy.c:140-148 | one split keeps the tree and replaces a live block by its left half |
| Buddy.MergeKeeps | kernel/buddy.c:175-189 | one merge keeps the tree and replaces a live block by its parent |
| Buddy.ReleaseKeeps | kernel/buddy.c:190-193 | the final push keeps the tree, no two buddies both free |
| Buddy.MallocKeeps | kernel/buddy.c:123-154 | bd_malloc keeps the tree and makes exactly one more block live, one that was not |
| Buddy.FreeKeeps | kernel/buddy.c:170-194 | bd_free keeps the tree and makes exactly the given block not live |
| Buddy.RootSplit | kernel/buddy.c:158-194 | the whole heap is always split, so it is never freed or looked up |
| Buddy.PiecesDisjoint | kernel/buddy.c:123-194 | live blocks, free blocks and memory marked at start never overlap |
| Buddy.LeafCovered | kernel/buddy.c:123-194 | every part of the heap lies in a live or a free block |
| Buddy.CoalescedCover | kernel/buddy.c:170-194 | free memory that fills an aligned block lies in one free block at least that large |
| Buddy.MallocComplete | kernel/buddy.c:123-154 | bd_malloc fails if and only if no aligned block of the size lies wholly in free memory |
| Buddy.MergeUndoesSplit | kernel/buddy.c:140-189 | merging right after splitting restores bitmaps and lists |
| Buddy.FreeUndoesMalloc | kernel/buddy.c:123-194 | bd_free right after bd_malloc restores every bitmap and every list, order included |
| Buddy.MallocBytes | kernel/buddy.c:123-154 | bd_malloc takes exactly the size of its block off the free bytes |
| Buddy.FreeBytes | kernel/buddy.c:170-194 | bd_free gives exactly that size back, however often it merges |
| Buddy.SizeCorrect | kernel/buddy.c:158-165 | split bits alone give the size at which a live block was handed out |
| Buddy.RunKeeps | kernel/buddy.c:123-194 | over every run: the tree is consistent, exactly the held and marked blocks are live, free and held bytes add up to the start |
| Buddy.HeldDisjoint | kernel/buddy.c:123-194 | in every such state two held blocks share no memory, nor does one with marked memory |
| BuddyInit.InitialOk | kernel/buddy.c:296-353 | without a spurious block bd_init builds a consistent tree whose live blocks are the marked leaves |
| BuddyInit.InitAmount | kernel/buddy.c:258-270 | the counted free bytes are the available ones plus every block listed twice or behind the heap |
| BuddyInit.InitPanicExact | kernel/buddy.c:336-352 | the count differs from the available bytes if and only if at some size the two pairs coincide or the right pair reads the next bitmap as half marked |
| BuddyInit.RightPair | kernel/buddy.c:240-269 | what the right pair of a size puts on the list, also when its bits lie behind the bitmap |
| BuddyInit.QuarterIsEnough | kernel/buddy.c:258-270 | metadata within a quarter and half the heap available rule a coinciding pair out |
| BuddyInit.InitStarts | kernel/buddy.c:296-353 | so every run after bd_init starts in a consistent system with the available bytes free |
| BuddyLayout.ComputeLog2 | kernel/buddy.c:205-213 | the exponent of the largest power of two that is not larger |
| BuddyLayout.MaxSizeHolds | kernel/buddy.c:303-307 | MAXSIZE is the smallest size whose one block holds all bytes |
| BuddyLayout.CountSizes | kernel/buddy.c:303-307 | nsizes is one more than that |
| BuddyLayout.PlaceAlloc | kernel/buddy.c:312-324 | every size gets its alloc bitmap, one behind the other |
| BuddyLayout.PlaceSplit | kernel/buddy.c:326-333 | every size but the smallest gets its split bitmap, and the metadata ends there |
| BuddyLayout.OffsetMono | kernel/buddy.c:312-333 | bitmaps do not overlap |
| BuddyLayout.QuarterMeta | kernel/buddy.c:303-334 | from 64 leaves on the metadata fits in a quarter of the heap |
| BuddyLayout.SpuriousQuarter | kernel/buddy.c:258-270 | with metadata in a quarter of the heap there is a spurious block if and only if no memory is unavailable |
| BuddyLayout.ManageableExact | kernel/buddy.c:303-334 | the metadata fits exactly from 176 bytes on |
| BuddyLayout.InitPanicBytes | kernel/buddy.c:296-353 | for such a byte count below 2^31 bd_init panics if and only if it is between 224 and 255, between 320 and 511, or a power of two from 1024 on |
| BuddyStore.BitsApart | kernel/buddy.c:39-57 | different bits of the bitmaps are different bits of memory |
| BuddyStore.PutMatches | kernel/buddy.c:46-50 | setting one bit of memory adds that block to that bitmap and changes nothing else |
| BuddyStore.DropMatches | kernel/buddy.c:53-57 | clearing one bit removes that block and changes nothing else |
| BuddyStore.PushRings | kernel/buddy.c:140-148 | pushing a block that is on no list keeps all lists rings with their blocks in order |
| BuddyStore.RemoveRings | kernel/buddy.c:182-183 | so does taking one out |
| BuddyStore.TreeSeparate | kernel/buddy.c:123-194 | in a consistent tree no node is on two lists or on one twice, and none is in the metadata |
| BuddyStore.UserWrites | kernel/buddy.c:123-194 | whatever is written to a block that is held, every free list stays as it is |
| BuddyAddr.Firstk | kernel/buddy.c:97-106 | the smallest size that holds n bytes, without wrap-around up to 2^63 |
| BuddyAddr.IndexOfAddr | kernel/buddy.c:110-119 | address and block index are inverse at every size |
| BuddyAddr.IntIndexExact | kernel/buddy.c:110-119 | the int offset of blk_index gives the index at every size if and only if the offset is below 2^31 bytes |
| BuddyAddr.MallocOwns | kernel/buddy.c:97-154 | the bytes asked for, from the address returned on, lie in the new block, the smallest that holds them, and in no other block that is free, in use or marked |
| BuddyAddr.NextIsOver | kernel/buddy.c:198-203 | blk_index_next is division rounded up |
| BuddyCode.Allocator.constructor | kernel/buddy.c:296-334 | the layout of the byte count, all bitmaps clear and all lists empty rings |
| BuddyCode.Allocator.SetAlloc | kernel/buddy.c:46-50 | the bit in memory and the block in the set |
| BuddyCode.Allocator.PushFree | kernel/list.c:40-47 | the ring in memory and the block at the front of its list, unless it was on a list already |
| BuddyCode.Allocator.PopFree | kernel/list.c:31-37 | the address of the first free block, which leaves its ring |
| BuddyCode.Allocator.RemoveFree | kernel/list.c:25-28 | the block leaves its ring, wherever it is |
| BuddyCode.Allocator.SeesAlloc | kernel/buddy.c:39-43 | reads the bit of the block, or of the next bitmap when the index lies behind the last block |
| BuddyCode.Allocator.FindFit | kernel/buddy.c:129-135 | the smallest size from fk on whose list is not empty |
| BuddyCode.Allocator.SplitTo | kernel/buddy.c:140-148 | the splitting loop gives the tree split down the left edge, bits and rings in memory included |
| BuddyCode.Allocator.Malloc | kernel/buddy.c:123-154 | the method gives the block and the tree of Buddy.Malloc; bitmaps and rings in memory represent that tree; the caller's bytes lie in no other block |
| BuddyCode.Allocator.Size | kernel/buddy.c:158-165 | the size of the block a caller holds, read from the split bitmaps |
| BuddyCode.Allocator.Free | kernel/buddy.c:170-194 | the method gives the tree of Buddy.FreeUp from the pointer alone; bitmaps and rings in memory represent it |
| BuddyCode.Allocator.Mark | kernel/buddy.c:217-235 | exactly the blocks that meet the range are marked, and split above the leaves |
| BuddyCode.MarksAreMarked | kernel/buddy.c:274-292 | the two marked ranges give the bitmaps of the layout |
| BuddyCode.Allocator.InitFreePair | kernel/buddy.c:240-252 | the free one of a half-marked pair goes on the list, and the amount is its size |
| BuddyCode.Allocator.InitSize | kernel/buddy.c:261-268 | one round of bd_initfree gives that size's list and the amount pushed |
| BuddyCode.Allocator.InitAllFree | kernel/buddy.c:258-270 | the lists are those of the layout and the amount is what lies on them |
| BuddyCode.Allocator.Init | kernel/buddy.c:335-353 | panics if and only if some size has a spurious block; otherwise memory represents a consistent tree that keeps the metadata |
| BuddyCode.BdInit | kernel/buddy.c:296-353 | bd_init of n bytes, below 2^31, panics if and only if n is one of these byte counts; otherwise all memory behind the metadata is free; every index it computes fits the ints of the source |
| Bits.BitIsSet | kernel/buddy.c:39-43 | reads the bit |
| Bits.BitSet | kernel/buddy.c:46-50 | sets that bit and no other |
| Bits.BitClear | kernel/buddy.c:53-57 | clears that bit and no other |
| List.Memory.Init | kernel/list.c:13-17 | an empty ring |
| List.Memory.Empty | kernel/list.c:20-22 | true exactly for the empty ring |
| List.Memory.Remove | kernel/list.c:25-28 | takes one node out of its ring without knowing the head; other nodes untouched |
| List.Memory.Pop | kernel/list.c:31-37 | returns and removes the first element; panics exactly on the empty list |
| List.Memory.Push | kernel/list.c:40-47 | puts a new node first; whatever the node, no other pointer changes |
| List.OtherRing | kernel/list.c:25-47 | rings that share no node with the list stay as they are |
| VmModel.PteFields | kernel/riscv.h:338-345 | an entry gives back its frame, flags, valid and leaf bits |
| VmModel.VpnFields | kernel/riscv.h:347-351 | the three indices of a page number determine it |
| VmModel.TakeKeeps | kernel/kalloc.c:69-82 | kalloc hands out a frame that nothing uses and changes no translation |
| VmModel.GiveKeeps | kernel/kalloc.c:47-63 | kfree of a held frame keeps every frame in exactly one use and changes no translation |
| VmModel.WalkKeeps | kernel/vm.c:79-96 | walk with alloc changes no translation of any tree and no page in use, and reaches the entry if and only if there are frames for the missing tables |
| VmModel.MapKeeps | kernel/vm.c:166-168 | writing an entry changes the translation of that page of that tree and no other, and the frame belongs to the tree |
| VmModel.UnmapKeeps | kernel/vm.c:190-203 | clearing an entry removes that translation and no other |
| VmRange.CostStep | kernel/vm.c:156-175 | the tables a range still lacks, counted as distinct places, page by page |
| VmRange.MappedStep | kernel/vm.c:162-173 | mapping one page more extends the mapped range exactly |
| VmRange.UnmappedStep | kernel/vm.c:188-207 | unmapping one page more extends the unmapped range exactly |
| VmGrow.GrownStep | kernel/vm.c:250-263 | one page more: fresh frame, all that was allocated untouched, frames accounted for |
| VmGrow.ShrinkBack | kernel/vm.c:252-261 | taking the new pages back restores every translation of every tree |
| VmGrow.NewRootKeeps | kernel/vm.c:212-220 | a zeroed page is a tree without translations and disturbs no other |
| VmFree.UnlinkKeeps | kernel/vm.c:290-297 | an empty table can be unlinked without changing a translation |
| VmFree.RootGone | kernel/vm.c:287-302 | when the root goes, all frames of the tree are free and everything else is as before |
| VmCode.PhysMem.constructor | kernel/kalloc.c:27-40 | after kinit exactly the frames above the kernel are free, each once |
| VmCode.PhysMem.Kalloc | kernel/kalloc.c:69-82 | the first free frame, or nothing exactly when there is none |
| VmCode.PhysMem.Kfree | kernel/kalloc.c:47-63 | the frame becomes the first of the free list |
| VmCode.PagesOfRange | kernel/vm.c:158-159 | the loops of mappages and uvmunmap visit exactly the pages that hold a byte of the range |
| VmCode.RangeBytes | kernel/vm.c:156-175 | a mapped range of pages gives every byte of the byte range its place in the consecutive frames, by an entry that is valid and has the nine other flag bits of perm |
| VmCode.PhysMem.Walk | kernel/vm.c:79-96 | the entry of the page in memory as VmModel.WalkMem leaves it; without alloc memory is unchanged; panics exactly beyond MAXVA |
| VmCode.PhysMem.Mappages | kernel/vm.c:156-175 | afterwards every byte of a range within the 2^64 bytes translates to its place in the consecutive frames by a valid entry whose nine other flag bits are those of perm; no other page changes; panics exactly at a mapped page or beyond the limit, which includes every empty range; fails exactly when the tables do not fit |
| VmCode.PhysMem.Uvmunmap | kernel/vm.c:181-208 | unmaps exactly the pages of the byte range and frees or returns exactly their frames; panics exactly at an unmapped page or beyond the limit |
| VmCode.PhysMem.Uvmcreate | kernel/vm.c:212-220 | an empty tree; panics exactly when no frame is free |
| VmCode.PhysMem.Uvmalloc | kernel/vm.c:241-265 | grows by fresh zeroed pages; without memory restores every translation and returns 0, exactly when pages and missing tables exceed the free frames |
| VmCode.PhysMem.Uvmdealloc | kernel/vm.c:272-282 | unmaps and frees exactly the pages between the two sizes, and none when the rounded old size wraps to 0 |
| VmCode.PhysMem.Freewalk | kernel/vm.c:287-302 | frees every table below once and panics if and only if a page is still mapped there |
| VmCode.PhysMem.Uvmfree | kernel/vm.c:307-311 | frees every frame of the tree exactly once and nothing else; succeeds if and only if the size is not 0 and exactly its pages are mapped |
| VmCode.PhysMem.Uvmcopy | kernel/vm.c:320-347 | the child gets fresh frames with equal bytes and flags; on failure every translation is restored; with the parent's pages present, panics exactly when the first page does not fit |
| VmCode.PhysMem.ProcFreepagetable | kernel/proc.c:178-184 | the two top pages go back to their owners and the rest is freed, tables only when the size is not 0 |
| Sched.InitialOk | kernel/proc.c:27-46 | the invariant holds at boot |
| Sched.StepKeeps | kernel/proc.c:321-633 | every step of scheduler, sched, yield, sleep, wakeup, exit, wait, kill and the sleep locks keeps it |
| Sched.RunKeeps | kernel/proc.c:321-633 | so it holds in every state of every interleaving |
| Sched.ExitIsRun | kernel/proc.c:347-381 | exit in the order of the code, with the parent's lock released after ZOMBIE is set, is a run, and ends with the zombie switched out and the parent awake |
| Sched.NotOnStack | kernel/proc.c:386-515 | a process that is not RUNNING and whose lock someone else holds is on no CPU's stack |
| Sched.NoLostWakeup | kernel/sleeplock.c:22-41 | whenever a sleep lock and its spinlock are free, nobody sleeps on it or is between giving up the spinlock and sleeping |
| Sched.HoldersAreInside | kernel/sleeplock.c:21-41 | who holds a sleep lock is read off the events of the run: acquiresleep returned and releasesleep not begun |
| Sched.HoldersKeep | kernel/sleeplock.c:21-52 | every step keeps: a sleep lock is locked exactly when one process holds it, lk->pid is its pid, and pids are unique |
| Sched.MutualExclusion | kernel/sleeplock.c:21-41 | in every state of every run at most one process is between acquiresleep and releasesleep of a lock |
| Sched.HoldingExact | kernel/sleeplock.c:43-52 | in every state of every run lk->locked is set exactly while some process is between the two, and what holdingsleep computes is true exactly for that process; who is about to sleep waits for such a process |
| Sched.SpinsKeep | kernel/sleeplock.c:21-41 | every step keeps: who holds an inner spinlock, which p->locks a scheduler holds, where p->chan is set |
| Sched.SpinsExact | kernel/proc.c:445-488 | in every state of every run an inner spinlock is held by exactly the CPU whose thread is in the part of acquiresleep or releasesleep that holds it, and an idle CPU holds no lock |
| Sched.SleeperRetries | kernel/sleeplock.c:25-27 | a process that sleeps on a sleep lock, or was woken from it, tests the lock again before acquiresleep returns |
| Sched.RunningExact | kernel/proc.c:445-515 | whenever p->lock is free, p is RUNNING if and only if some CPU has it, and that CPU executes it |
| Sched.OneCpuEach | kernel/proc.c:445-515 | no process executes on two CPUs, or while another is still switching away from it |
| Sched.ReapIsSafe | kernel/proc.c:386-435 | when wait frees a zombie no CPU uses its stack |
| Sched.SwitchIsSafe | kernel/proc.c:445-488 | the scheduler never resumes a context still in use |
| WaitExit.InitialOk | kernel/proc.c:27-46 | the invariant holds when only init exists |
| WaitExit.StepKeeps | kernel/proc.c:247-435 | every step of fork, wait, exit, reparent and kill keeps the invariant: who holds which lock, whose child each process is, what the loops of wait and reparent have passed |
| WaitExit.RunKeeps | kernel/proc.c:247-435 | so it holds in every state of every interleaving |
| WaitExit.NoMissedChild | kernel/proc.c:321-435 | a process asleep in wait has no zombie child, except init for a child that had read another parent before it was given to init |
| WaitExit.NoneIsNone | kernel/proc.c:396-430 | wait finds no children only when there are none, for every process: although it reads p->parent without the child's lock, and although others give children to init while it scans |
| WaitExit.StepRanked | kernel/proc.c:247-315 | fork, reparent and freeproc keep the processes a tree with init at the root, and no process in exit has its original parent as a child |
| WaitExit.StepScan | kernel/proc.c:294-313 | while init scans and has found no child, there is none or one is still ahead, whatever others give to it |
| WaitExit.ParentStays | kernel/proc.c:303-306 | between the check of p->parent without the lock and the acquire it does not change, in wait and in reparent |
| WaitExit.AcquireOnce | kernel/spinlock.c:37-38 | wait, exit and reparent never acquire a lock that they hold, so acquire does not panic |
| WaitExit.ParentAlive | kernel/proc.c:294-313 | the parent of a process exists and has not exited |
| WaitExit.ReapedIsDead | kernel/proc.c:408-422 | wait frees only a child that has been switched out for good and holds no lock |
| WaitExit.SchedLocks | kernel/proc.c:498-505 | when exit and wait call sched they hold their own lock and no other |
| WaitExit.InitMisses | kernel/proc.c:339-376 | with three or more processes a run ends with init asleep in wait, a zombie child of init, and no lock held |
| WaitExit.MissExact | kernel/proc.c:339-376 | some run misses a child of init if and only if there is room for three processes |
| Umalloc.InsertSorted | user/umalloc.c:25-44 | free keeps the list in address order, with one wrap point and no two adjacent free blocks |
| Umalloc.InsertCovers | user/umalloc.c:25-44 | the free units become exactly the old ones and those of the block |
| Umalloc.InsertUnits | user/umalloc.c:25-44 | the number of free units grows by the size of the block |
| Umalloc.InsertLinks | user/umalloc.c:33-42 | the headers in memory are those of the new list |
| Umalloc.CarveOk | user/umalloc.c:75-82 | cutting the end off a block keeps the list sorted, and the cut apart from it |
| Umalloc.CarveCovers | user/umalloc.c:75-82 | the free units are split between the list and the cut |
| Umalloc.BytesOwned | user/umalloc.c:69-84 | a block of nunits holds the bytes asked for, with less than 16 to spare, and they lie in no free block and in no other block in use |
| Umalloc.StopsAt | user/umalloc.c:30-32 | the loop of free stops exactly at the place of the block |
| Umalloc.SbrkExact | user/umalloc.c:47-61 | the request reaches sbrk unchanged if and only if it is below 2^27 units; above it is too small, and below 2^28 negative |
| Umalloc.CoreExists | user/umalloc.c:47-61 | after free has taken in the new region the list stays within the memory sbrk gave if and only if the request was below 2^27 units |
| Umalloc.UserHeap.constructor | user/umalloc.c:21-22 | before the first call nothing is free and nothing is in use |
| Umalloc.UserHeap.Search | user/umalloc.c:30-32 | the search terminates at the place of the block from any starting point |
| Umalloc.UserHeap.Free | user/umalloc.c:25-44 | the block returns to its place, joined with its neighbours; the list stays circular; other blocks in use keep their headers and memory |
| Umalloc.UserHeap.Morecore | user/umalloc.c:47-61 | the new region, of 64 KiB or the request if that is larger, is added whole and then some block fits; nothing changes when sbrk fails |
| Umalloc.UserHeap.Scan | user/umalloc.c:74-89 | one trip round the circle terminates with the first fit, or shows that nothing fits |
| Umalloc.UserHeap.Malloc | user/umalloc.c:64-90 | nbytes bytes of its own from the pointer on, in no free block and in no other block in use, and less than 16 more; cut from the first fit; fails exactly when nothing fits and sbrk fails; no unit is lost |
| Sh.LineWords | user/sh.c:345-446 | whatever line parses, every argv and file pointer marks a whole word, and every command has fewer than MAXARGS arguments |
| Sh.PointersRead | user/sh.c:328-342 | after nulterminate every pointer reads as exactly its word: no NUL lands inside another |
| Sh.TerminatedReads | user/sh.c:328-342 | so the tree read through its pointers is the tree that was parsed |
| Sh.LineTrip | user/sh.c:345-446 | a printed tree parses as that tree wherever it stands as a line |
| Sh.RoundTrip | user/sh.c:328-342 | for every legal tree, parsing its fully parenthesised printing gives the tree back |
| Sh.TooManyArgs | user/sh.c:415-446 | a simple command is refused if and only if its tokens are not words and redirections, or MAXARGS words or more stand in it, with any redirections between them; otherwise each of the words is an argument |
| Sh.JoinCount | user/sh.c:430-442 | printed words are counted one by one |
| Sh.Parser.constructor | user/sh.c:328-333 | the buffer is the line and its NUL |
| Sh.Parser.Gettoken | user/sh.c:266-308 | the token, its span and the position after it, as Sh.GetToken says |
| Sh.Parser.Peek | user/sh.c:311-320 | skips white space and looks for one of the characters |
| Sh.Parser.Parseredirs | user/sh.c:375-397 | wraps the command in the redirections that follow, or panics where a file is missing |
| Sh.Parser.Parseexec | user/sh.c:416-446 | terminates and returns the command or panics as the grammar function Sh.ParseExec says |
| Sh.Parser.Parseblock | user/sh.c:400-413 | the same for a parenthesised line |
| Sh.Parser.Parsepipe | user/sh.c:362-372 | the same for a pipeline; what it means is ShGrammar.PipeSound and ShGrammar.PipeComplete |
| Sh.Parser.Parseline | user/sh.c:345-359 | the same for a line, its background marks and its list |
| Sh.Parser.Nulterminate | user/sh.c:450-493 | writes NUL at the end of every word of the tree and nowhere else |
| Sh.Parser.Parsecmd | user/sh.c:328-342 | panics exactly when the line does not parse, that is when it is no line of the grammar (ShGrammar.ParserExact); else the buffer holds the tree, read as C strings |
| ShGrammar.RedirsSound | user/sh.c:375-397 | what parseredirs accepts is a row of redirections, in their order |
| ShGrammar.RedirsComplete | user/sh.c:375-397 | every row of redirections is accepted, up to what follows it |
| ShGrammar.ExecSound | user/sh.c:416-446 | what the loop of parseexec accepts are words and redirections mixed; the words in order are the arguments, the redirections in order go around, the first innermost |
| ShGrammar.ExecComplete | user/sh.c:416-446 | every such mixture with fewer than MAXARGS words is accepted |
| ShGrammar.PipeSound | user/sh.c:362-372 | what parsepipe accepts is a pipeline of the grammar, nested to the right |
| ShGrammar.PipeComplete | user/sh.c:362-372 | every pipeline of the grammar is accepted, up to what follows it |
| ShGrammar.LineSound | user/sh.c:345-413 | what parseline accepts is a line of the grammar with its meaning: marks apply to the whole pipeline before them, lists nest to the right, redirections behind a block go around it |
| ShGrammar.LineComplete | user/sh.c:345-413 | every line of the grammar is accepted with its meaning, up to what follows it |
| ShGrammar.ParserExact | user/sh.c:328-446 | for every text: it parses if and only if its tokens are those of a line of the grammar with fewer than MAXARGS words to a command, and then the tree is the meaning of that line |
| ShGrammar.LexLaid | user/sh.c:266-308 | tokens written with any white space between them, and at least one between two that would join, are read as these tokens |
| ShGrammar.LinesMean | user/sh.c:328-446 | so every line of the grammar, with or without parentheses and however it is laid out, parses to its meaning |
| ShGrammar.BlanksSuffice | user/sh.c:262-308 | one blank everywhere is such a layout for all lines whose words hold no blanks or symbols |

## Left out

- Several devices: log and cache are modelled for one device.
- Buffers of the log area: they appear in `LogCode` only; in `LogMachine` the log area is written directly.
- LogMachine.StepKeeps: a crash event is a boot that finds an empty header, possibly after recoveries that were cut short; a boot that recovers blocks leaves buffers for which the invariant is false (LogCode.CleanBootExact), so runs do not go on from it. LogMachine.CrashAnywhere covers its disk.
- LogMachine.StepRefines: the same restriction on crashes.
- LogMachine.RunKeeps: the same restriction on crashes.
- LogMachine.RunRefines: the same restriction on crashes.
- LogMachine.DurableIsQuiescent: the same restriction on the crashes inside a run.
- LogMachine.CrashAnywhere: the same restriction on the crashes in the run before the last one.
- LogCode.Kernel.Bget: the buffer it takes is not locked by another process; waiting for the sleep lock is an event of `LogMachine`.
- LogCode.Kernel.Bread: as Bget.
- LogCode.Kernel.ClientBread: as Bget.
- LogCode.Kernel.LogWrite: the operation has not used up its MAXOPBLOCKS, or the block is in the log; the C code does not count, and LogCode.Kernel.Append is log_write without this.
- LogCode.Kernel.EndOp: no process holds a logged block; waiting for readers is modelled in `LogMachine`, where the copy and install steps are enabled only then.
- LogCode.Kernel.WriteLogOne: as EndOp.
- LogCode.Kernel.WriteLog: as EndOp.
- LogCode.Kernel.InstallOne: as EndOp.
- LogCode.Kernel.InstallTrans: as EndOp.
- LogCode.Kernel.Commit: as EndOp.
- Block 0: all buffers start with identity block 0, so uniqueness of buffers is stated for other blocks.
- FsCode.FileSystem.Writei: the inode's own disk block is counted as logged but its encoding is not modelled; after the panic for lack of blocks nothing is said about the disk.
- FsCode.FileSystem.Filewrite: every copy from the caller succeeds; what one that fails does to a transaction is in Writei.
- Mkfs.Make: stops where files need more blocks or inodes than the disk has, which mkfs does not notice; the superblock and the inodes' types are not modelled, and file names are those that mkfs has shortened already.
- Dir.Dirlookup: inode types are not modelled, so neither is the panic for a file that is no directory; the result is an inode number, without iget.
- Dir.Dirlink: as Dirlookup; inode numbers are below 2^16, above which the ushort of an entry truncates them.
- FsCode.FileSystem.LogSuffices: is about the state and the logged blocks that Bmap, WriteChunk, Writei, Itrunc and Filewrite name; that buffers hold the encoding of the state is its assumption, not proved of the code.
- BuddyAddr.Firstk: requests above 2^63 bytes are excluded; there the loop of the C code does not end.
- BuddyCode.Allocator.Malloc: requests above 2^63 bytes are excluded, as in Firstk.
- BuddyCode.Allocator.Init: starts from the layout of a byte count for which the metadata fits.
- BuddyCode.BdInit: byte counts below 176, for which the metadata does not fit, and from 2^31 on, where int offsets overflow, are excluded; after the panic nothing is said about the lists.
- BuddyCode.Allocator.Free: the block is one that bd_malloc handed out.
- Sched: a state machine over values rather than classes; spinlocks are owner fields, interrupts and push_off/pop_off counting are guards. That sched is called with one lock held is a guard there, and proved for exit and wait in `WaitExit`.
- Sched.MutualExclusion: releasesleep is called only by the process that holds the lock; the C code relies on its callers for that.
- Sched.HoldingExact: as MutualExclusion; the acquire and release inside holdingsleep are not events.
- WaitExit: sleeping on other channels is not a state of that machine, and wakeup1 and kill are the only wakeups; no progress is claimed.
- VmCode.PhysMem.Kfree: given a frame of the allocator; the range check of the C code is the bound on frame numbers.
- VmCode.PhysMem.Mappages: perm grants read, write or execute, as all callers do.
- VmCode.PhysMem.Uvmunmap: when it frees, the tree owns the pages.
- VmCode.PhysMem.Uvmdealloc: the tree owns the pages between the two sizes.
- VmCode.PhysMem.Uvmfree: the tree owns every page it maps.
- VmCode.PhysMem.Uvmcopy: requires that the child maps nothing in the range and that the parent owns its pages, as in fork.
- VmCode.PhysMem.Uvmalloc: the process size is at most MAXVA.
- VmCode.PhysMem.ProcFreepagetable: the two top pages are mapped, as proc_pagetable leaves them.
- Memory is a sequence of pages of 512 words: bytes within a word, copyin, copyout and copyinstr are not modelled.
- Umalloc.UserHeap.Malloc: requests of 2^27 units or more are excluded, see Umalloc.SbrkExact and Umalloc.CoreExists; sbrk gives regions above earlier ones, gaps allowed.
- Sh.RoundTrip: a redirection prints as one character; the parser gives `>>` the same mode as `>`.
- Running the parsed command (runcmd), and reading the line.
- Path names, the type and link count of inodes, inode allocation and caching, pipes, exec, system call entry, traps, devices and booting: mostly glue, or much easier than the above.
- Memory-model fences: steps are sequentially consistent, and one block write is atomic.
