# Verified model of the xv6-riscv kernel with mmap

This project models in Dafny the parts of an xv6-riscv kernel, extended with `mmap` and `munmap`, that are
hardest to get right, together with two user programs, and proves what they are for. Machine integers are
modelled at their own width where it matters. `dafny verify dfyconfig.toml` checks everything.

- **Crash recovery.** `LogCrash` is the redo log of `kernel/log.c` as a step system on disk images: commits,
  single block writes, crashes anywhere, recoveries that crash again. `Log` is the same code as methods over
  the buffer cache, and its disk writes are proved to be those of the step system. `LogBudget` is the
  reservation of log space by concurrent operations. `Blocks` holds blocks and little-endian words.
- **Buffer cache.** `Bio` is `kernel/bio.c`: a circular doubly linked list through a static array, in order of
  last release.
- **Files.** `FsModel` has bitmap, block map and block ownership of `kernel/fs.c` as values, `FsWrite` what a
  write stores and logs, `FileSys` the operations as methods, up to `filewrite` of `kernel/file.c`, on block
  contents that include the inode blocks. `FsBounds` shows how many blocks an operation logs at worst.
  `FileCrash` puts `filewrite` on the log: what a crash leaves of it.
- **Virtual memory.** `Kalloc` is the page allocator, `PageTree` and `FreeWalk` the three-level page tables
  (section 4.4 of the RISC-V Instruction Set Manual Volume II, Privileged Architecture) and the flat map they
  stand for, `Vm` the operations of `kernel/vm.c`.
- **Mapped areas.** `Vma` is the slot pool of `mmap` and `munmap` in `kernel/file.c`, copied in `fork` and
  released in `exit` of `kernel/proc.c`.
- **Processes.** `Proc` is the scheduler with sleep, wakeup and kill of `kernel/proc.c` as a step system over
  any number of processes and CPUs, with interrupt handlers that call wakeup.
- **Devices and pipes.** `Virtio` is the disk driver and an adversarial device (sections 2.6 and 5.2 of VIRTIO
  1.1), `Pipe` the ring of `kernel/pipe.c`.
- **User programs.** `Umalloc` is `user/umalloc.c`; `Shell` is the parser of `user/sh.c`, `ShellGrammar` the grammar
  that it recognises, `ShellText` and `ShellRoundTrip` the texts of commands and what they parse to.
- `Common` holds the sizes that several parts share, `Counting` facts about cardinalities.

Pointers into static arrays are indices, so a linked structure is an array of links and a ghost sequence that
gives its order. Code under one lock is one method, and an interleaving is a sequence of calls; where an
interleaving inside a function matters (the log, sleep and wakeup, the disk) the model is a step system, or
one method for each stretch between two points where the lock is given up.

What the proofs say about the code where it differs from its documentation or intent:

- The reservation in `begin_op` guarantees room for every append exactly if the log area has at least
  LOGSIZE + 1 blocks (`LogBudget.RoomIff`). `mkfs` makes it LOGSIZE blocks.
- A write of a block that is already logged needs no room, yet panics when the log is full
  (`LogBudget.AbsorptionPanics`).
- NBUF equals LOGSIZE. A commit of a full log finds no buffer and panics, before any write; commits succeed
  exactly if a buffer is spare (`Log.FsLog.Commit`, `Log.SpareWhenNotFull`, `Log.FullLogPanics`). This needs a
  log area of at least LOGSIZE + 1 blocks. On the LOGSIZE blocks that `mkfs` makes, `log_write` panics at
  LOGSIZE - 1 logged blocks, so the log is never full.
- A chunk of `filewrite` logs at most MAXOPBLOCKS blocks, and exactly that many on a disk whose clear bits lie
  in different bitmap blocks (`FsBounds.ChunkBoundIsTight`). `itrunc` stays within MAXOPBLOCKS exactly if the
  data area has fewer than MAXOPBLOCKS bitmap blocks (`FsBounds.TruncFitsIff`). `mkfs` makes one.
- `kalloc` with an empty list is documented to return 0 and does not (`Kalloc.EmptyIsNotNull`).
  `Kalloc.Kmem.Kalloc` and all of `Vm` follow the documented contract.
- `mmap` accepts a length of 0 and lengths whose rounded end wraps around, and then creates an area that is
  empty or upside down; `Vma.InsertOkIff` says exactly when.
- `munmap` of an address inside the first page of an area, but not at its start, can leave an empty area;
  `Vma.LeftOkIff` says exactly when, and by `Vma.EmptyAreaStays` the loop in `exit` would not end then.
- `fork` with fewer free slots than the parent has areas gives the child some of them and counts them all; if
  the last slot of the pool was free it even returns as if nothing were wrong (`Vma.Vmas.Fork`).
- `piperead` loses the byte whose copy to user memory fails (`Pipe.PipeBuf.Read`), and `pipewrite` returns -1
  when it is interrupted after bytes were accepted (`Pipe.PipeBuf.Write`).

## Model

| member | source | states |
|---|---|---|
| Bio.UnlinkKeepsCircle | xv6-riscv/kernel/bio.c:128-129 | taking any buffer out of the circle leaves `next` and `prev` a circle through exactly the others, in the same order |
| Bio.PushFrontKeepsCircle | xv6-riscv/kernel/bio.c:130-133 | putting an absent buffer after the head gives a circle that starts with it and goes on as before |
| Bio.ReleaseKeepsRecency | xv6-riscv/kernel/bio.c:116-137 | moving a released buffer to the front keeps the list ordered by time of last release, most recent first |
| Bio.RetargetKeepsUnique | xv6-riscv/kernel/bio.c:77-86 | giving an unreferenced buffer a (device, block) that no buffer has keeps at most one buffer per block of a device other than 0 |
| Bio.BCache.constructor | xv6-riscv/kernel/bio.c:36-53 | afterwards the list is a circle of all NBUF buffers, none referenced |
| Bio.BCache.LinkAll | xv6-riscv/kernel/bio.c:42-52 | the loop of `binit` builds the circle through exactly the NBUF buffers |
| Bio.BCache.Bget | xv6-riscv/kernel/bio.c:58-89 | succeeds exactly if the block is cached or some buffer is unreferenced; a referenced buffer is never retargeted; a victim is the unreferenced buffer released longest ago; the list, uniqueness and all other buffers are kept |
| Bio.BCache.FindCached | xv6-riscv/kernel/bio.c:65-73 | finds the buffer of the block if there is one anywhere in the array |
| Bio.BCache.FindVictim | xv6-riscv/kernel/bio.c:75-88 | among unreferenced buffers, the one whose last release is earliest; none exactly if all are referenced |
| Bio.BCache.Bread | xv6-riscv/kernel/bio.c:92-103 | the buffer holds the cached contents, or those of the disk if the block was not cached |
| Bio.BCache.Bwrite | xv6-riscv/kernel/bio.c:106-112 | exactly this block of the disk becomes the contents of the buffer |
| Bio.BCache.Brelse | xv6-riscv/kernel/bio.c:116-137 | drops one reference; the last one makes the buffer the most recently released and first in the list; otherwise the order stays |
| Bio.BCache.Bpin | xv6-riscv/kernel/bio.c:139-144 | one reference more, and the list invariant is kept |
| Bio.BCache.Bunpin | xv6-riscv/kernel/bio.c:146-151 | one reference fewer, without moving the buffer on the list |
| LogCrash.HeaderRoundTrip | xv6-riscv/kernel/log.c:86-114 | decoding the header block that `write_head` makes gives the list that was written, whatever the block held before |
| LogCrash.CommitPrefix | xv6-riscv/kernel/log.c:178-203 | a crash after any k of the block writes of a commit: recovery gives none of the transaction if the header is not written yet, and all of it afterwards; before the header no home block has changed |
| LogCrash.RecoveryPrefix | xv6-riscv/kernel/log.c:116-123 | a crash after any k writes of a recovery: running recovery again gives the same home blocks |
| LogCrash.RecoveredHome | xv6-riscv/kernel/log.c:68-83 | recovery puts each logged block in its home place and leaves every other home block |
| LogCrash.StepKeeps | xv6-riscv/kernel/log.c:68-203 | every step (begin of a commit, one block write of a commit or of a recovery, crash, reboot) keeps: what recovery would make of the disk is the replay of the durable transactions |
| LogCrash.CrashSafety | xv6-riscv/kernel/log.c:116-203 | in every run with any number of crashes, also inside recovery, whenever the system is up and idle the home blocks are the initial ones with the durable transactions applied whole and in order, and every finished commit is among them |
| LogCrash.NothingBeforeHeader | xv6-riscv/kernel/log.c:193-203 | while a commit is not durable, no home block on disk differs from when it began |
| LogCrash.DurableForever | xv6-riscv/kernel/log.c:193-203 | a durable transaction stays durable in all later states of the run |
| LogCrash.Finishes | xv6-riscv/kernel/log.c:68-203 | from any reachable state inside a commit or recovery, the remaining block writes can all be done, one after the other, and the commit has then returned |
| LogCrash.ComesUpAgain | xv6-riscv/kernel/log.c:116-123 | from any state of any run, a crash and a reboot lead to a machine that is up, with exactly the transactions durable at the crash applied |
| LogCrash.CommitTakesEffect | xv6-riscv/kernel/log.c:193-203 | from any idle state of any run, a commit that no crash interrupts returns, and the home blocks are those before it with the whole transaction applied |
| LogBudget.SpaceReserved | xv6-riscv/kernel/log.c:126-142 | under every interleaving of begin, log and end, the blocks logged and all unused budgets fit LOGSIZE, and logged block numbers are distinct |
| LogBudget.StepKeeps | xv6-riscv/kernel/log.c:126-235 | each step keeps the reservation, the distinctness, that no operation is outstanding during a commit, and that nothing is logged when nobody is |
| LogBudget.WaitsForSomebody | xv6-riscv/kernel/log.c:126-142 | in every reachable state an operation that wants to begin is admitted, or a commit runs, or some operation can end |
| LogBudget.RoomIff | xv6-riscv/kernel/log.c:214-223 | an operation with budget left always finds room exactly if the log area has LOGSIZE + 1 blocks or more |
| LogBudget.NoRoomWhenSmall | xv6-riscv/mkfs/mkfs.c:25 | with the LOGSIZE blocks that mkfs gives the log area, a reachable state has an operation with budget left and no room |
| LogBudget.AbsorptionPanics | xv6-riscv/kernel/log.c:219-229 | even with room for every append, a reachable state makes a write of an already logged block panic |
| Log.FsLog.constructor | xv6-riscv/kernel/log.c:54-65 | a log over a fresh cache, with nothing logged |
| Log.FsLog.LogWrite | xv6-riscv/kernel/log.c:214-235 | fails exactly for a full log or outside an operation; otherwise the block becomes the newest contents of memory, is logged once, and its buffer carries exactly one pin; within its budget the call is a step of the reservation protocol |
| Log.FsLog.IndexOf | xv6-riscv/kernel/log.c:225-228 | the position of the block among those logged, or n if it is not logged |
| Log.FsLog.Read | xv6-riscv/kernel/bio.c:92-103 | `bread` always gives the newest logged contents of the block, whatever is on disk; no disk block changes, and every reference and pin is as before; fails exactly if the block is not cached and no buffer is unreferenced |
| Log.FsLog.Update | xv6-riscv/kernel/log.c:205-235 | bread, modify, log_write, brelse: memory changes at this block only and the disk not at all; of the references only the pin of a newly logged block remains; the operation is charged once for a block that was not logged |
| Log.FsLog.WriteHead | xv6-riscv/kernel/log.c:102-114 | writes exactly the header block, with the list of logged blocks |
| Log.FsLog.WriteLog | xv6-riscv/kernel/log.c:178-191 | succeeds exactly if a buffer is spare, and then writes exactly the newest contents of the logged blocks to the log area in order; otherwise it writes nothing |
| Log.FsLog.InstallTrans | xv6-riscv/kernel/log.c:68-83 | writes each log block to its home block in order, and releases exactly the pin of each block when not recovering |
| Log.FsLog.Commit | xv6-riscv/kernel/log.c:193-203 | succeeds exactly if nothing is logged or a buffer is spare; then the disk writes are exactly those of the crash model, memory is unchanged, every pin is dropped and the references that callers hold are kept; otherwise it panics before any write |
| Log.FsLog.ReadHead | xv6-riscv/kernel/log.c:85-97 | loads the list that the header block on disk encodes |
| Log.FsLog.RecoverFromLog | xv6-riscv/kernel/log.c:116-123 | issues exactly the recovery writes of the crash model and leaves the recovered disk and an empty log |
| Log.FsLog.BeginOp | xv6-riscv/kernel/log.c:125-142 | admits exactly if no commit runs and the log has room for MAXOPBLOCKS more for this and every outstanding operation; the call is a step of the reservation protocol, so it keeps the log within its budget; refused, it changes nothing |
| Log.FsLog.EndOp | xv6-riscv/kernel/log.c:144-175 | the last operation out commits everything, with exactly the disk writes of the crash model; memory seen by readers and the references that callers hold never change; panics exactly if a commit is due and finds no buffer; the log stays within its budget |
| Log.FsLog.Leave | xv6-riscv/kernel/log.c:146-166 | the part under the lock: a step of the reservation protocol, and only the last operation out sets `committing` |
| Log.FsLog.CommitAll | xv6-riscv/kernel/log.c:168-176 | the part of the last operation: until it is done `committing` keeps every other operation out; then it is the commit step of the reservation protocol |
| Log.BudgetIsRoom | xv6-riscv/kernel/log.c:125-142 | on this log, in every state that operations within their budgets lead to, the blocks logged and all unused budgets fit LOGSIZE, and with a log area above LOGSIZE blocks an operation with budget left never meets the panic |
| Log.ChargedStep | xv6-riscv/kernel/log.c:214-235 | recording a block is a step of the reservation protocol, absorbed or not |
| Log.CommitComposes | xv6-riscv/kernel/log.c:193-203 | log blocks, header, install and cleared header, one after the other, are the write list of the crash model |
| Log.CommitKeepsMemory | xv6-riscv/kernel/log.c:178-203 | writing the newest contents to the log and home again changes no home block as readers see it |
| Log.RecoveryComposes | xv6-riscv/kernel/log.c:116-123 | install and cleared header from the log on disk are the recovery of the crash model |
| Log.SpareBufferIff | xv6-riscv/kernel/param.h:9-11 | some buffer is without a pin exactly if fewer than NBUF blocks are logged |
| Log.SpareWhenNotFull | xv6-riscv/kernel/param.h:9-11 | a full log leaves no buffer unreferenced, because NBUF equals LOGSIZE; when callers hold no buffer, a buffer is unreferenced exactly if the log is not full |
| Log.FullLogPanics | xv6-riscv/kernel/log.c:125-203 | on any recovered disk whose log area has more than LOGSIZE blocks: three operations that together log LOGSIZE blocks, each call succeeding, and the commit by the last one panics |
| FsModel.BitPutBit | xv6-riscv/kernel/fs.c:74-77 | setting or clearing the bit of one block changes the mark of no other block |
| FsModel.InodeRoundTrip | xv6-riscv/kernel/fs.c:217-237 | an inode stored in its block is read back, and the other inodes of the block are undisturbed |
| FsModel.BitmapFormat | xv6-riscv/kernel/fs.h:46-50 | which bit of which byte of which block stands for a block |
| FsModel.InodeFormat | xv6-riscv/kernel/fs.h:30-44 | which bytes of a block hold the size and the addresses of an inode, in little-endian order |
| FsModel.DiskInodePut | xv6-riscv/kernel/fs.c:217-237 | storing inode i changes what the disk says of inode i and of no other inode |
| FsModel.AllocKeeps | xv6-riscv/kernel/fs.c:64-86 | a block whose bit is clear is a data block that nobody owns; marking and zeroing it keeps every owned block |
| FsModel.FreeKeeps | xv6-riscv/kernel/fs.c:89-103 | a block just detached has its bit set, so the panic of `bfree` is not reached, and clearing it keeps the bitmap exact |
| FsModel.AttachPointer | xv6-riscv/kernel/fs.c:383-393 | storing a new block in an empty direct slot, or as indirect block, changes that address and no other, in any file |
| FsModel.AttachEntry | xv6-riscv/kernel/fs.c:394-401 | storing a new block in an empty entry of the indirect block keeps one owner per block |
| FsModel.DetachPointer | xv6-riscv/kernel/fs.c:416-421 | clearing a direct slot frees its block from its only owner |
| FsModel.DetachIndirect | xv6-riscv/kernel/fs.c:423-433 | clearing the indirect pointer detaches the indirect block and each of its entries once |
| FsModel.WriteKeeps | xv6-riscv/kernel/fs.c:487-518 | overwriting a data block moves no block of any file |
| FsModel.OwnedFrame | xv6-riscv/kernel/fs.c:377-405 | addresses depend only on the contents of owned blocks |
| FsModel.GrowsKeepsFiles | xv6-riscv/kernel/fs.c:377-405 | adding blocks changes the contents of no file |
| FsWrite.StoredContents | xv6-riscv/kernel/fs.c:487-518 | once the size is updated the file is old[..off] + data + old tail, and every other file is as before, across the direct and indirect blocks |
| FsWrite.WritingStep | xv6-riscv/kernel/fs.c:497-507 | one round of the loop of `writei` adds exactly the blocks it logged to the set and exactly its bytes to the file |
| FsWrite.WritingFails | xv6-riscv/kernel/fs.c:500-503 | when the copy fails after `bmap`, nothing more is stored and what was logged is within the set of the whole write |
| FsWrite.WriteSetStep | xv6-riscv/kernel/fs.c:377-405 | the blocks logged so far, in closed form: bitmap, indirect and data blocks of the blocks touched |
| FsWrite.WriteCost | xv6-riscv/kernel/fs.c:487-518 | the distinct blocks logged by a write and its `iupdate` are at most LogCost(off, n), even with each allocation in another bitmap block |
| FsWrite.UnalignedStart | xv6-riscv/kernel/file.c:159-165 | an unaligned write starts in a block that is allocated, because off is at most the size |
| FsWrite.ChunkFits | xv6-riscv/kernel/file.c:159-174 | a chunk of at most three blocks costs at most MAXOPBLOCKS = 10 blocks of log |
| FileSys.FreshImage | xv6-riscv/mkfs/mkfs.c:234-248 | an image with the bits of the metadata blocks set and zero inode blocks is a consistent file system of empty files |
| FileSys.FileSystem.constructor | xv6-riscv/mkfs/mkfs.c:234-248 | a file system of empty files is valid |
| FileSys.FileSystem.Mount | xv6-riscv/kernel/fs.c:289-313 | the file system that any consistent disk holds, such as the image of mkfs or a recovered disk: the inodes are those in its inode blocks |
| FileSys.UpdatedKeeps | xv6-riscv/kernel/fs.c:217-237 | when one inode differs from the disk, its iupdate makes all of them agree, moves no block and changes the bytes of no file |
| FileSys.FileSystem.Balloc | xv6-riscv/kernel/fs.c:64-86 | the lowest block whose bit is clear, marked and zeroed; fails exactly if all bits are set |
| FileSys.FileSystem.Bfree | xv6-riscv/kernel/fs.c:89-103 | clears the bit; panics exactly if it was clear |
| FileSys.FileSystem.Bmap | xv6-riscv/kernel/fs.c:377-405 | the address of the block, allocated with the indirect block where missing; logs exactly those blocks and changes no other; for a mapped block nothing changes; panics with all bits set and at most the indirect block allocated |
| FileSys.FileSystem.Itrunc | xv6-riscv/kernel/fs.c:407-437 | the file is empty, exactly the blocks it owned are free, every other file reads as before; the panic of `bfree` is never reached; logged are exactly the bitmap blocks of the freed blocks and the inode block |
| FileSys.FileSystem.TruncDirect | xv6-riscv/kernel/fs.c:416-421 | frees the direct blocks and spares all blocks of other files |
| FileSys.FileSystem.TruncIndirect | xv6-riscv/kernel/fs.c:423-433 | frees the indirect block and its entries and spares all blocks of other files |
| FileSys.FreePointerKeeps | xv6-riscv/kernel/fs.c:416-421 | the block of a direct slot has its bit set, and clearing slot and bit keeps the invariant |
| FileSys.FileSystem.Iupdate | xv6-riscv/kernel/fs.c:217-237 | the inode block, which is logged, holds this inode, and the rest of it is as before |
| FileSys.FileSystem.Readi | xv6-riscv/kernel/fs.c:452-477 | byte k is byte off + k of the file, and there are as many as asked for or as the file has left; none past the end or on wrap-around; nothing is allocated, logged or changed; fails exactly if the destination is too small |
| FileSys.ReadBytes | xv6-riscv/kernel/fs.c:452-477 | which bytes of the file a read gives, and how many |
| FileSys.ReadsJoin | xv6-riscv/kernel/fs.c:452-477 | two reads in a row are one read of both lengths |
| FileSys.ReadAfterWrite | xv6-riscv/kernel/fs.c:452-518 | reading where a write stored gives exactly the bytes stored |
| FileSys.ReadBesideWrite | xv6-riscv/kernel/fs.c:452-518 | reading beside a write gives what was there before |
| FileSys.RefusedIff | xv6-riscv/kernel/fs.c:485-488 | a write is refused exactly for an offset past the end, a wrap-around or an end past the largest file |
| FileSys.FileSystem.WriteBlocks | xv6-riscv/kernel/fs.c:497-507 | the bytes that could be copied are stored at off, and exactly the closed-form set of blocks is logged; a panic has logged no more than the bound of the write |
| FileSys.PanicCost | xv6-riscv/kernel/fs.c:497-507 | a panic of `bmap` in the middle of a write leaves it within its log bound |
| FileSys.FileSystem.Writei | xv6-riscv/kernel/fs.c:480-518 | refuses exactly for off past the size, wrap-around or too large a file; otherwise the file has the stored bytes spliced in and all others are unchanged; all bytes are stored, or exactly those before the block whose bytes cannot all be had; in every case at most LogCost blocks are logged and no other block changes |
| FileSys.FileSystem.Filewrite | xv6-riscv/kernel/file.c:145-191 | the chunks sent to `writei`, as many as the bytes stored say and a panicking one included, each log at most MAXOPBLOCKS blocks and change no block they do not log; after chunk j the file system is consistent, on disk too, and the file has exactly the first j + 1 chunks spliced in; all of the data is stored exactly if the call succeeds, and otherwise all chunks before the first that is refused or runs short, and of that one what `writei` stores |
| FileSys.ChunkStops | xv6-riscv/kernel/file.c:165-188 | how many bytes are stored in all when one chunk is refused or stores only some of its bytes |
| FileSys.ChangesAreLogged | xv6-riscv/kernel/file.c:165-184 | every block that differs after any number of transactions was logged by one of them |
| FileSys.WroteMore | xv6-riscv/kernel/file.c:165-184 | two writes one after the other are one write of the joined bytes |
| FsBounds.NotUsedUp | xv6-riscv/kernel/file.c:159-174 | with clear bits in eleven bitmap blocks no transaction can end in the out-of-blocks panic: it would log all eleven |
| FsBounds.LogsTen | xv6-riscv/kernel/file.c:159-174 | any transaction that stores three blocks of data across the last direct block of the file of the image logs exactly MAXOPBLOCKS blocks |
| FsBounds.ChunkBoundIsTight | xv6-riscv/kernel/file.c:145-191 | the bound of a chunk is reached: on a mounted consistent image `filewrite` of 3 * BSIZE bytes succeeds in one transaction that logs exactly MAXOPBLOCKS blocks |
| FsBounds.TruncCost | xv6-riscv/kernel/fs.c:407-437 | a truncation logs one block more than the bitmap blocks of the file, which are at most the bitmap blocks of the data area |
| FsBounds.TruncFitsIff | xv6-riscv/kernel/fs.c:407-437 | every truncation of every consistent file system stays within MAXOPBLOCKS exactly if the data area has fewer than MAXOPBLOCKS bitmap blocks |
| FileCrash.ChunkCommits | xv6-riscv/kernel/file.c:165-184 | every chunk that logged a block is a valid transaction of a log with more than MAXOPBLOCKS blocks |
| FileCrash.ApplyChunk | xv6-riscv/kernel/log.c:178-203 | committing the logged blocks of a chunk takes the home blocks before it to the home blocks after it |
| FileCrash.ChunkBoundary | xv6-riscv/kernel/log.c:116-203 | in every run of the log that commits the chunks in order until a crash: whenever the machine is up, the home blocks are those after the first m chunks, m covers every chunk whose commit returned, and at most the last one begun is missing |
| FileCrash.ReadBack | xv6-riscv/kernel/fs.c:289-313 | a disk with the home blocks of a consistent file system holds the same inodes and the same bytes in every file |
| FileCrash.FilewriteIsAtomic | xv6-riscv/kernel/file.c:145-191 | a crash at any block write of a `filewrite`, and any crashes of the recovery: the recovered disk is a consistent file system whose file has the data of the first m chunks whole and nothing of the others, every other file as before |
| Umalloc.InsertUp | xv6-riscv/user/umalloc.c:33-37 | inserting a block in its place, and joining it with the next if they touch, keeps the ring ascending with gaps elsewhere |
| Umalloc.MergeDown | xv6-riscv/user/umalloc.c:38-42 | joining with the block below restores that no two free blocks touch |
| Umalloc.InsertLinked | xv6-riscv/user/umalloc.c:33-42 | the pointers are one circle through the ring with the new block in its place |
| Umalloc.MergeLinked | xv6-riscv/user/umalloc.c:38-41 | the pointers are one circle through the ring without the absorbed block |
| Umalloc.FreeKeepsGood | xv6-riscv/user/umalloc.c:24-44 | adding exactly the units of a live block to the free list keeps live and free blocks disjoint and all units of sbrk accounted for |
| Umalloc.AllocKeepsGood | xv6-riscv/user/umalloc.c:74-85 | handing out units of a free block keeps live and free blocks disjoint and all units accounted for |
| Umalloc.GrowKeepsGood | xv6-riscv/user/umalloc.c:46-61 | a region from sbrk, disjoint from the arena, joins it |
| Umalloc.TakeTail | xv6-riscv/user/umalloc.c:78-82 | cutting the tail off a larger free block keeps the free list well formed |
| Umalloc.TakeWhole | xv6-riscv/user/umalloc.c:76-77 | unlinking a block of exactly the size keeps the free list well formed |
| Umalloc.FullCircle | xv6-riscv/user/umalloc.c:74-89 | back at the start of the search, every free block has been seen and is too small |
| Umalloc.Heap.constructor | xv6-riscv/user/umalloc.c:21-22 | an empty heap |
| Umalloc.Heap.FindSlot | xv6-riscv/user/umalloc.c:30-32 | the search from any position ends at the block after which the freed one belongs by address |
| Umalloc.Heap.Free | xv6-riscv/user/umalloc.c:24-44 | exactly the units of the block become free; the list stays one ascending circle with no two free blocks touching; the next search starts at the free block just below |
| Umalloc.Heap.Morecore | xv6-riscv/user/umalloc.c:46-61 | adds exactly the region from sbrk to the free units, and then some block is large enough; unchanged on failure |
| Umalloc.Heap.Malloc | xv6-riscv/user/umalloc.c:63-90 | a block of the requested units disjoint from all live ones: the end of the first block that fits, going round from where the last search ended, and the next search starts before it; sbrk is asked at most once, only if no free block fits, and the search then ends within one more circuit; none only if no block fits and sbrk failed |
| Shell.GetTokenLoop | xv6-riscv/user/sh.c:265-308 | the loops of `gettoken` compute the token, its kind and the cursor after it |
| Shell.PeekLoop | xv6-riscv/user/sh.c:310-320 | the loop of `peek` skips exactly the blanks |
| Shell.TokenIsWord | xv6-riscv/user/sh.c:295-302 | a token of kind a is a maximal run of word characters |
| Shell.LineWords | xv6-riscv/user/sh.c:344-446 | every word in the tree that any successful parse gives is a whole word of the line |
| Shell.NulTerminate | xv6-riscv/user/sh.c:448-493 | the buffer changes exactly at the ends of the words of the command |
| Shell.WordsSurvive | xv6-riscv/user/sh.c:448-493 | no end of a word lies inside another, so every word read as a C string is its token |
| Shell.ParseCommand | xv6-riscv/user/sh.c:327-342 | parses, terminates in place, and every argument and file name reads back as its token; `ShellGrammar.ParsesGrammar` says which tree it is |
| ShellRoundTrip.ShowParsesBack | xv6-riscv/user/sh.c:344-446 | the canonical text of any command, anywhere in a line where it is closed off, parses to that command and stops after it |
| ShellRoundTrip.RoundTrip | xv6-riscv/user/sh.c:327-446 | parsing the canonical text of any command of good words returns it and consumes all input, exactly if no part of it has MAXARGS arguments; otherwise it panics |
| ShellRoundTrip.TooManyArgs | xv6-riscv/user/sh.c:436-440 | an argument list of MAXARGS words or more panics |
| ShellRoundTrip.BigPanics | xv6-riscv/user/sh.c:344-446 | one part with MAXARGS arguments makes the parse of any command around it panic |
| ShellGrammar.SequenceSound | xv6-riscv/user/sh.c:344-359 | whatever part of a line `parseline` accepts is derived by the grammar of the shell, and its tree is the tree of that derivation |
| ShellGrammar.SequenceComplete | xv6-riscv/user/sh.c:344-359 | every text that the grammar derives, and that keeps below MAXARGS, is accepted up to its end |
| ShellGrammar.CommandComplete | xv6-riscv/user/sh.c:374-446 | the same for one command: words and redirections in any order, or a parenthesised line with redirections after it |
| ShellGrammar.WrapIsAround | xv6-riscv/user/sh.c:388-394 | redirections are put around a command so that the first one is innermost |
| ShellGrammar.ParsesGrammar | xv6-riscv/user/sh.c:327-446 | `parsecmd` accepts exactly the lines that the grammar of commands, pipelines and lists derives with fewer than MAXARGS words in each command, and gives the tree of the derivation |
| ShellText.EveryWordOnce | xv6-riscv/user/sh.c:265-446 | every maximal run of word characters of an accepted line is in the tree exactly once, as an argument or a file name, and nothing else is |
| ShellText.LexRendered | xv6-riscv/user/sh.c:265-308 | the tokens of a text written word by word are those that were written |
| ShellText.TextParses | xv6-riscv/user/sh.c:327-446 | the text of any list of pipelines, with redirections anywhere between the words and any number of `&`, parses to the tree with exactly these words |
| ShellText.RedirectionText | xv6-riscv/user/sh.c:374-446 | an instance: two words and a redirection after them |
| Proc.LocalKeeps | xv6-riscv/kernel/proc.c:488-648 | a step that changes one process, one CPU and locks of that CPU, and is right for those, keeps the whole structure |
| Proc.StepFits | xv6-riscv/kernel/proc.c:488-648 | every one of the 21 kinds of step is such a step |
| Proc.StepKeepsStruct | xv6-riscv/kernel/proc.c:488-648 | every step keeps: who runs where, who holds which process lock, the state that goes with each program point, which spinlocks a CPU may hold, and that exactly the processes between their entry to sleep and its last lines have a channel |
| Proc.SnapshotDue | xv6-riscv/kernel/proc.c:579-606 | whoever is inside sleep on a free lock has passed the point where it took its own lock |
| Proc.LookEnds | xv6-riscv/kernel/proc.c:610-624 | when wakeup goes past a process, a call of sleep that was there when the lock was taken is over |
| Proc.StepKeepsHistory | xv6-riscv/kernel/proc.c:579-624 | every step keeps: whom a running wakeup has passed is not asleep from a noted call on its channel |
| Proc.AwakeForGood | xv6-riscv/kernel/proc.c:579-624 | a call of sleep that is over never resumes sleeping, in any later state of the run |
| Proc.RunKeeps | xv6-riscv/kernel/proc.c:488-648 | all of this holds in every state of every run |
| Proc.NoLostWakeup | xv6-riscv/kernel/proc.c:579-624 | in every run: a process inside sleep(chan, lk) when lk is taken is not asleep from that call in any state after the holder's wakeup(chan) has returned |
| Proc.RunningIffCurrent | xv6-riscv/kernel/proc.c:488-516 | in every state of every run: a process whose lock is free is RUNNING exactly if some CPU has it as current, and never two CPUs have |
| Proc.SchedNeverPanics | xv6-riscv/kernel/proc.c:525-543 | in every state of every run: in sched the process holds its own lock and the CPU no other, and the state is no longer RUNNING |
| Proc.SleepAdvances | xv6-riscv/kernel/proc.c:579-606 | every step keeps a process inside its call of sleep, or is its last one, which takes the lock while it is free |
| Proc.SleepReturnsWithLock | xv6-riscv/kernel/proc.c:579-606 | in every run: when a call sleep(chan, lk) returns, its CPU holds lk, which was held at the call and free in between |
| Proc.NoSpuriousWakeup | xv6-riscv/kernel/proc.c:579-648 | in every run: a sleeping process stays asleep on its channel until it is killed or a wakeup on that channel looks at it, and then it is runnable |
| Proc.RoundRobin | xv6-riscv/kernel/proc.c:488-516 | in every run: a scheduler tries the processes in turn, round the whole table |
| Proc.GoesOnOrWaits | xv6-riscv/kernel/spinlock.c:21-34 | whoever spins for a lock does not hold it: a CPU can take its next step or waits for a lock of another CPU |
| Proc.NoDeadlock | xv6-riscv/kernel/proc.c:488-648 | in every state of every run: each CPU can go on, or waits for a lock whose holder can go on, or for one whose holder waits for the lock of a process whose holder can go on |
| Virtio.AtMostTwo | xv6-riscv/kernel/virtio_disk.c:187-201 | with three of eight descriptors per request, there are never more than two requests |
| Virtio.FewWaiting | xv6-riscv/kernel/virtio_disk.c:259-265 | never more than two entries of either ring wait to be read |
| Virtio.WrapKeepsSlot | xv6-riscv/kernel/virtio_disk.c:259-265 | a 16-bit index that wraps names the same ring slot as the unwrapped count |
| Virtio.WrapKeepsOrder | xv6-riscv/kernel/virtio_disk.c:300-302 | comparing wrapped indexes tells whether entries wait |
| Virtio.WaitingApart | xv6-riscv/kernel/virtio_disk.c:259-265 | the slot written next, in either ring, is none of those still to be read |
| Virtio.ChainsDisjoint | xv6-riscv/kernel/virtio_disk.c:223-253 | two requests share no descriptor |
| Virtio.StartKeeps | xv6-riscv/kernel/virtio_disk.c:214-221 | taking three free descriptors for a request keeps: each descriptor is free or in exactly one chain |
| Virtio.FillKeeps | xv6-riscv/kernel/virtio_disk.c:223-257 | formatting a request keeps every other request formatted |
| Virtio.PublishKeeps | xv6-riscv/kernel/virtio_disk.c:259-265 | making a formatted request visible keeps the avail ring exact |
| Virtio.FetchKeeps | xv6-riscv/kernel/virtio_disk.c:259-269 | what the device takes next is the oldest request not yet taken |
| Virtio.CompleteKeeps | xv6-riscv/kernel/virtio_disk.c:223-257 | following the descriptors leads the device to a header, a block and a status byte of the right lengths and directions, with the sector and buffer of the request; completing it keeps all invariants |
| Virtio.SeeKeeps | xv6-riscv/kernel/virtio_disk.c:300-312 | the entry the handler takes is a completed request of the buffer recorded for it |
| Virtio.RetireKeeps | xv6-riscv/kernel/virtio_disk.c:276-277 | taking a finished request apart frees exactly its three descriptors |
| Virtio.VirtioDisk.constructor | xv6-riscv/kernel/virtio_disk.c:76-141 | all descriptors free, rings empty |
| Virtio.VirtioDisk.AllocDesc | xv6-riscv/kernel/virtio_disk.c:143-154 | the first free descriptor, or -1 exactly if none is free |
| Virtio.VirtioDisk.FreeDesc | xv6-riscv/kernel/virtio_disk.c:156-170 | frees this descriptor and clears its fields |
| Virtio.VirtioDisk.Alloc3 | xv6-riscv/kernel/virtio_disk.c:187-201 | three distinct free descriptors exactly if three are free; otherwise the free set is as before |
| Virtio.VirtioDisk.FreeChain | xv6-riscv/kernel/virtio_disk.c:172-185 | following the links frees exactly the three descriptors of the chain |
| Virtio.VirtioDisk.Start | xv6-riscv/kernel/virtio_disk.c:206-221 | gets descriptors exactly if at most one request is there; a process that must sleep changes nothing |
| Virtio.VirtioDisk.Publish | xv6-riscv/kernel/virtio_disk.c:259-265 | no waiting ring entry is overwritten |
| Virtio.VirtioDisk.Request | xv6-riscv/kernel/virtio_disk.c:203-274 | one new request for this buffer and direction is queued, for the sector where the block starts on disk; the others are as they were |
| Virtio.SectorsApart | xv6-riscv/kernel/virtio_disk.c:206 | two blocks have the same sectors exactly if they differ by a multiple of 2 to the 31, the product being computed in 32 bits; otherwise their sectors do not overlap |
| Virtio.VirtioDisk.Finish | xv6-riscv/kernel/virtio_disk.c:271-279 | returns exactly if the request is done, and then the buffer holds what the device moved |
| Virtio.VirtioDisk.See | xv6-riscv/kernel/virtio_disk.c:300-312 | clears the disk flag of a buffer only for a request of that buffer that the device completed with status 0; panics exactly for another status |
| Virtio.VirtioDisk.Fetch | xv6-riscv/kernel/virtio_disk.c:259-269 | the device sees every published entry once, in order |
| Virtio.VirtioDisk.Complete | xv6-riscv/kernel/virtio_disk.c:235-253 | in any order and with any status: on success buffer and sector agree and nothing else changed; no unread used entry is overwritten |
| Pipe.CounterTests | xv6-riscv/kernel/pipe.c:88-121 | the tests for empty and full are right on wrapped 32-bit counters |
| Pipe.SameSlot | xv6-riscv/kernel/pipe.c:95-123 | the ring place does not jump when a counter wraps |
| Pipe.StoreAppends | xv6-riscv/kernel/pipe.c:95-96 | the store at nwrite appends one byte to the ring contents |
| Pipe.LoadRemoves | xv6-riscv/kernel/pipe.c:121-123 | the load at nread takes the oldest byte |
| Pipe.PipeBuf.constructor | xv6-riscv/kernel/pipe.c:22-56 | empty and open at both ends |
| Pipe.PipeBuf.Write | xv6-riscv/kernel/pipe.c:76-103 | appends exactly the bytes it took, in order; sleeps only on a full ring; fails exactly if the reader is gone or the process killed; ends early only where the copy fails with room left |
| Pipe.PipeBuf.Read | xv6-riscv/kernel/pipe.c:105-130 | consumes from the front in order; bytes consumed then ring contents are always the bytes accepted, with at most PIPESIZE in the ring; a byte whose copy out fails is consumed and lost |
| Pipe.PipeBuf.Close | xv6-riscv/kernel/pipe.c:58-74 | closes one end and keeps the contents; the pipe is freed exactly if the other end was closed before |
| Vma.Disjoint | xv6-riscv/kernel/file.c:196-290 | areas in order do not overlap and lie below TRAPFRAME |
| Vma.InsertOkIff | xv6-riscv/kernel/file.c:230-268 | the chain stays sorted, disjoint, aligned, non-empty and below TOP_ADDRESS exactly if the rounded length is not 0 and its end does not wrap 64 bits |
| Vma.MeantLengths | xv6-riscv/kernel/file.c:230-268 | lengths from 1 to TOP_ADDRESS - START_ADDRESS always meet that condition, 0 never does |
| Vma.LeftOkIff | xv6-riscv/kernel/file.c:379-381 | what munmap leaves of an area is a proper area exactly if the address is not inside its first page, short of its start |
| Vma.EmptyAreaStays | xv6-riscv/kernel/file.c:331-341 | the empty area left otherwise covers no range at all, so no later munmap removes it |
| Vma.LeftIsRest | xv6-riscv/kernel/file.c:379-381 | for an aligned range at an end of its area exactly that range goes, or the whole area |
| Vma.InsertKeeps | xv6-riscv/kernel/file.c:238-286 | linking a free slot in keeps every chain, one owner per used slot, and file.ref = descriptors + areas |
| Vma.RemoveKeeps | xv6-riscv/kernel/file.c:305-329 | unlinking a slot keeps the same |
| Vma.InsertShows | xv6-riscv/kernel/file.c:238-286 | the process gains exactly this area at this place, no other process sees a change |
| Vma.RemoveShows | xv6-riscv/kernel/file.c:305-329 | the process loses exactly this area, no other process sees a change |
| Vma.Vmas.constructor | xv6-riscv/kernel/file.c:20-22 | an empty pool |
| Vma.Vmas.FileDup | xv6-riscv/kernel/file.c:56-66 | one reference and one descriptor more |
| Vma.Vmas.FileClose | xv6-riscv/kernel/file.c:68-93 | one reference and one descriptor fewer; it was the last reference exactly if the count was 1, and then no area maps the file |
| Vma.Vmas.FindVma | xv6-riscv/kernel/file.c:216-228 | takes the first free slot; none exactly if all are used |
| Vma.Vmas.Seek | xv6-riscv/kernel/file.c:230-271 | stops at the first place that fits, never before the first area |
| Vma.Vmas.Mmap | xv6-riscv/kernel/file.c:196-290 | succeeds exactly under its four conditions; the new area has this length, protection, flag and file, begins at the address returned and ends a rounded length further; it is inserted first-fit and adds one reference and one to nvma; on failure nothing changes; validity is kept exactly under the condition of `InsertOkIff` |
| Vma.FindsRoomIff | xv6-riscv/kernel/file.c:219-262 | for a size that does not wrap, first fit finds a place exactly if there is a large enough gap between two areas or above the last |
| Vma.Vmas.Find | xv6-riscv/kernel/file.c:331-336 | the first area of the process that covers the range |
| Vma.Vmas.FreeVma | xv6-riscv/kernel/file.c:305-329 | removes the slot from chain and pool and drops exactly one reference of its file |
| Vma.Vmas.Munmap | xv6-riscv/kernel/file.c:296-385 | fails exactly if no area covers the range; else the covering area goes whole with its reference or is cut; validity is kept exactly under the condition of `LeftOkIff` |
| Vma.FirstIsWhole | xv6-riscv/kernel/proc.c:401-405 | the first area of a valid chain, given its own bounds, is covered and unmapped whole |
| Vma.Vmas.UnmapAll | xv6-riscv/kernel/proc.c:401-405 | the loop of exit ends with nvma = 0, all slots of the process free, one reference dropped per area, other processes unaffected |
| Vma.Vmas.NextFree | xv6-riscv/kernel/proc.c:323-346 | finds the next free slot from c0 exactly if there is one; otherwise it stops at the last slot, or does nothing when c0 is past it |
| Vma.Vmas.Fork | xv6-riscv/kernel/proc.c:314-351 | the child gets the first areas, as many as slots are free, in order on slots of its own, one reference more for each; it counts all of them, so the pool stays valid exactly if enough slots were free; it returns an error exactly if too few were free and the last slot was used |
| Kalloc.Kmem.constructor | xv6-riscv/kernel/kalloc.c:35-49 | every whole page after the kernel is on the free list once |
| Kalloc.Kmem.Kalloc | xv6-riscv/kernel/kalloc.c:113-129 | the documented contract: the head of the list, now in use with one reference, or none exactly if the list is empty |
| Kalloc.Kmem.Kfree | xv6-riscv/kernel/kalloc.c:85-108 | a page in use goes back to the head of the list; every page stays free or in use, never both, never twice on the list |
| Kalloc.EmptyIsNotNull | xv6-riscv/kernel/kalloc.c:110-129 | on an empty list the returned address is never 0, contrary to the comment; on a page record it is the page's address |
| PageTree.Entry | xv6-riscv/kernel/riscv.h:348-353 | frame and flags of an entry can be read back |
| PageTree.SplitInjective | xv6-riscv/kernel/riscv.h:355-364 | the three 9-bit indices determine the page, below MAXVA |
| PageTree.SplitOnto | xv6-riscv/kernel/riscv.h:355-364 | every triple of indices in the lower half is that of a page below MAXVA |
| PageTree.AddMidFlat | xv6-riscv/kernel/vm.c:85-96 | a new level-1 table keeps the tables a forest without sharing and changes no leaf of any page table |
| PageTree.AddLowFlat | xv6-riscv/kernel/vm.c:85-96 | the same for a new level-0 table |
| PageTree.SetFlat | xv6-riscv/kernel/vm.c:146-158 | a store through a walked pointer changes the flat map at exactly that page of that page table |
| PageTree.OtherTree | xv6-riscv/kernel/vm.c:80-98 | a page table whose table pages are untouched stays as it was |
| FreeWalk.TreeWhole | xv6-riscv/kernel/vm.c:266-282 | a page table without leaves has only pointers and invalid entries, so the panic of freewalk is not reached |
| FreeWalk.ChildWhole | xv6-riscv/kernel/vm.c:270-279 | a valid entry leads to the table of its place, an invalid one has nothing below it |
| FreeWalk.SweptMore | xv6-riscv/kernel/vm.c:270-279 | after a child is freed, exactly the tables below the entries visited so far are gone |
| FreeWalk.ClearedKeeps | xv6-riscv/kernel/vm.c:266-282 | once a page table is freed all others are as they were |
| FreeWalk.NewTreeKeeps | xv6-riscv/kernel/vm.c:189-200 | a zeroed page is a page table with an empty flat map |
| Vm.Vm.Walk | xv6-riscv/kernel/vm.c:80-98 | the pointer for the page; fails exactly when a table is missing and, with alloc, no page is free; the flat map of every page table is unchanged; each free page taken is a table on the way to the page; without alloc nothing changes |
| Vm.Vm.Mappages | xv6-riscv/kernel/vm.c:133-160 | maps exactly the pages that meet the range of bytes, to consecutive frames, or a prefix when memory runs out or a page is mapped already; the free pages taken are tables on the way to the pages visited |
| Vm.Vm.Uvmunmap | xv6-riscv/kernel/vm.c:162-187 | succeeds exactly if every page of the range is mapped by a leaf, removes exactly the range and frees exactly its frames, which are filled with junk; no other frame changes; stops after a prefix otherwise |
| Vm.Vm.Uvmcreate | xv6-riscv/kernel/vm.c:189-200 | an empty page table, others unchanged |
| Vm.Vm.Uvmalloc | xv6-riscv/kernel/vm.c:218-244 | succeeds exactly if as many pages are free as the new pages need for frames and missing tables; then every address below the new size is backed, exactly the pages that begin from the old size on are new, in distinct frames that were free, and their bytes are zero; on failure the valid entries and the frames in use are as before |
| Vm.Vm.Uvmdealloc | xv6-riscv/kernel/vm.c:246-262 | unmaps and frees exactly the pages that begin at or above the new size, and keeps every address below it backed; panics exactly if one of them is not mapped |
| Vm.UndoRestores | xv6-riscv/kernel/vm.c:232-241 | unmapping what was newly mapped restores the valid entries and the set of frames in use |
| Vm.RanOut | xv6-riscv/kernel/vm.c:218-244 | when a page cannot be had, fewer pages were free than the range needs for frames and missing tables |
| Vm.WasEnough | xv6-riscv/kernel/vm.c:218-244 | when every page was had, at least that many were free |
| Vm.Vm.Uvmcopy | xv6-riscv/kernel/vm.c:294-328 | succeeds exactly if as many pages are free as the child needs for frames and missing tables; then every address below the size has the byte it has in the parent, in a frame of the child's own with the same flags; the parent keeps map and bytes; on failure the child's valid entries and the frames in use are as before |
| Vm.PagesBelow | xv6-riscv/kernel/riscv.h:338-339 | rounding up to pages: page w is among the pages of a size exactly if it begins below the size |
| Vm.LastPageMeets | xv6-riscv/kernel/vm.c:140-142 | the pages from the first to the last page of a range are exactly those with a byte of the range |
| Vm.GrownBytes | xv6-riscv/kernel/vm.c:218-244 | after growing, every address up to the new size is backed, and bytes that are new are zero |
| Vm.UnmappedBytes | xv6-riscv/kernel/vm.c:246-262 | after shrinking, an address below the new size has the byte it had, and no page begins at or above it |
| Vm.CopiedBytes | xv6-riscv/kernel/vm.c:294-328 | after copying, every address of the child has the byte of the parent |
| Vm.Vm.Freewalk | xv6-riscv/kernel/vm.c:264-282 | frees every table page at and below its place exactly once and no other |
| Vm.Vm.Uvmfree | xv6-riscv/kernel/vm.c:284-292 | returns exactly the leaf frames and all table pages of the page table; every other page table is unchanged |

## Left out

- Directories, path names, `ialloc`, `iget` and `iput`, and of an inode its type, device numbers and link count: the model has all inodes in memory, with size and addresses.
- FileSys.FreshImage: the files that mkfs puts into the image; FileSys.FileSystem.Mount starts from any consistent image.
- FileSys.FileSystem.constructor: like FileSys.FreshImage, empty files only.
- FileCrash.FilewriteIsAtomic: no other file-system operation shares the commits of the filewrite, and its process does not go on after a crash.
- Log.FsLog.ReadHead: a header block whose count is above LOGSIZE, which the code would copy past the end of the in-memory header.
- Bio, Log and FileSys: sleep locks, and waiting for them, are not modelled; a buffer or inode is held by whoever references it.
- A device error while reading or writing a block: a block write is atomic and succeeds.
- FileSys.FileSystem.Writei: a copy from user memory that fails in the middle of a block counts as failing before the block, because the partial bytes are not logged.
- FileSys.FileSystem.Filewrite: the branches for pipes and devices, and a negative length.
- Umalloc.Heap.Malloc: sbrk is a parameter, and the truncation of its argument to int is not modelled.
- Shell: `runcmd`, the prompt loop and memory allocation of the tree.
- ShellRoundTrip.RoundTrip: redirections stand after a parenthesised command in the canonical text; ShellText.TextParses has them anywhere.
- ShellText.TextParses: the text puts one blank after every word and symbol; how blanks and symbols may touch is in ShellGrammar.ParsesGrammar.
- Proc: process creation and exit are single steps; a timer interrupt between two processes of a wakeup cannot happen, as every caller of wakeup holds a spinlock.
- Proc.NoLostWakeup: that a woken process is scheduled again is a fairness property; Proc.RoundRobin and Proc.NoDeadlock are what is stated of it.
- Proc: the killed flag, and waiting for a spinlock in code other than sleep, wakeup, yield and the scheduler.
- Virtio: initialisation of the device registers, and memory fences, which the order of the steps stands for.
- Virtio.VirtioDisk.Start: the caller holds the buffer's lock, so there is no other request for the buffer.
- Pipe: the wakeups of the other side.
- Pipe.PipeBuf.Close: what happens to the page after it is freed.
- Vma.Vmas.Munmap: writing dirty pages back and unmapping the pages are taken to succeed; a range in the middle of an area cuts off everything above it, as in the code.
- Vma.Vmas.Mmap: the lock state on the early return paths.
- Vma.Vmas.FileClose: what releasing the inode or pipe does when the count reaches 0.
- Page faults on mapped areas.
- Kalloc.Kmem.Kalloc: what a caller does with the address that the code returns for an empty list.
- Kalloc.Kmem.Kfree: freeing a page that is not in use, which the code does not detect; `incref` and `decref`, which nothing here calls.
- Vm.Vm.Uvmunmap: with do_free, a range that maps one frame twice, or a frame that is free or holds a table, which the code would put on the free list all the same.
- Vm.Vm.Uvmdealloc: an old size above MAXVA, and such a range.
- Vm.Vm.Uvmalloc: a size above MAXVA or a page already mapped, where the code panics.
- Vm.Vm.Uvmcopy: a page of the parent that is not mapped, where the code panics.
- `copyin`, `copyout`, `copyinstr` and `walkaddr`, `uvmclear`, the kernel page table.
- Traps, UART, PLIC, CLINT, boot, `exec`, system call arguments, and the other user programs.
