# xv6: a Dafny model

This project models the parts of xv6 for RISC-V whose correctness depends on whole runs, and proves what they promise.
`dafny verify dfyconfig.toml` checks all of it.

- **File system.** `Bio` is the buffer cache over a disk that is written one block at a time, shared by any number of
  processes; its ghost history records every disk state, so that a crash is any point of that history. `RedoLog` says
  what recovery makes of a disk; `Log` is the transaction layer over the cache; `LogSpace` is its space reservation as a
  state machine. `Bitmap`, `Files` and `Fs` are block allocation, inodes and file contents over the block map that the
  log provides, `Mkfs` the program that makes the state they start from, and `Dir` directories on top. `Journal` puts
  `Fs` on `Log` and says what a crash during filewrite leaves of every file; `Mount` gets there from mkfs's image.
  `Group` interleaves the operations of any number of processes on one log, and `Acts` says, block by block and without
  buffers, what each of their steps does.
- **Memory.** `PageTable` reads the three-level Sv39 tree as a flat map from virtual pages to PTEs; `Vm` is physical page
  allocation, page tables and user memory.
- **Processes.** `Proc` is a state machine whose steps are single lock acquires, lock releases and context switches of any
  number of processes on any number of CPUs. Spin-locks nest. Kernel code that holds no lock can be interrupted at every
  step, by a handler that wakes sleepers and by the timer's yield; so can a CPU in its scheduler, which then runs a
  handler without a process. `ProcControl`, `ProcSleep`, `ProcWait`, `ProcReap`, `ProcKill` and `ProcFork` prove
  properties of all its runs.
- **Allocator, disk driver, pipe.** `FreeList` and `Umalloc` are the user-level malloc; `Virtio` is the disk driver against
  a device that completes requests in any order and at any time; `Pipe` is the pipe ring with its sleeping readers and
  writers.
- **User programs.** `Shell` is the shell's parser, `ShellGrammar` its grammar as derivations, `ShellPrint` its inverse
  and `ShellBlanks` its character classes; `Regex` holds the matchers of grep and find against one declarative language.

`Blocks` and `Collections` hold what several of these share. Methods follow the source's loops and updates in place.
Panics are results that say when they occur, or are proved not to occur. I/O, clocks, scheduling choices and the point
where a copy from or to user memory fails are arguments or free choices.

Where the code does not meet what one would expect of it:

- commit reads blocks while other processes read files, and bget panics when every buffer is in use.
  `Bio.BufferRoom` gives the exact condition for commit's first bread: the logged blocks and the blocks that readers
  refer to, at their most, must be fewer than NBUF together; `Bio.Jam` is a run to the panic. `Log.Log.Commit` shows
  that even the panic leaves the disk with the whole transaction or none of it.
- A log of `LOGSIZE` disk blocks holds `LOGSIZE - 1`, so three operations that use all `MAXOPBLOCKS` reserved blocks reach
  log_write's size panic. `LogSpace.PanicThreshold` gives the exact limit: one block less per operation.
- mkfs rounds the size of the root directory to one block more than it needs when its entries fill their last block, so
  the directory has a block without an address. `Mkfs.NoHoles`: exactly when the number of entries is a multiple of 64.
- writei puts bytes into the cache before it knows that the copy succeeds. A copy that fails within a block leaves bytes
  changed that are neither counted nor logged. The file is as counted if and only if the part of a block that the copy
  reaches and does not complete was in the file before, as far as it goes (`Fs.CountedExact`, and `Harmless` in the
  contract of `Fs.Fs.Writei`); `Fs.Fs.TornWrite` is a case in which it is not.
- malloc passes `nunits * 16` to sbrk as an int. `Umalloc.SbrkExact` gives the largest request for which sbrk is asked for
  what the block then claims, 0x7fffffe0 bytes, which is less than 2^31, and `Umalloc.Overclaims` says what a larger one
  does.
- proc_pagetable undoes the trampoline's mapping when that of the trapframe fails. It never does: both pages have the same
  tables, so by then none is missing (`Vm.Machine.ProcPagetable`).
- wait's comment says that it returns -1 without children. It also does for a killed process and when the status cannot be
  copied, and then leaves the zombie (`ProcReap.WaitReturns`).
- kfree takes a page that is free already and lists it twice (`Vm.Machine.Kfree`).
- pipewrite that finds its process killed returns without waking readers. `Pipe.StrandedReader` shows a reader left asleep
  beside a byte, and the last clause of `Pipe.Pipe.Write` gives the exact condition.
- piperead consumes the byte whose copyout fails without counting it, exactly when the failure comes before the bytes
  asked for and those there run out (`Pipe.Pipe.Read`, `Pipe.LostByte`).

## Model

| member | source | states |
|---|---|---|
| `Bio.Bcache.constructor` | xv6/kernel/bio.c:36-53 | The freshly linked list holds every buffer once, in one ring; the cache agrees with the disk block map. |
| `Bio.Bcache.Lookup` | xv6/kernel/bio.c:64-73 | Finds the buffer of a block if and only if one carries it. |
| `Bio.Bcache.FindUnused` | xv6/kernel/bio.c:75-87 | Finds the least recently used buffer without references, or none exists. |
| `Bio.Bcache.BGet` | xv6/kernel/bio.c:58-89 | Fails, with the panic, exactly when the block is not cached and every buffer is in use, and then changes nothing; otherwise the buffer of that block, or the least recently used unused one, gains a reference, no pinned block is recycled, and each block of a real device keeps at most one buffer. |
| `Bio.Bcache.AcquireSleep` | xv6/kernel/sleeplock.c:21-31 | Sleeps while another process has the buffer locked, whatever that does with it; then the lock is the caller's, and no reference and no other buffer has changed. |
| `Bio.Bcache.BRead` | xv6/kernel/bio.c:92-103 | Returns, locked, a buffer with the latest contents of the block, whether or not the disk has them yet, also when another process had it locked; a buffer that it takes over had no references, and no other buffer changes. Fails exactly when the block is not cached and every buffer is in use. |
| `Bio.Bcache.Others` | xv6/kernel/file.c:115-124 | Any steps of other processes that read, bget, acquiresleep, releasesleep and the rest of brelse each on its own, leave the caller's buffers, the pinned blocks and the latest contents of every block. |
| `Bio.Bcache.BWrite` | xv6/kernel/bio.c:106-112 | One block write puts the latest contents on disk and nothing else; without the lock it panics and changes nothing. |
| `Bio.Bcache.BRelse` | xv6/kernel/bio.c:116-137 | Gives back one reference; the last one makes the buffer the most recently used and keeps the list a ring through all buffers. |
| `Bio.Bcache.Unref` | xv6/kernel/bio.c:124-136 | The part of brelse after releasesleep: one reference less; the last makes the buffer the most recently used. |
| `Bio.Bcache.Close` | xv6/kernel/bio.c:116-137 | brelse with other processes between its releasesleep and its decrement: only the caller's own buffer leaves its set. |
| `Bio.Bcache.BPin` | xv6/kernel/bio.c:139-144 | The block joins the pinned ones, which FindUnused cannot return. |
| `Bio.Bcache.BUnpin` | xv6/kernel/bio.c:146-151 | The block leaves the pinned ones; the disk must be current for it. |
| `Bio.Bcache.MoveToFront` | xv6/kernel/bio.c:126-134 | The pointer updates take one element to the front of the order and leave a doubly linked ring. |
| `Bio.Bcache.Open` | xv6/kernel/bio.c:92-103 | bread among other processes that get and release buffers meanwhile: the latest contents, locked, or the panic, and then every buffer is in use and the block is not pinned. |
| `Bio.Bcache.Full` | xv6/kernel/bio.c:75-89 | When bget finds every buffer in use, the pinned blocks and those that processes refer to are exactly NBUF; alone, as at boot, the process would need NBUF blocks itself. |
| `Bio.BufferRoom` | xv6/kernel/bio.c:75-89 | In every state that the cache's operations keep (ring, counts, contents) of a disk of more than NBUF blocks, with the logged blocks pinned and at most r blocks referred to by readers, bget of a further block finds a buffer, if and only if the pinned blocks and r are fewer than NBUF. |
| `Bio.Jam` | xv6/kernel/bio.c:36-144 | A run from binit on to the panic, for any NBUF different blocks: different processes read, pin and release the first p and read the rest; then every buffer is in use and bget of another block fails. |
| `LogSpace.InvStep` | xv6/kernel/log.c:126-235 | Every begin_op, log_write, end_op and commit keeps the reservation invariant. |
| `LogSpace.SpaceInv` | xv6/kernel/log.c:126-235 | In every run of operations of at most MAXOPBLOCKS distinct blocks, the logged blocks plus the unused reservations of all outstanding operations never exceed LOGSIZE. |
| `LogSpace.InvRoom` | xv6/kernel/log.c:214-235 | Under the invariant an operation that stays below MAXOPBLOCKS blocks always finds room for its next one in a log of LOGSIZE disk blocks. |
| `LogSpace.PanicThreshold` | xv6/kernel/log.c:214-235 | With nlog = LOGSIZE as mkfs sets it, log_write's size panic is unreachable if and only if operations stay below MAXOPBLOCKS distinct blocks. |
| `LogSpace.FillTo` | xv6/kernel/log.c:214-235 | The runs that fill the log when operations use all MAXOPBLOCKS blocks: the other half of the threshold. |
| `RedoLog.InstallInstall` | xv6/kernel/log.c:68-83 | Installing again from any point of an interrupted installation gives the disk of one complete installation. |
| `RedoLog.RecoverCrash` | xv6/kernel/log.c:116-123 | A crash between any two block writes of recovery leaves a disk that the next recovery takes to the same home blocks. |
| `RedoLog.RepeatedCrashes` | xv6/kernel/log.c:116-123 | The same for any number of crashes in a row. |
| `RedoLog.CommittedRecovers` | xv6/kernel/log.c:68-83 | Once the header is on disk, a crash anywhere in the installation recovers to the transaction's contents. |
| `RedoLog.EditHeader` | xv6/kernel/log.c:102-114 | The header block written is read back as the same count and block numbers. |
| `Log.Log.constructor` | xv6/kernel/log.c:54-65 | After initlog the disk is recovered and every disk on the way is one a crash during recovery can leave. |
| `Log.Log.Recover` | xv6/kernel/log.c:116-123 | Recovery leaves cache and disk equal to the disk with the committed blocks installed and the header empty. |
| `Log.Log.WriteLog` | xv6/kernel/log.c:178-191 | While other processes read: copies the latest contents of each logged block to its log slot, or stops where bget finds every buffer in use; no home block and not the header changes at any write. |
| `Log.Log.WriteHead` | xv6/kernel/log.c:102-114 | One disk write changes the header to the list given and no other block; it can fail for lack of buffers only with readers, and then writes nothing. |
| `Log.Log.InstallTrans` | xv6/kernel/log.c:68-83 | While other processes read: each disk on the way has exactly a prefix of the blocks installed; in the end all are, and none is pinned. It stops early only when the logged blocks and those of readers use up the buffers, and never in recovery. |
| `Log.Log.ReadHead` | xv6/kernel/log.c:86-97 | Reads the header of the disk. |
| `Log.Log.Commit` | xv6/kernel/log.c:193-203 | While other processes read: there is one write before which every disk recovers to the home blocks before the transaction and from which on every disk recovers to those after it, also if commit panics for lack of buffers. It does so only when the logged blocks and those of readers use them up; otherwise the log is empty at the end and the latest contents unchanged. |
| `Log.CrashAtomicity` | xv6/kernel/log.c:68-123 | A crash at any write of commit, followed by any number of crashes in recovery, recovers to the state before or after the whole transaction, never to a mix. |
| `Log.Log.BeginOp` | xv6/kernel/log.c:126-142 | Admits an operation exactly when no commit runs and its reservation fits. |
| `Log.Log.LogWrite` | xv6/kernel/log.c:214-235 | Records the block once and pins it, or panics exactly in the two cases of the code; no disk block changes. |
| `Log.Log.Record` | xv6/kernel/log.c:214-235 | log_write of any buffer with a home block: recorded once and pinned, or one of the two panics, exactly in its case. |
| `Log.Log.Update` | xv6/kernel/log.c:205-235 | Read, modify, log_write, release, among readers: the block map changes in that block only, and neither disk nor history changes before commit; it fails only when the buffers are used up and then changes nothing. |
| `Log.Log.EndOp` | xv6/kernel/log.c:146-175 | Nothing is written while other operations are outstanding; the last one commits atomically, and fails only when the logged blocks and those of readers use up the buffers. |
| `Log.ReservedBegin` | xv6/kernel/log.c:126-142 | begin_op admits exactly when the step of the reservation machine is enabled, and is that step. |
| `Log.ReservedWrite` | xv6/kernel/log.c:214-235 | log_write is the machine's step; for operations that stay below MAXOPBLOCKS blocks, on a log of mkfs's size, neither of its panics occurs. |
| `Log.ReservedEnd` | xv6/kernel/log.c:146-175 | end_op is the machine's step, with the commit when it is the last operation; its "log.committing" panic does not occur. |
| `Bitmap.SetBits` | xv6/kernel/fs.c:75-77 | Setting a bit of a bitmap block sets that bit and leaves every other bit. |
| `Bitmap.ClearBits` | xv6/kernel/fs.c:98-101 | Clearing a bit clears that bit and leaves every other bit. |
| `Files.Ownership` | xv6/kernel/fs.c:382-453 | All direct, indirect and indirectly listed addresses of all inodes are pairwise distinct, and a data block is marked in the bitmap exactly when some inode lists it. |
| `Files.WriteKeeps` | xv6/kernel/fs.c:505-539 | Writing data into an owned data block keeps the ownership invariant. |
| `Fs.Fs.Balloc` | xv6/kernel/fs.c:65-88 | The first unmarked block, now marked and zeroed, or 0 exactly when the disk is full; no other block changes. |
| `Fs.Fs.Bfree` | xv6/kernel/fs.c:91-105 | Clears exactly that block's bit; the panic occurs exactly when it was clear. |
| `Fs.Fs.Bmap` | xv6/kernel/fs.c:382-421 | The address of the bn-th block, allocated if need be through a zeroed indirect block; ownership is kept, all other addresses and contents are unchanged, and 0 only when the disk is full. |
| `Fs.Fs.Writei` | xv6/kernel/fs.c:505-539 | -1 exactly for ranges out of bounds, with nothing changed; otherwise r falls short only on a full disk or for a failed copy, at a block boundary. The file is the old bytes with the first w of src put in at off, cut to the size that r gives, where w is r unless the copy failed within the block after them; every changed block but that one is logged, and every other file is unchanged. The file is as the count r says if and only if the bytes of src that the copy brings into a block it does not complete are in the file already, below its old end. |
| `Fs.CountedExact` | xv6/kernel/fs.c:518-539 | That condition, on offset, data, old file and the number of bytes the copy reaches, for both ways in which writei stops early. |
| `Fs.Fs.TornWrite` | xv6/kernel/fs.c:524-527 | The case in which it is not: a write of two bytes whose second cannot be copied returns 0 and has changed the first. |
| `Fs.Fs.Readi` | xv6/kernel/fs.c:471-496 | -1 exactly when the copy to the caller fails before the end of the slice of the file's bytes, otherwise the slice's length; exactly the bytes before the failure reach the caller, and nothing else changes. |
| `Fs.Fs.Itrunc` | xv6/kernel/fs.c:425-453 | Frees each block of the file exactly once, never one that is free; the file is empty and every other file unchanged. |
| `Fs.FreedDisown` | xv6/kernel/fs.c:425-453 | With an inode's blocks cleared and the inode empty, the ownership invariant holds without them and no other file changes. |
| `Fs.Fs.WriteTransaction` | xv6/kernel/file.c:158-167 | One chunk logs at most seven distinct blocks when one bitmap block covers the disk, and writes what writei promises. |
| `Fs.ChunkLogsSeven` | xv6/kernel/file.c:149-157 | The count behind it: inode, bitmap, indirect block and at most four data blocks. |
| `Fs.Fs.Filewrite` | xv6/kernel/file.c:134-181 | The chunks together write exactly the bytes up to the new offset, and beyond them at most the part of a block whose copy failed; -1 if and only if it falls short, and it falls short only for a full disk, an offset past the end, a file at its maximum or a failed copy. |
| `Fs.OverwriteTwice` | xv6/kernel/file.c:157-174 | Writing two adjacent chunks is writing their concatenation. |
| `Journal.PutGet` | xv6/kernel/fs.c:225-243 | The inode that iupdate writes into its block is the one ilock reads back, and the other inodes of the block stay. |
| `Journal.CarriedFile` | xv6/kernel/fs.c:292-321 | The files read from the blocks and inodes in memory are the files read from a disk that holds them. |
| `Journal.StoredFiles` | xv6/kernel/fs.c:471-496 | The files that a file system stores on a disk are those that the disk's bytes, read through inodes and indirect blocks, give. |
| `Journal.AllWritten` | xv6/kernel/log.c:205-235 | Once every block that writei changed has been stored and logged, the cache holds the new blocks and inodes. |
| `Journal.Transaction` | xv6/kernel/file.c:158-167 | begin_op, writei, end_op on the log: after a crash at any disk write, or a panic for lack of buffers, recovery leaves all files as before or all as after the transaction. writei falls short only on a full disk, and the panic takes references of other processes to all but seven of the buffers. |
| `Journal.Filewrite` | xv6/kernel/file.c:134-181 | All of src is written, unless the offset was past the file's end, the disk is full, the next chunk would pass the largest file, or it panics while other processes refer to all but seven of the buffers. After a crash before or at any disk write, the recovered disk's bytes read, through its inodes, as every other file as it was and the file written with a whole number of chunks of src put in, or all that was written; and a file system can go on from there. |
| `Journal.RecoversAgain` | xv6/kernel/log.c:116-123 | The same files after any number of crashes during recovery. |
| `Group.Ops.Run` | xv6/kernel/log.c:126-235 | For every interleaving of any processes' begin_op, bget, acquiresleep, stores, log_write, releasesleep, brelse and end_op, with the commit among readers: it goes through scenes that follow one another as `Acts` says; the stores are those before and then exactly, in order, those of the acts whose process has the block locked in an operation; it stops exactly where bget or log_write panics, and for a panic of commit only with readers in too many buffers; if every operation begun has ended, none is going on and each home block on disk has the contents of the last store into it; and recovery of any disk on the way leaves the stores of whole operations, of each all or none. |
| `Group.Ops.EndOp` | xv6/kernel/log.c:146-175 | The operation of a process without locks ends; the last one puts the stores of all on disk and empties the log; a panic means that readers have the buffers. |
| `Group.Ops.StoreData` | xv6/kernel/log.c:205-213 | A store by a process in an operation that has the block locked is the next of the stores, and waits for its log_write; any other changes nothing. |
| `Group.Ops.LogWrite` | xv6/kernel/log.c:214-235 | The block joins the log's list once and no longer waits; the panic comes exactly when the list is full. |
| `Group.Ops.BeginOp` | xv6/kernel/log.c:126-142 | The process is admitted, under a new number, exactly when the log has room for one more operation. |
| `Group.Ops.Bget` | xv6/kernel/bio.c:58-89 | One more reference to the block, whatever buffer it gets; the panic comes exactly when the blocks referred to and those logged, the block not among them, fill the buffers. |
| `Group.Ops.Lock` | xv6/kernel/sleeplock.c:21-31 | The block, referred to and not locked, is locked by the process; otherwise it waits and nothing changes. |
| `Group.Ops.ReleaseSleep` | xv6/kernel/sleeplock.c:33-41 | The lock is gone, unless the block has been stored into and not yet logged. |
| `Group.Ops.Unref` | xv6/kernel/bio.c:114-137 | One reference less, not the lock holder's. |
| `Group.Ops.Durable` | xv6/kernel/log.c:146-175 | Between two steps a crash leaves exactly the stores up to the last commit, a cut between whole operations; with no operation going on that is all of them, and every home block on disk has the last store into it. |
| `Group.CommitWhole` | xv6/kernel/log.c:193-203 | Of the disks of a commit those before its header recover to the stores committed before, the others to all. |
| `Acts.TraceStores` | xv6/kernel/log.c:205-213 | In every trace of scenes the stores are those before it and, in order, those of the acts by processes that have the block locked in an operation. |
| `Acts.AllEnded` | xv6/kernel/log.c:126-175 | If every operation that the acts begin they also end, none is going on afterwards. |
| `Acts.OneOperation` | xv6/kernel/log.c:205-235 | begin_op, bread, a store, log_write, brelse, end_op by one process: exactly that store is made and committed. |
| `Acts.ReplayLatest` | xv6/kernel/log.c:68-83 | After any stores each block has the contents of the last store into it, or its own from before if there was none. |
| `Mkfs.BitmapBlock` | xv6/mkfs/mkfs.c:234-248 | The bitmap has exactly the first used bits set. |
| `Mkfs.FreshFs` | xv6/mkfs/mkfs.c:108-111 | The disk before the first ialloc, marked up to the first data block and with empty inodes, meets the ownership invariant: where the appends start. |
| `Mkfs.Image.Iappend` | xv6/mkfs/mkfs.c:252-294 | The bytes go to the end of the file and no other file changes; exactly the blocks from the first data block up to freeblock are owned, each by one slot; it takes as many blocks as the longer file needs and fails exactly when the file would be too big or the disk too small. |
| `Mkfs.Image.Ialloc` | xv6/mkfs/mkfs.c:220-232 | The next inode, for an empty file. |
| `Mkfs.Make` | xv6/mkfs/mkfs.c:68-173 | Comes to its end exactly when inodes, file sizes and disk are enough. The bitmap then marks exactly the metadata and the blocks handed out, each owned by one slot; each file has its source's bytes and the root the entries of all. |
| `Mkfs.RoundedCovered` | xv6/mkfs/mkfs.c:163-168 | The rounded size of the root directory is covered by blocks if and only if the old size was not a multiple of the block size. |
| `Mkfs.RoundedContents` | xv6/mkfs/mkfs.c:163-168 | The rounded directory holds its entries followed by empty ones. |
| `Mkfs.RootHole` | xv6/mkfs/mkfs.c:163-168 | With 62 files the root's second block is not there. |
| `Mkfs.RootHoles` | xv6/mkfs/mkfs.c:163-168 | The root directory with its rounded size has no hole if and only if the number of its entries is not a multiple of 64, and then holds the entries and empty ones. |
| `Mkfs.NoHoles` | xv6/mkfs/mkfs.c:68-173 | Every file of the image is without holes, as file operations need, if and only if the number of the root's entries is not a multiple of 64. |
| `Mount.WriteInodes` | xv6/mkfs/mkfs.c:184-196 | The inodes put into their blocks one by one read back as they are, and no other block changes. |
| `Mount.Boot` | xv6/kernel/fs.c:41-47 | From mkfs's image through initlog's recovery: the state that file operations need is there if and only if the number of the root's entries is not a multiple of 64; then every file has its source's bytes, and the root is a directory if and only if the names, cut to DIRSIZ bytes, are distinct. |
| `Mount.RootDir` | xv6/mkfs/mkfs.c:117-161 | The root is a directory if and only if the names, cut to DIRSIZ bytes, differ from each other and from "." and ".."; then it binds each to its file's inode. |
| `Dir.SameName` | xv6/kernel/fs.c:543-547 | Compares names as cut to DIRSIZ bytes. |
| `Dir.Dirlookup` | xv6/kernel/fs.c:551-575 | Finds a name if and only if the directory's map binds it, with the inum bound and the offset of its entry. |
| `Dir.FreeEntry` | xv6/kernel/fs.c:592-598 | The loop stops at the first free entry, or at the end if none is free. |
| `Dir.Dirlink` | xv6/kernel/fs.c:579-606 | On success the first free entry, or one at the end if none is free, holds the name and inum, and the map gains exactly that binding; on failure the directory's bytes are unchanged. It fails only for a bound name or lack of room, and with a free entry there is room and the size stays. No other file changes. |
| `Dir.Erase` | xv6/kernel/sysfile.c:222-224 | Clearing the entry found removes exactly that binding, cannot fail, and changes no other file. |
| `Dir.LinkMap` | xv6/kernel/fs.c:596-604 | A new name in a free or new entry keeps live names distinct and adds one binding. |
| `Dir.EraseMap` | xv6/kernel/sysfile.c:222-224 | A cleared entry keeps live names distinct and removes one binding. |
| `PageTable.SlotsDistinct` | xv6/kernel/riscv.h:355-363 | Distinct virtual pages never share a PTE slot. |
| `PageTable.StoreFlat` | xv6/kernel/vm.c:158 | Storing a last-level PTE changes the flat map at that page and nowhere else. |
| `PageTable.AddTable` | xv6/kernel/vm.c:96-99 | Hanging a zeroed page into the tree as a table changes no translation. |
| `PageTable.MissingNext` | xv6/kernel/vm.c:90-101 | The tables missing for a range and one page more are those missing for the range and those still missing for the page once the others are there. |
| `Vm.Machine.constructor` | xv6/kernel/kalloc.c:33-40 | freerange puts each page from the kernel's end to PHYSTOP on the free list once. |
| `Vm.Machine.Kalloc` | xv6/kernel/kalloc.c:68-82 | Takes one page off the free list, 0 exactly when it is empty. |
| `Vm.Machine.Kfree` | xv6/kernel/kalloc.c:46-63 | Puts the page on the free list; the panic occurs exactly outside the managed range, and the list is without duplicates afterwards if and only if the page was not on it. |
| `Vm.Machine.Walk` | xv6/kernel/vm.c:85-103 | The slot of the page's PTE; no translation changes, without alloc nothing changes. With alloc it fails exactly if there are fewer free pages than tables missing on the way, and otherwise takes exactly those. Free pages and tables together stay the same. |
| `Vm.Machine.Mappages` | xv6/kernel/vm.c:142-165 | Adds exactly the pages of the range; where it stops, exactly those before: at a mapped page, or at the first page for whose missing tables there are not enough free pages. |
| `Vm.Machine.Uvmunmap` | xv6/kernel/vm.c:170-192 | Succeeds if and only if the range is aligned and mapped; then exactly the range is unmapped and, if asked, exactly its physical pages are freed. |
| `Vm.Machine.PagesBound` | xv6/kernel/memlayout.h:47-48 | A process's user pages are distinct pages of the allocator, so with less memory than virtual space below the trapframe no growth reaches it. |
| `Vm.Machine.Uvmalloc` | xv6/kernel/vm.c:225-249 | Grown to the new size with zeroed pages and the permissions asked for, or every translation as before; it fails if and only if there are fewer free pages than new pages and missing level-1 and level-0 tables for them together. The pages outside are untouched and none is lost. |
| `Vm.Machine.Uvmdealloc` | xv6/kernel/vm.c:255-267 | Exactly the pages above the new size are unmapped and freed, without a panic. |
| `Vm.Machine.Freewalk` | xv6/kernel/vm.c:271-287 | Frees exactly the tables at and below the one given, each once; the leaf panic does not occur. |
| `Vm.Machine.Uvmfree` | xv6/kernel/vm.c:291-297 | All user pages and tables are free again, no panic, no double free. |
| `Vm.Machine.Uvmcreate` | xv6/kernel/vm.c:196-205 | An empty address space of one zeroed table, or 0 exactly when memory is out. |
| `Vm.Machine.ProcPagetable` | xv6/kernel/proc.c:176-206 | The trampoline and trapframe mappings and nothing else, or, if and only if fewer than three pages are free, 0 with the free pages as they were. |
| `Vm.Machine.ProcFreepagetable` | xv6/kernel/proc.c:210-216 | The process's tables and user pages are free again; the trampoline and trapframe pages stay as they are. |
| `Vm.Machine.Growproc` | xv6/kernel/proc.c:259-275 | For every int: the new size, its new pages zeroed and writable, or -1 with every translation as before; -1 if and only if the free pages do not suffice for the new pages and their missing tables. A shrink below zero changes nothing. |
| `Vm.Machine.Lifetime` | xv6/kernel/proc.c:176-275 | proc_pagetable, any growproc calls, proc_freepagetable, without a panic: the set of free pages is exactly the starting one and no other page has changed. |
| `FreeList.InsertOrdered` | xv6/user/umalloc.c:33-42 | Inserting with coalescing keeps address order with a gap between any two free blocks. |
| `FreeList.InsertCovers` | xv6/user/umalloc.c:33-42 | It adds exactly the freed block's bytes to the free bytes. |
| `FreeList.TakeCovers` | xv6/user/umalloc.c:75-84 | The block malloc cuts off and the list that is left share out the list's bytes. |
| `Umalloc.JoinRing` | xv6/user/umalloc.c:33-42 | The pointer and size updates leave in memory the circular list of the coalesced blocks. |
| `Umalloc.Heap.FindPlace` | xv6/user/umalloc.c:30-32 | The search goes round the ring to the block after which bp belongs, and terminates. |
| `Umalloc.Heap.Free` | xv6/user/umalloc.c:24-44 | Exactly that block becomes free; the list stays circular, ordered and without adjacent free blocks, and free and live blocks still partition the bytes sbrk granted. |
| `Umalloc.Heap.Morecore` | xv6/user/umalloc.c:46-61 | A fresh block of at least the units asked, 4096 or more, joins the free list; nothing changes if sbrk refuses, and only then does it fail. |
| `Umalloc.Heap.Malloc` | xv6/user/umalloc.c:63-90 | A live block with room after its header for the bytes asked and for less than one unit more; these bytes have been granted by sbrk and are in no free block and no other live one. It terminates, asks sbrk at most once and only when no free block is large enough, and fails exactly if that is refused. |
| `Umalloc.Units` | xv6/user/umalloc.c:69 | The units wanted hold the bytes asked after the header, and one unit less would not. |
| `Umalloc.RoomPrivate` | xv6/user/umalloc.c:69-86 | In a heap shared out among free and live blocks, the bytes of a live block with room for a request are the caller's alone. |
| `Umalloc.SbrkExact` | xv6/user/umalloc.c:52-54 | The int passed to sbrk is the number of bytes the block then claims if and only if the request is at most 0x7fffffe0 bytes; above, it is 2^32 less, at most one header. |
| `Umalloc.Overclaims` | xv6/user/umalloc.c:52-59 | For a larger request no byte of the new free block after its header has been granted. |
| `ProcControl.MoveLocks` | xv6/kernel/spinlock.c:21-72 | At every step of the code, of a yield and of a handler, the locks held before and after it, nested ones included, match its acquire or release, and every switch is made with only the process's own lock. |
| `ProcControl.HandlerLocks` | xv6/kernel/trap.c:218-225 | The same for an interrupt handler on a busy or an idle CPU: it holds its spin-lock through the whole wakeup and never switches. |
| `ProcControl.StepInv` | xv6/kernel/proc.c:444-510 | Every step of every interleaving, with yields from kernel code and handlers on idle CPUs, keeps the invariant on CPUs, stacks, locks, noff and process states. |
| `ProcControl.Exclusive` | xv6/kernel/proc.c:444-472 | In every run, whenever p->lock is free, p is RUNNING exactly when a CPU has c->proc == p, and then one only. |
| `ProcControl.SwitchSafe` | xv6/kernel/proc.c:481-510 | Every switch, in sleep, exit and a yield from any place in the kernel, happens with p->lock held, no other lock, noff == 1 and interrupts off, and away from RUNNING: none of sched's panics occurs. |
| `ProcControl.ThreadLocksSafe` | xv6/kernel/spinlock.c:21-110 | No thread, in its own code, a yield or a handler on top of it, acquires a lock its CPU holds or releases one it does not hold; pop_off never panics. |
| `ProcControl.HandlerLocksSafe` | xv6/kernel/spinlock.c:21-110 | The same for a handler on a CPU in its scheduler. |
| `ProcControl.FreeSafe` | xv6/kernel/proc.c:402-424 | A ZOMBIE slot is freed only when no CPU is on its stack or still has it as its process. |
| `ProcSleep.NoLostWakeup` | xv6/kernel/proc.c:535-580 | A process inside sleep(chan, lk) when a wakeup(chan) starts with lk held, in a thread's code or in a handler on a busy or idle CPU, is RUNNABLE or running at the end of that wakeup and has not yet returned. |
| `ProcSleep.NoneMissed` | xv6/kernel/proc.c:566-580 | At the end of such a wakeup no process is asleep on the channel, the skipped myproc() included. |
| `ProcSleep.FreeSleepLock` | xv6/kernel/sleeplock.c:21-41 | No process is asleep in acquiresleep on a sleep-lock that is free, whenever its inner spin-lock is free. |
| `ProcSleep.ThreadSleepInv` | xv6/kernel/proc.c:535-580 | Every step of a thread keeps the sleep and wakeup invariant. |
| `ProcSleep.QuietSleepInv` | xv6/kernel/trap.c:218-225 | Steps of schedulers, and of handlers on idle CPUs, keep it too. |
| `ProcWait.ParentsAlive` | xv6/kernel/proc.c:330-386 | No process has a ZOMBIE or UNUSED parent; a parent is the creator or init. |
| `ProcWait.NoForgottenZombie` | xv6/kernel/proc.c:346-435 | Whenever wait_lock is free, no process asleep in wait has a ZOMBIE child. |
| `ProcWait.ReapedOnce` | xv6/kernel/proc.c:390-435 | Each life of a slot is reaped at most once, as a ZOMBIE, by the process that is then its parent. |
| `ProcWait.ThreadFamilyInv` | xv6/kernel/proc.c:330-435 | Every step of a thread keeps the exit and wait invariant. |
| `ProcWait.QuietFamilyInv` | xv6/kernel/proc.c:444-472 | Steps of schedulers, and of handlers on idle CPUs, keep it too. |
| `ProcReap.WaitReturns` | xv6/kernel/proc.c:390-435 | A wait about to return a pid belongs to the process that reaped that life of the slot; one about to return -1 has no child at all, or has been killed, or was given an address and its child is still there, a zombie. |
| `ProcReap.PidFreed` | xv6/kernel/proc.c:408-420 | The step that gets wait its pid has found that child a ZOMBIE of the caller, not reaped before, and leaves its slot UNUSED and its life reaped by the caller. |
| `ProcReap.WaitFrees` | xv6/kernel/proc.c:390-435 | Over a whole call in any run, wait frees exactly the one child whose pid it returns, and none if it returns -1. |
| `ProcReap.MustReap` | xv6/kernel/proc.c:408-420 | A wait without an address that has come to a zombie child has no step but to free it and return its pid. |
| `ProcReap.KilledReturns` | xv6/kernel/proc.c:427-430 | At its look at the killed flag wait returns if the process has been killed by then, and otherwise goes to sleep. |
| `ProcReap.ThreadResultInv` | xv6/kernel/proc.c:390-435 | Every step of a thread keeps what a wait in progress knows of its children and its result. |
| `ProcKill.KillFinds` | xv6/kernel/proc.c:585-606 | A call of kill(pid), in any run and with any interrupts, during which one process has the pid all the time returns with that process killed and not asleep. |
| `ProcKill.KillOnly` | xv6/kernel/proc.c:585-606 | A call of kill changes no process but one that has the pid at that moment. |
| `ProcFork.ForkChild` | xv6/kernel/proc.c:280-325 | In every run, fork that returns a pid has made its slot, USED until then, RUNNABLE at its start, with the caller as creator and parent: no exit or wait meanwhile has taken it. |
| `ProcFork.ThreadForkInv` | xv6/kernel/proc.c:280-360 | Every step of a thread keeps the parent of a child whose fork has not yet returned. |
| `Virtio.RingPush` | xv6/kernel/virtio_disk.c:272-277 | Writing at a ring's 16-bit index appends to its queue and overwrites no entry not yet taken, also when the index wraps. |
| `Virtio.RingPop` | xv6/kernel/virtio_disk.c:312-323 | Reading at the other index takes the oldest entry; the indices are equal exactly when the queue is empty. |
| `Virtio.Disk.AllocDesc` | xv6/kernel/virtio_disk.c:156-166 | The lowest free descriptor, -1 exactly when none is free. |
| `Virtio.Disk.FreeDesc` | xv6/kernel/virtio_disk.c:169-182 | Frees that descriptor and wakes the waiters; its two panics are exactly the two cases of the code. |
| `Virtio.Disk.Alloc3` | xv6/kernel/virtio_disk.c:201-213 | Three descriptors that were free, or, exactly when fewer than three are free, none and the flags as they were. |
| `Virtio.Disk.FreeChain` | xv6/kernel/virtio_disk.c:185-197 | Terminates and frees exactly the chain's three descriptors without a panic. |
| `Virtio.Disk.Start` | xv6/kernel/virtio_disk.c:215-286 | Queues the request with its buffer's flag set, or waits exactly when fewer than three descriptors are free; free descriptors and chains partition all of them. |
| `Virtio.Disk.Fetch` | xv6/kernel/virtio_disk.c:272-281 | The device fetches requests in the order submitted; the driver has overwritten none. |
| `Virtio.Disk.Complete` | xv6/kernel/virtio_disk.c:309-314 | The device may complete any fetched request; its used entry overwrites none not yet seen. |
| `Virtio.Disk.Device` | xv6/kernel/virtio_disk.c:294-327 | Any fetches and completions by the device keep the partition of descriptors and lose no request. |
| `Virtio.Disk.Interrupt` | xv6/kernel/virtio_disk.c:294-327 | While the device goes on fetching and completing requests: sees every completion up to its last look at the ring, those that came in during the loop included, and clears the flag of exactly the buffers that were submitted with them; the status panic does not occur. |
| `Virtio.Disk.Finish` | xv6/kernel/virtio_disk.c:283-291 | The request's descriptors are free again, the partition holds without it, and waiters are woken. |
| `Shell.GetToken` | xv6/user/sh.c:266-309 | The loops return the token of the specification. |
| `Shell.ParseRedirs` | xv6/user/sh.c:375-398 | The loop returns the redirections of the grammar function, in order. |
| `Shell.ParseExec` | xv6/user/sh.c:416-447 | Words and redirections as the grammar function gives them, with its errors. |
| `Shell.ParseBlock` | xv6/user/sh.c:400-414 | A line in parentheses and its redirections. |
| `Shell.ParsePipe` | xv6/user/sh.c:362-373 | Right-nested pipelines; the mutual recursion terminates. |
| `Shell.ParseLine` | xv6/user/sh.c:345-360 | Background marks and lists, with the loop over marks. |
| `Shell.LineOk` | xv6/user/sh.c:416-447 | Every word and file name of a parsed line is a maximal stretch of word characters, and no command has MAXARGS words. |
| `Shell.EndsOutside` | xv6/user/sh.c:450-494 | No position where nulterminate writes lies inside any word. |
| `Shell.Nulterminate` | xv6/user/sh.c:450-494 | Writes a NUL exactly at the ends of the command's words and file names. |
| `Shell.ReadsBack` | xv6/user/sh.c:450-494 | Afterwards every word and file name, read as a C string, is exactly its token. |
| `Shell.Parse` | xv6/user/sh.c:328-343 | The parse of the line, its words readable in the buffer; an error leaves the buffer as it was. |
| `ShellPrint.LineReads` | xv6/user/sh.c:345-360 | parseline reads a printed command back up to the stop after it, for every command tree. |
| `ShellPrint.RoundTrip` | xv6/user/sh.c:328-343 | Printing any command tree of valid words, fewer than MAXARGS per exec, with parentheses and parsing it gives the same tree. |
| `ShellBlanks.AnyBlanks` | xv6/user/sh.c:263-309 | Words without blanks and special characters, each followed by one or more blanks, tabs, returns, newlines and vertical tabs in any mixture, and any of these before the first, are the one command of these words. |
| `ShellGrammar.Sound` | xv6/user/sh.c:328-447 | parsecmd returns a command only for a line with a derivation in the grammar, and returns the command of that derivation. |
| `ShellGrammar.Complete` | xv6/user/sh.c:328-447 | Every line with a derivation is parsed, to the command of that derivation. |
| `ShellGrammar.Unambiguous` | xv6/user/sh.c:328-447 | All derivations of a line denote one command. |
| `ShellGrammar.Precedence` | xv6/user/sh.c:345-373 | a |
| `Regex.MatchHere` | xv6/user/grep.c:84-95 | Accepts exactly when a prefix of the text, the whole text before a closing $, is in the pattern's language. |
| `Regex.MatchStar` | xv6/user/grep.c:98-105 | Accepts exactly for zero or more of the character and then the rest. |
| `Regex.Match` | xv6/user/grep.c:71-81 | Accepts exactly when some part of the text, one at its start after ^, is in the language. |
| `Regex.CompareLang` | xv6/user/find.c:6-18 | compare accepts exactly the texts in the language of the pattern. |
| `Regex.CompareIsMatch` | xv6/user/find.c:6-18 | For all patterns p and texts t, compare(t, p) equals match("^" + p + "$", t). |
| `Pipe.SlotWrite` | xv6/kernel/pipe.c:95 | The slot written is the one after the ring's last byte, also after the 32-bit counters wrap. |
| `Pipe.Pipe.Put` | xv6/kernel/pipe.c:95 | Bytes put in stay equal to bytes taken out followed by the ring. |
| `Pipe.Pipe.Get` | xv6/kernel/pipe.c:123 | The byte taken is the oldest of the ring. |
| `Pipe.Pipe.Write` | xv6/kernel/pipe.c:76-103 | Puts in exactly the next bytes, as many as the end of the data, a full ring, a failed copy or a kill allow; a sleeping writer has a full ring and an open read end; sleeping readers keep an empty ring if and only if the writer is not killed, with a reader asleep, after putting in some bytes and before all. |
| `Pipe.Pipe.Read` | xv6/kernel/pipe.c:105-130 | Takes out exactly the oldest bytes; sleeps exactly on an empty ring with an open write end; one byte more than counted is gone exactly when the copy fails before the bytes asked for and those in the ring run out. |
| `Pipe.Pipe.Close` | xv6/kernel/pipe.c:58-74 | Closes one end and wakes the other; freed exactly with the second end. |
| `Pipe.Pipe.Kill` | xv6/kernel/proc.c:585-606 | Wakes the process wherever it sleeps, and no other. |
| `Pipe.StrandedReader` | xv6/kernel/pipe.c:84-87 | The case in which the reader's half fails: a writer killed after its first byte leaves a reader asleep beside that byte. |
| `Pipe.LostByte` | xv6/kernel/pipe.c:123-125 | A byte put in, and taken out by a read that returns 0; the next read finds none and sleeps. |

## Left out

- Bio.Bcache.BGet: only the root device; the disk driver has one disk and ignores the device number.
- Bio.Bcache.Others: the other processes read, as they do during a commit; processes that store, too, are in Group. References do not say whose they are, so more interleavings are covered than there are.
- Log.Log.Update: no other operation is between its store and its log_write; Group.Ops.Run is about those that are.
- Log.Log.Recover: recovery starts from an idle cache with no other process, as at boot.
- Group.Ops.Run: a store replaces a whole block; one that is not followed by log_write before the lock is given back, as after a failed copy, is outside. The references and locks of readers after a commit, during which they go on, are any. What the stores are to files is not stated.
- Journal.Transaction: one operation at a time, as in Journal.Filewrite.
- Journal.Filewrite: one operation at a time, with a copy from the caller that succeeds; each block that writei changes is stored once, with its last contents; a block changed by a failed copy, and not logged, is outside.
- Fs.Fs.Bmap: inode numbers, types and link counts are not modelled; inodes are records in memory, with the byte layout of size and addresses in Journal.
- Mkfs.Make: the superblock's bytes, inode types and link counts are not modelled; a disk or an inode table that is too small, past which the program goes on writing, is where the model stops.
- Vm.Machine.Kalloc: the free list is a sequence of pages; the links stored in the free pages are not modelled.
- Vm.Machine.Growproc: one process at a time; the sharing of memory among the page tables of several processes is not modelled.
- Umalloc.Heap.Morecore: requests of 2^31 bytes and more are outside; SbrkExact and Overclaims say what becomes of them.
- Umalloc.Heap.Malloc: requests above 0x7fffffe0 bytes, for which sbrk is asked for another amount, are outside, likewise; the contents of the blocks are not modelled.
- ProcControl.StepInv: spin-locks that are taken and released again while a p->lock is held (the page allocator's, the pid lock, the file and inode tables') belong to the step that ends with the p->lock; exit status is not modelled, and a pid is a slot and the number of its life there; setkilled is a kill of the process itself; fork's copy of memory and files is a step that may fail; several handlers may follow one another, none interrupts another.
- Virtio.Disk.Start: the addresses, lengths, sector and direction in the descriptors are not modelled; every completion reports success.
- Shell.ParseExec: the redirection nodes are put round the exec node when it is complete instead of pointing at it while it is filled.
- Liveness: that a waiting process eventually runs is not stated anywhere.
- uvmcopy, the page-fault branch of trap.c and exec: memory shared by fork is unfinished in this repository.
- Path lookup, link counts, device files, open file tables and system call argument fetching.
- Console, UART, PLIC, assembly, memory fences and boot code.
- runcmd and find's directory walk, which are sequences of system calls, and the other user programs.
