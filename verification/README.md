# Verification of the xv6-riscv storage, memory and process core

This project models, in Dafny 4.11, the parts of an xv6 kernel with copy-on-write
fork (and of three of its user programs) that carry the hard guarantees, and proves
those guarantees. `dafny verify dfyconfig.toml` checks everything.

| files | what they model |
|---|---|
| `LogDisk`, `RedoLog`, `LogProtocol`, `LogSpace` | the redo log of `log.c`: disk images and recovery, the code that writes them one block at a time, every interleaving of operations with crashes, and how much log space operations may use |
| `BufferCache` | the LRU buffer cache of `bio.c` above the disk |
| `BlockBits`, `BlockOwners`, `FileBytes`, `FileSystem`, `Directory` | block allocation, block maps, reading, writing, truncation and directories of `fs.c`, the chunking of `file.c`, and unlinking (`sysfile.c`) |
| `CrashedFiles`, `WriteRuns` | the file system above the log: what files hold after a crash and recovery, and the runs that write them |
| `PageRefs`, `ByteSpace`, `CowMemory` | reference-counted pages (`kalloc.c`), shared user mappings (`vm.c`) and the store fault (`trap.c`) |
| `PageTree`, `Sv39` | three-level page tables (`vm.c`, `riscv.h`) as flat maps |
| `TreeMemory` | the shared mappings as such page tables |
| `ProcTable`, `ProcInvariant`, `SleepWakeup`, `WaitExit` | fork, exit, wait, sleep, wakeup and sleep-locks (`proc.c`, `sleeplock.c`) as interleaved steps |
| `ProcOutcomes`, `LockOwners`, `ProcAlone` | what those calls achieve: how wait ends and who holds a sleep-lock in every interleaving, and whole calls that nobody disturbs |
| `VirtioRing` | the virtio request ring (`virtio_disk.c`) with a device that completes in any order |
| `Pipe` | the pipe ring buffer (`pipe.c`) |
| `FreeBlocks`, `UserHeap` | the Kernighan and Ritchie allocator (`umalloc.c`) |
| `ShellGrammar`, `ShellLexer`, `ShellSyntax`, `ShellParser` | the shell's parser (`sh.c`), and which lines it accepts as what |
| `Grep` | the regular-expression matcher and line reader (`grep.c`) |
| `Params` | constants and one predicate that several of these share |

## How the code is read

- Every `bwrite` is one disk step, and a crash may fall between any two. Every method
  of `BufferCache.Cache`, `VirtioRing.Disk` and `Pipe.Pipe` is one critical section,
  so an invariant kept by all of them holds in every interleaving. `LogProtocol` and
  `ProcTable` are state machines whose steps are the stretches of code between lock
  operations, and their theorems are about every run.
- I/O outcomes, `copyin`/`copyout` failures, `sbrk` refusals, kills and device timing
  are parameters, or choices the caller of a step makes.
- A `panic` is either shown unreachable (it is then a precondition that every caller
  proves, or an `assert`) or is an outcome of the method.
- Addresses, PTEs and ring indices are integers with their width written out; shifts
  and masks appear as division and remainder.

## What the code does not do

Each of these comes with an input that shows it and the exact condition, on what a
caller knows beforehand, under which the code does meet the promise.

- `MAXOPBLOCKS` is 10, but `log_write` panics at `log.size - 1`: on a 30-block log no
  run panics if and only if operations append at most nine new blocks
  (`LogSpace.PanicFreeIffAtMostNine`; a run with ten: `LogSpace.TenBlocksCanPanic`).
  `filewrite` logs at most seven.
- `sbrk` takes an `int`: the block `malloc` returns reaches beyond the end of the
  process's memory if and only if `sbrk` grants a request above 2^31 - 32 bytes that no
  free block can serve (`UserHeap.Heap.Malloc`, `UserHeap.SbrkExactIff`; an input:
  `UserHeap.SbrkWraps`).
- `dirlink` keeps 16 bits of an inode number: the entry names the inode if and only if
  the number is between 1 and 65535 (`Directory.LinkedTruly`, which also has 65536 and
  65537). `mkfs` makes 200 inodes, so no image it makes is affected.
- `pipewrite` returns without waking readers when it finds the writer killed: readers
  are left asleep beside data if and only if there are some, the read end is open, and
  the kill falls between two bytes of one section of the write, not after the pipe is
  full and not after `copyin` fails (`Pipe.Pipe.Write`; a run: `Pipe.StrandedReader`).
- `grep` stops silently at the first line that with its newline is longer than 1023
  bytes: all matching lines are printed if and only if none of them is that line or
  follows it (`Grep.PrintedAll`; an input: `Grep.LongLineLost`).

Two outcomes depend on the machine, again exactly:

- `virtio_disk_intr` panics if and only if a completed request carries a status other
  than 0 (`VirtioRing.Disk.Intr`).
- `userinit` checks no allocation: there is a first process if and only if the kernel's
  own page table, stacks and rings have left seven pages free
  (`CowMemory.Kernel.UserInit`, `CowMemory.BootAndRun`).

## Model

| member | source | states |
|---|---|---|
| `LogDisk.ReplayAgain` | src/kernel/log.c:68-83 | installing the log over a disk on which any prefix of it has already been installed gives what one complete installation gives |
| `LogDisk.RecoveryImageKeeps` | src/kernel/log.c:116-123 | every disk image recovery passes through, including the one with the header erased, recovers to the same home blocks |
| `LogDisk.CrashesDuringRecovery` | src/kernel/log.c:68-123 | after any number of crashes during recovery, a completed recovery leaves exactly the home blocks the first attempt would have left |
| `RedoLog.CommittedImage` | src/kernel/log.c:178-203 | once the header is on disk, recovery yields the old disk overlaid with every logged block |
| `RedoLog.InstallRecovers` | src/kernel/log.c:68-83 | every image between two writes of `install_trans` recovers to the same state |
| `RedoLog.Log.WriteHead` | src/kernel/log.c:102-114 | one disk write, after which the on-disk header lists exactly the logged blocks |
| `RedoLog.Log.ReadHead` | src/kernel/log.c:86-97 | the in-memory header becomes the one on disk |
| `RedoLog.Log.InstallTrans` | src/kernel/log.c:68-83 | the loop replays the log onto the home blocks, unpins exactly the logged ones unless recovering, and each write leaves a prefix of the replay |
| `RedoLog.Log.WriteLog` | src/kernel/log.c:178-191 | the loop fills the log slots with the cached blocks; every image it passes through still recovers to the old state |
| `RedoLog.Log.Commit` | src/kernel/log.c:193-203 | its disk writes are n log slots, the header, n home blocks and the empty header, in this order; they split in two: all images before the header write recover to the old home blocks, all later ones to the old disk overlaid with the transaction, which is also the final state |
| `RedoLog.Log.RecoverFromLog` | src/kernel/log.c:116-123 | the recovered disk with an empty header, every image on the way being one that recovers the same |
| `RedoLog.Log.LogWrite` | src/kernel/log.c:214-235 | panics exactly on a full log or outside a transaction; otherwise pins the block and appends it unless it is already logged |
| `LogProtocol.CommitPoint` | src/kernel/log.c:193-203 | the single header write makes the whole transaction durable |
| `LogProtocol.CommitIsIo` | src/kernel/log.c:178-203 | after k steps of a commit the protocol is where the code is after k writes, with the same disk |
| `LogProtocol.CodeIsProtocol` | src/kernel/log.c:178-203 | the images `RedoLog.Log.Commit` writes are those the protocol's steps pass through |
| `LogProtocol.StepInv` | src/kernel/log.c:126-235 | `begin_op`, buffer changes, `log_write`, `end_op`, each disk write of a commit or a recovery, and a crash all keep the invariant |
| `LogProtocol.RunInv` | src/kernel/log.c:126-235 | the invariant holds in every state of every run with any number of crashes |
| `LogProtocol.OperationsAreAtomic` | src/kernel/log.c:126-235 | in every run: a crash recovers to a prefix of the updates that splits no operation, `committing` implies no operation is open, `end_op`'s panic is unreachable, and with nothing open everything is on disk |
| `LogSpace.RoomLeft` | src/kernel/log.c:126-142 | `begin_op`'s test leaves room for the unspent budgets of all open operations and for the whole budget of the new one |
| `LogSpace.BudgetsFitTheLog` | src/kernel/log.c:126-142 | in every run, the log length plus the unspent budgets of MAXOPBLOCKS of the open operations is at most LOGSIZE |
| `LogSpace.NineBlocksNeverPanic` | src/kernel/log.c:214-235 | if operations append at most nine new blocks, the log length plus the unspent budgets stays within a 30-block log in every run and no panic is reached |
| `LogSpace.TenBlocksCanPanic` | src/kernel/log.c:126-142 | with ten, a run that reaches the panic, built step by step |
| `LogSpace.PanicFreeIffAtMostNine` | src/kernel/log.c:214-235 | no reachable state panics if and only if the limit is at most nine |
| `BufferCache.Unlink` | src/kernel/bio.c:128-129 | the two assignments to prev and next leave a doubly linked cycle through all other buffers in the same order |
| `BufferCache.PushFront` | src/kernel/bio.c:130-133 | the four assignments put the buffer behind the head of the cycle |
| `BufferCache.Cache.constructor` | src/kernel/bio.c:36-53 | `binit` links all NBUF buffers into one cycle, all unused |
| `BufferCache.Cache.Find` | src/kernel/bio.c:65-73 | the first loop of `bget` finds the block's buffer if and only if there is one |
| `BufferCache.Cache.FindVictim` | src/kernel/bio.c:75-87 | the second loop finds, of the unreferenced buffers, the one released longest ago, or that none is unreferenced |
| `BufferCache.Cache.Bget` | src/kernel/bio.c:58-89 | counts a reference to the one buffer of the block, recycling the unreferenced buffer released longest ago if it has none; no referenced or pinned buffer changes identity, no reader's view of any block changes, and the panic needs every buffer referenced |
| `BufferCache.LastRelease` | src/kernel/bio.c:116-151 | the last release of an unreferenced buffer is the one that moved it to the front, since a count reaches zero in `brelse` only |
| `BufferCache.Cache.Acquire` | src/kernel/bio.c:70-85 | taking the buffer's sleep-lock changes no view and no identity |
| `BufferCache.Cache.Fill` | src/kernel/bio.c:92-103 | `bread` under the lock delivers what the view of the block shows, reading the disk only if it is not cached |
| `BufferCache.Cache.Modify` | src/kernel/fs.c:521-526 | a change by the holder changes the view of that block only |
| `BufferCache.Cache.Bwrite` | src/kernel/bio.c:106-112 | the disk block becomes the buffer's contents; no view changes |
| `BufferCache.Cache.Bpin` | src/kernel/bio.c:139-144 | one more reference; no view and no identity changes |
| `BufferCache.Cache.Bunpin` | src/kernel/bio.c:146-151 | one reference less, by the holder of the buffer (as in `install_trans`), the buffer staying where it is in the list |
| `BufferCache.Cache.Release` | src/kernel/bio.c:119-122 | giving up the lock changes no view, provided a changed block is logged or written |
| `BufferCache.Cache.MoveToFront` | src/kernel/bio.c:128-133 | the relinking of `brelse` moves the buffer to the front and keeps the cycle |
| `BufferCache.Cache.Drop` | src/kernel/bio.c:124-137 | one reference less and the release recorded; at zero the buffer moves to the front of a list that stays complete and sorted by release |
| `BufferCache.RecycleStep` | src/kernel/bio.c:77-84 | turning a clean buffer over to another block changes what no reader sees |
| `BufferCache.CleanBuffers` | src/kernel/bio.c:58-103 | a valid buffer that is neither locked nor logged equals its disk block |
| `BlockBits.BitsAfter` | src/kernel/fs.c:74-77 | setting or clearing one bitmap bit changes that bit and no other |
| `BlockOwners.FreeUnowned` | src/kernel/fs.c:65-89 | a block that is free in the bitmap is in no inode |
| `BlockOwners.TakeBlock` | src/kernel/fs.c:65-89 | marking and zeroing a free block keeps every block with at most one owner, marked, and the metadata bits set |
| `BlockOwners.LoseBlock` | src/kernel/fs.c:91-105 | clearing the bit of a block that is being given up keeps the same of all others |
| `BlockOwners.SetEntry` | src/kernel/fs.c:402-412 | writing one entry of an indirect block changes that slot of that inode only |
| `FileSystem.Fs.FindFree` | src/kernel/fs.c:72-76 | the two loops find the first clear bit below the disk size, or that there is none |
| `FileSystem.Fs.Balloc` | src/kernel/fs.c:65-89 | the first free block, marked and zeroed; never a metadata or owned block; 0 only on a full disk |
| `FileSystem.Fs.Bfree` | src/kernel/fs.c:91-105 | exactly that bit is cleared; the panic on a free block is a precondition all callers prove |
| `FileSystem.Fs.Bmap` | src/kernel/fs.c:382-421 | the block's address, allocated if it was missing; no byte of any file changes and no existing address moves |
| `FileSystem.Fs.Readi` | src/kernel/fs.c:471-496 | exactly the clamped slice of the file, and nothing changes |
| `FileSystem.Fs.Writei` | src/kernel/fs.c:506-539 | one slice update with the right growth, cut short only by a full disk and only past the old end; no other file changes; every block it changes is logged, on a disk with one bitmap block at most the touched blocks plus three |
| `FileSystem.Fs.Itrunc` | src/kernel/fs.c:426-453 | frees exactly the inode's blocks, leaves the file empty and every other file and block as it was |
| `FileSystem.ReadBack` | src/kernel/fs.c:471-539 | reading after writing returns what was written, and before and behind it what was there |
| `FileSystem.File.Write` | src/kernel/file.c:148-175 | the chunks together are one slice update, the offset advances by what was written, the result is n exactly when all was, and each chunk logs every block it changes, at most seven |
| `CrashedFiles.OnlyLoggedChanges` | src/kernel/fs.c:506-539 | on the disk image an operation changes no block but those it passed to `log_write`: inode, bitmap and data blocks |
| `CrashedFiles.LogPerforms` | src/kernel/file.c:148-175 | one update of each logged block, at most seven for a chunk, turns the image before the operation into the image after it |
| `CrashedFiles.FileBack` | src/kernel/fs.c:225-241 | what is read through the inode and data blocks of an image is the file |
| `CrashedFiles.ChunksAreAtomic` | src/kernel/file.c:148-175 | at every moment of every run, a crash and recovery leave the file with the first k chunks of the write, each whole, and all other files as they were; nothing is lost once no operation is open |
| `WriteRuns.ChunksHappen` | src/kernel/file.c:157-174 | on a fresh disk every `filewrite` has a run that performs its chunks, each an operation that appends at most seven blocks and commits |
| `Directory.Namecmp` | src/kernel/string.c:60-68 | zero exactly when the names agree up to a NUL within 14 bytes |
| `Directory.Strncpy` | src/kernel/string.c:70-81 | the significant part of the name padded with NULs to 14 bytes |
| `Directory.BindingsMean` | src/kernel/fs.c:551-574 | the map a directory stands for binds a name to the first live entry that carries it |
| `Directory.LinkBindings` | src/kernel/fs.c:593-604 | filling a free entry under a new name adds exactly that binding and keeps names unique |
| `Directory.UnlinkBindings` | src/kernel/sysfile.c:222-223 | zeroing the entry of a name removes exactly that name |
| `Directory.FindFreeEntry` | src/kernel/fs.c:593-599 | the first free entry, or the end of the directory; nothing changes |
| `Directory.Dirlookup` | src/kernel/fs.c:551-574 | the inode number the map binds the name to, 0 for none, and where its entry is; nothing changes |
| `Directory.Dirlink` | src/kernel/fs.c:579-606 | on success exactly one binding is added, to the low 16 bits of the number; a failure changes none and means that the name was bound, or that no entry was free and the directory could not grow |
| `Directory.LinkedTruly` | src/kernel/fs.c:593-604 | that binding is the one asked for exactly for numbers from 1 to 65535 |
| `Directory.Isdirempty` | src/kernel/sysfile.c:173-186 | whether there is an entry besides the first two; nothing changes |
| `Directory.Iput` | src/kernel/fs.c:336-358 | an inode without links and without other users is truncated, exactly its blocks freed; nothing else changes |
| `Directory.UnlinkEntry` | src/kernel/sysfile.c:207-243 | removes exactly that name and takes the link counts down if and only if it is not . or .., is bound to another inode that is there and has a link, and that inode is no directory or has no entry in use from the third on; refused, panicked and stuck (the directory itself) have their own exact conditions; a file whose last link it was and that nobody uses ends up empty, no other file changes; the write cannot fail. If no inode had fewer links than names, no other directory is left with a name for an inode it truncated (except the .. of a removed directory that is still in use) |
| `Directory.LinksStillCover` | src/kernel/sysfile.c:225-236 | the link counts go on covering the names, a directory that goes leaving no .. behind |
| `Directory.NoNameOfFile` | src/kernel/sysfile.c:232-236 | the last link of an inode goes with the last name other directories have for it |
| `Directory.NoNameOfDir` | src/kernel/sysfile.c:225-231 | the same of the directory the name was in, when a directory goes whose .. it is |
| `PageRefs.AllocRef` | src/kernel/kalloc.c:84-99 | giving an allocated page to a new reference keeps every count equal to the number of references and the free list equal to the zero-count pages |
| `PageRefs.ShareRef` | src/kernel/kalloc.c:102-104 | `refInc` for a page mapped a second time keeps the same |
| `PageRefs.DropRef` | src/kernel/kalloc.c:56-80 | `kfree` for a reference that goes keeps the same, the page going to the free list exactly at zero |
| `PageRefs.MoveRef` | src/kernel/trap.c:92-101 | moving a mapping from a shared page to a new one keeps the same |
| `CowMemory.Kernel.FreeRange` | src/kernel/kalloc.c:38-47 | afterwards every page is free, once, with count zero |
| `CowMemory.Kernel.Kfree` | src/kernel/kalloc.c:56-80 | count down; at zero the page is filled with ones and pushed on the free list |
| `CowMemory.Kernel.Kalloc` | src/kernel/kalloc.c:84-99 | the first free page, counted and filled with fives, or failure with nothing changed |
| `CowMemory.Kernel.Walk` | src/kernel/vm.c:91-108 | afterwards both lower tables exist, or memory ran out; nothing anybody sees changes |
| `CowMemory.Kernel.CopyEntry` | src/kernel/vm.c:317-333 | one page of `uvmcopy`: the child maps the parent's page, both copy-on-write, and nothing else changes |
| `CowMemory.Kernel.Uvmcopy` | src/kernel/vm.c:311-339 | the child sees the parent's memory, or has no page at all |
| `CowMemory.Kernel.UnmapRange` | src/kernel/vm.c:176-197 | the pages go, the lower ones and all other processes see what they saw |
| `CowMemory.Kernel.UserInit` | src/kernel/proc.c:290-314 | with seven free pages and code shorter than a page, and only then, the first process sees its code followed by zeros, and nobody else notices |
| `CowMemory.Kernel.FreeAll` | src/kernel/proc.c:204-212 | every reference of the process goes, each counted down once, nobody else's changes |
| `CowMemory.Kernel.Fork` | src/kernel/proc.c:341-360 | the child's memory equals the parent's, and both can store wherever the parent could; it succeeds exactly if there are pages for the trapframe, the root and all tables of the child, and on failure every view and every count is what it was |
| `CowMemory.ForkTakes` | src/kernel/proc.c:341-360 | that is four pages, one for each 512 pages of the parent begun and one for each 262144, less the tables the trampoline shares |
| `CowMemory.Kernel.Exit` | src/kernel/proc.c:204-220 | the process's memory disappears, every other process's stays |
| `CowMemory.Kernel.BreakCow` | src/kernel/trap.c:90-103 | the faulting process gets a private writable copy; nobody, itself included, sees a difference |
| `CowMemory.Kernel.Store` | src/kernel/trap.c:90-103 | a store to any address, with the fault it may take, changes that byte of that process's memory and nothing else, or nothing; it is done exactly if the page is mapped and writable for the user, or copy-on-write with a page free; the process is killed, the kernel touches address zero, or `walk` panics exactly under the conditions stated for each |
| `CowMemory.Kernel.ForkThenStore` | src/kernel/trap.c:90-103 | after a fork with a page to spare, parent and child can each store wherever the parent could, and the other one does not see it |
| `CowMemory.Kernel.Copyout` | src/kernel/vm.c:358-402 | a prefix of the bytes, all of them on success, is written into that process's memory and no other; how it ends, after how many bytes, and the counts and free list afterwards follow page by page from the entries, the tables and the free list |
| `CowMemory.CopyCompletes` | src/kernel/vm.c:358-402 | with user pages mapped and a free page for each, all bytes arrive |
| `CowMemory.CopyInside` | src/kernel/vm.c:358-402 | a copy that is complete has gone into pages mapped for the user only |
| `CowMemory.Kernel.Grow` | src/kernel/vm.c:231-256 | zeroed pages are appended exactly if there are enough free pages for them and the tables they lack, otherwise nothing changes |
| `CowMemory.Kernel.Shrink` | src/kernel/vm.c:261-272 | the process keeps its first n pages |
| `CowMemory.Kernel.Run` | src/kernel/vm.c:311-402 | any sequence of first process, fork, store, copyout, grow, shrink and exit shows every process exactly what private, eagerly copied memories would show, and where user pages are open to stores at the start calls fail for want of free pages only |
| `CowMemory.BootAndRun` | src/kernel/main.c:19-31 | the same from boot on with n pages besides those the kernel keeps for itself, the first process existing exactly if n is at least seven: a fork succeeds exactly if the pages it takes are free, a store inside a process's memory succeeds if one is free, a copy if one is free for each page it touches, and none succeeds outside |
| `CowMemory.AllPagesBack` | src/kernel/kalloc.c:56-80 | once no process is left every page is on the free list |
| `CowMemory.RunIsolation` | src/kernel/vm.c:311-402 | over any run, a process whose memory no call is about sees at the end what it saw at the start |
| `PageTree.PteRoundTrip` | src/kernel/riscv.h:351-355 | packing an address and flags into a PTE loses neither |
| `PageTree.TripleInjective` | src/kernel/riscv.h:358-366 | below MAXVA the three indices determine the page |
| `PageTree.TripleRepeats` | src/kernel/riscv.h:358-366 | above it they do not |
| `Sv39.PageTables.UvmCreate` | src/kernel/vm.c:201-210 | a new page table that maps nothing; all others map what they did |
| `Sv39.PageTables.Walk` | src/kernel/vm.c:90-108 | the lowest table for the address, made if asked and possible; no PTE of any page table changes |
| `Sv39.PageTables.MapPages` | src/kernel/vm.c:147-171 | exactly the pages of the range map to consecutive frames (modulo 2^64), up to the page where it fails; it panics only at a page that is mapped and not copy-on-write, beyond MAXVA, or for size 0 |
| `Sv39.PageTables.UvmUnmap` | src/kernel/vm.c:175-197 | exactly the pages of the range are unmapped, their frames handed to `kfree` in order; it panics exactly at a page no leaf maps |
| `Sv39.MapUnmap` | src/kernel/vm.c:147-197 | unmapping what was just mapped restores every page table and frees the mapped frames |
| `Sv39.PageTables.FreeTable` | src/kernel/vm.c:276-292 | the recursion over one subtree: its tables go back on the free list, each once, exactly if no entry of its lowest tables is valid |
| `Sv39.PageTables.FreeWalk` | src/kernel/vm.c:276-292 | a page table is freed exactly if it maps nothing: all its pages and no others, each once, other page tables unchanged; otherwise it meets a leaf (panic) or a valid entry without R, W and X, which it takes for a table |
| `TreeMemory.MarkedShows` | src/kernel/vm.c:325-327 | setting PTE_COW and clearing PTE_W changes those two bits of the entry and nothing else |
| `TreeMemory.PutKeeps` | src/kernel/vm.c:317-333 | writing one PTE of a process's tables changes that entry and keeps all processes' entries equal to the flat maps of their roots |
| `TreeMemory.DropKeeps` | src/kernel/vm.c:184-196 | so does clearing one |
| `TreeMemory.CreateKeeps` | src/kernel/vm.c:201-210 | so does a new root |
| `TreeMemory.FreeKeeps` | src/kernel/vm.c:276-302 | so does freeing one |
| `TreeMemory.MapUser` | src/kernel/vm.c:147-171 | `mappages` of a user page on the tables adds exactly that entry, or panics on one that is mapped and not copy-on-write |
| `TreeMemory.UnmapUser` | src/kernel/vm.c:175-197 | `uvmunmap` of one removes exactly that entry and hands its page to `kfree` |
| `TreeMemory.TreesShow` | src/kernel/vm.c:90-131 | what every process sees by walking its tables is its memory |
| `TreeMemory.TreeIsolation` | src/kernel/vm.c:311-402 | over any run, what processes see through their tables is what private memories would show |
| `PageTree.RootGone` | src/kernel/vm.c:276-302 | without the pages of one page table the others still map what they did |
| `ProcInvariant.OneStep` | src/kernel/proc.c:341-514 | a change of one process under the stated side conditions keeps the whole invariant |
| `SleepWakeup.CommitStep` | src/kernel/proc.c:1032-1034 | after `release(lk)` in `sleep` no wake-up can be missed: p->lock is held and the condition waited for still fails |
| `SleepWakeup.WakeEntryStep` | src/kernel/proc.c:1056-1067 | one entry of `wakeup` leaves nobody at that entry asleep or about to sleep on the channel |
| `SleepWakeup.SleepStep` | src/kernel/proc.c:1022-1048 | every step of `sleep` keeps the invariant |
| `SleepWakeup.LockStep` | src/kernel/sleeplock.c:21-41 | every step of `acquiresleep` and `releasesleep` keeps it; that they exclude is `LockOwners.LocksExclude` |
| `WaitExit.WaitStep` | src/kernel/proc.c:464-514 | every step of `wait` keeps it; how `wait` ends is `ProcOutcomes.WaitEnds` |
| `WaitExit.ReparentStep` | src/kernel/proc.c:399-411 | handing a child to init keeps it, init being woken next |
| `WaitExit.ZombieStep` | src/kernel/proc.c:447-450 | a process becomes a zombie only when its parent is not asleep in `wait` |
| `WaitExit.ExitStep` | src/kernel/proc.c:416-460 | every step of `exit` and `reparent` keeps the invariant |
| `WaitExit.ForkStep` | src/kernel/proc.c:341-395 | every step of `fork` keeps it |
| `WaitExit.NextInv` | src/kernel/proc.c:341-514 | so does every action, including scheduling, preemption and `kill` |
| `WaitExit.NothingLost` | src/kernel/proc.c:341-514 | from boot on, in every interleaving: with wait_lock free nobody asleep in `wait` has a zombie child, every process but init has a parent that is neither unused nor a zombie, and nobody sleeps on an unlocked sleep-lock whose guard is free |
| `ProcOutcomes.KidsRun` | src/kernel/proc.c:475-483 | in every run, `havekids` is set exactly if the scan has passed a child of the process |
| `ProcOutcomes.WaitEnds` | src/kernel/proc.c:475-513 | in every run, for a process that is not killed and whose `copyout` succeeds: the scan waits only for a child that holds its p->lock; `wait` ends having freed a zombie child and nothing else, or because there is no child; it goes to sleep only with children none of which is a zombie |
| `LockOwners.LocksExclude` | src/kernel/sleeplock.c:21-52 | in every run in which only holders release: a sleep-lock has at most one holder, it is locked exactly while it has one, and `holdingsleep` is true of exactly that process |
| `ProcAlone.ForkAlone` | src/kernel/proc.c:341-395 | an undisturbed `fork` leaves a runnable child of the caller and no other change |
| `ProcAlone.ForkFailsAlone` | src/kernel/proc.c:352-357 | one that finds no memory leaves everything as it was |
| `ProcAlone.WaitReaps` | src/kernel/proc.c:475-502 | an undisturbed `wait` frees the lowest zombie child and changes nothing else |
| `ProcAlone.WaitAlone` | src/kernel/proc.c:505-509 | without children it changes nothing |
| `ProcAlone.WaitSleeps` | src/kernel/proc.c:512 | with children but no zombie the caller ends up asleep on itself, wait_lock free |
| `ProcAlone.ExitAlone` | src/kernel/proc.c:416-460 | an undisturbed `exit` leaves a zombie off the CPU, all its children init's, and init (if there were any) and the parent no longer asleep in `wait` |
| `ProcAlone.WakesUp` | src/kernel/proc.c:1022-1048 | a woken sleeper, once scheduled, holds the lock again and looks afresh |
| `ProcAlone.KillWakes` | src/kernel/proc.c:1073-1093 | so does a killed one |
| `ProcAlone.WakeAlone` | src/kernel/proc.c:1052-1068 | `wakeup` makes exactly the others asleep on the channel runnable |
| `ProcAlone.AcquireFree` | src/kernel/sleeplock.c:21-31 | an undisturbed `acquiresleep` of a free lock leaves it locked and the caller's |
| `ProcAlone.AcquireSleeps` | src/kernel/sleeplock.c:21-31 | of a locked one, it leaves the caller asleep on it with the guard free |
| `ProcAlone.ReleaseAlone` | src/kernel/sleeplock.c:33-41 | `releasesleep` clears the lock and wakes everybody asleep on it |
| `VirtioRing.DisjointChains` | src/kernel/virtio_disk.c:200-265 | in every reachable state requests in flight have three descriptors each, in use, in common with no other request, and buffers of their own |
| `VirtioRing.RingPush` | src/kernel/virtio_disk.c:267-274 | a new entry overwrites none that is still to be read |
| `VirtioRing.Disk.AllocDesc` | src/kernel/virtio_disk.c:156-166 | the first free descriptor, or none if all are taken |
| `VirtioRing.Disk.Alloc3` | src/kernel/virtio_disk.c:200-213 | three different free descriptors, or, if there are not three, the free set as it was |
| `VirtioRing.Disk.Submit` | src/kernel/virtio_disk.c:216-279 | a formatted chain of three descriptors of its own, queued behind the requests the device has not read; without three descriptors no request changes |
| `VirtioRing.Disk.Take` | src/kernel/virtio_disk.c:267-279 | the device reads the requests in the order they were submitted, across the 16-bit wrap |
| `VirtioRing.Disk.Complete` | src/kernel/virtio_disk.c:240-265 | following the chain, the device finds exactly the buffer, block and direction that were submitted, in whatever order it serves requests, and reports a status; what a failed one leaves behind is arbitrary |
| `VirtioRing.Disk.Intr` | src/kernel/virtio_disk.c:294-327 | panics exactly if a completed request failed; the completed requests before the first such one are seen and exactly their buffers released |
| `VirtioRing.Disk.FreeChain` | src/kernel/virtio_disk.c:185-196 | terminates without panic, freeing exactly the three descriptors of the chain |
| `VirtioRing.Disk.Finish` | src/kernel/virtio_disk.c:283-291 | the request succeeded, the buffer holds what it moved, and its descriptors are free again |
| `Pipe.Pipe.Write` | src/kernel/pipe.c:76-103 | the accepted bytes are appended to the stream; it stops at the first byte at which the read end is closed, it is killed, the pipe is full or `copyin` fails; readers are left asleep beside data exactly if it is killed between two bytes |
| `Pipe.Pipe.Read` | src/kernel/pipe.c:105-130 | the next bytes of the stream in order; fewer than asked only when it is then empty, and none only when it is empty and the write end is closed; it waits, or gives up when killed, exactly if the pipe is empty and can still be written; a byte `copyout` fails on is lost |
| `Pipe.Pipe.Close` | src/kernel/pipe.c:58-74 | one end closes and the sleepers of the other wake |
| `Pipe.Pipe.Run` | src/kernel/pipe.c:58-130 | over any sequence of sections, across 32-bit wrap: what comes out is a prefix of what went in, at most 512 bytes are pending, and unless a writer is killed between two bytes no reader is left asleep beside data |
| `Pipe.StrandedReader` | src/kernel/pipe.c:83-86 | a concrete run in which a killed writer leaves one |
| `UserHeap.SbrkExactIff` | src/user/umalloc.c:46-60 | the byte count passed to `sbrk` is the one meant exactly up to 2^31 - 32 bytes |
| `UserHeap.SbrkWraps` | src/user/umalloc.c:46-60 | a request for which it is 0 |
| `UserHeap.FreedOk` | src/user/umalloc.c:33-42 | coalescing on both sides leaves an address-ordered list in which no blocks touch |
| `UserHeap.FreedUnits` | src/user/umalloc.c:33-42 | that covers exactly the old units and the freed ones |
| `UserHeap.Heap.Link` | src/user/umalloc.c:24-43 | the search finds the block's place in the cycle and links it in, merging neighbours |
| `UserHeap.Heap.Free` | src/user/umalloc.c:24-43 | the block is no longer live; free and live units together are still exactly the units obtained |
| `UserHeap.Heap.Morecore` | src/user/umalloc.c:46-60 | at least 4096 units at the break, wherever it has moved up to, are freed into the list and the break goes where the truncated amount takes it, or nothing changes |
| `UserHeap.Heap.Take` | src/user/umalloc.c:76-85 | the tail of the block, or all of it, becomes a live block of the size asked for |
| `UserHeap.Heap.Malloc` | src/user/umalloc.c:63-90 | for every 32-bit request a new live block of enough units, disjoint from all others, or 0 when no free block is large enough and `sbrk` refuses; all blocks lie within the memory of the process except if `sbrk` grants a request above 2^31 - 32 bytes, whose block then ends beyond the break; at most one tour of the list after `morecore` |
| `UserHeap.BreakReaches` | src/user/umalloc.c:54-58 | the new break is behind the units added to the list exactly if the amount fits an `int` |
| `ShellGrammar.LineBack` | src/user/sh.c:345-447 | parsing the canonical rendering of any command tree, in any context that can follow it, gives back the tree |
| `ShellLexer.LexSpaced` | src/user/sh.c:266-309 | tokens written with any white space that keeps adjacent words, and > and what begins with >, apart are read back token by token |
| `ShellLexer.LexIsSpacing` | src/user/sh.c:266-309 | every line is such a spacing of the tokens read from it: nothing is lost, and words and >> are as long as they can be |
| `ShellLexer.LexKeepsLetters` | src/user/sh.c:266-309 | the characters of a line that are not white are those of its tokens, in order |
| `ShellSyntax.SyntaxBack` | src/user/sh.c:345-447 | a line written in the concrete syntax, with redirections anywhere and any brackets, is parsed as what it means |
| `ShellSyntax.LineRead` | src/user/sh.c:345-447 | whatever the grammar accepts was written in that syntax and means the tree it gives |
| `ShellSyntax.AcceptsExactly` | src/user/sh.c:328-447 | tokens are accepted to their end as a tree exactly if they are a way of writing it with fewer than ten arguments to a command |
| `ShellSyntax.LineMeans` | src/user/sh.c:266-447 | the same of lines of characters, with any white space |
| `ShellLexer.RenderParse` | src/user/sh.c:328-494 | every command tree with valid words and at most nine arguments, written out with any white space, is parsed back to itself |
| `ShellParser.Parser.Peek` | src/user/sh.c:311-321 | whether the next token begins with one of the symbols; no token is consumed |
| `ShellParser.Parser.GetToken` | src/user/sh.c:266-309 | consumes exactly the next token and returns its kind and, for a word, its maximal span |
| `ShellParser.Parser.ParseRedirs` | src/user/sh.c:375-398 | the redirections the grammar finds, or its failure |
| `ShellParser.Parser.ParseArgs` | src/user/sh.c:430-446 | the arguments the grammar finds, within the bounds of argv, or its failure |
| `ShellParser.Parser.ParseExec` | src/user/sh.c:400-447 | agrees with the grammar on simple and bracketed commands |
| `ShellParser.Parser.ParsePipe` | src/user/sh.c:362-373 | agrees with the grammar on pipelines |
| `ShellParser.Parser.ParseLine` | src/user/sh.c:345-360 | agrees with the grammar on lines; terminates because every recursive call has fewer tokens before it |
| `ShellParser.Parser.ParseCmd` | src/user/sh.c:328-343 | succeeds exactly on the lines the grammar accepts to their end, having consumed all input |
| `ShellParser.NulTerminate` | src/user/sh.c:449-494 | a NUL behind every word of the command, and no other change |
| `ShellParser.WordsExact` | src/user/sh.c:449-494 | afterwards every word, read as a C string, is exactly its token's text |
| `ShellParser.ParseLineBuffer` | src/user/sh.c:328-343 | both together on the line's own buffer |
| `ShellParser.ParseRendered` | src/user/sh.c:328-494 | a command tree written out into the buffer with any white space, parsed and cut there, is read from it again, word for word |
| `Grep.MatchHereMeans` | src/user/grep.c:83-95 | `matchhere` holds exactly if some prefix of the text is denoted by the pattern |
| `Grep.MatchStarMeans` | src/user/grep.c:97-105 | `matchstar` holds exactly if the rest matches after some number of fitting characters |
| `Grep.MatchMeans` | src/user/grep.c:71-81 | `match` holds exactly if the pattern denotes some stretch of the text |
| `Grep.PrintedCut` | src/user/grep.c:10-34 | what is printed and the matching lines from the first overlong one on are together all matching lines, in order |
| `Grep.PrintedAll` | src/user/grep.c:10-34 | all matching lines are printed exactly if none of them is, or follows, an overlong line |
| `Grep.ShortLinesPrinted` | src/user/grep.c:10-34 | without overlong lines every matching line is printed |
| `Grep.FromLongMeans` | src/user/grep.c:16-29 | the lines from the first overlong one on begin with it, and all before are short enough |
| `Grep.LongLineLost` | src/user/grep.c:10-34 | an input of two matching lines of which none is printed |
| `Grep.Searcher.PrintLines` | src/user/grep.c:22-29 | the complete lines in the buffer are printed and the unfinished one is left |
| `Grep.Searcher.Grep` | src/user/grep.c:10-34 | for NUL-free input the output is a function of the input alone, however `read` splits it |

## Left out

- BufferCache.Cache.Modify: the client discipline is assumed, not checked: a changed buffer is logged or written before it is released. The path of `writei` on which `either_copyin` fails after changing the buffer is outside it, so file properties are about successful copies.
- CowMemory.Kernel.FreeAll: frees the pages and tables of a process in any order; the order in which `freewalk` follows the tree is in `Sv39.PageTables.FreeWalk`.
- CowMemory.Kernel.UserInit: says nothing about the state when it fails: with fewer than seven free pages the kernel touches address zero or runs on with the page unmapped.
- Sv39.PageTables.MapPages: flags are below 2^10, the width of the field, as all callers pass them.
- Sv39.PageTables.UvmUnmap: returns the frames it hands to `kfree` in order; counting them down and freeing them is in `CowMemory`.
- UserHeap.Heap.Morecore: the program itself moves the break up only, and by whole units.
- CrashedFiles.ChunksAreAtomic: is about runs in which the updates are those of one write; other operations may be open but change nothing. A block is a sequence of numbers, words in the header and the inode blocks and bytes elsewhere.
- ShellParser.Parser.ParseExec: wraps the redirections around the finished argument list, where the code fills the argument list of a node that is already wrapped.
- TreeMemory.TreeIsolation: takes the tables to match the entries at both ends of the run; that each operation keeps them matching is `PutKeeps`, `DropKeeps`, `WalkKeeps`, `CreateKeeps` and `FreeKeeps`.
- LockOwners.LocksExclude: a process is its entry in the process table, so it does not tell a process that exits with a sleep-lock from the next one in that entry; no caller does that.
- CowMemory.BootAndRun: the pages of the kernel's page table, kernel stacks, virtio rings and pipes are not among its n.
- `copyin` and `copyinstr`, which only read.
- Allocating inodes and the inode cache (`ialloc`, `ilock`), path lookup, and link counts other than in `sys_unlink`; an inode that `iput` frees stays in the model as an empty one.
- `mkfs.c` as code: its layout constants and the well-formedness of its image are starting conditions.
- Scheduling policies, alarms, system-call dispatch, `exec`, the console and other devices, trap entry and assembly.
- Memory ordering between processors, TLB flushes and lock implementation: lock operations and page-table updates are atomic steps.
- Reference-count updates that `kalloc.c` makes without a lock are atomic steps too.
- Copy-on-write isolation is about contents, not permissions: the store fault always maps the new page readable, writable and executable.
