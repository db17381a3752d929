# Qwin-OS base system: verified models

Dafny models of the parts of the Qwin-OS base system where correctness is subtle: the crash-safe file system
stack, the process and sleep/wakeup protocols, pipes and file references, the two memory managers, and the
self-contained algorithms of the userland. Each model follows the C code it cites, function by function: code that
updates state in place is a class whose methods have the loops of the original, and the properties are proved as
contracts of those methods, as invariants every method keeps, or as lemmas over all inputs and all runs.

`dafny verify dfyconfig.toml` checks everything.

## Parts

- **Disk and log** (`Blocks`, `Bio`, `Log`, `Journal`, `Taken`). The buffer cache is transparent: a read yields the data last
  stored for the sector whatever was cached, recycled or written through in between. The redo log is crash atomic for
  every transaction, every crash point between sector writes, and any number of crashes during recovery. `Journal` is
  the code of `log.c` over the cache; its trace of sector writes is exactly the trace `Log` reasons about, also while
  other processes hold buffers. `Taken` says what becomes of this when the log's own header is among the logged blocks.
- **File system** (`Bitmap`, `Layout`, `Ownership`, `Fs`, `File`, `Mkfs`, `ImageTree`). Every block is read and written through `Bio`
  and `Journal`, with `bread`, `log_write` and `brelse` where the source has them. Blocks carry a ghost owner, so "the
  bitmap is metadata plus referenced blocks, and nothing is referenced twice" is one invariant; file contents refine a
  flat byte array. A chunk of `filewrite` never runs out of buffers or log, on mkfs's image even while other processes
  hold two buffers at any time, and is atomic on disk: whatever the crash, recovery leaves all files as they were before
  it or all as they are after it; so a whole `filewrite` leaves a prefix of whole chunks. The same is proved of the
  transaction that frees an unlinked file. `mkfs` builds an image on which the kernel boots with all this in place, and
  whose bytes, read as directories, are exactly the tree `main` means to build.
- **Names and caches** (`Path`, `Icache`). A path names an inode when a chain of directory entries, one for each of its
  elements, leads there; `namex` finds it exactly then, leaves nothing locked and moves exactly one reference.
- **Processes** (`Sleep`, `Proc`, `Pipe`, `FileTable`). Sleep/wakeup is a step relation over any number of processes,
  locks and channels with an inductive invariant over all runs. The process table, pipes and the file table are classes
  whose methods are the stretches of code that run under the respective lock, so that a run is any sequence of calls.
- **Memory** (`PageTable`, `Vm`, `Umalloc`). Every physical frame has one ghost use, every unit of the user heap one
  ghost block; sharing, leaks and double frees are then visible in the invariants.
- **Algorithms** (`ShellSyntax`, `ShellLines`, `Shell`, `Regex`, `Calendar`). The shell's parser accepts exactly the
  command lines as one types them, and its tree says what they mean; grep's matcher agrees with what a pattern means and
  how it is written; dates and seconds are each other's inverse as far as the 32-bit clock reaches.

Panics of the kernel are preconditions where the callers rule them out, and explicit results where they depend on
resources (no buffer, no inode entry, no block, no frame). Arrays of structures are sequences of values in a field that
the methods reassign; the pipe's ring and the shell's line are arrays. 32-bit arithmetic is written out where it
matters.

Properties that turn out false of the code are stated with their exact condition, and each has a member that shows an
input where it fails:

- `balloc` hands out the log header exactly when no data block is free (`Fs.FirstFitAvoidsLog`); on a full image it does
  (`Mkfs.FullDiskGivesLog`). `bzero` then sends the header through the log, and the commit is no longer atomic, exactly
  when a crash comes after the header has been installed over itself and the transaction changes blocks on both sides of
  that point (`Taken.AtomicityLost`, `Taken.HalfCommitted`).
- `exit` and `chdir` call `iput` outside a transaction: it panics exactly when it drops the last reference to an unlinked
  inode while no transaction is running (`File.Iput`, `Mkfs.ExitPanics`).
- `deallocuvm` jumps over a missing table from where it stands, and leaves pages of the next table mapped exactly when
  they come before that place in their table (`Vm.ShrinksFully`, `Vm.JumpLeavesPage`). A contiguous image, the only kind
  the kernel's callers have, is not affected (`Vm.ImageShrinks`).
- `allocuvm` and `copyuvm` lose a page exactly when the frames run out between it and its table, and `allocuvm` then even
  succeeds if it was the last page (`Vm.Memory.Allocuvm`, `Vm.Memory.Copyuvm`; `Vm.GrowthLosesLastPage`,
  `Vm.CopyLosesPage`).
- `setupkvm` fails exactly when the frames do not suffice, and then keeps every frame there was (`Vm.Memory.Setupkvm`,
  `Vm.SetupKeepsFrames`).
- A killed writer strands sleeping readers exactly when it had more than a pipeful to write (`Pipe.Pipe.Write`,
  `Pipe.KilledWriterStrandsReader`). It releases the pipe's lock with the wakeup still owed, in the terms of
  `Sleep.NoLostWakeup`.
- `malloc` gives less than was asked for exactly when the rounding sum wraps (`Umalloc.UnitsEnough`,
  `Umalloc.WrappedRequestGetsNothing`), and asks `sbrk` for something else exactly from 2 GB on
  (`Umalloc.SbrkArgExact`, `Umalloc.HugeRequestShrinks`).
- A date survives `mktime` and `calcDate` exactly up to 2106-02-07 06:28:15 (`Calendar.DateRoundTrip`,
  `Calendar.ClockRunsOut`). The kernel's own clock has two decimal digits for the year, so every date it supplies does
  (`Calendar.ClockRoundTrip`).

## Model

| member | source | states |
|---|---|---|
| Blocks.WordPutWord | kernel/fs.c:375-380 | reading a block as little-endian words gives a stored word back and leaves the other words alone |
| Bio.BufferCache.constructor | kernel/bio.c:39-56 | binit leaves one cycle over all buffers, nothing cached, the disk untouched |
| Bio.RingMoveToFront | kernel/bio.c:125-132 | brelse's six pointer assignments keep prev and next one cycle over all buffers, with the released buffer in front |
| Bio.RoomHasVictim | kernel/bio.c:82-93 | while fewer than NBUF sectors are held or dirty, bget does not run out of buffers |
| Bio.BufferCache.Lookup | kernel/bio.c:69-80 | the first loop of bget finds the one buffer of the sector if there is one |
| Bio.BufferCache.Recyclable | kernel/bio.c:82-91 | the second loop finds the least recently released buffer that is neither busy nor dirty |
| Bio.BufferCache.Bget | kernel/bio.c:62-93 | a buffer for the sector that is now busy, a wait on its holder, or no buffers; never a second buffer for a sector, never a dirty one recycled |
| Bio.BufferCache.Memiderw | kernel/memdisk.c:40-61 | a dirty buffer becomes the contents of its sector, a clean one takes them |
| Bio.BufferCache.Bread | kernel/bio.c:97-105 | the data returned is the data last stored for the sector, and the disk is untouched |
| Bio.BufferCache.Bwrite | kernel/bio.c:109-115 | the sector and its latest data become the buffer's data, as one sector write |
| Bio.BufferCache.MarkDirty | kernel/log.c:179-180 | log_write's data is the sector's latest data from then on although the disk does not have it |
| Bio.BufferCache.Brelse | kernel/bio.c:120-138 | the buffer becomes the most recently used, and no longer busy |
| Log.HeadRoundTrip | kernel/log.c:86-113 | read_head gets back what write_head stored |
| Log.InstallsEffect | kernel/log.c:70-82 | install_trans writes home sectors only, and leaves each with the last log block that names it |
| Log.RecoveryKeeps | kernel/log.c:116-122 | cutting recovery short after any number of sector writes does not change what the disk means |
| Log.TransactionMeaning | kernel/log.c:136-149 | before the header write a crash loses the transaction, from it on the transaction is durable |
| Log.CrashAtomicity | kernel/log.c:70-181 | for every crash point and any number of crashes during recovery, all home sectors end old or all end new |
| Log.Absorbed | kernel/log.c:160-181 | absorption is sound: each listed sector's log block holds the last data logged for it |
| Log.CrashAtomicityOfRun | kernel/log.c:70-181 | the same for whatever sequence of log_writes makes up the transaction, in terms of their effect |
| Journal.Journal.InstallBlock | kernel/log.c:75-80 | one log block is copied to its home sector through the cache, as one sector write; buffers others hold are untouched |
| Journal.Journal.InstallTrans | kernel/log.c:70-82 | the sector writes are exactly the installs of the in-memory header, and nothing stays dirty |
| Journal.Journal.ReadHead | kernel/log.c:86-96 | the in-memory header is the one on disk |
| Journal.Journal.PutHeader | kernel/log.c:102-113 | count and sectors are stored into the header block as the cache has it, dirty or not, and written in one sector write |
| Journal.Journal.WriteHead | kernel/log.c:102-113 | the header on disk is the in-memory one, as one sector write; dirty buffers stay as they are |
| Journal.Journal.RecoverFromLog | kernel/log.c:116-122 | recovery issues exactly the writes of the recovery trace for whatever well-formed log it finds |
| Journal.Journal.constructor | kernel/log.c:54-66 | initlog recovers and starts with an empty log |
| Journal.Journal.BeginTrans | kernel/log.c:125-133 | an empty transaction on the disk as it is |
| Journal.Journal.FindSlot | kernel/log.c:168-171 | the slot of an earlier write to the same sector, or the next free one |
| Journal.Journal.CopyToLog | kernel/log.c:172-180 | the data goes to the log block and stays in the dirty buffer, the home sector is untouched |
| Journal.Journal.LogSector | kernel/log.c:160-181 | log_write for any sector that is not a log block: slot, count, log block and dirty buffer, the header included |
| Journal.Journal.LogWrite | kernel/log.c:160-181 | one more write in the transaction; disk, log blocks and dirty buffers stay in step with it |
| Journal.Journal.CommitTrans | kernel/log.c:136-149 | the writes since begin_trans are exactly those of the transaction, and every home sector ends with the effect of its log_writes; others may hold buffers of sectors outside the transaction |
| Journal.IssuedEffect | kernel/log.c:136-149 | whatever the log_writes, the writes commit_trans issues leave the log empty and every home sector with their effect |
| Taken.ZeroHeader | kernel/fs.c:40-48 | bzero of the log header inside a transaction: the header is listed like any sector, with an empty block as its log block |
| Taken.LogMore | kernel/log.c:160-181 | further log_writes keep the list, the header's place in it and its log block |
| Taken.CommitTaken | kernel/log.c:136-149 | the sector writes of the commit: the header, the listed sectors in order (the header among them), the emptied header |
| Taken.CommitStage | kernel/log.c:136-149 | after p of these writes p - 1 sectors are installed, and the header on disk is the committed list until its own turn, empty afterwards |
| Taken.RecoveryIsRecovery | kernel/log.c:116-122 | for lists of home sectors this is the recovery whose crash safety is proved |
| Taken.RunEnds | kernel/log.c:116-122 | recoveries cut short anywhere end in a stage that depends on nothing but whether a cut came after the header's turn |
| Taken.AtomicityLost | kernel/log.c:70-181 | for every crash point of the commit and any crashes in recovery: all old before the header write; otherwise all old or all new if and only if the transaction does not change blocks both before and after the stage reached, and without a further crash always before the header's turn and after the last install |
| Taken.HalfCommitted | kernel/fs.c:54-77 | a bitmap block, the header and an inode block: a crash after the second install leaves the bitmap new and the inode old |
| Bitmap.BitOfWithBit | kernel/fs.c:65-67 | or-ing a bit into the bitmap sets that bit of the block and no other |
| Bitmap.BitOfWithoutBit | kernel/fs.c:90-93 | masking a bit out clears that bit of the block and no other |
| Layout.DinodeRoundTrip | kernel/fs.c:208-215 | ilock reads back what iupdate wrote, and the other inodes of the block are untouched |
| Layout.DinodeLayout | kernel/include/fs.h:27-34 | the byte of the block at which each field of an on-disk inode stands |
| Layout.MarkBit | kernel/fs.c:62-70 | marking a free block extends the set of blocks in use by exactly that block |
| Layout.UnmarkBit | kernel/fs.c:88-94 | unmarking removes exactly that block |
| Ownership.LinkDirect | kernel/fs.c:363-367 | storing a fresh block in an empty direct slot keeps single ownership and every file's bytes |
| Ownership.LinkIndirect | kernel/fs.c:370-382 | the same for an entry of the indirect block |
| Ownership.WriteData | kernel/fs.c:481-485 | writing a file's block changes those bytes of that file and nothing else |
| Ownership.Truncated | kernel/fs.c:393-420 | an inode without references leaves exactly its blocks without an owner; every reference of every other inode is owned as before |
| Fs.FirstFitAvoidsLog | kernel/fs.c:54-77 | the block returned lies below the log if and only if a data block is free; otherwise it is the log header |
| Fs.FileSystem.Bread | kernel/bio.c:97-105 | inside a transaction the buffer holds the block as the transaction has left it; with room for what is held, what is logged and what others may hold there is always a buffer |
| Fs.FileSystem.Meanwhile | kernel/bio.c:62-93 | other processes may take and release buffers of blocks below the log at will, and whoever holds the wanted block lets go of it: no block as the transaction sees it changes |
| Fs.FileSystem.Brelse | kernel/bio.c:120-138 | one buffer fewer is held, and no block changes |
| Fs.FileSystem.LogWrite | kernel/log.c:160-181 | the transaction sees the new contents and has one write more; the panic on a full log is the precondition |
| Fs.FileSystem.CommitTrans | kernel/log.c:136-149 | once others have let go of the logged blocks, the disk is what the transaction saw, outside the log area, by exactly the sector writes of a commit |
| Fs.FileSystem.ReadSb | kernel/fs.c:29-36 | the superblock, whatever the transaction has written |
| Fs.FileSystem.Bzero | kernel/fs.c:40-48 | the block is zero and logged, no other block changes |
| Fs.FileSystem.Balloc | kernel/fs.c:54-77 | the lowest clear bit: its block marked and zeroed if it is a data block, reported if it is a block of the log, or none when all are in use |
| Fs.FileSystem.AllocBlock | kernel/fs.c:54-77 | while a data block is free, the lowest free one, owned by nobody, below the log; no file changes |
| Fs.FileSystem.Bmap | kernel/fs.c:358-385 | the address of the block, allocating exactly what is missing; ownership stays single, no file's bytes change, and every buffer taken is released |
| Fs.FileSystem.WriteWithin | kernel/fs.c:481-486 | one round of writei: those bytes of that file, at most the block, the indirect block and the bitmap logged |
| Fs.FileSystem.Iupdate | kernel/fs.c:203-218 | the disk copy of the inode is the in-memory one, every other disk inode is as it was |
| Fs.FileSystem.WriteLoop | kernel/fs.c:480-486 | the bytes are laid over the file block by block, allocating exactly the missing blocks |
| Fs.FileSystem.Writei | kernel/fs.c:464-493 | refused exactly when the offset is past the end, the 32-bit sum wraps or the end would lie beyond the largest file, and then nothing changes; otherwise exactly the bytes asked for change, and every inode on disk agrees with memory |
| Fs.FileSystem.Readi | kernel/fs.c:436-459 | the bytes of the file from the offset on, as many as asked for or as there are; nothing is ever allocated |
| Fs.FileSystem.Bfree | kernel/fs.c:81-96 | exactly that bit is cleared; the panic is the precondition |
| Fs.FileSystem.FreeDirect | kernel/fs.c:399-404 | the direct blocks leave the bitmap, each once |
| Fs.FileSystem.FreeIndirect | kernel/fs.c:406-416 | the entries of the indirect block and the block itself leave the bitmap, each once |
| Fs.FileSystem.Itrunc | kernel/fs.c:393-420 | every block of the file is freed exactly once and no other, other files keep their bytes, the whole file system stays consistent, and only bitmap blocks and the inode's block are logged |
| Fs.FileSystem.FreeInode | kernel/fs.c:319-332 | the last iput of an unlinked inode frees its blocks and the inode, and nothing of any other file |
| Fs.FileSystem.DropLink | kernel/sysfile.c:230-231 | one link less in memory and on disk, every file as it was |
| Fs.FileSystem.ReachLogWrite | kernel/fs.c:393-420 | itrunc always comes to a log_write, of a bitmap block or of the inode's block, and has only read until then |
| Fs.WroteKeepsFiles | kernel/fs.c:480-491 | a write within the file leaves the on-disk inode right; only growth makes it stale |
| Fs.MissingStep | kernel/fs.c:358-385 | filling a block of a range uses up exactly its share of the blocks the range needs |
| File.ChunkFitsLog | kernel/file.c:127-145 | a chunk logs at most four data blocks, the indirect block, the inode block and the bitmap: seven distinct sectors on an image with one bitmap block, whatever its offset and length |
| File.ChunkRoom | kernel/file.c:127-145 | a transaction that begins empty has buffers and log for everything a chunk may hold and log at once besides o buffers held by others, if a chunk's blocks and o are fewer than NBUF and the log holds a chunk at all |
| File.TransactionCrashSafe | kernel/log.c:70-181 | a transaction that takes one state of the files to another: after a crash anywhere in its writes and any crashes in recovery, the disk holds all the old files or all the new ones |
| File.CommittedAtomic | kernel/log.c:70-181 | whatever was logged, the sector writes up to the end of a commit are atomic with respect to the files |
| File.OpenFile.WriteChunk | kernel/file.c:140-145 | one transaction that finds all its buffers and log slots and writes exactly the chunk, refused exactly for an offset past the end or an end beyond the largest file; its actual sector writes are atomic: after any crashes all files are as before or all as after |
| File.OpenFile.FileWrite | kernel/file.c:118-156 | everything is written when the offset is within the file and the end within the largest file; otherwise nothing, or as many whole chunks as fit; the offset follows; and after a crash anywhere in its sector writes recovery finds the file with a whole number of its chunks written |
| File.OpenFile.ReadWriteRead | kernel/fs.c:436-493 | a file read, written and read again: what was written stands where it was written, everything else as it was read before |
| File.DurableMore | kernel/file.c:127-145 | one more atomic chunk: a crash before it leaves what it left before, a crash inside it all of it or none |
| File.DiscardFile | kernel/file.c:75-79 | fileclose's transaction when it drops the last reference to an unlinked file: after any crashes the file is there whole or gone with all its blocks |
| File.Unlink | kernel/sysfile.c:230-234 | dropping a link is atomic on disk |
| File.Iput | kernel/fs.c:319-337 | the last reference to an unlinked inode frees it inside a transaction and panics outside any, with nothing written or logged; every other reference is just dropped |
| Mkfs.Image.constructor | mkfs/mkfs.c:112-131 | a zeroed image with its superblock meets the layout the kernel expects |
| Mkfs.Image.Winode | mkfs/mkfs.c:237-248 | the inode's slot on disk holds it, every other inode and file is as it was |
| Mkfs.Image.Ialloc | mkfs/mkfs.c:277-288 | the next inode number, an empty file |
| Mkfs.Image.MapBlock | mkfs/mkfs.c:322-344 | the block for a file block, taken from the frontier if missing; ownership stays single |
| Mkfs.Image.AppendOne | mkfs/mkfs.c:322-351 | one round of iappend lays its bytes into one block of the file |
| Mkfs.Image.AppendLoop | mkfs/mkfs.c:321-352 | the bytes are laid down from the end of the file on, without holes or spare blocks |
| Mkfs.Image.Iappend | mkfs/mkfs.c:309-355 | the file's contents are the old ones followed by the new bytes; every other file is as it was |
| Mkfs.Image.AddDir | mkfs/mkfs.c:63-84 | a directory with its two entries, entered in its parent; every other file is as it was |
| Mkfs.Image.MakeTop | mkfs/mkfs.c:133-155 | the root directory holds itself twice and the seven directories by name, each of which holds itself and the root; nothing else is there |
| Mkfs.Image.MakeUsr | mkfs/mkfs.c:156-161 | the same for the six directories below usr: name, inode and place of each |
| Mkfs.Image.FixRoot | mkfs/mkfs.c:205-210 | the size is rounded up past the end: zero padding to a block boundary when the last block is partly used, one block too many otherwise |
| Mkfs.Image.Balloc | mkfs/mkfs.c:291-304 | the bitmap marks exactly the metadata and the blocks referenced, so the image satisfies the kernel's invariants |
| Mkfs.Image.Finish | mkfs/mkfs.c:205-212 | the nine entries of the root are padded to one full block without a hole, and the image is what the kernel expects |
| Mkfs.Image.Mount | kernel/log.c:54-66 | the kernel boots on the image: its file system is consistent, its log empty, and every file has its bytes |
| Mkfs.Image.ReadBack | mkfs/mkfs.c:309-355 | the kernel's readi on the finished image returns exactly the bytes iappend stored |
| Mkfs.MakeImage | mkfs/mkfs.c:112-212 | main with the sizes compiled in, without host files: the thirteen directories byte for byte, the root padded to one block, an image the kernel expects, and a log and cache large enough for every chunk while others hold two buffers |
| Mkfs.FullDiskGivesLog | kernel/fs.c:54-77 | an image whose one data block is the root directory's, on which the kernel boots and balloc returns the log header |
| Mkfs.ExitPanics | kernel/proc.c:184 | the current directory of a process has lost its last link; the iput of exit panics |
| ImageTree.DirentRead | mkfs/mkfs.c:70-73 | an entry as mkfs stores it reads back as its inode number and name |
| ImageTree.Listed | mkfs/mkfs.c:133-161 | the bytes of every directory main makes are itself, its parent and its children in the order they were made |
| ImageTree.ImageHops | mkfs/mkfs.c:133-212 | in the finished image every name in every directory leads where main puts it, and no other name leads anywhere |
| ImageTree.ImagePath | kernel/fs.c:606-638 | on the finished image the path to each directory, with any slashes round its names, names that directory, and its parent for nameiparent |
| Path.ElementsOfWritten | kernel/fs.c:565-600 | whatever slashes stand before, between and after them, the elements of a path are the names it is written with, each cut to fourteen characters |
| Path.EveryPath | kernel/fs.c:565-600 | every path is so written |
| Path.FindIs | kernel/fs.c:515-529 | a lookup gives the first entry in use with that name, and fails exactly when no entry in use has it |
| Path.WalkLeads | kernel/fs.c:615-632 | a walk arrives exactly where a chain of such entries leads, one for every element |
| Path.ResolveNames | kernel/fs.c:606-638 | the same for whole paths, for namei and for nameiparent, whose chain stops one element early at a directory |
| Path.Skipelem | kernel/fs.c:578-600 | the first element, cut to DIRSIZ characters, and the position of the next one; none when only slashes are left |
| Path.FollowResolves | kernel/fs.c:606-638 | walking element by element, stopping early for the parent, resolves to what the path means |
| Icache.InodeCache.Iget | kernel/fs.c:224-254 | one more reference to the inode, and still at most one entry per inode; none only when all entries are in use |
| Icache.InodeCache.Idup | kernel/fs.c:259-265 | one more reference |
| Icache.InodeCache.Ilock | kernel/fs.c:270-298 | the entry is locked and agrees with the disk, also when the inode has no link left |
| Icache.InodeCache.Iunlock | kernel/fs.c:302-311 | only the lock is given up |
| Icache.InodeCache.Iput | kernel/fs.c:319-337 | one reference less; the disk inode is freed exactly with the last reference to an unlinked inode, and only then must it be unlocked |
| Icache.InodeCache.Iunlockput | kernel/fs.c:341-345 | one reference less and nothing locked; the disk inode is freed exactly with the last reference to an unlinked inode |
| Icache.InodeCache.Dirlookup | kernel/fs.c:507-530 | a reference to the inode of the first entry in use with that name; not found exactly when no entry in use has it |
| Icache.InodeCache.Descend | kernel/fs.c:626-631 | one reference moves from the directory to the inode of that entry, also when that is the directory itself |
| Icache.InodeCache.Round | kernel/fs.c:616-631 | one round of namex leaves nothing locked and moves or drops one reference |
| Icache.InodeCache.Namex | kernel/fs.c:606-638 | the inode to which a chain of entries leads, one for each element of the path, with one reference more, or none and there is no such chain; no inode locked, no other count changed, none freed; the current directory may have been removed |
| Sleep.MutualExclusion | kernel/spinlock.c:25-64 | under the invariant, which every run keeps, two processes never hold the same lock |
| Sleep.PendingKept | kernel/proc.c:345-399 | no step of any process loses a wakeup that a process going to sleep still has coming |
| Sleep.ScanKept | kernel/proc.c:383-390 | nobody falls asleep behind wakeup1's scan |
| Sleep.EntryKept | kernel/proc.c:345-362 | nobody changes the condition while its tester enters sleep |
| Sleep.InvStep | kernel/proc.c:345-422 | every step of sleep, wakeup, kill, scheduling and locking keeps the invariant |
| Sleep.Reachable | kernel/proc.c:345-422 | every state that any run from boot reaches satisfies the invariant |
| Sleep.NoLostWakeup | kernel/proc.c:345-399 | in every state of every run, also when wakeups come after the lock is released or without a change, if a process sleeps on a channel whose condition holds, some process has a wakeup on it still to finish, or to call if it has made the condition true and not called it yet |
| Sleep.WakeupWakesAll | kernel/proc.c:383-399 | when wakeup's scan is over nobody is left sleeping on the channel |
| Sleep.SleepReturnsLocked | kernel/proc.c:345-377 | in every state of every run, whoever steps next, a process inside sleep stays there or is back holding the lock it gave up |
| Sleep.ReturnsOnlyWoken | kernel/proc.c:364-377 | over every stretch of a run, sleep does not return unless a wakeup on its channel or a kill has found the process sleeping |
| Sleep.WakeupKeepsLocks | kernel/proc.c:394-399 | in every run wakeup ends with the lock it was called under still held, and ptable.lock released unless it is that one |
| Sleep.SleepersWaitForCondition | kernel/proc.c:345-377 | with the lock free, whoever sleeps under it has a condition that does not hold, unless a wakeup has been put off past the release |
| Sleep.PromptSleepers | kernel/proc.c:345-377 | in runs that call wakeup before they release, with the lock free, whoever sleeps under it has a condition that does not hold |
| Proc.ProcessTable.constructor | kernel/proc.c:80-104 | userinit: init is runnable, every other slot unused |
| Proc.ProcessTable.Allocproc | kernel/proc.c:42-53 | the lowest unused slot becomes an embryo under a pid nobody has had; none exactly when no slot is unused |
| Proc.ProcessTable.ForkAbort | kernel/proc.c:140-145 | giving up returns the slot |
| Proc.ProcessTable.ForkParent | kernel/proc.c:147 | the embryo gets its parent |
| Proc.ProcessTable.ForkDone | kernel/proc.c:158-161 | the child becomes runnable |
| Proc.ProcessTable.Wakeup1 | kernel/proc.c:383-390 | exactly the sleepers on the channel become runnable, in nothing else changed |
| Proc.ProcessTable.Wakeup | kernel/proc.c:394-399 | the same, keeping the table's invariant |
| Proc.ProcessTable.Abandon | kernel/proc.c:193-199 | the children go to init, which is awake if it inherits a zombie |
| Proc.ProcessTable.Exit | kernel/proc.c:168-205 | the process becomes a zombie, its children are init's, and exactly those become runnable that wait for its parent's children, or for init's when init inherits a zombie; parents stay alive, waiters keep a child that is no zombie |
| Proc.ProcessTable.Wait | kernel/proc.c:210-248 | a zombie child is reaped whenever there is one, the lowest first and each once, and its slot is emptied; failure only without children or when killed; sleep only beside living children |
| Proc.ProcessTable.Kill | kernel/proc.c:405-422 | the first slot with that pid is marked killed and runnable if it was sleeping |
| Proc.ProcessTable.Sleep | kernel/proc.c:364-367 | sleeping on any other channel keeps the invariant |
| Proc.ProcessTable.Dispatch | kernel/proc.c:269-281 | a runnable process runs, its channel cleared |
| Proc.ProcessTable.Yield | kernel/proc.c:314-320 | a running process becomes runnable |
| Proc.ExitedOk | kernel/proc.c:187-203 | exit keeps every parent pointer at a living process and no waiter beside a zombie child |
| Proc.ReapedReaping | kernel/proc.c:223-236 | a reaped pid had exited and had not been reaped before |
| Pipe.CountersExact | kernel/pipe.c:84-92 | the full and empty tests and the ring index are exact also after the 32-bit counters have wrapped |
| Pipe.Accept | kernel/pipe.c:92 | storing a byte keeps the ring the window between accepted and delivered |
| Pipe.Deliver | kernel/pipe.c:115 | the byte taken is the oldest one not yet delivered |
| Pipe.Pipe.constructor | kernel/pipe.c:32-36 | an empty pipe with both ends open |
| Pipe.Pipe.Fill | kernel/pipe.c:83-93 | as many bytes as there is room for are accepted, in order |
| Pipe.Pipe.Write | kernel/pipe.c:78-97 | bytes are accepted in order up to sleep, failure or completion; readers are stranded exactly by a killed writer with more than a pipeful |
| Pipe.Pipe.Drain | kernel/pipe.c:112-116 | as many bytes as there are, in order |
| Pipe.Pipe.Read | kernel/pipe.c:100-120 | delivered stays a prefix of accepted; sleep only when empty with a writer, end of file only without one |
| Pipe.Pipe.Close | kernel/pipe.c:59-74 | the other end's sleepers wake; the page is freed when both ends are gone and nobody sleeps in it |
| Pipe.Pipe.Rouse | kernel/proc.c:405-422 | kill takes a process out of its sleep in a pipe |
| Pipe.KilledWriterStrandsReader | kernel/pipe.c:84-88 | a run that leaves a reader asleep beside a full pipe |
| FileTable.Files.constructor | kernel/file.c:20-23 | no file is open |
| FileTable.Files.Filealloc | kernel/file.c:27-41 | the first file nobody refers to, with one reference; none exactly when all are referred to |
| FileTable.Files.Filedup | kernel/file.c:45-53 | one more reference |
| FileTable.Files.Fileclose | kernel/file.c:57-80 | one reference less; with the last one the file is free and its pipe end closed |
| FileTable.Files.Pipeclose | kernel/pipe.c:59-74 | the page goes with the second end |
| FileTable.Files.Fdalloc | kernel/sysfile.c:39-50 | the lowest free descriptor takes over the reference |
| FileTable.Files.Dup | kernel/sysfile.c:53-62 | the lowest free descriptor names the same file, counted once more; refused exactly for a bad descriptor or a full table, and then nothing changes |
| FileTable.Files.Close | kernel/sysfile.c:98-107 | one descriptor and one reference less; pages freed are those of pipes that are gone |
| FileTable.Files.Open | kernel/sysfile.c:325-343 | a fresh file for the inode on the lowest free descriptor; neither exactly when files or descriptors have run out |
| FileTable.Files.AllocTwo | kernel/pipe.c:28-29 | two files exactly when there are two, otherwise none taken |
| FileTable.Files.FdallocTwo | kernel/sysfile.c:434-436 | two descriptors exactly when there are two, otherwise none taken |
| FileTable.Files.Pipealloc | kernel/pipe.c:22-56 | two fresh files and a page exactly when there are two and one, otherwise nothing at all |
| FileTable.Files.Pipe | kernel/sysfile.c:424-444 | both ends on descriptors exactly when files, page and descriptors suffice, otherwise no trace of the pipe |
| FileTable.Files.Fork | kernel/proc.c:153-155 | the child's descriptors name the same files, all counted, every file still what it was |
| FileTable.Files.Exit | kernel/proc.c:176-182 | all descriptors of the process are gone, counts right, files of others still what they were |
| FileTable.PageLifetime | kernel/pipe.c:59-74 | a pipe page is in use exactly while a file refers to one of its ends, and nobody refers to it once given back |
| PageTable.NoSharing | kernel/vm.c:221-337 | no frame is mapped twice, or mapped and free |
| PageTable.EntryDecides | kernel/vm.c:59-62 | a page directory never restricts user code; the page's own entry decides whether it may read or write |
| PageTable.PteLookup | kernel/vm.c:46-90 | storing an entry changes the flat map at that page of that directory and nowhere else |
| PageTable.TableOk | kernel/vm.c:55-62 | a new table changes no mapping and keeps single use of frames |
| PageTable.MappedOk | kernel/vm.c:81-83 | a mapped frame is used by that page and nothing else |
| PageTable.UnmappedOk | kernel/vm.c:263-269 | an unmapped page's frame is free, every other use is as it was |
| PageTable.DetachedOk | kernel/vm.c:285-291 | the frames of an address space without pages can all be given back |
| Vm.Memory.constructor | kernel/kalloc.c:46-52 | freerange puts every frame on the free list once |
| Vm.Memory.Kalloc | kernel/kalloc.c:83-95 | the head of the free list, or none when it is empty |
| Vm.Memory.Kfree | kernel/kalloc.c:60-77 | the frame is the new head, no mapping changes |
| Vm.Memory.Walk | kernel/vm.c:46-65 | the table of the page, made when asked for and a frame is left; no mapping changes |
| Vm.Memory.MapOne | kernel/vm.c:78-83 | exactly that page is mapped, or nothing changes |
| Vm.Memory.Mappages | kernel/vm.c:71-90 | the region's pages map to its frames and no other page changes; success exactly when the frames suffice for the missing tables |
| Vm.Memory.Setupkvm | kernel/vm.c:129-144 | a new directory whose flat map is exactly the kernel regions, exactly when the frames suffice; a failure keeps every frame there was |
| Vm.SetupKeepsFrames | kernel/vm.c:134-143 | a failure that keeps the one frame there was |
| Vm.Memory.FreePage | kernel/vm.c:263-270 | one page leaves, its frame is free, every other page keeps mapping and contents |
| Vm.Memory.Deallocuvm | kernel/vm.c:250-273 | exactly the mapped pages between the sizes that the loop reaches leave, and their frames are freed; every other page keeps mapping and contents |
| Vm.ShrinksFully | kernel/vm.c:259-263 | those are all the mapped pages between the sizes when the new size is at a table's start or at a page that has its table; in general, if and only if none lies in the first table at or after the new size, before the new size's place in a table |
| Vm.ImageShrinks | kernel/vm.c:250-273 | an address space that has exactly the pages below its size has exactly those below the new one afterwards |
| Vm.JumpLeavesPage | kernel/vm.c:261-263 | an address space whose only page survives being shrunk below it |
| Vm.Memory.GrowOne | kernel/vm.c:233-240 | one page more with the given contents; without a frame nothing changes, without one for the table the page is lost |
| Vm.Memory.Allocuvm | kernel/vm.c:221-243 | with enough frames exactly the new pages, zeroed; otherwise what is given back and what is lost, decided by the frame count; user code may read and write every new page |
| Vm.ImageGrows | kernel/vm.c:221-243 | an address space that has exactly the pages below its size has exactly those below the new one, or is as it was; only a lost last page leaves it one short |
| Vm.GrowthLosesLastPage | kernel/vm.c:233-241 | a growth that succeeds without its page, whose frame is lost |
| Vm.NeedMono | kernel/vm.c:231-241 | the frames a range needs grow by one per page and one per missing table |
| Vm.LosesOnce | kernel/vm.c:240 | at most one page can be lost |
| Vm.Memory.Freevm | kernel/vm.c:278-292 | every frame of the address space is free, every other use is as it was |
| Vm.Memory.Copyuvm | kernel/vm.c:310-337 | the same pages, flags and contents on frames of its own exactly when the frames suffice; otherwise the new space is given back but for a page lost between page and table; every existing address space is as it was |
| Vm.KernelProtected | kernel/vm.c:92-125 | with the permissions of the kernel's regions, user code may neither read nor write any kernel page |
| Vm.CopyImage | kernel/vm.c:310-337 | a copy has exactly the pages below the size |
| Vm.CopyLosesPage | kernel/vm.c:326-337 | a failed copy after which a frame is neither free nor used |
| Vm.StoresArePrivate | kernel/vm.c:326-331 | a store through one address space is seen by that page only, so a copy is independent |
| Umalloc.Allocator.FindGap | userspace/libc/umalloc.c:30-32 | free's search ends at the gap the block belongs in |
| Umalloc.FreedChain | userspace/libc/umalloc.c:33-42 | freeing keeps the list circular, sorted, disjoint and coalesced in all four cases |
| Umalloc.FreedTagged | userspace/libc/umalloc.c:33-42 | freeing keeps every unit in exactly one block |
| Umalloc.Allocator.Free | userspace/libc/umalloc.c:25-44 | exactly the block stops being live, no unit leaves the heap, no store falls on a live block |
| Umalloc.Allocator.Morecore | userspace/libc/umalloc.c:47-61 | the heap grows by the region sbrk grants, or nothing changes |
| Umalloc.TakenWhole | userspace/libc/umalloc.c:75-76 | unlinking an exact fit keeps list and partition |
| Umalloc.TakenTail | userspace/libc/umalloc.c:77-81 | carving the tail keeps list and partition |
| Umalloc.Allocator.Take | userspace/libc/umalloc.c:74-84 | the block handed out was free, and no store falls on a live block |
| Umalloc.Allocator.Malloc | userspace/libc/umalloc.c:64-90 | a new live block of the right size, or NULL exactly when nothing fits and sbrk fails; the heap is extended at most once |
| Umalloc.LiveDisjoint | userspace/libc/umalloc.c:64-90 | two live blocks never share a unit |
| Umalloc.Conservation | userspace/libc/umalloc.c:25-90 | units on the free list and units of live blocks add up to the units obtained from sbrk |
| Umalloc.UnitsEnough | userspace/libc/umalloc.c:69 | the payload holds the request, with less than a unit to spare, if and only if the rounding sum does not wrap |
| Umalloc.WrappedRequestGetsNothing | userspace/libc/umalloc.c:69 | the largest request gets a block with room for nothing |
| Umalloc.SbrkArgExact | userspace/libc/umalloc.c:54 | sbrk is asked for the units recorded if and only if they stay below 2 GB |
| Umalloc.HugeRequestShrinks | userspace/libc/umalloc.c:54 | a request that turns into a negative argument |
| Shell.Gettoken | userspace/sh.c:555-597 | the loops find the token of the reference grammar: kind, extent, and where the next one starts |
| Shell.Peek | userspace/sh.c:600-609 | skips to the next character and tells whether it is one of the given ones, as the grammar does |
| Shell.Parseredirs | userspace/sh.c:664-686 | the loop wraps the command as the grammar's recursion does, or panics where it does |
| Shell.Parseexec | userspace/sh.c:705-735 | a command as typed, words and redirections in any order or a line in parentheses, is read up to its end and gives all its words and all its redirections in order; the grammar's limit of nine words, and its panics |
| Shell.Parseblock | userspace/sh.c:689-702 | the grammar's parenthesised line with its redirections, panics included |
| Shell.Parsepipe | userspace/sh.c:651-661 | the grammar's pipeline, nested to the right |
| Shell.Parseline | userspace/sh.c:634-648 | the grammar's line: every ampersand wraps once, a semicolon nests to the right |
| Shell.Parsecmd | userspace/sh.c:617-631 | accepts exactly the lines as typed, and the tree is what the line means; panics on everything else, leftovers included |
| ShellLines.LexSpelled | userspace/sh.c:555-597 | tokens spelled with any white space between them, some where two would stick together, are scanned as those tokens |
| ShellLines.LexUnspelled | userspace/sh.c:555-597 | whatever the scanner reads to the end was so spelled |
| ShellLines.FoldSimple | userspace/sh.c:719-731 | parts read one by one: the words end up together at the core in order, the redirections round it in order |
| ShellLines.CommandRead | userspace/sh.c:689-735 | a command as typed, wherever it stands, is read to its end with its meaning |
| ShellLines.CommandWritten | userspace/sh.c:689-735 | whatever is read as a command was so typed, with at most nine words |
| ShellLines.LineRead | userspace/sh.c:634-661 | the same for lines: pipes and lists nest to the right, every ampersand wraps once |
| ShellLines.LineWritten | userspace/sh.c:634-661 | whatever is read as a line was so typed |
| ShellLines.AcceptsExactly | userspace/sh.c:617-735 | the parser accepts a string if and only if it is a line as typed, and then gives what the line means |
| ShellLines.RoundTrip | userspace/sh.c:617-735 | every tree with at most nine words per command can be typed, and is read back as it was |
| Shell.LineTokens | userspace/sh.c:634-735 | every word and file name of a parsed tree is a maximal run of letters |
| Shell.Nulterminate | userspace/sh.c:739-782 | a NUL at the end of every token of the tree, and no other change |
| Shell.TokensReadBack | userspace/sh.c:739-782 | no NUL lands inside another token: each reads as exactly its text |
| Shell.ParseAndTerminate | userspace/sh.c:617-631 | on the line buffer: the C strings left in it for the words and file names of the tree make up what the line means |
| Regex.WriteRead | userspace/grep.c:82-93 | every string is the written form of the pattern read from it |
| Regex.ReadWrite | userspace/grep.c:82-93 | a pattern is read back from its written form if and only if no single character stands before a star and no last dollar sign is meant as a character |
| Regex.Matchhere | userspace/grep.c:82-93 | for the pattern so written: true exactly when the text from there on splits into stretches that fit its items one by one, a dot fitting any character, up to the end of the text if the pattern is anchored |
| Regex.Matchstar | userspace/grep.c:96-103 | true exactly when a run of the character followed by the rest begins the text |
| Regex.Match | userspace/grep.c:70-79 | the same at some position of the text, only at the first under a caret |
| Calendar.FormulaCountsDays | kernel/include/rtc.h:46-49 | the closed formula counts the days of every date from 1970 on |
| Calendar.Tm.Mktime | kernel/include/rtc.h:37-53 | the seconds since the Epoch by definition |
| Calendar.FindYear | userspace/libc/time.c:20-40 | the year of a day, the days left in it, and the weekday |
| Calendar.FindMonth | userspace/libc/time.c:42-56 | the month and the days into it |
| Calendar.Tm.CalcDate | userspace/libc/time.c:4-68 | the one valid date the seconds stand for, its weekday (4 + days) mod 7 and its day in the year |
| Calendar.SecondsInjective | userspace/libc/time.c:4-68 | two valid dates never have the same seconds |
| Calendar.DateRoundTrip | userspace/libc/time.c:4-68 | calcDate undoes mktime if and only if the date is not after 2106-02-07 06:28:15 |
| Calendar.ClockRange | kernel/include/rtc.h:37-53 | the seconds of a date fit the 32-bit clock if and only if it is not after 2106-02-07 06:28:15 |
| Calendar.ClockRunsOut | userspace/libc/time.c:4-68 | the second after comes back as the Epoch |
| Calendar.ClockRoundTrip | kernel/rtc.c:61-79 | every valid date a clock with two decimal digits of year supplies survives mktime and calcDate |
| Calendar.TimeRoundTrip | kernel/include/rtc.h:37-53 | mktime undoes calcDate |

## Left out

- Other processes take and release buffers where this process calls bread and before it commits, not between the sector writes inside log_write and commit_trans; what they hold meanwhile stays held.
- Interrupts, real concurrency inside a locked stretch, weak memory ordering and fairness; only safety is proved. pushcli/popcli nesting is not modelled.
- Fs.FileSystem.Writei: excludes device inodes, whose branch calls a driver, and requires enough free data blocks, because balloc misbehaves without (`Fs.FirstFitAvoidsLog`).
- Fs.FileSystem.Readi: excludes device inodes, whose branch calls a driver.
- Fs.FileSystem.Bmap: requires enough free data blocks for what is missing, for the same reason as Writei.
- Fs.FileSystem.AllocBlock: the case of balloc in which a data block is free; `Fs.FileSystem.Balloc` covers the rest.
- Fs.FileSystem.Balloc: requires the bits of the boot block, the superblock and the blocks its caller holds to be set, as mkfs and bmap leave them; does not say what follows once a block of the log has been taken for free, which `Taken.ZeroHeader` takes up.
- Fs.FileSystem.LogWrite: takes the new contents as an argument; the source changes the buffer in place before the call.
- Taken.AtomicityLost: requires the log block of the header to begin with a zero count, as bzero leaves it; once file data with another first word has been logged there, recovery takes the file's bytes for a header.
- File.OpenFile.WriteChunk: requires a log and a cache that hold a chunk (`File.ChunksFit`), because log_write and bget panic otherwise; mkfs's image has them (`Mkfs.MakeImage`).
- File.Unlink: the directory entry and the parent's link count, which unlink changes in the same transaction, are not part of it.
- File.Iput: the cache entry's count and valid flag are parameters; `Icache.InodeCache.Iput` has the cache side. Requires room in the log of a running transaction, which another process's transaction need not leave.
- File.OpenFile.FileWrite: requires enough free data blocks for the whole request, for the same reason as Writei.
- Mkfs.MakeImage: without host files; with them, `Mkfs.Image.Ialloc`, `Mkfs.Image.Iappend` and `Mkfs.Image.Finish` are its steps.
- Bio.BufferCache.Bget: there is one device, the root device.
- Bio.BufferCache.Bread: requires the sector not to be held by another process, because the caller would sleep for it, and fewer than NBUF sectors to be held or dirty.
- Icache.InodeCache.Namex: runs between the sleeps of one process, with no inode locked by another; every directory entry must name an inode that is linked or referenced, because ilock panics on a freed one (the parent entry of a removed directory can come to name one); directory contents are entries rather than bytes.
- Icache.InodeCache.Dirlookup: names compare as a whole; the kernel compares fourteen characters, which is the same for names that skipelem has cut.
- Icache.InodeCache.Ilock: requires the inode not to be locked already, because the caller would sleep, and to be allocated, because the kernel panics otherwise.
- Icache.InodeCache.Descend: requires the directory to be linked or to have a second reference, so that letting it go does not free it; namex always has that.
- Proc.ProcessTable.Allocproc: the kernel stack and the first context are not part of it, its failure is that of fork; pids are unbounded, the wrap of the C int after 2^31 forks is not modelled.
- Pipe.Pipe.Close: requires that nobody sleeps at the end being closed, because a sleeper still holds that end open.
- FileTable.Files.Open: the path walk, inode locking and permission bits of sys_open are not part of it, nor is the inode reference a closed file gives back.
- Vm.Memory.Deallocuvm: requires the old size not to exceed KERNBASE, as for all callers.
- Vm.Memory.Allocuvm: requires no page mapped between the sizes, because mappages panics otherwise.
- Vm.Memory.Copyuvm: requires every page below the size to be mapped, because the kernel panics otherwise.
- Vm.Memory.Kfree: the range panic is not modelled, all frames come from freerange; page contents are opaque values rather than bytes.
- Vm.Memory.Setupkvm: requires kernel regions above KERNBASE that do not overlap, as the table of vm.c has; its addresses depend on where the linker puts the kernel's data.
- Umalloc.Allocator.Malloc: requires the request to stay below 2 GB, the bound `Umalloc.SbrkArgExact` shows; sbrk's answer is a parameter above all earlier ones.
- Umalloc.Allocator.Free: requires a live block, as the C library does.
- Mkfs.Image.Iappend: requires enough blocks before the log, which mkfs does not check; reading the host files and naming directory entries are left out.
- Shell execution, environment handling, and grep's read loop.
- dirlink, link, unlink, create, exec and chdir; getcwd, which leaks references.
- Device drivers, interrupt controllers, boot code, segment and task setup, the terminal.
