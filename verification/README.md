# xv6 in Dafny: the hard core

A model of one xv6 tree, `ex3/q1/xv6`, and proofs about it: the redo log over the
buffer cache, the file layer from the bitmap up to path names, the semaphores and
the producer/consumer program that uses them, the process table, the K&R allocator,
two-level page tables, the shell's parser, the pipe and the regular-expression
matcher. Other trees in the repository are copies and add nothing.

## Layout

| files | what they hold |
|---|---|
| `Params`, `Blocks`, `Sums` | the sizes of param.h; disk blocks as bytes and as words; sums over process tables |
| `LogSpec`, `LogMachine`, `LogOverrun`, `LogAdmission` | what recovery makes of a disk; the interleaved machine of operations, commit, crash and recovery; the run that breaks it on a short log; begin_op and end_op |
| `Bio`, `LogCache`, `Log` | the LRU cache as a doubly linked list in place, with the disk behind it; what a commit needs of the cache; log.c run over it |
| `Bitmap`, `Ownership`, `FileData`, `Dinodes`, `Truncate`, `FileSteps`, `BlockCounts`, `Fs`, `Files` | bits of the bitmap; who owns which block; a file as bytes; inodes on disk; freeing; one pass of each loop and the size of a transaction; blocks a file takes and blocks free; fs.c; file.c |
| `Moves`, `Spending`, `Durable` | the single moves file operations are made of, and what every run of them keeps; what each step of fs.c moves and costs; file operations on the log: what recovery leaves of a file system |
| `Drafts`, `Mkfs`, `Boot`, `FirstBoot` | an image in the making; the image builder, up to the kernel's start state; the directory tree in it; where its areas lie and what the log makes of it |
| `Names`, `Directories`, `Trees`, `Paths` | 14-byte names and path splitting; a directory as a map; the tree of a state and what keeps it; dirlookup, dirlink, namex |
| `Sem`, `Gate`, `Pc`, `PcLocks` | one semaphore at lock grain; its slot as sem_close and sem_unlink use it; the program; the program run on both, lock by lock |
| `Proc`, `ProcFrame`, `ProcTable` | the process table as a state machine; what its steps leave alone, and who is marked killed; its loops |
| `Umalloc` | the allocator |
| `PageTables`, `Vm`, `CopyVm` | frames and who uses them; kalloc.c and vm.c; fork's copy of an address space |
| `ShellGrammar`, `ShellForms`, `Shell` | the parser over tokens; how commands are written and what they mean; the tokenizer, parser and nulterminate |
| `Pipe`, `Grep` | the ring between wrapping counters; the matcher |

Code that works by changing things step by step is a class or an array method with
loops, each proved against functions on values; properties of whole runs are lemmas
about state machines whose steps are those functions. A `panic` is a result, never
an assumption, unless the code's callers must exclude it.

## Where the code and a careless claim differ

- `log_write` tests the room in the log without the lock and appends under it, so two
  processes can pass the test for the one place left. On a log of 2 to LOGSIZE blocks, and
  mkfs makes it LOGSIZE, they overrun it: `LogAdmission.AlwaysFitsExactly` gives the sizes
  at which the log is never overrun on a disk that has blocks enough. With a home block
  behind the log the overrun is written there, `LogOverrun.OverrunRun`, and a crash then
  leaves neither all of a transaction nor nothing; without one the commit comes to a halt
  before it has promised anything. `LogOverrun.CrashAtomicExactly` is the exact condition
  for every layout.
- The same test refuses at `log.size - 1` entries, even a block that is in the log already:
  `LogAdmission.NoPanicExactly` for operations that log each block once, `AgainPanics` for
  those that log one again, `LargeWritersExactly` for operations above their budget.
- A commit needs a buffer that is not pinned, so LOGSIZE logged blocks cannot be committed
  through LOGSIZE buffers, which is what NBUF is: `Log.Log.Commit`, `LogCache.RoomExactly`.
- A semaphore name opened afresh while somebody woken in `sem_unlink` has not yet looked
  again clears his mark, and he may sleep for good: `Gate.NeverLostExactly`.
- mkfs rounds the root directory's size up by a whole unmapped block when it was a
  multiple of BSIZE already: `Drafts.RoundedMapped` is the exact condition. The
  root is a directory as the kernel wants it exactly when that was not so and no two names
  agree in their first 14 bytes: `Boot.RootIsDir`.
- `dirlink` of an inode number that is 0 in 16 bits links nothing: `Paths.Dirlink`.
- `malloc` rounds in 32 bits: `Umalloc.LargeEnough` is the exact condition.
- A semaphore with a negative initial count can lose a wakeup: `Sem.NeverLostExactly`.
- A killed pipe writer can return without waking readers: exactly when one sleeps and there
  is more to write than the pipe holds, `Pipe.Pipe.Write`; `Pipe.MissedWakeup` is the input.
- The shell's `>>` does what `>` does; both tokens give the same tree.
- `kill(0)` marks an unused slot, and a failed fork leaves its pid behind: the process
  table model keeps both. A process can so be born marked killed without anybody having
  named it, `ProcFrame.BornMarked`; `ProcFrame.MarkedSinceTaken` with
  `ProcFrame.MarkedExactly` is the exact condition.
- `copyuvm` that finds a frame for a page but none for the page's table forgets the first:
  `CopyVm.Copyuvm` gives the exact numbers of free frames with which it happens.

## Model

| member | source | states |
|---|---|---|
| `LogSpec.HeadRoundTrip` | ex3/q1/xv6/log.c:86-111 | a header written by write_head is read back as the same count and the same block list |
| `LogSpec.InstallAt` | ex3/q1/xv6/log.c:70-82 | what install_trans leaves on every block after any number of iterations: the logged copy on the listed home blocks, everything else untouched |
| `LogSpec.RecoveredIsPromise` | ex3/q1/xv6/log.c:116-122 | recovery of a disk that holds a promise (header plus log slots agree with some target) leaves exactly the target on every home block |
| `LogSpec.InstallKeepsPromise` | ex3/q1/xv6/log.c:70-82 | one more installed block keeps the promise: installing is idempotent, so a cut-off recovery can start again |
| `LogSpec.InstalledNeedsNoLog` | ex3/q1/xv6/log.c:119-121 | once everything is installed the header can be erased without changing what recovery yields |
| `LogSpec.RecoveredEmpty` | ex3/q1/xv6/log.c:116-122 | recovery of a disk with an empty header changes no home block |
| `LogMachine.StepKeepsInv` | ex3/q1/xv6/log.c:126-233 | on a log that cannot be overrun (more than LOGSIZE blocks, or one, or more blocks than there are home blocks): every step of every process, with log_write's unlocked test and its locked append as two, of the committer, of a crash and of recovery keeps the invariant that links cache, log area, header and promise |
| `LogMachine.RecoversStable` | ex3/q1/xv6/log.c:116-122 | in every state of the invariant, recovery of the disk as it is yields the home blocks last promised |
| `LogMachine.StepIsTransparent` | ex3/q1/xv6/bio.c:62-141 | reading, recycling, logging, committing and installing leave the current contents of every home block; only a holder changes its own block |
| `LogMachine.PromiseMovesAtWriteHead` | ex3/q1/xv6/log.c:102-113 | only the header write changes what a crash recovers to, and it moves it to the contents of that moment with no operation running |
| `LogMachine.LoggedBlockStaysOnDisk` | ex3/q1/xv6/log.c:177-233 | from log_write until write_head has committed it a home block on disk stays as committed, and exactly the logged blocks are pinned by B_DIRTY |
| `LogMachine.RunKeepsInv` | ex3/q1/xv6/log.c:126-233 | the invariant holds in every state of every run with any number of processes and crashes, on such a log |
| `LogMachine.CrashAtomicity` | ex3/q1/xv6/log.c:69-122 | over whole runs with any number of crashes, also during recovery, on such a log: recovering the disk of any moment gives every home block its contents at the last write_head, all old or all new |
| `LogMachine.StableIsLastCommit` | ex3/q1/xv6/log.c:192-202 | the promised contents are the current contents of the moment of the last header write, or the initial disk before any |
| `LogMachine.FinishedRecoveryReads` | ex3/q1/xv6/log.c:115-122 | when recovery has erased the header every home block reads as promised |
| `LogMachine.AppendEnabled` | ex3/q1/xv6/log.c:218-233 | a process past log_write's test is never held up at its append |
| `LogMachine.ReadsLastSet` | ex3/q1/xv6/bio.c:62-141 | over whole runs, outside a recovery: a home block reads as its last holder left it since the last recovery ended, else as what that recovery found committed, else as the initial disk |
| `LogOverrun.CrashAtomicExactly` | ex3/q1/xv6/log.c:213-233 | for every layout: every run is crash atomic except, and always except, when a log of 2 to LOGSIZE blocks has a home block behind it and there are at least as many home blocks as the log has blocks |
| `LogOverrun.OverrunRun` | ex3/q1/xv6/log.c:213-233 | the run for any such layout: two processes pass the test for the last place, nothing is committed, and yet recovery finds the block behind the log changed |
| `LogOverrun.StuckIsAtomic` | ex3/q1/xv6/log.c:177-202 | a log that ends with the disk: an overrun commit halts before its header write, and every crash finds the disk as promised |
| `Log.LoggingImages` | ex3/q1/xv6/log.c:177-190 | every disk image of the log-writing stage recovers to the pre-transaction home blocks |
| `Log.LoggingRecoversOld` | ex3/q1/xv6/log.c:177-190 | any change confined to the log slots, under an empty header, recovers to the old home blocks |
| `Log.InstallingRecoversNew` | ex3/q1/xv6/log.c:69-82 | every disk image of the installing stage recovers to the post-transaction home blocks |
| `Log.ErasingRecoversNew` | ex3/q1/xv6/log.c:192-202 | the image after the header is erased recovers to, and is on the home blocks equal to, the post-transaction contents |
| `LogCache.CalmReads` | ex3/q1/xv6/bio.c:95-106 | with clean, unheld buffers outside the pinned set, what reads as a block is what the disk holds |
| `LogCache.RoomExactly` | ex3/q1/xv6/log.c:177-190 | with nobody holding a buffer, the commit of a non-empty log finds one exactly when there are more buffers than logged blocks |
| `Log.Log.WriteLog` | ex3/q1/xv6/log.c:177-190 | one block write per logged block, each confined to the log area, all listed copies in place at the end; it ends with one free buffer besides the logged ones and cannot begin without a buffer |
| `Log.Log.WriteHead` | ex3/q1/xv6/log.c:101-113 | one block write that puts exactly the in-memory header on disk; fails exactly when there is no buffer for the header block |
| `Log.Log.InstallTrans` | ex3/q1/xv6/log.c:69-82 | its k-th write leaves exactly the disk of k installed blocks; it ends with two free buffers, or with one when the logged blocks are cached, and never with a single buffer |
| `Log.Log.Commit` | ex3/q1/xv6/log.c:192-202 | whatever block write it stops after, that disk recovers to the old home blocks before the header write and to all of the new ones from it on; finished, the new blocks are in place, the log is empty and exactly 2n+2 writes were made; it finishes with a free buffer besides the pinned ones, and with nobody holding a buffer exactly when n is 0 or below the number of buffers |
| `Log.Log.ReadHead` | ex3/q1/xv6/log.c:85-96 | loads exactly the header on disk, stale entries past the count left alone; fails exactly when there is no buffer for the header block |
| `Log.Log.Recover` | ex3/q1/xv6/log.c:115-122 | every disk image it passes through recovers to the same home blocks as the one it found, and they are in place when it ends; it ends with two free buffers, and from an unused cache exactly with two buffers, or one if the header is empty |
| `Log.Log.LogWrite` | ex3/q1/xv6/log.c:213-233 | appends the block number once (absorption), pins the buffer, changes no readable contents; fails exactly at capacity, an absorbed block included |
| `Log.Log.Update` | ex3/q1/xv6/log.c:204-212 | bread, change, log_write, brelse: the block reads as changed, all others as before, the number is logged once, and the commit's precondition holds again; fails exactly without a buffer or at capacity |
| `Log.Log.Transact` | ex3/q1/xv6/log.c:126-202 | a whole operation and its commit: at every block write it may stop at the disk recovers to all of its updates or to none; it ends if the updates fit the log and leave a buffer over |
| `LogAdmission.Admission` | ex3/q1/xv6/log.c:126-174 | in every reachable state logged blocks plus unused budgets of running operations fit LOGSIZE, logged numbers are distinct, outstanding counts the running operations, and with none running and no commit the log is empty |
| `LogAdmission.StepKeepsInv` | ex3/q1/xv6/log.c:126-233 | each admission, log_write test, log_write append, end_op and commit step keeps the budget invariant |
| `LogAdmission.SleeperIsWoken` | ex3/q1/xv6/log.c:129-140 | a begin_op sleeper always waits on a commit or a running operation whose end wakes everybody, at once or through the commit it starts |
| `LogAdmission.NoPanicExactly` | ex3/q1/xv6/log.c:213-219 | for all numbers of processes and all runs: operations within their budget that log each block once never hit "too big a transaction" if and only if the log has more than LOGSIZE blocks |
| `LogAdmission.AlwaysFitsExactly` | ex3/q1/xv6/log.c:213-233 | operations within their budget keep the logged blocks at most size - 1 in every reachable state if and only if the log has more than LOGSIZE blocks, or one |
| `LogAdmission.Overrun` | ex3/q1/xv6/log.c:218-231 | the run for any size from 2 to LOGSIZE: two processes pass the test for the last place and the log has size entries |
| `LogAdmission.AgainPanics` | ex3/q1/xv6/log.c:218-226 | no size keeps operations that log a block again from the panic |
| `LogAdmission.LargeWritersExactly` | ex3/q1/xv6/file.c:127-133 | operations that add more than MAXOPBLOCKS blocks are safe from the panic if and only if there is at most one such process and its blocks fit, with a place to spare if it logs one again |
| `Bio.UnlinkLinked` | ex3/q1/xv6/bio.c:132-133 | unsplicing a buffer leaves one circular list of the others with next and prev still inverse, all other fields untouched |
| `Bio.PushFrontLinked` | ex3/q1/xv6/bio.c:134-137 | splicing behind head gives one circular list with the buffer first |
| `Bio.RecycleIsTransparent` | ex3/q1/xv6/bio.c:81-91 | recycling a clean unheld buffer changes no block as seen by readers and keeps at most one buffer per key |
| `Bio.FillIsTransparent` | ex3/q1/xv6/bio.c:101-105 | filling a buffer from disk changes no block as seen by readers |
| `Bio.DataIsLocal` | ex3/q1/xv6/bio.c:95-106 | changing a held buffer changes the reading of its own block only |
| `Bio.WriteIsTransparent` | ex3/q1/xv6/memide.c:54-59 | writing a buffer out changes no reading |
| `Bio.BCache.constructor` | ex3/q1/xv6/bio.c:38-56 | the list built by binit is one circle of all buffers, all free, and every block reads as on disk |
| `Bio.BCache.FindCached` | ex3/q1/xv6/bio.c:68-76 | finds the buffer of a key if there is one |
| `Bio.BCache.FindFree` | ex3/q1/xv6/bio.c:81-82 | finds the least recently released buffer among those unheld and clean, if there is one |
| `Bio.BCache.Bget` | ex3/q1/xv6/bio.c:61-93 | returns the one buffer of the key, hit or recycled least-recently-released; fails exactly when the key is absent and no buffer is free; no reading changes |
| `Bio.BCache.Bread` | ex3/q1/xv6/bio.c:95-106 | the returned buffer holds the current contents of the block and no reading changes; none exactly when bget panics or the block is not one of the disk |
| `Bio.BCache.Bwrite` | ex3/q1/xv6/bio.c:109-116 | the disk block becomes the buffer contents in one transfer, and no reading changes |
| `Bio.BCache.Brelse` | ex3/q1/xv6/bio.c:120-141 | a last release moves the buffer to the front of the one circular list and makes it the most recently released; an earlier one changes no order |
| `Bitmap.BitAfter` | ex3/q1/xv6/fs.c:66-93 | setting or clearing bit i of a byte changes bit i and no other |
| `Bitmap.MarkedBits` | ex3/q1/xv6/fs.c:66-93 | the two bitmap updates change the bit of exactly one block number over the whole bitmap |
| `Bitmap.AllocatedBits` | ex3/q1/xv6/fs.c:57-78 | after balloc the bitmap has one bit more, and outside the bitmap only the new block changed, to zeros |
| `Bitmap.FreedBits` | ex3/q1/xv6/fs.c:81-96 | after bfree the bitmap has one bit less and nothing outside the bitmap changed |
| `Ownership.BitMeansOneOwner` | ex3/q1/xv6/fs.c:57-96 | under the invariant a data block bit is set exactly when some slot of some inode or indirect block names it, and then only one does |
| `Ownership.AllocInode` | ex3/q1/xv6/fs.c:379-389 | giving addrs[k] a free block keeps the ownership invariant |
| `Ownership.AllocEntry` | ex3/q1/xv6/fs.c:390-395 | giving an entry of the indirect block a free block keeps the ownership invariant |
| `Ownership.OwnFrame` | ex3/q1/xv6/fs.c:57-96 | ownership depends on the bitmap and the indirect blocks only: any other block write keeps it and every address |
| `Dinodes.DinodeWritten` | ex3/q1/xv6/fs.c:221-237 | an inode written to its place is read back, and no other inode on disk changes |
| `FileData.OtherContentSame` | ex3/q1/xv6/fs.c:374-512 | if nothing another inode names changed, that file keeps its contents and its exact mapping |
| `FileData.GrewMaps` | ex3/q1/xv6/fs.c:373-401 | bmap at the first unmapped block extends the mapping by exactly that block, keeps every byte before it and every other file |
| `FileData.DataWritten` | ex3/q1/xv6/fs.c:499-505 | new data in one mapped block changes the bytes of that block of that file only, and keeps ownership and mapping |
| `Truncate.FreeStep` | ex3/q1/xv6/fs.c:415-431 | the next slot itrunc comes to, if it names a block, names one still marked used, and clearing it advances the freed set by exactly that slot |
| `Truncate.TruncatedOwn` | ex3/q1/xv6/fs.c:408-436 | after all slots are freed the inode owns nothing, ownership holds for the rest, other files are untouched |
| `FileSteps.WriteStep` | ex3/q1/xv6/fs.c:499-505 | one pass of the write loop, mapped or newly allocated block, keeps the state of a partial write: exactly off0..off overwritten |
| `FileSteps.WriteDone` | ex3/q1/xv6/fs.c:507-510 | with the size set, the file is the old bytes with src spliced in at off, mapped exactly to its size |
| `FileSteps.SliceOfBlock` | ex3/q1/xv6/fs.c:470-475 | the part of a mapped block that readi copies is that slice of the file |
| `FileSteps.LogStep` | ex3/q1/xv6/fs.c:499-505 | each pass logs at most one data block and, only when it allocates, one bitmap block besides the indirect pair |
| `FileSteps.LogTotal` | ex3/q1/xv6/file.c:127-133 | a writei of at most 13 blocks of bytes, at any offset, logs at most 30 distinct blocks even with a different bitmap block per allocation, and at most 17 when one bitmap block covers the disk |
| `BlockCounts.BlocksNext` | ex3/q1/xv6/mkfs.c:271-286 | the blocks a file takes grow with the next part by exactly what the part's first byte lacks |
| `BlockCounts.LackingGrows` | ex3/q1/xv6/fs.c:373-401 | in a file mapped exactly to its end, what bmap lacks for the next part is what the file takes more |
| `Moves.MoveKeepsOwner` | ex3/q1/xv6/fs.c:56-96 | a block given to a slot or an entry, data put into a file's block, fields set, an inode written to its place, an inode emptied and its blocks freed, each with only the code's tests: from one owner for each block named, and a bitmap that agrees, to the same |
| `Moves.RunKeepsOwns` | ex3/q1/xv6/fs.c:373-512 | whatever moves are made in whatever order, each block named keeps having one owner and the bitmap agrees |
| `Spending.PassSpends` | ex3/q1/xv6/fs.c:499-505 | one pass of the write loop is a run of moves that takes exactly the blocks the file grows by |
| `Spending.TruncationReaches` | ex3/q1/xv6/fs.c:408-436 | itrunc with its iupdate is a run of moves |
| `Fs.FileSys.Mount` | ex3/q1/xv6/fs.c:290-315 | the inodes in memory are those on the disk, and the state is in order if and only if the disk holds a file system |
| `Fs.FileSys.Balloc` | ex3/q1/xv6/fs.c:56-78 | returns the lowest free block, which was free, zeroed and marked; panics only when every bit is set; logs exactly the bitmap block and the new block |
| `Fs.FileSys.Bfree` | ex3/q1/xv6/fs.c:81-96 | panics exactly when the bit is clear, else clears exactly that bit |
| `Fs.FileSys.Iupdate` | ex3/q1/xv6/fs.c:221-237 | the inode on disk becomes the one in memory, other inodes, ownership and addresses stay |
| `Fs.FileSys.Bmap` | ex3/q1/xv6/fs.c:373-401 | a mapped block is returned with nothing changed or logged; an unmapped one gets a fresh zeroed data block in that slot, ownership kept, every other address and all data kept; panics exactly out of range or when fewer blocks are free than it lacks |
| `Fs.FileSys.Itrunc` | ex3/q1/xv6/fs.c:408-436 | bfree never panics in it; the bits cleared are exactly those of the blocks the inode owned; inode empty and on disk; other files and inodes untouched; it is a run of moves |
| `Fs.FileSys.Readi` | ex3/q1/xv6/fs.c:453-477 | -1 exactly past the end or on 32-bit wrap; else the slice of the file cut at its end; nothing allocated, nothing changed |
| `Fs.FileSys.Writei` | ex3/q1/xv6/fs.c:482-512 | -1 exactly past the end, on wrap or beyond the largest file; else exactly off..off+n replaced, file extended if need be, mapping exact, other files untouched, on-disk inode still equal to the in-memory one although written only on growth; at most 30 blocks logged for a piece of filewrite, 17 with one bitmap block; it is a run of moves that takes exactly the blocks the file grows by, and panics exactly when fewer are free |
| `Files.Stopped` | ex3/q1/xv6/file.c:133-153 | where filewrite stops when the file cannot grow: after the whole pieces that fit |
| `Files.WroteTwice` | ex3/q1/xv6/file.c:134-152 | a write and a write behind it are one write of both |
| `Files.File.Read` | ex3/q1/xv6/file.c:95-111 | returns the slice at the offset and advances by what was read |
| `Files.File.Write` | ex3/q1/xv6/file.c:117-156 | the pieces concatenate to one write; each transaction fits the log; the offset moves by exactly the bytes accepted; the result is n if all were, else -1 with the whole pieces that fit written; it panics exactly when the file would grow by more blocks than are free |
| `Durable.RecoveryExactly` | ex3/q1/xv6/log.c:115-122 | recovery after a crash at any moment of any run leaves a disk whose inodes, bitmap and blocks agree if and only if the contents at the last commit did |
| `Durable.WriteIsRun` | ex3/q1/xv6/fs.c:482-512 | a writei, from a state with every inode on disk, is a run of moves that leaves every inode on disk again |
| `Durable.TruncIsRun` | ex3/q1/xv6/fs.c:408-436 | and so is an itrunc |
| `Durable.RecoveryLeavesFs` | ex3/q1/xv6/log.c:69-202 | after any run in which only runs of moves change the contents between commits, with any crashes, on such a log, from any file system: a recovery leaves a disk on which every block named by the inodes on it has one owner and the bitmap agrees |
| `Drafts.FirstBitsMean` | ex3/q1/xv6/mkfs.c:237-251 | the bitmap block built bit by bit has exactly the first n bits set |
| `Drafts.CountUp` | ex3/q1/xv6/mkfs.c:272-282 | seen through the bitmap written at the end, taking freeblock++ is an allocation of a free zeroed block |
| `Drafts.EmptyOwn` | ex3/q1/xv6/mkfs.c:110-119 | the blank image with the metadata marked has no owned block |
| `Drafts.RoundedMapped` | ex3/q1/xv6/mkfs.c:158-163 | the rounded root directory is mapped exactly to its size if and only if its size was not already a multiple of BSIZE |
| `Drafts.TailStep` | ex3/q1/xv6/mkfs.c:288-292 | one pass of an append leaves the rest of the last block zero |
| `Mkfs.Image.Map` | ex3/q1/xv6/mkfs.c:271-286 | iappend gives an unmapped block the next free blocks, in the order indirect block, data block; it gives up exactly when those are more than are left |
| `Mkfs.Image.Iappend` | ex3/q1/xv6/mkfs.c:255-297 | appends exactly the given bytes to the file, other files and inodes untouched, inode on disk; it gives up exactly when the file would grow beyond the largest or its blocks are more than are left |
| `Mkfs.Image.Ialloc` | ex3/q1/xv6/mkfs.c:223-235 | the next inode is empty and of the type, every file built so far stays |
| `Mkfs.Image.Finish` | ex3/q1/xv6/mkfs.c:158-165 | root size rounded, bitmap on disk says exactly which blocks are metadata or owned, root fit for the kernel iff its size was not a multiple of BSIZE |
| `Mkfs.Build` | ex3/q1/xv6/mkfs.c:67-168 | the finished image: ownership and bitmap agree, every inode is on disk, file k is a file with one link in inode 2+k with exactly its bytes, the root is a directory with the entries and zeros behind them; the superblock is in block 1, boot block and log are zero; given up exactly when the files do not fit |
| `Mkfs.BuildAndMount` | ex3/q1/xv6/mkfs.c:67-168 | the state the kernel starts from, with the layout read from the image's superblock, satisfies the file layer invariant, with the same promises, and every file is a regular one; given up exactly when the files do not fit |
| `Boot.RootIsDir` | ex3/q1/xv6/mkfs.c:120-163 | the root of the image is a directory as the kernel wants it if and only if its links fill no whole number of blocks and differ in their first 14 bytes |
| `Boot.RootMaps` | ex3/q1/xv6/mkfs.c:120-150 | it then maps each link to its inode and nothing else |
| `Boot.TreeOfImage` | ex3/q1/xv6/mkfs.c:67-168 | the whole tree is in order under exactly that condition |
| `Boot.FileIsFound` | ex3/q1/xv6/mkfs.c:130-156 | the path of a file's name then leads to its inode, which holds its bytes |
| `Boot.BuildAndFind` | ex3/q1/xv6/mkfs.c:67-168 | from an empty disk: built from mkfs's arguments, mounted, and a slash with a file's name walked from any directory, the answer is the inode that holds its bytes |
| `FirstBoot.OneArea` | ex3/q1/xv6/fs.h:8-24 | every block of the image is boot block, superblock, log, inode, bitmap or data block, and only one of them |
| `FirstBoot.PlacesAreInAreas` | ex3/q1/xv6/fs.h:41-48 | every inode's block is an inode block, every bitmap bit's block a bitmap block, and the log's blocks are just those recovery does not take for home blocks |
| `FirstBoot.FoundAtBoot` | ex3/q1/xv6/mkfs.c:92-115 | the superblock on the image gives the layout and the log's place, and the log is empty: a recovery changes no byte of the image |
| `FirstBoot.BuildAndRecover` | ex3/q1/xv6/log.c:54-66 | mkfs and the boot-time recovery: the log lies before the inodes, the image is a file system and recovery leaves it as built; given up exactly when the files do not fit |
| `FirstBoot.EveryRunFromImage` | ex3/q1/xv6/log.c:54-66 | from a built image on, every run of moves under transactions with any crashes, on a log that cannot be overrun, leaves a file system after recovery: nothing about the layout is assumed |
| `Names.Namecmp` | ex3/q1/xv6/fs.c:517-521 | no difference within 14 bytes exactly when the two strings stand for the same name |
| `Names.PaddedCut` | ex3/q1/xv6/fs.c:573-574 | a name padded by strncpy stands for the same name |
| `Names.PartsAreClean` | ex3/q1/xv6/fs.c:583-619 | every part of a path is non-empty and free of slashes |
| `Names.JoinedParts` | ex3/q1/xv6/fs.c:583-619 | parts joined with slashes split back into the same parts |
| `Names.PartsJoin` | ex3/q1/xv6/fs.c:583-619 | a slash between two paths, whatever slashes are in them, joins their parts |
| `Names.Skipelem` | ex3/q1/xv6/fs.c:596-619 | takes the first part, cut to 14 bytes, and leaves the position of the rest; none exactly when there are no parts; at the end of the string exactly after the last |
| `Directories.DirIs` | ex3/q1/xv6/fs.c:525-549 | the map of a directory is the one map that holds exactly its live entries |
| `Directories.EntryAdded` | ex3/q1/xv6/fs.c:565-576 | an entry written in a free place keeps names distinct and is an insertion, or nothing when the inode number is 0 in 16 bits |
| `Directories.EntryCleared` | ex3/q1/xv6/sysfile.c:219-221 | clearing a live entry keeps names distinct and removes exactly that name |
| `Paths.Dirlookup` | ex3/q1/xv6/fs.c:525-549 | finds a name exactly when the map has it, with the map value and the offset of the live entry |
| `Paths.Dirlink` | ex3/q1/xv6/fs.c:552-579 | -1 exactly when the name is present, unchanged; else the map with the name inserted (unless the number is 0 in 16 bits), other files untouched, the tree kept if the inode is in use; panics exactly when the name is new, no entry is free, and there is no room for one more |
| `Paths.ClearEntry` | ex3/q1/xv6/sysfile.c:219-221 | the map without the name, other files untouched, the tree kept; writei never panics or falls short in it |
| `Trees.ParentThenLast` | ex3/q1/xv6/fs.c:641-645 | nameiparent ends where the path without its last part leads, if that is a directory, and namei ends at what that directory holds under the last part |
| `Trees.WroteKeepsTree` | ex3/q1/xv6/fs.c:482-512 | a write to something else than a directory keeps the tree |
| `Trees.TruncatedKeepsTree` | ex3/q1/xv6/fs.c:408-436 | a truncation keeps it, of a directory too |
| `Trees.LinkKeepsTree` | ex3/q1/xv6/fs.c:552-579 | one entry more that leads to an inode in use, or one fewer, keeps it |
| `Paths.WhereWalksBegin` | ex3/q1/xv6/fs.c:630-633 | a path that begins with a slash leads to the same inode from every directory, the slash alone to the root, the empty path to the working directory |
| `Paths.FromRoot` | ex3/q1/xv6/fs.c:630-633 | a path behind a slash leads where it leads from the root |
| `Paths.ThroughDirectory` | ex3/q1/xv6/fs.c:635-652 | a relative path behind a front path and a slash leads where it leads from where the front leads |
| `Paths.OneName` | ex3/q1/xv6/fs.c:637-650 | a single name leads to what the directory holds under it, none if it is no directory or has no such name, and its parent is the directory |
| `Paths.ParentOf` | ex3/q1/xv6/fs.c:641-645 | the parent of front/name is where the front leads, if that is a directory |
| `Paths.Namex` | ex3/q1/xv6/fs.c:625-658 | the inode the path leads to, one level early with the last part for nameiparent: the answer of Paths.Namei, which the five rows above determine |
| `Sem.StepKeepsInv` | ex3/q1/xv6/sem.c:67-129 | each step at the grain of sslock and ptable.lock keeps the no-lost-wakeup invariant |
| `Sem.NoLostWakeup` | ex3/q1/xv6/proc.c:430-486 | with init >= 0, for any number of processes and any calls and kills: sslock free and a process asleep on the semaphore imply count 0 |
| `Sem.NegativeInitLoses` | ex3/q1/xv6/sem.c:109-122 | a run of two processes that loses a wakeup when the initial count is negative |
| `Sem.NeverLostExactly` | ex3/q1/xv6/sem.c:67-129 | wakeups are never lost in any run if and only if the initial count is at least 0 |
| `Sem.CountIsConserved` | ex3/q1/xv6/sem.c:67-107 | without resets count = init + accepted posts - successful waits and stays in 0..maxVal |
| `Sem.SectionEffects` | ex3/q1/xv6/sem.c:67-129 | in any step a wait or try takes one exactly when the count is above 0, a post puts one in exactly below the maximum, a reset sets count or maximum to what it was told, and nothing else changes them |
| `Sem.WhoSleepsWhoWakes` | ex3/q1/xv6/sem.c:67-122 | a wait sleeps exactly at count 0 when not killed; a wakeup is called exactly when the count leaves 0 |
| `Sem.ResetAlone` | ex3/q1/xv6/sem.c:109-129 | a sem_reset that is let through leaves count and maxVal as asked, maxVal never lower, and has woken everybody asleep if the count was 0 and is not |
| `Sem.MaxOverRun` | ex3/q1/xv6/sem.c:109-129 | over runs in which only the owner resets, maxVal never falls |
| `Gate.StepKeepsInv` | ex3/q1/xv6/sem.c:23-65 | each step of sem_open, semdup, sem_close and sem_unlink at the grain of gslock and ptable.lock keeps: ref counts the references, and who sleeps in sem_unlink has left its mark and has an open reference or a coming wakeup to wait for |
| `Gate.GateOpens` | ex3/q1/xv6/sem.c:59-65 | for any number of processes and any calls and kills, as long as the slot is created only while unlinked with nobody inside sem_unlink: gslock free and a process asleep in sem_unlink imply ref > 0 |
| `Gate.SomeoneCanStep` | ex3/q1/xv6/sem.c:130-153 | while a process is in a call and not asleep, one of them can go on: the two locks never block for good |
| `Gate.SecondOpenLoses` | ex3/q1/xv6/sem.c:42-54 | a run of two processes that creates the slot twice and leaves one asleep with nothing open |
| `Gate.NeverLostExactly` | ex3/q1/xv6/sem.c:30-65 | with at most k creations of the slot no wakeup at the gate is ever lost if and only if k <= 1 |
| `Pc.StepKeepsInv` | ex3/q1/xv6/pc.c:20-69 | every step of parent and children keeps the protocol invariant |
| `Pc.Safety` | ex3/q1/xv6/pc.c:20-69 | in every reachable state no child is past the gate before the parent closes it, at most one process is between wait and post of write, the slots add up to MAX_MSG, and no post is refused |
| `Pc.ChildCanStep` | ex3/q1/xv6/pc.c:30-54 | while some child is neither a zombie nor reaped the children cannot all be stuck |
| `Pc.Progress` | ex3/q1/xv6/pc.c:57-68 | no reachable unfinished state is stuck; that a call that cannot take effect sleeps, and only then, is PcLocks.GateBlocked and SemBlocked |
| `Pc.StepDecreases` | ex3/q1/xv6/pc.c:30-69 | every step lowers a measure known at the start |
| `Pc.EveryRunFinishes` | ex3/q1/xv6/pc.c:20-69 | every run is bounded and ends with exactly prodNum * msgNumPerProd items made and consumed and every child reaped |
| `PcLocks.GateBlocked` | ex3/q1/xv6/sem.c:59-65 | a child asleep at the gate with gslock free is one whose step of Pc is blocked: waitc is still open |
| `PcLocks.SemBlocked` | ex3/q1/xv6/sem.c:67-83 | a child asleep on a semaphore with its lock free is one whose step of Pc is blocked: the count is 0 |
| `PcLocks.StepKeepsInv` | ex3/q1/xv6/sem.c:23-153 | every step of the program run on the gate and the four semaphores lock by lock keeps their invariants, and their counts are those of Pc |
| `PcLocks.OpenedIsReached` | ex3/q1/xv6/sem.c:30-57 | waitc as the program starts with it is the gate after the parent's sem_open |
| `PcLocks.RunRefines` | ex3/q1/xv6/pc.c:20-69 | every run on the locks is a run of Pc with waiting in between |
| `PcLocks.SomeoneSteps` | ex3/q1/xv6/proc.c:430-486 | while the program is not done somebody can take a step, whoever is asleep |
| `PcLocks.EveryRunFinishes` | ex3/q1/xv6/pc.c:20-69 | every run on the locks is bounded and, when it can go no further, has made and consumed exactly prodNum * msgNumPerProd items and reaped every child |
| `Proc.ExitKeepsInv` | ex3/q1/xv6/proc.c:262-278 | exit keeps the invariant: children get a live parent with a smaller pid and nobody who gains a zombie child stays asleep in wait |
| `Proc.NoNewZombie` | ex3/q1/xv6/proc.c:264-274 | a process still asleep in wait after an exit has no zombie child |
| `Proc.ReapKeepsInv` | ex3/q1/xv6/proc.c:295-312 | wait returns a pid it has never returned before and keeps the invariant |
| `Proc.AllocKeepsInv` | ex3/q1/xv6/proc.c:79-92 | taking a slot for a child keeps the invariant |
| `Proc.ForkLinksKeepsInv` | ex3/q1/xv6/proc.c:200-200 | the unlocked write of the parent pointer keeps the invariant |
| `Proc.StepKeepsInv` | ex3/q1/xv6/proc.c:181-324 | every step of fork, exit, wait, kill, sleep and wakeup keeps the invariant |
| `Proc.RunKeepsInv` | ex3/q1/xv6/proc.c:181-324 | in every state of every run with any number of slots: each live or zombie process but init has a live parent with a smaller pid, and no process asleep in wait has a zombie child |
| `Proc.ReturnedOnce` | ex3/q1/xv6/proc.c:299-311 | two different waits never return the same pid, and what they return is a zombie |
| `Proc.AncestorIsInit` | ex3/q1/xv6/proc.c:200-275 | from any process the parent pointers lead to init with strictly falling pids, so there is no cycle |
| `ProcFrame.StepFrame` | ex3/q1/xv6/proc.c:73-509 | a step gives or takes a pid only by allocproc and wait, marks killed only by kill, unmarks only by wait, and changes a parent only by fork, exit and wait |
| `ProcFrame.SleeperWakes` | ex3/q1/xv6/proc.c:456-509 | a sleeper becomes runnable exactly by a kill of it or a wakeup on its channel |
| `ProcFrame.StateDiagram` | ex3/q1/xv6/proc.c:73-509 | a slot changes state only along the state diagram, by the step that belongs to the arrow |
| `ProcFrame.MarkedExactly` | ex3/q1/xv6/proc.c:299-309 | over whole runs a slot is marked killed exactly when a kill has hit it since it was last emptied |
| `ProcFrame.MarkedSinceTaken` | ex3/q1/xv6/proc.c:491-509 | over whole runs a process keeps its pid and is marked killed exactly when a kill has named that pid since its slot was taken, or the slot was marked before |
| `ProcFrame.BornMarked` | ex3/q1/xv6/proc.c:491-509 | the input: kill(0) before the first fork, and the child is born marked |
| `ProcTable.ProcTable.Wakeup1` | ex3/q1/xv6/proc.c:470-477 | exactly the processes asleep on the channel become runnable |
| `ProcTable.ProcTable.Allocproc` | ex3/q1/xv6/proc.c:79-92 | the first unused slot with the next pid, none exactly when all are used |
| `ProcTable.ProcTable.Exit` | ex3/q1/xv6/proc.c:262-278 | the loops leave the table of the exit step: nobody's pid, channel or killed mark changes, exactly the children of the process go to init, it becomes a zombie, and exactly the sleepers on its parent, or on init if it hands over a zombie, become runnable |
| `ProcTable.ProcTable.Wait` | ex3/q1/xv6/proc.c:291-323 | returns the first zombie child and frees its slot, or refuses without children or when killed, or sleeps only with children and no zombie among them |
| `ProcTable.ProcTable.Kill` | ex3/q1/xv6/proc.c:492-509 | marks and wakes the first slot with the pid, -1 exactly when no slot has it |
| `Umalloc.FreeOrdered` | ex3/q1/xv6/umalloc.c:30-42 | after a free the list is in address order with no two blocks overlapping or touching |
| `Umalloc.FreeCovers` | ex3/q1/xv6/umalloc.c:30-42 | exactly the bytes of the block become free |
| `Umalloc.FreeRing` | ex3/q1/xv6/umalloc.c:33-42 | the assignments of free thread the headers into one cycle through the new list |
| `Umalloc.StopsAtPlace` | ex3/q1/xv6/umalloc.c:30-32 | the exit tests of the search hold at exactly one block, the one in front of the gap |
| `Umalloc.FreeSplit` | ex3/q1/xv6/umalloc.c:25-44 | after a free, free and live blocks are apart and hold exactly the granted bytes |
| `Umalloc.TakeCovers` | ex3/q1/xv6/umalloc.c:75-82 | taking units from the end of a block makes exactly those bytes not free |
| `Umalloc.TakeSplit` | ex3/q1/xv6/umalloc.c:75-84 | after a malloc the new block is apart from all free and live ones and together they hold exactly the granted bytes |
| `Umalloc.FreeUnits` | ex3/q1/xv6/umalloc.c:33-42 | whatever merges happen, the units in the list grow by exactly those of the block |
| `Umalloc.FreedOk` | ex3/q1/xv6/umalloc.c:24-44 | after a free: one address-ordered cycle with the base, nothing touching, free and live blocks apart, and free units + live units = units granted |
| `Umalloc.TakenOk` | ex3/q1/xv6/umalloc.c:75-84 | unlinking or splitting keeps the whole invariant, free units + live units = units granted included |
| `Umalloc.WentRound` | ex3/q1/xv6/umalloc.c:86-87 | back at freep with a block that is too small, no block of the list is large enough |
| `Umalloc.LargeEnough` | ex3/q1/xv6/umalloc.c:69-69 | the units of a request hold its bytes if and only if the rounding does not wrap, and then with less than one unit to spare; if it wraps they are one |
| `Umalloc.Heap.Search` | ex3/q1/xv6/umalloc.c:30-32 | the circular search ends, at the last block before the one to be freed |
| `Umalloc.Heap.Free` | ex3/q1/xv6/umalloc.c:24-44 | the block leaves the live set, its bytes and no others become free, the invariant holds |
| `Umalloc.Heap.Morecore` | ex3/q1/xv6/umalloc.c:46-61 | at least 4096 units from sbrk join the list as one block large enough, live blocks untouched |
| `Umalloc.Heap.FirstFit` | ex3/q1/xv6/umalloc.c:74-89 | the circular search ends, at a block that is large enough exactly when the list has one |
| `Umalloc.Heap.Malloc` | ex3/q1/xv6/umalloc.c:63-90 | terminates; a new live block of exactly the units asked for, apart from all others; 0 exactly when no block was large enough and sbrk fails; sbrk is asked exactly when no block was large enough |
| `PageTables.NewTable` | ex3/q1/xv6/vm.c:45-52 | a new page table keeps frame ownership |
| `PageTables.LeafDecides` | ex3/q1/xv6/vm.c:48-52 | what user code may do with a mapped page is what the page's own entry says: every directory entry present is open and writable |
| `PageTables.EntryLookup` | ex3/q1/xv6/vm.c:41-54 | writing one entry of one table changes the mapping of one page |
| `PageTables.TableAdded` | ex3/q1/xv6/vm.c:44-53 | walkpgdir with alloc changes no mapping and no user page and loses no frame |
| `PageTables.LeafIsAdded` | ex3/q1/xv6/vm.c:73-73 | mapping a frame at a page adds that page only; a user page's frame is then held |
| `PageTables.DropLeaf` | ex3/q1/xv6/vm.c:269-276 | unmapping a page and freeing its frame changes that page only and holds the same frames |
| `Vm.GrownMore` | ex3/q1/xv6/vm.c:233-247 | each page allocuvm adds is new, zeroed and distinct from all others |
| `Vm.GrownUndone` | ex3/q1/xv6/vm.c:235-246 | deallocuvm over what had been grown restores every mapping and page |
| `Vm.ClearedToo` | ex3/q1/xv6/vm.c:267-268 | where there is no table the skipped 4MB hold no mapped page |
| `Vm.Machine.Walkpgdir` | ex3/q1/xv6/vm.c:35-55 | the table of the page, created zeroed on demand; 0 exactly when absent and not to be or not able to be created |
| `Vm.Machine.Mappages` | ex3/q1/xv6/vm.c:60-80 | maps exactly the pages to consecutive frames, user pages too, or stops at a mapped page or without memory for a table with exactly the earlier ones mapped; user code reaches them through both levels exactly when the permission says so |
| `Vm.Machine.Setupkvm` | ex3/q1/xv6/vm.c:118-136 | exactly the kernel map if there are frames for the directory and for every table the map takes, else every frame returned; frames outside the pool keep their contents |
| `Vm.Machine.Allocuvm` | ex3/q1/xv6/vm.c:221-249 | over unmapped pages: exactly PGROUNDUP(old)..new added as distinct zeroed user frames that user code can write through both levels, if the free list is as long as the pages and the tables missing, else the mapping as it was and every leaf frame back; other frames keep their contents |
| `Vm.Machine.Deallocuvm` | ex3/q1/xv6/vm.c:255-279 | terminates; same effect as unmapping page by page; frames neither lost nor freed twice, the others with their contents |
| `Vm.Machine.Freevm` | ex3/q1/xv6/vm.c:283-298 | every user frame, table and the directory are back on the free list, each once; other frames keep their contents |
| `Vm.Machine.Copyout` | ex3/q1/xv6/vm.c:363-384 | exactly the bytes are copied across pages, nothing else changes; succeeds exactly when user code may use every page touched, so with PTE_W and PTE_U on all and not with PTE_W alone on one; -1 stops at the first that it may not use |
| `Vm.Machine.Clearpteu` | ex3/q1/xv6/vm.c:302-311 | user code may no longer use the page and nothing else changes; panics exactly without a table |
| `Vm.Machine.MakeStack` | ex3/q1/xv6/exec.c:63-69 | exec's stack: two new pages of which user code can use just the second; 0 exactly without room below KERNBASE or without frames |
| `Vm.Machine.PushString` | ex3/q1/xv6/exec.c:72-78 | a string is pushed in full exactly when it stays on the stack page, and the page in front is never written |
| `CopyVm.CopyEnds` | ex3/q1/xv6/vm.c:314-342 | the three ends of the copy decided by the number of free frames alone |
| `CopyVm.Copyuvm` | ex3/q1/xv6/vm.c:314-342 | the child has the parent's bytes and permissions page by page in frames of its own, and the kernel's map, exactly when the frames suffice; else all frames are back but one, lost exactly when the last free frame went to a page whose table then had none; the parent is as it was |
| `Vm.Machine.Kalloc` | ex3/q1/xv6/kalloc.c:82-95 | the head of the free list, none exactly when it is empty |
| `Vm.Machine.Kfree` | ex3/q1/xv6/kalloc.c:59-77 | pushes the frame; panics exactly outside the pool |
| `Vm.Machine.Freerange` | ex3/q1/xv6/kalloc.c:46-53 | exactly the whole pages of the range join the pool, each once |
| `ShellForms.ScriptBack` | ex3/q1/xv6/sh.c:344-446 | a line written as any script of jobs, chains and parts, with words and redirections in any order and parentheses or none, parses to what it means and parsing stops right behind it |
| `ShellForms.ScriptForm` | ex3/q1/xv6/sh.c:344-446 | whatever the parser reads as a line is the tokens of such a script |
| `ShellForms.AcceptsForms` | ex3/q1/xv6/sh.c:327-342 | token sequences are accepted whole if and only if they are those of a script, and then give what it means |
| `ShellForms.OneItemMore` | ex3/q1/xv6/sh.c:374-446 | a word behind a simple command becomes its last argument, a redirection behind it the outermost one |
| `ShellForms.Operators` | ex3/q1/xv6/sh.c:344-413 | a bar, a semicolon, an ampersand and parentheses make Pipe, List, Back and nothing of what their sides are on their own, bars and semicolons to the right |
| `ShellForms.FormMeans` | ex3/q1/xv6/sh.c:344-446 | every tree with fewer than MAXARGS words per command is what some script means |
| `ShellForms.ShowBack` | ex3/q1/xv6/sh.c:344-446 | a printed command followed by the end or a closing parenthesis parses to that command and parsing stops right behind it |
| `ShellGrammar.MapLine` | ex3/q1/xv6/sh.c:344-446 | the parser does not look into words: renaming words renames the result |
| `Shell.LexSkips` | ex3/q1/xv6/sh.c:272-304 | leading white space changes no token |
| `Shell.ReadBack` | ex3/q1/xv6/sh.c:265-308 | tokens written with any white space between them, none where they cannot run together, are read back |
| `Shell.WrittenBack` | ex3/q1/xv6/sh.c:265-308 | every text is its tokens written with the white space in it |
| `Shell.AcceptsLines` | ex3/q1/xv6/sh.c:327-342 | the texts accepted are exactly the scripts written with such white space, and give what they mean |
| `Shell.ParsedWords` | ex3/q1/xv6/sh.c:265-308 | every word span in a parse result is a maximal word of the text |
| `Shell.WordsAreStrings` | ex3/q1/xv6/sh.c:449-493 | with a zero behind every word, the C string at the start of each word is exactly that word |
| `Shell.RoundTrip` | ex3/q1/xv6/sh.c:327-446 | for every command tree with fewer than MAXARGS words per command, parsing its printed form, with any white space, consumes it all and gives the same tree with the same words |
| `Shell.Parser.Gettoken` | ex3/q1/xv6/sh.c:265-308 | takes one token off the front with its code and span, and 0 at the end |
| `Shell.Parser.Peek` | ex3/q1/xv6/sh.c:310-320 | tells the next symbol without taking it |
| `Shell.Parser.Parseredirs` | ex3/q1/xv6/sh.c:374-397 | the redirections that come next in order, a panic exactly on a missing file |
| `Shell.Parser.Parseexec` | ex3/q1/xv6/sh.c:415-446 | as the grammar: words and redirections in any order, panic at MAXARGS words |
| `Shell.Parser.Parseblock` | ex3/q1/xv6/sh.c:399-413 | as the grammar |
| `Shell.Parser.Parsepipe` | ex3/q1/xv6/sh.c:361-372 | as the grammar, right-associated |
| `Shell.Parser.Parseline` | ex3/q1/xv6/sh.c:344-359 | as the grammar, with any number of ampersands before the semicolon |
| `Shell.Nulterminate` | ex3/q1/xv6/sh.c:449-493 | a zero behind every word of the tree and no other byte changed |
| `Shell.Parsecmd` | ex3/q1/xv6/sh.c:327-342 | a tree exactly when the text is a script written with white space where it must be, else a panic; its words, read as C strings in the buffer, make it the tree the script means |
| `Pipe.SlotOfCounter` | ex3/q1/xv6/pipe.c:93-93 | the slot of a counter survives its wrap because PIPESIZE divides 2^32 |
| `Pipe.CountersDecide` | ex3/q1/xv6/pipe.c:85-114 | the tests on wrapped counters decide full and empty exactly and their difference is the number of bytes held |
| `Pipe.Pipe.Write` | ex3/q1/xv6/pipe.c:79-98 | stores exactly the bytes there is room for, in order; returns, sleeps or fails exactly by the room, the read end and a kill; from a state without a lost wakeup it loses one if and only if the writer was killed, a reader sleeps, and there is more to write than the pipe holds |
| `Pipe.MissedWakeup` | ex3/q1/xv6/pipe.c:85-97 | the input: a reader asleep and a killed writer with one byte more than the pipe holds leave the pipe full, both ends open, and the reader asleep |
| `Pipe.Pipe.Read` | ex3/q1/xv6/pipe.c:101-121 | delivers the oldest bytes in order, what there is up to n; sleeps or fails exactly when empty with the write end open; wakes writers; loses no wakeup |
| `Pipe.Pipe.Close` | ex3/q1/xv6/pipe.c:60-75 | closes one end, wakes the other side, frees exactly when both are closed; loses no wakeup |
| `Pipe.Pipe.Kill` | ex3/q1/xv6/proc.c:492-509 | a process killed in the pipe sleeps no more, and no wakeup is lost |
| `Grep.Match` | ex3/q1/xv6/grep.c:73-82 | true exactly when some suffix (the whole text under ^) has a prefix in the language of the expression |
| `Grep.MatchHere` | ex3/q1/xv6/grep.c:85-96 | true exactly when the text has a prefix in the language of the expression; terminates |
| `Grep.MatchStar` | ex3/q1/xv6/grep.c:99-106 | true exactly when the text has a prefix of any number of matching characters followed by one in the language |
| `Grep.StarMatches` | ex3/q1/xv6/grep.c:99-106 | the text has a prefix in the language of c* and a rest exactly when a run of characters that fit c is followed by a prefix in the language of the rest |
| `Grep.SingleMatches` | ex3/q1/xv6/grep.c:93-94 | a plain character matches one character and the rest matches the rest |

## Left out

- Umalloc.Heap.Malloc: an sbrk that succeeds is taken to have been asked for less than 2^31 bytes, because it takes a signed int and would otherwise shrink the heap; and the contents of user memory, so a program that overwrites a header is outside the model.
- Fs.FileSys.Writei: a panic for lack of blocks is a result without a state, because the machine stops there; device files are handed to drivers that are not part of this model.
- Durable.RecoveryLeavesFs: an inode's type and link count are fields that a move sets; the kernel's ialloc, which picks the inode, is not part of this model.
- Mkfs.Image.Iappend: gives up where the blocks left run out, in the image or in its one bitmap block; the program itself writes on past the end of the image and notices at most in balloc's assertion.
- Mkfs.Image.Ialloc: takes for granted that inodes are left, which the program does not look at.
- Paths.Namex: an inode cache without free entries (a panic in iget), and link counts; that directories lead to inodes in use is what Boot establishes and Trees keeps, for inodes that are not freed.
- Vm.Machine.Copyout: takes for granted the page tables uva2ka takes for granted, and addresses below KERNBASE.
- Shell.Parser.Parseexec: the exec node is built when its words are known; the program fills it in after redirections have been wrapped round it, which no reader can tell.
- Log.Log.Commit: one kernel thread, in which acquiring a sleep-lock always succeeds at once; LogMachine has the interleaving and the locks.
- Proc.RunKeepsInv: begins with init alone in the table, runnable; loading its code is not part of the model.
- CopyVm.Copyuvm: takes for granted that the parent's pages up to its size are present, as its two panics do.
- FirstBoot.EveryRunFromImage: the log size is the caller's; with the one mkfs is built with the log can be overrun, as LogOverrun.CrashAtomicExactly says.
- growproc; loaduvm; inituvm; the reading of the program and the registers in exec.
- Gate.GateOpens: one slot and one name; what sem_open does when it takes another slot does not touch this one.
- PcLocks.EveryRunFinishes: sem_close and sem_unlink of buffa, buffb, total and write at the end, and in exit, are the program's own steps; only waitc goes through Gate. Nobody is killed.
- begin_op and end_op inside the class Log; LogAdmission models them as a machine of their own.
- The inode cache with its reference counts, iput's freeing of an inode, link counts, ialloc in the kernel, stat.
- File descriptors, the fork and exit loops over open files and semaphores, the rest of exec, traps, the scheduler's choice.
- Spinlock internals: a held spinlock is an atomic step; only sslock, gslock and ptable.lock are separate steps, in Sem, Gate and PcLocks.
- Overflow of process ids and of the counters of semaphores.
- The disk driver: a block transfer is one atomic synchronous step, as in the in-memory disk.
- grep's line buffer, the console, printing, user utilities, boot code and the polygon programs.
