# A verified model of the xv6 kernel core, its shell parser and merge_files

A Dafny model of the parts of this repository with the most state: the write-ahead log, the
buffer cache, the block-mapped file system, virtual memory with demand paging, the process
table with its two run queues, pipes, the user-space allocator, the shell parser, and the
buffered line merger in `syscalls/`. Code that updates things in place is modelled by classes
and loops; protocols with interleavings or crashes are also modelled as state machines, and the
methods are proved to take steps of those machines. `dafny verify dfyconfig.toml` checks the
whole project.

## Main results

- **Log.** For every run of operations, commits, recoveries and crashes between any two
  single-block disk writes in which the log stays within its region, recovery leaves exactly the
  image made by the groups committed so far (`LogRuns.CrashAtomicity`) and every read gets what was
  last logged (`LogRuns.ReadsSeeLastLogged`); in all runs, no operation is split between a lost and
  a kept part (`LogRuns.OperationsAreAtomic`). The log stays within its region if every operation
  keeps to a budget that fits (`LogBudget.BudgetContains`). With the log that mkfs makes, crash
  atomicity holds in all runs if and only if every operation leaves a block of its MAXOPBLOCKS
  unused (`LogSpill.CrashAtomicIff`). The methods of `Journal.Log` trace runs within the region.
- **Reservation.** In every interleaving, and with no help from the test of `log_write`, what
  `begin_op` reserves keeps the header array from overflowing, exactly for budgets up to
  MAXOPBLOCKS; a commit runs alone and nobody sleeps in `begin_op` without a reason; the panic
  "too big a transaction" is reachable, and so is a log that outgrows its region in spite of the
  test, if and only if operations may use their whole budget (`LogReservation`).
- **Buffer cache.** One buffer per block, and the victim is the least recently released clean
  unreferenced buffer, although the code only walks a linked ring (`BufferCache.BCache`); it is
  missing exactly when the pinned blocks and those in the hands of processes are NBUF
  (`Journal.PanicsForBuffersIff`).
- **File system.** Every block in use belongs to one slot of one inode and the bitmap says so;
  any run of writes, reads and truncations returns what plain byte sequences return
  (`FileRuns.Run`), so a read gets what was last written (`FileRuns.ReadsLastWritten`); inodes,
  bitmap and indirect blocks are given byte by byte (`Dinodes.PackInode`, `FsDisk.UsedPlace`,
  `FsDisk.BytePlace`); every transaction of `filewrite` logs at most MAXOPBLOCKS blocks, and its
  calls of `log_write`, inode blocks included, are all there is to it; `itrunc` frees exactly the
  blocks of its inode, and logs the inode block and exactly the bitmap blocks of the file.
- **File system over the log.** Cut the power at any point of a `filewrite` that goes through
  log.c, block write by block write: recovery leaves a sound file system, by the inodes in its
  own bytes, with exactly one chunk of the data for every group committed so far
  (`FsCrash.LoggedFileWrite`).
- **Virtual memory.** Any run of `sbrk`, loads and stores of a demand-paged process returns what
  a process with every page zero-filled from the start returns (`UserMemory.Process.Run`), so loads
  give what was last stored, and zeroes in new memory (`UserMemory.LoadsLastStored`,
  `UserMemory.SbrkGivesZeroes`); any
  interleaving of several processes, with fork, exit and wait, is one of a map of such processes
  (`Processes.System.Run`), and each of them runs as if alone, a child from the memory of its
  parent (`Processes.AsIfAlone`, `Processes.ChildAsIfAlone`); frames
  are conserved on every success and failure exit of vm.c, and each operation succeeds if and only
  if a stated number of frames is free; the one exit that loses a frame is given exactly; the
  jumping loop of `deallocuvm` frees what a scan of every page would, in the same order.
- **Processes.** RUNNABLE means queued once in the queue of its priority at every lock-free point
  of every run; a process at position n is passed by at most n others; a killed process does not
  sleep on (`SchedSafety.KilledWakes`) and a pid names at most one (`SchedSafety.OneTarget`); nobody
  sleeps in `wait` while one of its children has exited; the linked queues of proc.c implement this.
- **Pipes.** First in, first out for unbounded traffic over wrapping counters; every section moves
  all it can (`PipeMachine.MovesAll`), and a read is empty exactly at the end of the file
  (`PipeMachine.EndOfFileIff`); no lost wakeup, except for one exit of a killed writer, given exactly.
- **Allocator.** Over any history of `malloc` and `free` the free list is ordered, has no two
  touching blocks, and units are conserved; that list is the only one there can be.
- **Shell.** `parsecmd` accepts a line if and only if its tokens are a sentence of the grammar,
  which is if and only if some tree reads as these tokens (`Shell.ReadingIff`), and returns that
  only tree, with every word once, in order and terminated.
- **merge_files.** For all buffer sizes, contents and splits of reads and writes, the output is
  the round-robin interleaving of the lines if and only if no `write` returned 0; in every run it
  is a beginning of that interleaving without one stretch for every `write` that returned 0.

## Conventions

A panic of the source is a `None`, `false` or a named result, or is proved unreachable. Each
lock-held section is one atomic step. What a caller cannot control (what sbrk answers, what read
and write return, which buffer is evicted) is a parameter or a nondeterministic choice.
32-bit wrap-around is written out where the source relies on it or checks for it.

Where code and documentation or comments differ, the model follows the code:

- log.c:218 refuses a group one block smaller than what begin_op reserves (mkfs.c:26 makes
  LOGSIZE blocks of log, header included). `LogReservation.PanicReachableIff` gives the effect.
- log.c:218-221 tests the length of the log before the lock of log.c:223 is taken, so that two
  operations can pass the test for the last slot. `LogReservation.SpillReachableIff` says when the
  log outgrows its region, `LogSpill.CrashAtomicIff` when that costs the atomicity of a crash;
  `LogSpill.SpillRun` is a run that does: the last copy of write_log lands on the first inode block.
- param.h:12 sizes the cache for the log alone. A commit finds its buffers while no other process
  has one (`Journal.CommitFindsBuffers`), but with a full log one reader is enough to stop it
  (`BufferShortage.ReaderStopsCommit`).
- pipe.c:86-88: a killed writer leaves a full pipe without waking readers.
  `PipeMachine.KeepAwakeIff` gives the effect.
- proc.c:248-250: shrinking a process to size 0 frees its pages, reports failure and keeps the
  size; shrinking below 0 changes nothing and reports success. `UserMemory.Process.SysSbrk` says so.
- trap.c:156-160: the exit for lack of a page table keeps the frame it allocated.
  `UserMemory.Process.PageFault` says exactly when, `UserMemory.LosingFault` is a run that does it.
- fs.c:217-219 calls the inode cache write-through, but writei stores the inode only when the file
  grows. `FileSystem.FS.Writei` says exactly when memory and disk differ afterwards (a hole was
  filled), `FileSystem.HoleExample` is a file system in which they do.
- merge_files.c:402 takes a write that returns 0 for the end of the buffer. `MergeFiles.ShuffleLines`
  gives the effect, `MergeFiles.ZeroWrite` is a run that loses a byte.
- sh.c:403-405 opens the file of >> like that of >.
- umalloc.c:69: the rounding wraps for requests above 2^32 - 8. `Umalloc.UnitsSuffice` says when.

## Model

| member | source | states |
|---|---|---|
| Blocks.HeaderRoundTrip | xv6/log.c:84-113 | reading a log header gives back the list of blocks that was written into it, and the rest of the block is kept |
| LogSafety.CommitPoint | xv6/log.c:98-113 | the single write of the header turns a disk that stands for the old image into one that stands for the new image |
| LogSafety.InstallKeepsImage | xv6/log.c:69-82 | copying one log block home never changes the image the disk stands for, so it can be cut short or repeated |
| LogSafety.EraseKeepsImage | xv6/log.c:193-202 | once all blocks are home, erasing the header keeps the image |
| LogSafety.LogWritePins | xv6/log.c:213-233 | log_write makes the buffer dirty with the contents that the running operations see, so it cannot be evicted |
| LogSafety.KeepEvict | xv6/bio.c:81-91 | recycling a clean unlocked buffer keeps the whole invariant: no logged data is lost |
| LogSafety.KeepLogWrite | xv6/log.c:223-232 | the locked part of log_write, with or without absorption, keeps the invariant if the log region has room for the block |
| LogSafety.KeepWriteLogBlock | xv6/log.c:177-190 | each block copy of write_log keeps the invariant |
| LogSafety.KeepWriteHead | xv6/log.c:98-113 | the header write keeps the invariant and moves the commit point |
| LogSafety.KeepInstallBlock | xv6/log.c:69-82 | each block copy of install_trans, in commit or in recovery, keeps the invariant |
| LogSafety.KeepCrash | xv6/log.c:116-122 | a crash in any state leaves a disk from which recovery can start |
| LogRuns.KeepStep | xv6/log.c:69-233 | every step of every process, commit, recovery or crash keeps the invariant, but for an append that finds the log region full |
| LogRuns.InvAlongRun | xv6/log.c:69-233 | the invariant holds in every state of every run up to such an append |
| LogRuns.RecoverRestores | xv6/log.c:116-122 | recovery turns any disk that stands for an image into that image with an empty log |
| LogRuns.DurableIsCommittedGroups | xv6/log.c:193-202 | the durable image is the initial one with the committed groups applied whole and in order |
| LogRuns.CrashAtomicity | xv6/log.c:69-122 | cut the power at any point of any run, also during recovery, before which no append has found the log region full: recovery leaves exactly the image of the groups committed so far |
| LogBudget.BudgetContains | xv6/log.c:125-141 | no append of any run finds the log region full if operations keep to a budget for which the reservations of begin_op fit into it |
| LogBudget.BudgetedCrashAtomicity | xv6/log.c:69-233 | so a crash at any point of any such run is atomic |
| LogSpill.SpillRun | xv6/log.c:213-233 | a run of three operations within MAXOPBLOCKS in which two pass the test for the last slot, and the copy of the second overwrites the first inode block before the header is written |
| LogSpill.CrashAtomicIff | xv6/log.c:213-233 | with the log that mkfs makes, a crash is atomic at every point of every run of operations within a budget if and only if the budget is below MAXOPBLOCKS |
| LogRuns.CommittedGroupsStay | xv6/log.c:193-202 | a committed group is in every later state of the run, across any number of crashes |
| LogRuns.ViewIsLogical | xv6/bio.c:97-106 | the cache in front of the disk shows the logical image in every phase of a commit |
| LogRuns.ReadsSeeLastLogged | xv6/bio.c:97-106 | in every state of every run within the log region, reading a block gives its last logged contents |
| LogRuns.NoInstallBeforeCommitPoint | xv6/log.c:204-233 | in such runs no logged block reaches its home location before the header is on disk |
| LogRuns.OperationsAreAtomic | xv6/log.c:125-174 | the committed groups hold all writes of an operation or none, and all of them once end_op of the group returns |
| LogReservation.InvAlongRun | xv6/log.c:125-174 | blocks used and blocks still allowed stay within the log, in every interleaving of operations that keep to a budget, by the reservation alone |
| LogReservation.LogNeverOverflows | xv6/log.c:125-141 | with at most MAXOPBLOCKS blocks per operation, blocks logged and blocks that outstanding operations may still log fit into the header array, without the test of log_write |
| LogReservation.OverflowReachableIff | xv6/log.c:125-141 | with and without that test the array can overflow if and only if operations may add more than MAXOPBLOCKS blocks |
| LogReservation.SpillReachableIff | xv6/log.c:213-233 | with the test, the log can get longer than its region if and only if operations may add MAXOPBLOCKS or more blocks |
| LogReservation.CommitRunsAlone | xv6/log.c:145-174 | while a commit runs no operation is outstanding, so the panic of end_op is unreachable |
| LogReservation.SleepersWillBeWoken | xv6/log.c:125-174 | whoever sleeps in begin_op still must wait, and a commit or an outstanding operation will wake it |
| LogReservation.PanicWithFullBudget | xv6/log.c:213-219 | a run of three operations that reaches the panic "too big a transaction" |
| LogReservation.PanicReachableIff | xv6/log.c:213-219 | the panic is reachable if and only if operations may add MAXOPBLOCKS or more blocks |
| Journal.ReachesIsRun | xv6/log.c:54-233 | what the methods of Log do is a run in the sense of the crash theorems |
| Journal.Log.constructor | xv6/log.c:54-66 | a new log, with a header of its own and no buffer locked, in the boot state of the machine, for any disk that stands for an image |
| Journal.Log.BeginOp | xv6/log.c:125-141 | admits the operation, and counts it, if and only if no commit runs and n + (outstanding + 1) * 10 is at most 30; otherwise the process sleeps; whoever sleeps has its reason in every state |
| Journal.Log.LogWrite | xv6/log.c:213-233 | appends the block to the header unless it is there, and makes its buffer dirty without changing its data; panics exactly when the header or the log region is full or no operation is open |
| Journal.Log.FindSlot | xv6/log.c:224-227 | the first place of the block in the header, or its end |
| Journal.Log.EndOp | xv6/log.c:145-174 | the last operation commits the whole group: every block in the header has on disk what its buffer held, every other home block what it had, and the header on disk counts none; others only leave; either way every process asleep in begin_op is woken |
| Journal.Log.Commit | xv6/log.c:193-202 | an empty group writes nothing; otherwise the group is committed and the log is empty |
| Journal.Log.WriteLog | xv6/log.c:177-190 | every block of the group gets to its log slot, by steps of the machine |
| Journal.Log.FillHeader | xv6/log.c:102-113 | word 0 is the count, words 1 to n are the block numbers in order, the other words are kept |
| Journal.Log.InstallTrans | xv6/log.c:69-82 | every block of the group gets to its home, by steps of the machine |
| Journal.Log.LoadHeader | xv6/log.c:86-96 | the count is word 0 and the list words 1 to n of the header block |
| Journal.Log.RecoverFromLog | xv6/log.c:116-122 | log block j goes to the home block in word j of the header for every j up to the count, no other home block changes, and the header counts none; this is the durable image |
| Journal.IdleDisk | xv6/log.c:193-202 | between commits the home blocks on disk are the durable image |
| Journal.BuffersAreLogical | xv6/log.c:193-233 | when no buffer is locked, what the running operations see is the buffer of a logged block and the disk for any other |
| Journal.CommitInPlace | xv6/log.c:177-202 | a commit puts the buffers of its group in place and nothing else |
| Journal.Log.Transact | xv6/log.c:125-233 | an operation within its budget that finds the log at rest neither sleeps nor panics, and its calls of log_write, in order, are the next committed group |
| Journal.CachedBread | xv6/bio.c:97-106 | bread of the buffer cache takes the steps Evict, if it recycles a buffer, and BRead of the log machine; the buffer holds what a reader must see |
| Journal.PanicsForBuffersIff | xv6/bio.c:62-93 | in every state that the log reaches, bread of a block without a buffer hits the panic "no buffers" if and only if the pinned blocks and the blocks with referenced buffers are NBUF together |
| Journal.CommitFindsBuffers | xv6/log.c:69-190 | while no other process has a buffer, no bread of a commit or a recovery, the first of a round or the second with a buffer in hand, hits the panic "no buffers" with the log that mkfs makes |
| BufferShortage.ReaderStopsCommit | xv6/log.c:177-190 | a run of operations within MAXOPBLOCKS whose commit, with one buffer in the hands of a reader, hits that panic at its first bread |
| BufferCache.FindsBufferIff | xv6/bio.c:81-92 | a buffer is there or can be recycled if and only if the block has one or fewer than NBUF blocks are referenced or dirty |
| BufferCache.OneBufferPerBlock | xv6/bio.c:62-93 | no block of the disk has two buffers |
| BufferCache.ContentsRecycle | xv6/bio.c:81-90 | giving a buffer to a block evicts the block it held and no other |
| BufferCache.MoveToFrontAged | xv6/bio.c:130-138 | after the last reference is released the ring is still in order of release time |
| BufferCache.Walk | xv6/bio.c:69-91 | following the links visits the buffers in order of release, forwards and backwards |
| BufferCache.BCache.constructor | xv6/bio.c:39-56 | the loop of binit links every buffer once, and nothing is cached |
| BufferCache.BCache.Find | xv6/bio.c:69-76 | finds the buffer of the block if and only if there is one |
| BufferCache.BCache.Victim | xv6/bio.c:81-92 | the least recently released buffer among those unreferenced and clean; none only if there is none |
| BufferCache.BCache.Bget | xv6/bio.c:62-93 | the cached buffer, else the victim re-keyed, else the panic, each exactly when it must be |
| BufferCache.BCache.Bread | xv6/bio.c:97-106 | the buffer is locked by the caller with the contents of the cache, or of the disk if the block was absent; the cache loses at most the victim; it waits exactly when another process has the buffer locked, and then only takes a reference |
| BufferCache.BCache.Acquire | xv6/bio.c:97-106 | after the wait the buffer is locked by this process and holds the block |
| BufferCache.BCache.Bwrite | xv6/bio.c:110-116 | the disk gets the contents of the buffer and the buffer is clean |
| BufferCache.BCache.Brelse | xv6/bio.c:121-141 | unlocks; the last reference makes it the most recent buffer, otherwise the order stays |
| BufferCache.SomeBufferRecyclable | xv6/bio.c:81-92 | if the buffers that are referenced or dirty hold fewer than NBUF blocks, some buffer can be recycled |
| Ring.InsertKeepsRing | xv6/bio.c:50-54 | linking after a member gives the ring with the element inserted there |
| Ring.RemoveKeepsRing | xv6/bio.c:132-133 | unlinking a member gives the ring without it |
| Bits.FlipIsMask | xv6/fs.c:66-68 | inverting a bit is the or or the and-not with its mask |
| Bits.FlipBlockBit | xv6/fs.c:66-68 | setting or clearing one bit of a bitmap block changes that bit and no other |
| Bits.WordOfSetWord | xv6/fs.c:391-394 | writing one entry of an indirect block changes that entry and no other |
| Bits.WordPlace | xv6/fs.c:391-394 | entry k of an indirect block is its bytes 4k to 4k + 3, least significant first |
| Bits.BitIsDigit | xv6/fs.c:65-67 | bit k of a byte is the binary digit that the mask 1 << k selects |
| FsDisk.OneOwner | xv6/fs.c:363-368 | two slots, of one inode or of two, never hold the same block |
| FsDisk.FreeIsUnowned | xv6/fs.c:57-78 | a block free in the bitmap is a data block that no slot holds |
| FsDisk.OwnedIsUsed | xv6/fs.c:82-96 | a block held by a slot is marked, so the panic "freeing free block" is unreachable |
| FsDisk.UsedPlace | xv6/fs.c:64-67 | block a is marked by bit a mod 8 of byte a mod 4096 / 8 of bitmap block a / 4096 |
| FsDisk.BytePlace | xv6/fs.c:374-401 | byte pos of a file is byte pos mod 512 of the block in direct address pos / 512, from 12 blocks on of the block in that entry of the indirect block, and 0 where there is none |
| FsDisk.AllocDirect | xv6/fs.c:380-389 | filling a direct or the indirect slot with a fresh block keeps ownership exact |
| FsDisk.AllocEntry | xv6/fs.c:390-396 | filling an entry of the indirect block keeps ownership exact |
| FsDisk.FreeDirect | xv6/fs.c:415-420 | giving a slot's block back keeps ownership exact |
| FsDisk.FreeEntry | xv6/fs.c:425-428 | giving the block of an entry back keeps ownership exact |
| FsDisk.AllocDirectExtends | xv6/fs.c:380-389 | an allocation changes no byte of any file and loses no block |
| FsDisk.AllocEntryExtends | xv6/fs.c:390-396 | the same through the indirect block |
| Dinodes.InodeRoundTrip | xv6/fs.c:228-234 | an inode packed into its slot of an inode block is read back as it was |
| Dinodes.InodeFrame | xv6/fs.c:228-234 | packing an inode leaves the other seven inodes of the block alone |
| Dinodes.PackInode | xv6/fs.c:228-234 | byte by byte: type and major at byte 64s of the block, minor and nlink 4 bytes on, size 8 bytes on, the 13 addresses from 12 bytes on, each low byte first; every other byte of the block is as it was |
| Dinodes.UnpackInode | xv6/fs.c:301-307 | the inode is what these bytes say |
| Dinodes.MetaExtends | xv6/fs.c:222-237 | a change to inode blocks changes no block ownership and no byte of any file |
| FsDisk.WriteChangesBytes | xv6/fs.c:499-505 | overwriting a block changes the bytes of that block of that file only |
| FileSystem.FS.Balloc | xv6/fs.c:57-78 | the first free block; it is all zeroes and marked afterwards, no other mark and no other block changes; the panic exactly when the disk is full |
| FileSystem.FS.Bfree | xv6/fs.c:82-96 | exactly when the block is marked the mark goes, and no other mark and no other block changes; otherwise it panics |
| FileSystem.FS.Bmap | xv6/fs.c:374-401 | the number in direct address bn, or in that entry of the indirect block, allocated only if missing, together with the indirect block if that is missing, and nothing else; no byte of any file changes; every changed block is logged, within a bound |
| FileSystem.FS.Iupdate | xv6/fs.c:222-237 | slot i mod 8 of inode block i / 8 holds the fields at their places, every other inode and every other block is as it was, and that block is logged |
| FileSystem.FS.Ilock | xv6/fs.c:289-313 | the inode in memory becomes what the bytes of its slot on disk say, at their places; the panic exactly when the two bytes of its type are 0 |
| FileSystem.FS.WriteLoop | xv6/fs.c:499-505 | the bytes are written, nothing else changes, and at most one data and one bitmap block per block spanned (no bitmap block for a first block that is there already), plus the indirect block and its bitmap block, are logged |
| FileSystem.FS.Writei | xv6/fs.c:483-512 | with or without holes: -1 exactly for a start past the end or an end past 71680; otherwise byte off + k is src[k] at its place on disk and no other byte of any file changes, the size is the larger of the old one and off + n, and the calls of log_write are the whole change; the disk has the new inode if the file grew, and otherwise if and only if no address of the inode was missing on the way |
| FileSystem.FS.Readi | xv6/fs.c:454-477 | refused exactly for a start past the end or a wrap-around; otherwise n bytes, or as many as there are up to the end, each the byte at its place on disk; nothing changes if the blocks read exist, and a missing one reads as zeroes and is allocated |
| FileSystem.ReadBack | xv6/fs.c:454-512 | reading where one has written returns what was written |
| FileSystem.TallyStep | xv6/fs.c:499-505 | how each round of writei adds to the blocks logged, with no new bitmap block for a first block that is there already |
| FileSystem.TopsSame | xv6/fs.c:374-401 | bmap over a stretch leaves the inode as it was if and only if no address it goes through was missing |
| FileSystem.StillOnDisk | xv6/fs.c:483-512 | in a file system without holes the disk holds the inodes of memory after every write |
| FileSystem.HoleExample | xv6/fs.c:483-512 | a consistent file system and a write that does not grow the file and goes through a missing address, with a free block for it, so that they differ after it |
| FileSystem.ChunkFits | xv6/file.c:126-133 | a chunk of filewrite logs at most MAXOPBLOCKS blocks, for every offset, if a first block entered in its middle is there |
| FileSystem.FS.WriteChunk | xv6/file.c:140-145 | one transaction of filewrite: all of the chunk or nothing, within MAXOPBLOCKS, with every change in its calls of log_write |
| FileSystem.FS.FileWrite | xv6/file.c:126-153 | returns n and moves the offset by n exactly when all fits into 71680 bytes; otherwise -1 with exactly the whole chunks of 1536 bytes that fit written, and the offset moved past them; "short filewrite" is unreachable; every transaction is within MAXOPBLOCKS, is made of its calls of log_write, and starts and ends in a file system that is sound by its own inodes, with exactly the chunks up to there written |
| FsCrash.BytesBack | xv6/log.c:69-82 | a block is the same as bytes and as words |
| FsCrash.GroupsApplied | xv6/log.c:193-202 | committing transactions as groups of the log makes the image that the file system has after them |
| FsCrash.CrashBetween | xv6/log.c:116-122 | for any transactions and any point of any run of the log whose groups they are, recovery leaves the file system after the transactions committed so far |
| FsCrash.CrashInFileWrite | xv6/file.c:126-153 | so a crash at any point of a filewrite leaves a file system that is sound by its own inodes, with exactly one chunk of the data for every group committed so far |
| FsCrash.LoggedFileWrite | xv6/file.c:126-153 | filewrite over log.c, from recovery on: every crash point of its run is survived in that sense, and at the end the disk holds the file system |
| FileRuns.WroteShows | xv6/fs.c:483-512 | a write is the overwrite of a byte sequence, growing it at its end |
| FileRuns.BytesOfFile | xv6/fs.c:454-477 | a read is a slice of a byte sequence |
| FileRuns.Run | xv6/file.c:97-153 | any run of writes, reads and truncations of any files returns what byte sequences return, until the disk is full |
| FileRuns.PlainReads | xv6/fs.c:454-477 | what a read returns in the reference: -1 past the end, otherwise the next n bytes or those up to the end, one by one |
| FileRuns.PlainWrites | xv6/file.c:126-153 | what a write that fits does in the reference: those bytes change and no others, in no other file, and the file grows to hold them |
| FileRuns.PlainRefuses | xv6/file.c:126-153 | a write that starts past the end returns -1 and changes nothing; one past 71680 bytes returns -1 with exactly the whole chunks of 1536 bytes that fit written |
| FileRuns.ReadsLastWritten | xv6/file.c:97-153 | in every run, a byte that was written is what a read of it returns, until it is written again or the file is truncated |
| FileSystem.AcceptedStops | xv6/file.c:134-153 | when a chunk is refused, what was written is the largest number of whole chunks that fits |
| Truncate.FreeEntryStep | xv6/fs.c:425-428 | freeing an entry while it stays on the disk: ownership is exact for the block with that entry cleared |
| Truncate.FreeIndirectStep | xv6/fs.c:429-432 | after all entries, freeing the indirect block leaves the real disk consistent |
| FileSystem.FS.Itrunc | xv6/fs.c:409-436 | exactly the blocks of the inode become free, each once; every other file keeps its bytes; every changed block is logged, and the blocks logged are those of the bitmap with a bit of the file and the inode block |
| Truncate.TruncFits | xv6/fs.c:409-436 | these are one more than the bitmap blocks with a bit of the file, so at most MAXOPBLOCKS if the disk has at most MAXOPBLOCKS - 1 bitmap blocks (that of mkfs has one) |
| PageTables.OnePage | xv6/vm.c:59-84 | two user pages, of one process or of two, never share a frame |
| PageTables.SetEntryOwned | xv6/vm.c:73-77 | mapping a spare frame or clearing an entry keeps the use of every frame exact |
| PageTables.AddTableOwned | xv6/vm.c:46-55 | a new page table keeps the use of every frame exact |
| PageTables.DropTable | xv6/vm.c:296-301 | freeing a page table without user pages keeps the use of every frame exact |
| VmSteps.OneUse | xv6/vm.c:38-84 | a frame is on the free list, a directory, a page table or a user page, and never two of these |
| VmSteps.FramesAddUp | xv6/kalloc.c:46-95 | the free frames and the frames in use add up to all of physical memory |
| VmSteps.JumpAddress | xv6/mmu.h:73-80 | the address that the loop of deallocuvm jumps to, in 32-bit arithmetic, is the first page of the next table and does not wrap around |
| VmSteps.SkipTable | xv6/vm.c:269-272 | jumping to the next page table skips only absent pages, and a page-by-page scan would do nothing for them |
| VmSteps.ScanSkips | xv6/vm.c:269-272 | a scan over absent pages leaves the free list as it is |
| VmSpaces.RolledBack | xv6/vm.c:134-138 | after the undo of a failed setup exactly the frames in use before are in use |
| VmSpaces.ZeroMapped | xv6/trap.c:145-162 | mapping a zeroed frame at an absent page changes no byte and no permission that any process sees |
| VmSpaces.CopiedMore | xv6/vm.c:338-349 | a copied page has the contents and flags of the original |
| Vm.Kernel.constructor | xv6/kalloc.c:47-53 | every frame of the range is on the free list once |
| Vm.Kernel.Kalloc | xv6/kalloc.c:83-95 | the head of the free list, 0 exactly when it is empty; frames are conserved |
| Vm.Kernel.Kfree | xv6/kalloc.c:60-77 | the frame is filled with junk and is next to be allocated; a frame in use is in range, so the panic is unreachable |
| Vm.Kernel.Walkpgdir | xv6/vm.c:38-57 | a table for the page exactly when there is one or a frame for it; no entry of any directory changes |
| VmFrames.KernelNext | xv6/vm.c:114-119 | the page tables that each row of kmap adds, wherever the kernel data starts |
| Vm.Kernel.Mappages | xv6/vm.c:65-84 | consecutive pages are mapped to consecutive frames and no other entry changes; it succeeds if and only if there are frames for the missing page tables, and otherwise a prefix is mapped |
| Vm.Kernel.Deallocuvm | xv6/vm.c:260-283 | exactly the pages present in [PGROUNDUP(newsz), oldsz) are freed, in the order of a scan of every page; the loop terminates for oldsz up to KERNBASE |
| Vm.Kernel.Freevm | xv6/vm.c:288-303 | exactly the frames of the directory go back: user pages, tables and the directory itself |
| Vm.Kernel.Setupkvm | xv6/vm.c:123-140 | a directory if and only if 65 frames are free: physical memory from KERNBASE to PHYSTOP, read-only from 1 MB to the kernel data, the device space onto itself, nothing for user code and no other page; otherwise 0 with the same frames in use as before |
| Vm.Kernel.Allocuvm | xv6/vm.c:226-253 | the new pages are present and no process sees a difference, if and only if there are frames for them and for the missing page tables; otherwise every page goes back and all entries are as before |
| Vm.Kernel.Copyuvm | xv6/vm.c:321-356 | the copy has the same contents and permissions page by page, present or not, if and only if there are frames for the kernel part, the present pages and their page tables; otherwise the same frames are in use as before; nobody else sees a difference |
| UserMemory.SeesGrown | xv6/sysproc.c:78-84 | growing without allocating shows the same memory as filling the new pages with zeroes |
| UserMemory.SeesShrunk | xv6/vm.c:268-281 | freed pages read as zeroes again |
| UserMemory.Process.PageFault | xv6/trap.c:102-162 | no process sees a difference; which of retry, kill, panic and out of memory happens, exactly: an absent page below the size is brought in if and only if its one or two frames are free; a frame is lost if and only if two are needed and one is free; page tables, memory and kernel stacks of the other processes stay as they are |
| UserMemory.LosingFault | xv6/trap.c:156-160 | a run that loses a frame |
| UserMemory.Process.Growproc | xv6/proc.c:239-255 | new size and result of every case in numbers, with exactly the pages above the new size gone or those up to it added; growing succeeds if and only if it stays below KERNBASE and there are frames for all new pages |
| UserMemory.Process.SysSbrk | xv6/sysproc.c:66-93 | result and size of all five cases in numbers: growing returns the old size and adds n, or -1 at KERNBASE; shrinking returns the old size and subtracts, -1 with the pages gone at size 0, the old size with nothing changed below 0; visible memory is that of a zero-filled process |
| UserMemory.Process.Run | xv6/trap.c:102-162 | any run of sbrk, loads and stores below the size returns what a zero-filled process returns, until it faults, leaves its size, or comes to an access whose page is absent and whose one or two frames are not free; so never with two free frames per operation; nothing of any other process changes |
| UserMemory.SbrkGivesZeroes | xv6/sysproc.c:66-93 | in every run, after an sbrk(n) that returns r with n > 0 every load from the pages wholly inside r to r + n gives 0 until the byte is stored to |
| UserMemory.LoadsLastStored | xv6/trap.c:102-162 | in every run, a load gives what was last stored at its address, unless an sbrk has shrunk the process to a size from 0 up to that address |
| UserMemory.Process.Fork | xv6/proc.c:273-279 | the child sees the parent's memory in frames of its own, if and only if there are frames for the kernel part, the present pages and their page tables; otherwise there is no child and no frame is lost |
| UserMemory.Process.Exit | xv6/proc.c:351-352 | all user pages go and nothing else |
| UserMemory.Process.Reap | xv6/proc.c:385-387 | the kernel stack, page tables and directory go and nothing else |
| UserMemory.Process.Instruct | xv6/mmu.h:94-96 | a load gives, and a store changes, the byte at that offset of the frame of its page, or faults, exactly as the flags of the page say; nothing of any other process changes |
| UserMemory.Process.AccessPast | xv6/trap.c:107-115 | beyond the size: an access in the rest of a present last page, otherwise a fault that kills |
| Processes.System.Handle | xv6/proc.c:262-420 | one event of one process (an instruction or sbrk, fork, exit, wait) does to the map of zero-filled processes what it must and changes no other process; frames run out exactly when those that it takes are not free, and fork then gives its kernel stack back |
| Processes.System.Run | xv6/proc.c:262-420 | any interleaving of such events of any processes, up to one that cannot happen, gives the results and the memory of that map |
| Processes.AsIfAlone | xv6/trap.c:102-162 | whatever the others do in between, a process gets the results and has the memory of its own operations performed alone, until it exits or runs out of frames |
| Processes.ChildAsIfAlone | xv6/proc.c:262-310 | a child starts from the memory that its parent had when it forked, and from there on runs as if alone |
| UserMemory.ExitThenWait | xv6/proc.c:351-387 | together they free every frame of the process and its kernel stack, each once, and no other |
| RunQueue.EnqueueLast | xv6/proc.c:41-44 | linking before the head of a non-empty queue appends to the ring |
| RunQueue.DequeueLonger | xv6/proc.c:75-83 | unlinking from anywhere in a longer queue removes exactly that process |
| ProcTable.EnqueueLinked | xv6/proc.c:21-46 | both queues stay well-formed rings and unqueued processes keep null links |
| ProcTable.DequeueLinked | xv6/proc.c:50-85 | the same for dequeue from any position |
| SchedSafety.KeepStep | xv6/proc.c:146-686 | every section that holds ptable.lock keeps the invariant |
| SchedSafety.InvAlongRun | xv6/proc.c:146-686 | at every lock-free point of every run a process is RUNNABLE if and only if it is queued, once, in the queue of its priority, and RUNNING on exactly one CPU |
| SchedSafety.HowProcessesMove | xv6/proc.c:21-85 | a process leaves its queue only by dispatch or setprio, never moves back, and moves up by one with each dispatch from its queue |
| SchedSafety.BoundedWait | xv6/proc.c:431-472 | while a process waits at position n at most n others are dispatched from its queue, even with setprio in the middle |
| SchedSafety.DispatchedInTime | xv6/proc.c:431-472 | more than n dispatches from its queue include it |
| SchedSafety.HighPriorityFirst | xv6/proc.c:446-461 | no process of normal priority is dispatched while one of high priority is runnable |
| SchedSafety.WaitGetsExitStatus | xv6/proc.c:315-420 | until it is reaped a process that exited keeps the status it passed to exit, in every run |
| SchedSafety.KilledWakes | xv6/proc.c:607-629 | in every run, right after a kill its victim is marked and not SLEEPING; one that slept is RUNNABLE and last in the queue of its priority, so BoundedWait applies to it |
| SchedSafety.PidsAlongRun | xv6/proc.c:146-164 | along every run from boot the pids of slots in use are distinct, positive and below nextpid |
| SchedSafety.OneTarget | xv6/proc.c:607-686 | so at most one process in use answers to a pid |
| SchedFamily.WakesExactly | xv6/proc.c:579-592 | exactly the processes asleep on the channel become runnable |
| SchedFamily.WakesInOrder | xv6/proc.c:579-592 | they join the ends of their queues in table order |
| SchedFamily.DisownParents | xv6/proc.c:342-349 | exit leaves init as the parent of every child of the exiting process and changes no other parent |
| SchedFamily.ExitSlots | xv6/proc.c:315-362 | what exit does to every slot: the caller a zombie with its status, children to init, the sleepers on the parent and, if a child had exited already, on init made runnable, all else unchanged |
| SchedFamily.KeepAttentive | xv6/proc.c:315-420 | every step keeps it so that nobody sleeps in wait while one of its children has exited |
| SchedFamily.InitIsRoot | xv6/proc.c:193-233 | in every run that starts with userinit, init has no parent, is never adopted and never exits |
| SchedFamily.NoLostExit | xv6/proc.c:315-420 | so no exit goes unnoticed in any run that starts with userinit, also for children handed to init |
| ProcTable.PTable.constructor | xv6/proc.c:13-17 | the zeroed table satisfies the invariant |
| ProcTable.PTable.Enqueue | xv6/proc.c:21-46 | appends to the queue of its priority; panics exactly when already queued |
| ProcTable.PTable.Dequeue | xv6/proc.c:50-85 | removes from any position; panics exactly when not queued |
| ProcTable.PTable.AllocProc | xv6/proc.c:146-164 | the first UNUSED slot becomes EMBRYO with pid nextpid, which goes up by one, and no other slot changes; or there is none |
| ProcTable.PTable.UserInit | xv6/proc.c:221-233 | the first process is RUNNABLE and queued with normal priority |
| ProcTable.PTable.Fork | xv6/proc.c:279-305 | the child is RUNNABLE at the end of the queue of its parent's priority, with that parent; no other slot and no other queue changes |
| ProcTable.PTable.Pick | xv6/proc.c:446-449 | the first process of the first non-empty queue; none exactly when none is runnable |
| ProcTable.PTable.Scheduler | xv6/proc.c:431-472 | the process at the head of the high queue, or of the other if that is empty, leaves it and is RUNNING on the CPU; nothing changes when none is runnable |
| ProcTable.PTable.Yield | xv6/proc.c:502-513 | the running process is RUNNABLE at the end of the queue of its priority and its CPU is free; no other slot changes |
| ProcTable.PTable.Sleep | xv6/proc.c:539-573 | the running process is SLEEPING on the channel, in no queue, and its CPU is free; no other slot and no queue changes |
| ProcTable.PTable.Wakeup1 | xv6/proc.c:579-592 | every process asleep on the channel, and no other, becomes RUNNABLE, and they are appended to their queues in table order |
| ProcTable.PTable.Kill | xv6/proc.c:607-629 | the first process with the pid has killed set; if it slept it is RUNNABLE and appended to the queue of its priority, otherwise its state and both queues stay; no other slot changes; -1 exactly when there is none |
| ProcTable.PTable.GetPrio | xv6/proc.c:634-652 | the priority of the first process in use with the pid; -1 exactly when there is none |
| ProcTable.PTable.SetPrio | xv6/proc.c:656-686 | the priority of the first process with the pid is the new one; a runnable one for which that is a change leaves its queue and is appended to the other, otherwise both queues stay; no other slot changes; -1 exactly for a bad priority or pid, and then nothing changes |
| ProcTable.PTable.Exit | xv6/proc.c:331-362 | the caller is a ZOMBIE with its status and off its CPU, its children have init as parent, and exactly those asleep on its parent, or on init if it inherits an exited child, become runnable; no other field changes |
| ProcTable.PTable.Wait | xv6/proc.c:368-420 | reaps the first exited child with its status, or fails, or sleeps, each exactly when it must |
| PipeMachine.KeepAwakeIff | xv6/pipe.c:60-121 | a section keeps every sleeper justified if and only if it is not the exit of a killed writer that has filled the pipe under a sleeping reader |
| PipeMachine.NoLostWakeup | xv6/pipe.c:79-121 | in every run without that exit, a reader asleep means an empty open pipe and a writer asleep a full open one |
| PipeMachine.KilledWriterStrandsReader | xv6/pipe.c:85-89 | a run in which a killed writer leaves a reader asleep with a full pipe |
| PipeMachine.Fifo | xv6/pipe.c:79-121 | at every point of every run, what was written is what was read followed by the buffer |
| PipeMachine.MovesAll | xv6/pipe.c:79-121 | in every run a read section that is done delivers min(n, length) bytes of the buffer, and a write section takes as many bytes as are left or as there is room for in 512 |
| PipeMachine.EndOfFileIff | xv6/pipe.c:101-121 | in every run a read of n > 0 bytes that is done returns none if and only if all that was written has been read and the write end is closed |
| PipeCode.SlotOfCounter | xv6/pipe.c:93 | the place in the ring does not depend on the wrap-around of the 32-bit counter |
| PipeCode.FullAndEmpty | xv6/pipe.c:85-106 | the tests on wrapped counters mean full and empty |
| PipeCode.PipeBuffer.Put | xv6/pipe.c:93 | appends a byte |
| PipeCode.PipeBuffer.Get | xv6/pipe.c:114-116 | takes the oldest byte |
| PipeCode.PipeBuffer.WriteSection | xv6/pipe.c:79-98 | as many of the bytes as there is room for go to the end of the buffer, in order; done exactly when all are in, failed exactly when some are left and the read end is closed or the caller killed, which wakes nobody, otherwise asleep; it is one write section of the machine |
| PipeCode.PipeBuffer.ReadSection | xv6/pipe.c:101-121 | done exactly when there are bytes or the write end is closed, and then it delivers the first min(n, length) bytes of the buffer, the rest stays, and writers are woken; otherwise it delivers none, and fails exactly when the caller is killed, else sleeps; it is one read section of the machine |
| PipeCode.PipeBuffer.Close | xv6/pipe.c:60-75 | closes that end and no other, wakes those asleep at the other end and changes no byte; frees the page exactly when both are closed |
| Umalloc.MergeCorrect | xv6/user/umalloc.c:25-44 | merging a block keeps the list ordered without touching neighbours and adds exactly its units |
| Umalloc.MergeLinked | xv6/user/umalloc.c:33-43 | the two header updates of free build that list in memory |
| Umalloc.SearchStops | xv6/user/umalloc.c:31-32 | the exit tests of the search hold at the right place and only there, including at the wrap |
| Umalloc.FreeListUnique | xv6/user/umalloc.c:25-44 | the free units determine the free list |
| Umalloc.FreeCorrect | xv6/user/umalloc.c:25-44 | free keeps live blocks apart from free ones and conserves units |
| Umalloc.CarveCorrect | xv6/user/umalloc.c:75-84 | taking a block, whole or from its tail, keeps all of that and yields a new live block |
| Umalloc.ExtendCorrect | xv6/user/umalloc.c:54-59 | memory fresh from sbrk can be freed like a live block |
| Umalloc.UnitsSuffice | xv6/user/umalloc.c:69 | the units of a block hold the request if and only if the rounding does not wrap |
| Umalloc.RequestFits | xv6/user/umalloc.c:52-54 | sbrk is asked for the intended size if and only if it is below 2^31 bytes |
| Umalloc.Heap.Free | xv6/user/umalloc.c:25-44 | the block is free again and the whole invariant holds, which leaves one possible list; freep is the entry before the block; the search loop terminates |
| Umalloc.Heap.Morecore | xv6/user/umalloc.c:47-61 | the units from brk on are added, 4096 or as many as asked for, and then a block is large enough; nothing changes without memory |
| Umalloc.Heap.Scan | xv6/user/umalloc.c:74-89 | one turn finds the first block that is large enough, or none is |
| Umalloc.Heap.Malloc | xv6/user/umalloc.c:64-90 | a block of (nbytes + 7) mod 2^32 / 8 + 1 units overlapping nothing live or free; it is the tail of the first free block that is large enough after freep, and freep becomes the entry before; fails exactly when nothing fits and sbrk fails; sbrk is called only when nothing fits; terminates |
| Umalloc.Heap.UserWrite | xv6/user/umalloc.c:64-90 | writing inside live blocks never disturbs the allocator |
| ShellLex.LexApart | xv6/user/sh.c:277-320 | tokens do not overlap and only spaces are between them |
| ShellLex.LexCovers | xv6/user/sh.c:277-320 | every character that is not a space is in a token |
| ShellLex.LexWord | xv6/user/sh.c:307-311 | words have no spaces or symbols and are as long as they can be |
| ShellLex.LexSymbol | xv6/user/sh.c:287-306 | a token that is not a word is one of the symbol characters, or the two characters >>, with the kind that the parser tests for |
| ShellLex.GetToken | xv6/user/sh.c:277-320 | the next token and the position of the rest; 0 exactly at the end |
| ShellLex.Peek | xv6/user/sh.c:322-332 | whether the next token starts with one of the symbols, losing nothing |
| ShellGrammar.SoundLine | xv6/user/sh.c:356-458 | a parsed line is well formed and its text is exactly what was consumed |
| ShellGrammar.CompleteLine | xv6/user/sh.c:356-458 | parsing the text of any derivation gives that derivation back |
| ShellTrees.LineWords | xv6/user/sh.c:356-458 | every word of the line is in the tree exactly once |
| ShellOrder.OrderLine | xv6/user/sh.c:356-458 | arguments, redirections and the sides of pipes and lists are in the order of the line |
| ShellReading.LineReads | xv6/user/sh.c:356-458 | the tree of a line reads as its tokens: a Pipe node has | between its sides, a List node ;, a Back node is followed by its own &, a Redir node has the operator and the file it opens, and writes if and only if the operator is not < |
| ShellReading.FromLine | xv6/user/sh.c:356-458 | every tree that reads as the tokens is the tree of a derivation of them |
| Shell.AcceptedIff | xv6/user/sh.c:339-354 | a line is accepted if and only if it is a sentence, and there is only one derivation |
| Shell.ReadingIff | xv6/user/sh.c:339-354 | a line is accepted if and only if some tree reads as its tokens, and there is only one |
| Shell.ParseRedirections | xv6/user/sh.c:386-409 | the loop reads what the grammar allows, or panics exactly when a file is missing |
| Shell.ParseWords | xv6/user/sh.c:438-457 | words and redirections in any order, at most MAXARGS - 1 words |
| Shell.ParseBlock | xv6/user/sh.c:411-425 | a block with its redirections, or a panic exactly when it is not one |
| Shell.ParseExec | xv6/user/sh.c:427-458 | a simple command or a block, whose tree reads as the tokens consumed |
| Shell.ParsePipeAt | xv6/user/sh.c:373-384 | a pipeline, grouped to the right, with a Pipe node exactly where | stands; the tree reads as the tokens consumed |
| Shell.ParseLineAt | xv6/user/sh.c:356-371 | a line, with a Back node for every & and a List node exactly where ; stands; the tree reads as the tokens consumed; the mutual recursion terminates because every return to it has consumed a token |
| Shell.Nulterminate | xv6/user/sh.c:461-505 | exactly the bytes after the strings of the tree become NUL |
| Shell.AllTerminated | xv6/user/sh.c:461-505 | no string is cut: each reads as the text of its token |
| Shell.ParseCmd | xv6/user/sh.c:339-354 | a tree exactly when there is one that reads as the tokens of the line, and then that one, with every word once, in order, and its string in the buffer; a panic leaves the buffer alone |
| MergeSpec.MergeIsColumns | syscalls/merge_files.c:453-474 | the output is all first lines, then all second lines, and so on |
| MergeSpec.MergeNext | syscalls/merge_files.c:458-469 | going round the files one line at a time is going round after round |
| MergeSpec.LineEnds | syscalls/merge_files.c:439-451 | a line goes up to the first byte 10 and includes it, or is all there is when there is none |
| MergeFiles.InFile.ReadAll | syscalls/merge_files.c:339-362 | short reads add up to a full buffer or all that is left |
| MergeFiles.InFile.ReadChar | syscalls/merge_files.c:364-390 | the next byte of the file, whatever its value; the end exactly when nothing is left |
| MergeFiles.OutFile.WriteAll | syscalls/merge_files.c:392-415 | the first bytes of the buffer get out, and all of them unless this call saw write return 0; failure exactly when it saw write return -1 |
| MergeFiles.NoDrops | syscalls/merge_files.c:417-423 | nothing is missing from the output if and only if nothing was dropped |
| MergeFiles.OutFile.Flush | syscalls/merge_files.c:417-423 | the buffer is empty afterwards, and a stretch of it was dropped if and only if this call saw write return 0 |
| MergeFiles.OutFile.WriteChar | syscalls/merge_files.c:425-437 | appends a byte to what was emitted, for every buffer size from 1 |
| MergeFiles.CopyLine | syscalls/merge_files.c:439-451 | exactly the next line is copied, with or without a final newline; terminates |
| MergeFiles.ShuffleLines | syscalls/merge_files.c:453-474 | the output is the interleaving if and only if no write returned 0; in every run it is a beginning of the interleaving without one stretch for every write that returned 0; it fails only if a call fails; the loop terminates |
| MergeFiles.ZeroWrite | syscalls/merge_files.c:392-423 | a run whose first write returns 0 ends with success and without the interleaving |

## Left out

- Hardware: disk controller, interrupts, APIC, console, boot code and assembly; a disk block is written in one step, as memide.c does.
- Locks: spinlock and sleeplock internals and memory ordering; a section that holds the lock is one step.
- LogSafety.KeepLogWrite: not for an append that finds the log region full, because the invariant fails then; LogReservation.SpillReachableIff says when there is one.
- LogRuns.KeepStep: the same exception.
- LogRuns.InvAlongRun: up to such an append; LogBudget.BudgetContains rules it out for budgets that fit.
- LogRuns.CrashAtomicity: up to such an append; LogSpill.CrashAtomicIff says when it holds without that hypothesis.
- LogRuns.ReadsSeeLastLogged: up to such an append.
- LogRuns.NoInstallBeforeCommitPoint: up to such an append.
- FsCrash.CrashInFileWrite: up to such an append; FsCrash.LoggedFileWrite has none.
- Journal.Log: its methods run one at a time, the test and the append of log_write one after the other; the interleavings of operations are in LogMachine and LogReservation. Its cache is the map from blocks to contents that BufferCache.BCache implements; bread of the two is tied together in Journal.CachedBread, the other calls by the equal contracts of their methods.
- BufferCache.BCache: other devices than ROOTDEV are not modelled.
- FileSystem.FS: devices, directories, paths, ialloc and the reference counts of the inode cache are not modelled; type, major, minor and nlink are carried as two words. Blocks are read and written through the logical view that the log theorems justify.
- FileSystem.FS.Readi: allocating for a hole calls log_write, which panics outside a transaction; fileread has none. Without holes this does not arise.
- FileSystem.FS.FileWrite: needs files without holes, which every modelled operation keeps, because with a hole at its start the bound on the blocks that a chunk logs is MAXOPBLOCKS + 1; mkfs.c:157-162 rounds the size of the root directory up and can leave a hole at its end. It runs alone: the inode lock is released between chunks, so that another writer of the same file could come in there; pipes and devices behind a file are not modelled.
- FsCrash.LoggedFileWrite: each transaction goes to the log after its writes to the image and not call by call, and no other operation shares its group; LogRuns.OperationsAreAtomic covers shared groups.
- Vm.Kernel: the physical memory of page tables and directories is typed (tables of entries, pages of bytes); frames hold one or the other. Accessed and dirty bits, inituvm, loaduvm, clearpteu, copyout and the TLB are not modelled.
- Vm.Kernel.Allocuvm: the pages it maps must be absent, which growth past the size of a process guarantees; otherwise the source panics.
- UserMemory.Process.Run: accesses at or above the size of the process stop the run, because there a present last page can be used and an absent one kills; Processes.System.Run goes on with either.
- Processes.System: the limit of NPROC slots, and who may wait for whom, are in ProcTable and SchedFamily; the memory parts of fork, exit and wait are one event each. Accesses of the kernel to user memory are not modelled.
- Processes.AsIfAlone: a process that reaches into the rest of its last page is left out, because what it gets there depends on whether the page is present.
- ProcTable.PTable: file descriptors, trap frames and context switches; exec; the two sections of fork are one after the other without what runs between them.
- SchedSafety: no liveness beyond BoundedWait; a process of normal priority can wait for as long as the high queue is non-empty.
- SchedFamily: that wait looks for exited children before it sleeps is a hypothesis on runs, and what ProcTable.PTable.Wait states; so is that userinit comes before any other process, as main.c:36 has it.
- PipeMachine: an end stays open while a process is inside a call on it, because that process holds a file reference.
- Umalloc.Heap: addresses are units of 8 bytes, the base header lies below the heap, and sbrk returns memory above all earlier memory; these are hypotheses on the linker and on sys_sbrk.
- Shell: runcmd, cd and the prompt; the command tree is a value, and argv is filled before the redirections are wrapped around it instead of in place afterwards.
- MergeFiles: option parsing, access checks and opening of files; a failing read or write ends the program, and bytes are not counted twice.
- exec.c, sysfile.c, the other programs in `syscalls/` and the small user programs: mostly glue over what is modelled here.
