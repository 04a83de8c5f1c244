# Verified models of the xv6-riscv kernel core

A Dafny project about the parts of this xv6-riscv kernel (with its energy-aware scheduler, deadlock detectors and
Peterson-locked pipe) where correctness rests on an argument over many steps. Each component is modelled with the
branches, constants and error paths of the C code, and its promises are proved for all inputs, all runs or all
interleavings. `dafny verify dfyconfig.toml` checks everything.

## Components

- **Write-ahead log.** `CrashLog` is the crash analysis: the disk is a sequence of blocks, one whole block is written at
  a time, and the machine may stop between any two writes of commit or of recovery. `LogDevice` is the log code over a
  cache and a disk, proved to make exactly the writes that the analysis is about. `CrashHistory` puts any number of
  transactions in a row, with a crash anywhere. `LogReservation` is the admission control of begin_op, log_write and
  end_op under every interleaving.
- **Buffer cache.** `BufferCache` is a state machine of threads that get, read, change, log and release buffers, one of
  which goes through commit step by step. `LruList` is the doubly linked list and the two scans of bget, as code.
- **File system.** `BlockFormat` has the bitmap and address encodings, `FileSystem` the block allocator, bmap, itrunc,
  readi and writei on a disk with any number of inodes, and `FileWrite` the transactions of filewrite. A ghost map gives
  every block in use the one slot that refers to it; a file is a sequence of bytes; the blocks handed to log_write are
  compared with the blocks that changed. `DiskImage` lays such a disk out in blocks and reads it back, and `CrashWrite`
  joins this to the crash analysis: filewrite, a crash at any block write, recovery.
- **Pages and page tables.** `PageTable` has page-table words, the three-level lookup and the role of every page;
  `VirtualMemory` kalloc, kfree, walk, mappages and uvmunmap as code; `PageMap` the refinement of a partial map;
  `UserMemory` growth, shrinking, copying and faults with their rollbacks; `PageTableFree` freewalk and uvmfree;
  `ProcessMemory` the page tables of processes; `Processes` trapframes, allocproc, kfork, freeproc and all processes
  together.
- **User heap.** `KrHeap` is malloc, free and morecore over link and size fields in memory.
- **Concurrency.** `PetersonPipe` takes single loads and stores as steps; `SleepWakeup` takes the steps between lock
  operations of sleep, wakeup and kill.
- **Deadlock detection.** `WaitGraph` has the graph theory; `ResourceDeadlock` is check_deadlock and `SleepLockDeadlock`
  the check in acquiresleep, each with its recovery.
- **Scheduler and grep.** `EnergyScheduler` has the energy accounting and the three passes; `GrepMatcher` the matcher
  against the language of the parsed pattern. `Collections` and `Params` hold what several modules
  share.

Code that updates state in place is modelled by classes with methods and loops; protocols of several threads are step
functions on a state. Panics are preconditions of the methods that would panic, and every caller in the model is proved
to meet them, so they are unreachable from there; where a panic can be reached the contract says exactly when.

## Assumptions

- A block write reaches the disk as a whole or not at all, and blocks logged lie outside the log.
- Buffers are changed within a transaction and logged before they are released, as all callers in the kernel do.
- The pipe has one writing and one reading thread, and memory is sequentially consistent between them, which is what
  the fences are for. Calling sleep with a null lock is taken as giving up and asking again for the Peterson lock.
- sbrk is a parameter of malloc: it fails or returns memory above everything handed out before. That fewer than 2^32
  units of 16 bytes are obtained always holds on this machine: malloc's sbrk allocates eagerly (user/ulib.c:153-154) and
  there are 128 MiB of memory, or 2^23 units (kernel/memlayout.h:40).
- copyin and copyout work up to a limit given from outside and fail there; killed is an answer of the environment.

## What turned out otherwise

- `MAXOPBLOCKS` is described as the largest number of blocks a call writes. With several processes the log is safe if
  and only if every call logs fewer than that many, with one process fewer than LOGBLOCKS (`LogReservation.NoPanicIff`):
  log_write panics on a full log even for a block that is already in it.
- check_deadlock can make a process wait for somebody new; `ResourceDeadlock.RecoveryAddsNoEdgeIff` says exactly when.
- energy_budget and energy_consumed drift apart when the 64-bit counter wraps; `EnergyScheduler.BalancedIff` says
  exactly when they agree, `EnergyScheduler.WrapMisleads` what the scheduler then does.
- morecore passes its byte count through a 32-bit int; `KrHeap.SbrkArgExactIff` says exactly when that is harmless.
- writei does not log a block into which a copy failed midway, but the bytes copied before that stay in its buffer. For
  such writes not every change is logged; `FileSystem.StrayBlock` says exactly when, `FileSystem.StrayWrite` that it can
  be any byte of any file.
- growproc reports success for a shrink below zero and changes nothing (`Processes.Procs.Growproc`).

## Model

| member | source | states |
|---|---|---|
| `CrashLog.HeaderRoundTrip` | xv6-riscv/kernel/log.c:87-115 | Reading back the header block that write_head wrote gives the same count and block numbers, whatever stale words follow them. |
| `CrashLog.AfterLogWrites` | xv6-riscv/kernel/log.c:179-192 | After any number k of the writes of write_log, exactly the first k log blocks have new contents; the header and every home block are as before. |
| `CrashLog.AfterHomeWrites` | xv6-riscv/kernel/log.c:66-84 | After any number k of the writes of install_trans, exactly the first k named blocks have their new contents. |
| `CrashLog.InstallKeepsHome` | xv6-riscv/kernel/log.c:66-84 | A partly installed committed log is still the same log and still promises the same contents for every home block. |
| `CrashLog.InstallReachesHome` | xv6-riscv/kernel/log.c:66-84 | A fully installed committed log leaves every home block with the promised contents. |
| `CrashLog.RecoveryKeepsHome` | xv6-riscv/kernel/log.c:117-124 | A recovery that stops after any write leaves a valid log promising the same contents; a complete one also empties the log. |
| `CrashLog.BootsReachHome` | xv6-riscv/kernel/log.c:117-124 | However many times recovery is cut short, at whatever write, the last boot ends with every home block installed and an empty log. |
| `CrashLog.HeaderCommits` | xv6-riscv/kernel/log.c:194-199 | Once write_log and write_head are done, the on-disk log holds exactly the transaction and no home block has changed. |
| `CrashLog.CommittedHome` | xv6-riscv/kernel/log.c:194-199 | Such a log promises the contents after the transaction for every home block. |
| `CrashLog.EarlyCrash` | xv6-riscv/kernel/log.c:194-199 | A crash before the header write leaves an empty log and the old contents. |
| `CrashLog.CommitIsRedo` | xv6-riscv/kernel/log.c:117-124 | What commit writes after the header is what recovery would write. |
| `CrashLog.LateCrashIsRecovery` | xv6-riscv/kernel/log.c:194-204 | A crash after the header write leaves the disk that an interrupted recovery of the committed log leaves. |
| `CrashLog.LateCrash` | xv6-riscv/kernel/log.c:194-204 | From such a crash on, the log promises the contents after the transaction. |
| `CrashLog.CrashAtomic` | xv6-riscv/kernel/log.c:66-204 | Crash atomicity: for every crash point of commit and every sequence of crashes of the recoveries that follow, all home blocks end with their old contents or all with the new ones, the latter exactly when the header write reached the disk; the log ends empty. |
| `LogDevice.Device.Bread` | xv6-riscv/kernel/bio.c:91-103 | The cached contents if there are any, else those on disk. |
| `LogDevice.Device.WriteLog` | xv6-riscv/kernel/log.c:178-192 | The writes that reach the disk are exactly those of the crash analysis, in order, and the log blocks end up with the cached contents. |
| `LogDevice.Device.CopyToLog` | xv6-riscv/kernel/log.c:184-191 | One round of write_log: one block write, of the cached contents of the logged block. |
| `LogDevice.Device.WriteHead` | xv6-riscv/kernel/log.c:100-115 | One block write: the header with the in-memory count and block numbers. |
| `LogDevice.Device.ReadHead` | xv6-riscv/kernel/log.c:86-98 | The in-memory header becomes the list on disk. |
| `LogDevice.Device.LogWrite` | xv6-riscv/kernel/log.c:215-236 | The block is in the log exactly once, in its old place if it was there already, its buffer pinned exactly then once, and the cached contents are what a commit will write. |
| `LogDevice.Device.InstallTrans` | xv6-riscv/kernel/log.c:65-84 | Exactly the home writes of the crash analysis, after which the cache agrees with the disk and, unless recovering, nothing is pinned any more. |
| `LogDevice.Device.InstallBlock` | xv6-riscv/kernel/log.c:71-83 | One round of install_trans: one block write, of a log block to its home, and its unpinning unless recovering. |
| `LogDevice.Device.CopyHome` | xv6-riscv/kernel/log.c:75-78 | The copy of that round: the home block gets the contents of the log block, and afterwards its buffer agrees with the disk. |
| `LogDevice.Device.constructor` | xv6-riscv/kernel/log.c:53-63 | A device at boot, with the disk it finds. |
| `LogDevice.Device.Commit` | xv6-riscv/kernel/log.c:194-204 | Exactly the sequence of block writes whose every prefix the crash analysis covers, none when nothing was logged; the log is empty afterwards, and the transaction is the last of the serial history since recovery. |
| `LogDevice.Device.WriteOut` | xv6-riscv/kernel/log.c:196-201 | The writes of a commit that has something to commit. |
| `LogDevice.Device.RecoverFromLog` | xv6-riscv/kernel/log.c:117-124 | Exactly the recovery writes of the crash analysis; the log is empty afterwards, and a serial history starts. |
| `LogDevice.Device.CrashSafe` | xv6-riscv/kernel/log.c:1-24 | The device may crash after any of the writes it has made since recovery, in whichever transaction, and then during any number of recoveries: every home block gets the contents after exactly the transactions whose header write had reached the disk, and the log is empty. |
| `CrashHistory.CompleteCommit` | xv6-riscv/kernel/log.c:194-204 | A complete commit leaves an empty log and every home block updated. |
| `CrashHistory.TraceReaches` | xv6-riscv/kernel/log.c:194-204 | The block writes of any number of transactions one after the other lead to the disk after them. |
| `CrashHistory.DiskHasContents` | xv6-riscv/kernel/log.c:194-204 | On that disk each home block holds what the last transaction that changed it wrote. |
| `CrashHistory.CrashInLast` | xv6-riscv/kernel/log.c:194-204 | A crash in the last of many commits loses that transaction or keeps it, according to its header write, and none before it. |
| `CrashHistory.CrashAnywhere` | xv6-riscv/kernel/log.c:1-24 | The same for a crash after any prefix of the writes of any number of transactions. |
| `CrashHistory.CrashSince` | xv6-riscv/kernel/log.c:1-24 | The same for a device that made other writes before. |
| `LogReservation.Absorb` | xv6-riscv/kernel/log.c:226-234 | Recording a block leaves each block once in the log. |
| `LogReservation.ReservedUpdate` | xv6-riscv/kernel/log.c:134-138 | How the slots promised to the calls under way change when one of them starts, logs or ends. |
| `LogReservation.ReservedBounds` | xv6-riscv/kernel/log.c:134-138 | A call that keeps its promise always has a slot left, and never more than MAXOPBLOCKS. |
| `LogReservation.LogWriteKeepsInv` | xv6-riscv/kernel/log.c:215-236 | Logging a block fits in the log, and uses up a reserved slot exactly when the block is new. |
| `LogReservation.StepKeepsInv` | xv6-riscv/kernel/log.c:126-236 | Every step of every process keeps the log within its reservations and reaches no panic. |
| `LogReservation.NoOverflow` | xv6-riscv/kernel/log.c:126-236 | If every call logs fewer than MAXOPBLOCKS distinct blocks, then over every interleaving the log holds at most LOGBLOCKS distinct blocks, commits only with no call outstanding, and no panic of log_write or end_op is reached. |
| `LogReservation.TwoSlotsPanic` | xv6-riscv/kernel/log.c:221-222 | With two processes and MAXOPBLOCKS blocks allowed per call there is a run that panics, on a block already in the log. |
| `LogReservation.OneSlotPanics` | xv6-riscv/kernel/log.c:221-222 | With one process and LOGBLOCKS blocks allowed per call there is one too. |
| `LogReservation.AloneRun` | xv6-riscv/kernel/log.c:126-236 | A single process whose calls each log fewer than LOGBLOCKS blocks never panics. |
| `LogReservation.NoPanicIff` | xv6-riscv/kernel/log.c:126-236 | For every number of processes and every bound on the distinct blocks a call logs: no run of calls that each log fewer than the bound panics if and only if the bound is at most MAXOPBLOCKS, or at most LOGBLOCKS with one process, or there is no process. |
| `BufferCache.RecycleKeepsInv` | xv6-riscv/kernel/bio.c:75-87 | Giving an unused buffer to another block keeps one buffer for each block, refcnt equal to the users plus the log's pin, and every buffer unchanged since it was read equal to what its block looks like. |
| `BufferCache.LogWriteKeepsInv` | xv6-riscv/kernel/log.c:215-236 | So does log_write, which pins the buffer unless its block is in the log already. |
| `BufferCache.GetKeepsInv` | xv6-riscv/kernel/log.c:185-186 | So do the breads of a round of write_log and of install_trans. |
| `BufferCache.CopyKeepsInv` | xv6-riscv/kernel/log.c:187-187 | So does the copy between the two buffers of a round, of which only the target then differs from what its block looks like. |
| `BufferCache.SourceIsLogged` | xv6-riscv/kernel/log.c:178-192 | What a round of write_log or install_trans is about to write is the logged contents of the block of that round. |
| `BufferCache.StoreKeepsInv` | xv6-riscv/kernel/bio.c:105-112 | bwrite of a buffer with those contents keeps it. |
| `BufferCache.UnpinKeepsInv` | xv6-riscv/kernel/bio.c:146-151 | So does bunpin, as the block is installed by then. |
| `BufferCache.ReleaseSourceKeepsInv` | xv6-riscv/kernel/log.c:81-82 | So does the release of the buffer that a round copied from. |
| `BufferCache.StepKeepsInv` | xv6-riscv/kernel/bio.c:58-151 | All of it holds for every step of every thread, the committing one in its program order. |
| `BufferCache.RunKeepsInv` | xv6-riscv/kernel/bio.c:58-151 | And for every run. |
| `BufferCache.CacheRefinesView` | xv6-riscv/kernel/bio.c:58-151 | In every reachable state a block has at most one buffer, a logged block's buffer is valid and has a positive refcnt, and a buffer read and not changed holds the disk contents overlaid by the logged writes. |
| `BufferCache.UnpinFindsInstalled` | xv6-riscv/kernel/log.c:78-80 | Whenever install_trans comes to bunpin, the disk holds the logged contents of that block. |
| `BufferCache.LoggedNotRecycled` | xv6-riscv/kernel/bio.c:75-87 | The buffer of a logged block keeps its block until install_trans unpins it. |
| `BufferCache.ViewChanges` | xv6-riscv/kernel/log.c:206-236 | What a block outside the log looks like changes only by the log_write of a thread in a transaction that holds its buffer, and then to the buffer's contents. |
| `BufferCache.CommitInstalls` | xv6-riscv/kernel/log.c:194-204 | Through a whole commit, whatever other threads read meanwhile, no such block looks different at any time; when all rounds of install_trans are done the disk holds what it looked like. |
| `BufferCache.CommitMoves` | xv6-riscv/kernel/log.c:194-204 | A commit whose breads return can always take its next step. |
| `LruList.Unlink` | xv6-riscv/kernel/bio.c:128-129 | Taking a buffer out leaves a ring in order of last release. |
| `LruList.PushFront` | xv6-riscv/kernel/bio.c:130-133 | Putting it behind the head makes it the most recently released one and keeps the order of the others. |
| `LruList.Cache.constructor` | xv6-riscv/kernel/bio.c:36-53 | binit builds a ring of all buffers, in order. |
| `LruList.Cache.FindCached` | xv6-riscv/kernel/bio.c:65-73 | The scan finds the block if and only if some buffer caches it. |
| `LruList.Cache.FindUnused` | xv6-riscv/kernel/bio.c:75-87 | The scan finds the unused buffer released longest ago, and none only if all are in use. |
| `LruList.Cache.Bget` | xv6-riscv/kernel/bio.c:58-89 | The cached buffer with one more reference, or the least recently used unused one given to the block; the panic exactly when the block is not cached and every buffer is in use. |
| `LruList.Cache.Brelse` | xv6-riscv/kernel/bio.c:116-137 | One reference less; the last one makes the buffer the newest of the ring. |
| `BlockFormat.MaskBits` | xv6-riscv/kernel/fs.c:76-103 | Setting or clearing bit j of a bitmap byte changes bit j and no other. |
| `BlockFormat.WordPut` | xv6-riscv/kernel/fs.c:430-436 | An address written to the indirect block is read back, and the other addresses in it do not change. |
| `FileSystem.OwnedOnce` | xv6-riscv/kernel/fs.c:405-476 | A non-zero block number occurs in one slot of one inode only, and is marked in the bitmap. |
| `FileSystem.FreeNotOwned` | xv6-riscv/kernel/fs.c:66-89 | A block that is not marked occurs in no inode. |
| `FileSystem.AllocatedOwned` | xv6-riscv/kernel/fs.c:66-89 | Marking and zeroing a free block keeps block ownership. |
| `FileSystem.AllocatedKeeps` | xv6-riscv/kernel/fs.c:50-89 | Zeroing the block that balloc returns changes no file. |
| `FileSystem.EnteredOwned` | xv6-riscv/kernel/fs.c:405-441 | Entering a fresh block in an empty slot, direct, indirect or listed, keeps block ownership. |
| `FileSystem.EnteredKeeps` | xv6-riscv/kernel/fs.c:405-441 | And changes no file. |
| `FileSystem.FilledOk` | xv6-riscv/kernel/fs.c:405-441 | Allocating and entering a block together keep the invariant and all files, and all that changes on disk is the blocks logged: the bitmap block, the new block, and the indirect block for a listed one. |
| `FileSystem.RecordedTrans` | xv6-riscv/kernel/fs.c:528-562 | If two steps each log every block they change on disk, so do both together. |
| `FileSystem.WroteOthers` | xv6-riscv/kernel/fs.c:543-549 | Bytes copied into a block of one file change no other file. |
| `FileSystem.WroteByte` | xv6-riscv/kernel/fs.c:543-549 | In the file itself exactly the bytes copied change. |
| `FileSystem.ProgressMade` | xv6-riscv/kernel/fs.c:539-551 | After each round of writei's loop the bytes written so far are in the file, and nothing else has changed. |
| `FileSystem.ProgressEnds` | xv6-riscv/kernel/fs.c:553-562 | When the loop stops, early or not, the bytes stored are in the file as far as the size recorded reaches. |
| `FileSystem.RoundsGoOn` | xv6-riscv/kernel/fs.c:539-551 | A round that succeeds leaves all changes logged and the write at a block boundary or its end; one that fails stops the loop with all changes logged or all but those of one block. |
| `FileSystem.WriteEnds` | xv6-riscv/kernel/fs.c:553-561 | Then the new size and iupdate leave the invariant, the inode on disk equal to the one in memory, and the file overwritten. |
| `FileSystem.StrayBlock` | xv6-riscv/kernel/fs.c:545-550 | When a copy failed inside a block, every change on disk is logged if and only if that block was logged before or has not changed. |
| `FileSystem.StrayWrite` | xv6-riscv/kernel/fs.c:545-550 | A write to any one byte of any file whose source cannot be read past it: the byte is stored and its block is not logged. |
| `FileSystem.FileSys.Balloc` | xv6-riscv/kernel/fs.c:66-89 | The first unmarked block, now marked and zero; 0 exactly when every block is marked; only that block and its bitmap block are logged. |
| `FileSystem.FileSys.FillSlot` | xv6-riscv/kernel/fs.c:411-438 | The slot holds a block that no inode had, every other slot is as before, no file changes, and every block that changes on disk is logged. |
| `FileSystem.FileSys.Bmap` | xv6-riscv/kernel/fs.c:405-444 | The block of file block bn, allocated if there was none; ownership and all file contents are kept; 0 only when the disk is full; every block changed on disk is logged, and no other than bitmap, indirect and new data block. |
| `FileSystem.FileSys.BmapIndirect` | xv6-riscv/kernel/fs.c:420-441 | The same for the blocks beyond the direct ones. |
| `FileSystem.FileSys.LoadIndirect` | xv6-riscv/kernel/fs.c:424-429 | The indirect block, allocated if there was none, logged then; 0 only when the disk is full. |
| `FileSystem.FileSys.WriteChunk` | xv6-riscv/kernel/fs.c:539-551 | One round: the next bytes are in the file and every block changed is logged; or the disk is full; or the source ran out, and the bytes before that are in a block not logged for it. |
| `FileSystem.FileSys.CopyIn` | xv6-riscv/kernel/fs.c:543-548 | The copy puts exactly those bytes into the file and changes one block only. |
| `FileSystem.FileSys.WriteLoop` | xv6-riscv/kernel/fs.c:539-551 | The loop stores all bytes unless the disk is full or the source runs out, and then it stops at a block boundary. |
| `FileSystem.FileSys.Writei` | xv6-riscv/kernel/fs.c:528-562 | -1 exactly for the ranges refused, without effect; otherwise the file's byte sequence is overwritten at off by the bytes written, fewer only on a full disk or when the source runs out; no other file changes; every block that changes on disk is logged, only bitmap, inode, indirect and data blocks of the range are, and the inode on disk is the one in memory. If the source runs out inside a block, what was stored there is the one exception, named exactly. |
| `FileSystem.FileSys.RecordSize` | xv6-riscv/kernel/fs.c:553-559 | The new size and iupdate, after which all this holds. |
| `FileSystem.FileSys.Iupdate` | xv6-riscv/kernel/fs.c:226-242 | The inode on disk is the one in memory, no other changes, and its block is logged. |
| `FileSystem.FileSys.Readi` | xv6-riscv/kernel/fs.c:494-519 | The slice of the byte sequence clipped to the size, or -1 and as much of it as the destination takes; nothing is allocated, logged or changed. |
| `FileSystem.FileSys.ReadLoop` | xv6-riscv/kernel/fs.c:505-518 | The same once the length is clipped. |
| `FileSystem.FileSys.ReadBlock` | xv6-riscv/kernel/fs.c:505-517 | One round of readi: the bytes of one block, found without allocation. |
| `FileSystem.FreeOneMore` | xv6-riscv/kernel/fs.c:92-106 | The block in the next slot is still marked, so bfree does not panic, and exactly that bit is cleared. |
| `FileSystem.TruncatedOwned` | xv6-riscv/kernel/fs.c:448-476 | After itrunc ownership holds with exactly the blocks of that inode gone. |
| `FileSystem.TruncatedFiles` | xv6-riscv/kernel/fs.c:448-476 | And every other file has its old contents. |
| `FileSystem.TruncatedSound` | xv6-riscv/kernel/fs.c:448-476 | All that changes on disk is the bitmap blocks of the freed blocks and the inode's block, and these are logged. |
| `FileSystem.FileSys.FreeDirect` | xv6-riscv/kernel/fs.c:455-460 | The bits of exactly the direct blocks are cleared, the bitmap blocks where a bit changed are logged, and the direct addresses are zero. |
| `FileSystem.FileSys.FreeIndirect` | xv6-riscv/kernel/fs.c:462-472 | The bits of exactly the listed blocks and of the indirect block are cleared, and the bitmap blocks where a bit changed are logged. |
| `FileSystem.FileSys.Itrunc` | xv6-riscv/kernel/fs.c:448-476 | Exactly the inode's blocks become free, the file is empty, no other file changes, every block that changes on disk is logged, and the inode on disk is the one in memory. |
| `FileSystem.ProgressContents` | xv6-riscv/kernel/fs.c:553-562 | And up to that size the file is the old byte sequence overwritten by the bytes stored. |
| `FileSystem.ProgressOthers` | xv6-riscv/kernel/fs.c:539-562 | Then every other file has the contents it had. |
| `FileSystem.FormattedOk` | xv6-riscv/mkfs/mkfs.c:94-112 | A disk as laid out before files are added, with its metadata blocks marked: no block belongs to a file and every file is empty. |
| `FileSystem.FileSys.constructor` | xv6-riscv/mkfs/mkfs.c:236-251 | The file system on such a disk meets the invariant. |
| `FileWrite.ChunkBound` | xv6-riscv/kernel/file.c:149-166 | A chunk of filewrite logs at most 7 distinct blocks, wherever it starts, when the bitmap fits one block. |
| `FileWrite.OverwriteTwice` | xv6-riscv/kernel/file.c:154-172 | Two adjacent writes are one write of the concatenation. |
| `FileWrite.WritesCompose` | xv6-riscv/kernel/file.c:154-172 | So the file after the next chunk is the original file overwritten by all bytes so far. |
| `FileWrite.File.Write` | xv6-riscv/kernel/file.c:149-173 | The file is overwritten at the old offset by the bytes written, the offset moves by their number, the result is the length or -1 if not all went in. Each transaction logs every block in which the disk after it differs from the disk before it, and fewer than MAXOPBLOCKS blocks; between transactions the disk meets the ownership invariant with the file at a chunk boundary. If the source runs out inside a block, this holds for all transactions but the last. |
| `FileWrite.File.Chunk` | xv6-riscv/kernel/file.c:160-165 | One transaction: what writei does to the file, the offset moved by what was written, every block that changed logged, at most 7 of them. |
| `FileWrite.File.NextChunk` | xv6-riscv/kernel/file.c:155-172 | A chunk adds one transaction and one state to the history of the write. |
| `FileWrite.HistoryGrows` | xv6-riscv/kernel/file.c:155-172 | After whole chunks, a transaction that logs what it changes continues the history. |
| `FileWrite.ChunkHistory` | xv6-riscv/kernel/file.c:155-172 | Whatever writei returns, the history goes on in order or ends with the one transaction that strayed. |
| `FileWrite.StrayEnds` | xv6-riscv/kernel/file.c:162-170 | In the second case all transactions before it are in order. |
| `DiskImage.BitReadBack` | xv6-riscv/kernel/fs.c:76-78 | A bit of the packed bitmap is the bit that was packed. |
| `DiskImage.WordReadBack` | xv6-riscv/kernel/fs.h:31-42 | A word of an inode block is the word of the inode that was stored. |
| `DiskImage.InodeReadBack` | xv6-riscv/kernel/fs.h:31-45 | An inode read from its block is the one written there. |
| `DiskImage.LoadedImage` | xv6-riscv/kernel/fs.h:5-51 | Laying the bitmap, the inodes and the data out in blocks and reading them back gives the same file system. |
| `DiskImage.LoadedSame` | xv6-riscv/kernel/fs.h:5-51 | What is read depends only on the blocks from the inodes on. |
| `DiskImage.UnloggedSame` | xv6-riscv/kernel/log.c:206-214 | If every change is logged, a block that is not logged has the same bytes before and after. |
| `CrashWrite.SomeTx` | xv6-riscv/kernel/log.c:215-236 | For every set of logged blocks there is a transaction that writes them. |
| `CrashWrite.ContentsAre` | xv6-riscv/kernel/log.c:1-24 | The block contents after the first k transactions are those of the k-th state of the file system. |
| `CrashWrite.CommitsSerial` | xv6-riscv/kernel/log.c:1-24 | These transactions fit the log, one after the other. |
| `CrashWrite.CrashBetween` | xv6-riscv/kernel/log.c:1-24 | A crash after any block write and any number of interrupted recoveries leave the file system as it was after exactly the transactions whose header had been written. |
| `CrashWrite.WriteSurvivesCrash` | xv6-riscv/kernel/file.c:149-173 | A crash at any block write of filewrite: after recovery the file system read from the disk meets the ownership invariant, and the file holds its old bytes overwritten by a whole number of chunks, or by all that was written; no other file has changed. |
| `PageTable.PteRoundTrip` | xv6-riscv/kernel/riscv.h:357-369 | The frame and the permissions are recovered from the word built from them. |
| `PageTable.IndexSplit` | xv6-riscv/kernel/riscv.h:371-380 | The three indices of an address below MAXVA determine its page number. |
| `PageTable.WalkStays` | xv6-riscv/kernel/vm.c:96-115 | Below MAXVA the walk meets only nodes of its own page table, of the right level and place. |
| `PageTable.LookupFrame` | xv6-riscv/kernel/vm.c:96-115 | What a page table translates depends on its own nodes only. |
| `PageTable.UserPageMapped` | xv6-riscv/kernel/vm.c:145-174 | A page that counts as a user page is mapped, at that place of that page table: none is lost. |
| `PageTable.MappedIsUserPage` | xv6-riscv/kernel/vm.c:145-174 | A page mapped below TRAPFRAME is mapped there only. |
| `PageTable.PoppedOk` | xv6-riscv/kernel/kalloc.c:68-82 | Taking the head of the free list keeps every page in exactly one role. |
| `PageTable.PushedOk` | xv6-riscv/kernel/kalloc.c:46-63 | So does putting a held page back. |
| `PageTable.LinkedOk` | xv6-riscv/kernel/vm.c:103-113 | Entering an empty node or a user page in an unused word gives that page its one place. |
| `PageTable.DetachedOk` | xv6-riscv/kernel/vm.c:203-210 | A user page can be taken out before its word is cleared. |
| `PageTable.ClearedOk` | xv6-riscv/kernel/vm.c:203-210 | Clearing a word that no page depends on restores the invariant. |
| `PageTable.WordLookup` | xv6-riscv/kernel/vm.c:145-212 | Changing a word of a bottom node changes the translation of one page number in one page table. |
| `PageTable.LinkLookup` | xv6-riscv/kernel/vm.c:103-113 | A new, empty node changes no translation. |
| `VirtualMemory.Vm.constructor` | xv6-riscv/kernel/kalloc.c:26-40 | kinit puts every whole page from end to PHYSTOP on the free list. |
| `VirtualMemory.Vm.Freerange` | xv6-riscv/kernel/kalloc.c:33-40 | Every page of the range becomes free, each once. |
| `VirtualMemory.Vm.Kalloc` | xv6-riscv/kernel/kalloc.c:65-82 | The head of the free list, overwritten and held; 0 exactly when the list is empty. |
| `VirtualMemory.Vm.Kfree` | xv6-riscv/kernel/kalloc.c:46-63 | A held page becomes the head of the list; the panic is not reached. |
| `VirtualMemory.Vm.Walk` | xv6-riscv/kernel/vm.c:96-115 | The bottom node for va in its place; with alloc the nodes added come from the free list and change no translation; 0 only when there is none and, with alloc, at most one page was free. |
| `VirtualMemory.Vm.Descend` | xv6-riscv/kernel/vm.c:103-113 | One level of walk. |
| `VirtualMemory.Vm.Walkaddr` | xv6-riscv/kernel/vm.c:117-138 | The frame of the partial map at that page number if it is mapped for the user, else 0; nothing changes. |
| `VirtualMemory.Vm.Ismapped` | xv6-riscv/kernel/vm.c:475-486 | Whether the page number is in the partial map. |
| `VirtualMemory.Vm.Mappages` | xv6-riscv/kernel/vm.c:140-174 | The page numbers done, in order, get the frames and permissions; nothing else changes in any page table; all are done unless the free pages do not suffice for the nodes; a remap panic is not reached. |
| `VirtualMemory.MappedTrans` | xv6-riscv/kernel/vm.c:159-173 | Rounds of mappages add up. |
| `VirtualMemory.Vm.Uvmunmap` | xv6-riscv/kernel/vm.c:189-212 | The page numbers of the range are unmapped, missing ones passed over; their pages are free exactly when asked; nothing else changes in any page table. |
| `VirtualMemory.UnmappedTrans` | xv6-riscv/kernel/vm.c:200-211 | Rounds of uvmunmap add up. |
| `VirtualMemory.Vm.ClearLeaf` | xv6-riscv/kernel/vm.c:203-210 | Freeing the frame and then clearing the word leaves every page in one role. |
| `PageMap.MapUpdates` | xv6-riscv/kernel/vm.c:140-174 | On the partial map from page numbers to frames and permissions mappages is update, |
| `PageMap.MapKeepsOthers` | xv6-riscv/kernel/vm.c:140-174 | and leaves the map of every other page table alone. |
| `PageMap.UnmapRemoves` | xv6-riscv/kernel/vm.c:189-212 | uvmunmap is removal, |
| `PageMap.UnmapKeepsOthers` | xv6-riscv/kernel/vm.c:189-212 | and leaves the map of every other page table alone. |
| `UserMemory.RolledBack` | xv6-riscv/kernel/vm.c:224-237 | Unmapping what was mapped since a state leaves every page as it was then, but for page-table nodes. |
| `UserMemory.PageKept` | xv6-riscv/kernel/vm.c:214-240 | Pages taken later leave a user page's mapping and contents alone. |
| `UserMemory.TakePage` | xv6-riscv/kernel/vm.c:223-237 | One page allocated, filled and mapped; or nothing but nodes taken, when at most two pages were free. |
| `UserMemory.Uvmdealloc` | xv6-riscv/kernel/vm.c:242-258 | The smaller size, and the pages between the two rounded sizes freed. |
| `UserMemory.Uvmalloc` | xv6-riscv/kernel/vm.c:214-240 | Every page from the old to the new size is a new zero page with the permissions asked; or 0, with every user page it took given back, only when fewer than three pages were free for each page wanted; or the old size when that is larger. |
| `UserMemory.AllocNext` | xv6-riscv/kernel/vm.c:223-238 | One round with both failure paths. |
| `UserMemory.Uvmcopy` | xv6-riscv/kernel/vm.c:290-324 | The child has its own copy of exactly the parent's pages below sz, with the same permissions and contents; or -1, with every user page it took given back, only when fewer than three pages were free for each page to copy. |
| `UserMemory.CopyNext` | xv6-riscv/kernel/vm.c:304-317 | One round, holes in the parent's memory included. |
| `UserMemory.Vmfault` | xv6-riscv/kernel/vm.c:448-473 | A zero page in the process's page table where the page table given has none; without effect beyond the size or where a page is mapped; otherwise it fails only for want of memory, and then no page is lost and no mapping changes. |
| `PageTableFree.RetiredOk` | xv6-riscv/kernel/vm.c:264-278 | A node without valid words whose parent is being freed can leave the page table. |
| `PageTableFree.ChildFreed` | xv6-riscv/kernel/vm.c:266-272 | After a child is freed, its word can be cleared and the loop go on. |
| `PageTableFree.Freewalk` | xv6-riscv/kernel/vm.c:260-278 | With no user pages left, the node and all below it are freed, nothing else changes, and the leaf panic is not reached. |
| `PageTableFree.NoneLeft` | xv6-riscv/kernel/vm.c:260-278 | A page table whose root is gone has no pages. |
| `PageTableFree.Uvmfree` | xv6-riscv/kernel/vm.c:280-288 | With nothing mapped at or above sz, every page of the page table is on the free list afterwards and every other page is as it was. |
| `PageTableFree.Uvmcreate` | xv6-riscv/kernel/vm.c:176-187 | A page table that maps nothing, from one free page; 0 exactly when there is none. |
| `PageTableFree.CreationUndone` | xv6-riscv/kernel/proc.c:211-226 | A page table created and freed again leaves free pages free and all other pages as they were. |
| `ProcessMemory.ProcPagetable` | xv6-riscv/kernel/proc.c:197-229 | A new page table with exactly the trampoline and the trapframe; or 0 and nothing lost on any of the three failure paths, when fewer than five pages were free. |
| `ProcessMemory.ProcFreepagetable` | xv6-riscv/kernel/proc.c:231-239 | All pages of the page table are freed, except the two kept elsewhere. |
| `ProcessMemory.TableTaken` | xv6-riscv/kernel/proc.c:257-278 | Taking pages below a process's size keeps the size invariant of every process. |
| `ProcessMemory.TableShrunk` | xv6-riscv/kernel/proc.c:257-278 | So does giving up the pages above a smaller size. |
| `ProcessMemory.TableNew` | xv6-riscv/kernel/proc.c:197-229 | So does a new page table, of size 0. |
| `ProcessMemory.TableGone` | xv6-riscv/kernel/proc.c:231-239 | So does freeing one. |
| `Processes.BornEmpty` | xv6-riscv/kernel/proc.c:142-155 | A process whose pages come from the free list has its trapframe and page table and no other page. |
| `Processes.BirthKeeps` | xv6-riscv/kernel/proc.c:142-155 | Setting it up keeps the sizes, page tables and trapframes of all processes. |
| `Processes.FramesBorn` | xv6-riscv/kernel/proc.c:142-155 | The trapframe of a new process belongs to it alone. |
| `Processes.DeathKeeps` | xv6-riscv/kernel/proc.c:169-179 | Taking a process down keeps the sizes, page tables and trapframes of the others. |
| `Processes.FramesDied` | xv6-riscv/kernel/proc.c:172-174 | Taking a process down leaves the trapframes of the others where they are. |
| `Processes.NeverBorn` | xv6-riscv/kernel/proc.c:288-292 | A child that could not be completed leaves free pages free and all others as they were. |
| `Processes.Procs.constructor` | xv6-riscv/kernel/proc.c:46-60 | No process, and the pages kept by the kernel. |
| `Processes.Procs.Growproc` | xv6-riscv/kernel/proc.c:257-278 | The new size with all its zero pages, or -1 with the old size and only nodes taken, because of TRAPFRAME or too few free pages; a shrink frees the pages above; a shrink below zero changes nothing and reports success. |
| `Processes.Procs.Grow` | xv6-riscv/kernel/proc.c:265-273 | The growing half. |
| `Processes.Procs.Shrink` | xv6-riscv/kernel/proc.c:273-275 | The shrinking half, in 64-bit arithmetic. |
| `Processes.Procs.Sbrk` | xv6-riscv/kernel/sysproc.c:70-96 | The old size or -1; lazy growth changes the size only, up to TRAPFRAME. |
| `Processes.Procs.Fault` | xv6-riscv/kernel/trap.c:72-74 | A page fault supplies a zero page exactly where one is missing below the process's size, as long as three pages are free. |
| `Processes.Procs.Allocproc` | xv6-riscv/kernel/proc.c:142-155 | A process with a trapframe and a page table of its own, made of free pages only; or 0 on either failure path, with free pages free and all others as they were, when fewer than six pages were free. |
| `Processes.Procs.Freeproc` | xv6-riscv/kernel/proc.c:169-179 | The process's trapframe, page table and pages are free, and every other page is as it was. |
| `Processes.Procs.Fork` | xv6-riscv/kernel/proc.c:282-299 | A child with a copy of the parent's memory, a trapframe and a page table, all from free pages, with every other page as it was; or 0 with nothing lost and too few free pages. |
| `Processes.Procs.Run` | xv6-riscv/kernel/proc.c:109-299 | After every sequence of first process, fork, exit, eager and lazy sbrk and page faults of any processes: each size is at most TRAPFRAME, each process's pages lie below its rounded size or are the two fixed ones, every page is free, in one place of one live process's page table, or a held page that was kept from the start or is the trapframe of one live process, and no panic is reached. |
| `Processes.Boot` | xv6-riscv/kernel/kalloc.c:26-40 | From kinit on, after every such sequence, every page of memory is free, in the page table of a live process or the trapframe of one: none is lost. |
| `KrHeap.CircleInsert` | xv6-riscv/user/umalloc.c:36-43 | Linking a block in between keeps the list circular and in address order. |
| `KrHeap.CircleRemove` | xv6-riscv/user/umalloc.c:76-77 | So does taking one out. |
| `KrHeap.FreedCoalesced` | xv6-riscv/user/umalloc.c:33-42 | After free no two free blocks touch or overlap. |
| `KrHeap.FreedLiveOk` | xv6-riscv/user/umalloc.c:33-42 | And no live block overlaps a free one. |
| `KrHeap.FreedUnits` | xv6-riscv/user/umalloc.c:33-42 | The free units grow by exactly the units of the block. |
| `KrHeap.MergedUnits` | xv6-riscv/user/umalloc.c:33-42 | What free adds up are sizes of blocks that are apart. |
| `KrHeap.FreedNoWrap` | xv6-riscv/user/umalloc.c:33-42 | As long as fewer than 2^32 units were obtained, no size addition of free wraps. |
| `KrHeap.WrappedExactIff` | xv6-riscv/user/umalloc.c:33-42 | The 32-bit sizes that free leaves are those of the merged blocks if and only if none of its additions reaches 2^32. |
| `KrHeap.Heap.constructor` | xv6-riscv/user/umalloc.c:21-22 | The heap before the first call of malloc. |
| `KrHeap.FreedCircle` | xv6-riscv/user/umalloc.c:33-42 | The links after free form a circle in address order in all four merging cases. |
| `KrHeap.CarvedOk` | xv6-riscv/user/umalloc.c:78-82 | The tail that malloc hands out overlaps no live and no free block. |
| `KrHeap.CarvedUnits` | xv6-riscv/user/umalloc.c:75-84 | Live plus free units stay the same. |
| `KrHeap.NUnits` | xv6-riscv/user/umalloc.c:69-69 | Enough units for nbytes after the header, and not one more than needed. |
| `KrHeap.SbrkArgExactIff` | xv6-riscv/user/umalloc.c:54-54 | morecore asks sbrk for the bytes it records if and only if their number fits a 32-bit int. |
| `KrHeap.SbrkArgTruncates` | xv6-riscv/user/umalloc.c:54-58 | A request for which it asks for 16 bytes and records 2^28 + 1 units. |
| `KrHeap.AheadShrinks` | xv6-riscv/user/umalloc.c:30-32 | Each step of free's search comes nearer to the gap. |
| `KrHeap.PassedStep` | xv6-riscv/user/umalloc.c:74-89 | Each step of malloc's search passes one more block. |
| `KrHeap.Heap.FindGap` | xv6-riscv/user/umalloc.c:30-32 | The last free block below the given one; the search ends. |
| `KrHeap.Heap.Free` | xv6-riscv/user/umalloc.c:24-44 | The block leaves the live blocks and is merged into the free ones between its neighbours; the invariant is kept. |
| `KrHeap.Heap.Relink` | xv6-riscv/user/umalloc.c:33-42 | The links of the merged list, and the sizes modulo 2^32, which are those of the merged blocks if and only if no addition reaches 2^32. |
| `KrHeap.Heap.Morecore` | xv6-riscv/user/umalloc.c:46-61 | On success a region that satisfies the request joins the free list and the units obtained are counted; on failure nothing changes. |
| `KrHeap.Heap.TakeWhole` | xv6-riscv/user/umalloc.c:76-84 | A block of the wanted size leaves the list. |
| `KrHeap.Heap.TakeTail` | xv6-riscv/user/umalloc.c:78-84 | A larger block loses its tail. |
| `KrHeap.Heap.FindFit` | xv6-riscv/user/umalloc.c:74-89 | One trip round the list finds a block that is large enough if and only if there is one; it ends. |
| `KrHeap.Heap.FindOrGrow` | xv6-riscv/user/umalloc.c:74-89 | The search with its second trip after morecore: it fails exactly when no free block is large enough and sbrk fails. |
| `KrHeap.Heap.Malloc` | xv6-riscv/user/umalloc.c:63-90 | A block of the wanted size apart from all live and free ones; null exactly when no free block is large enough and sbrk fails; live plus free units equal the units obtained. |
| `PetersonPipe.AcquireKeepsMutex` | xv6-riscv/kernel/pipe.c:27-40 | No single load or store of peterson_acquire breaks mutual exclusion. |
| `PetersonPipe.ReleaseKeepsMutex` | xv6-riscv/kernel/pipe.c:42-48 | Nor does the store of peterson_release. |
| `PetersonPipe.WriterWorkKeepsPage` | xv6-riscv/kernel/pipe.c:91-145 | The writer's steps under the lock keep the protocol by which one end frees the page. |
| `PetersonPipe.ReaderWorkKeepsPage` | xv6-riscv/kernel/pipe.c:91-182 | So do the reader's. |
| `PetersonPipe.CountersTell` | xv6-riscv/kernel/pipe.c:125-171 | With at most PIPESIZE bytes between them, comparing the wrapped 32-bit counters compares the byte counts. |
| `PetersonPipe.WriterKeepsRing` | xv6-riscv/kernel/pipe.c:112-145 | The ring holds exactly the bytes written and not yet read, at every step of the writer, |
| `PetersonPipe.ReaderKeepsRing` | xv6-riscv/kernel/pipe.c:147-182 | and of the reader; the byte it takes is the oldest one. |
| `PetersonPipe.StepKeepsInv` | xv6-riscv/kernel/pipe.c:27-182 | All of this is kept by every step of either thread. |
| `PetersonPipe.PipeIsSafe` | xv6-riscv/kernel/pipe.c:27-182 | In every interleaving: never both in the critical section; the bytes delivered are a prefix of those accepted, at most PIPESIZE behind; the page is freed at most once, then not touched again, and is freed once both ends are gone. |
| `PetersonPipe.IdleCounters` | xv6-riscv/kernel/pipe.c:125-171 | Between calls the counters tell exactly whether the ring is empty or full. |
| `PetersonPipe.AllCanBeDelivered` | xv6-riscv/kernel/pipe.c:112-182 | Every message, however long, can be delivered in full: there is an interleaving after which the reader has exactly the bytes written and both ends are idle. |
| `PetersonPipe.GoneForGood` | xv6-riscv/kernel/pipe.c:91-110 | Once both ends are gone nothing can happen to the pipe any more. |
| `PetersonPipe.AccessesInBounds` | xv6-riscv/kernel/pipe.c:137-171 | Every access to the buffer is in bounds. |
| `SleepWakeup.WakeKeepsSwept` | xv6-riscv/kernel/proc.c:661-677 | A step of a wakeup keeps everybody it has passed awake, |
| `SleepWakeup.SleepKeepsSwept` | xv6-riscv/kernel/proc.c:630-659 | and so does a step of a sleep. |
| `SleepWakeup.SleepKeepsLocks` | xv6-riscv/kernel/proc.c:644-658 | Each step of sleep keeps the account of who holds which lock. |
| `SleepWakeup.StepKeepsInv` | xv6-riscv/kernel/proc.c:630-677 | Every step of every process keeps the invariant. |
| `SleepWakeup.NoLostWakeup` | xv6-riscv/kernel/proc.c:630-677 | In every interleaving, when a wakeup has gone through the table nobody is sleeping on its channel or on the way there. |
| `SleepWakeup.WokenByItsChannel` | xv6-riscv/kernel/proc.c:671-673 | A sleeper is made RUNNABLE only by kill or by a wakeup on the channel it sleeps on. |
| `WaitGraph.Pigeonhole` | xv6-riscv/kernel/proc.c:911-912 | A walk without repetition is no longer than the table. |
| `WaitGraph.Shorten` | xv6-riscv/kernel/sleeplock.c:41-56 | Whatever can be reached can be reached without visiting anybody twice. |
| `WaitGraph.LongWalkMisses` | xv6-riscv/kernel/sleeplock.c:41-56 | A walk of NPROC steps that misses a process shows that it is out of reach. |
| `WaitGraph.ClosingChain` | xv6-riscv/kernel/proc.c:899-910 | When a chain comes back to one of its members, it is a simple cycle from there on. |
| `WaitGraph.CycleReturns` | xv6-riscv/kernel/sleeplock.c:41-56 | Whoever is on a cycle can be reached from the process it waits for. |
| `WaitGraph.ChainBack` | xv6-riscv/kernel/sleeplock.c:76-99 | Somebody who waits for the first member of a simple chain ending in themselves is on a simple cycle with the others. |
| `ResourceDeadlock.Holder` | xv6-riscv/kernel/proc.c:862-873 | The first live process that holds the resource. |
| `ResourceDeadlock.ProcTable.FindHolder` | xv6-riscv/kernel/proc.c:862-873 | find_holder finds it. |
| `ResourceDeadlock.ProcTable.constructor` | xv6-riscv/kernel/proc.c:46-60 | A table at boot, with no process and nothing held. |
| `ResourceDeadlock.ProcTable.ResAcquire` | xv6-riscv/kernel/proc.c:825-836 | The caller holds the resource and waits for none; out of range numbers change nothing. |
| `ResourceDeadlock.ProcTable.ResRelease` | xv6-riscv/kernel/proc.c:838-848 | The caller does not hold it any more. |
| `ResourceDeadlock.ProcTable.ResWait` | xv6-riscv/kernel/proc.c:850-860 | The caller waits for it. |
| `ResourceDeadlock.ProcTable.FollowChain` | xv6-riscv/kernel/proc.c:894-918 | The chain from p finds a cycle whenever p is on one, what it finds is the members of one cycle in order, and the NPROC break is not taken. |
| `ResourceDeadlock.ProcTable.FindCycle` | xv6-riscv/kernel/proc.c:888-926 | The search finds nothing if and only if the wait-for graph has no cycle. |
| `ResourceDeadlock.ProcTable.ChooseVictim` | xv6-riscv/kernel/proc.c:928-939 | The first member with the highest energy consumption. |
| `ResourceDeadlock.ProcTable.KillVictim` | xv6-riscv/kernel/proc.c:955-963 | The victim holds and waits for nothing, is killed, and awake. |
| `ResourceDeadlock.ProcTable.CheckDeadlock` | xv6-riscv/kernel/proc.c:875-966 | Non-zero if and only if there is a cycle; then a maximal member of one cycle was killed and its pid is returned; else nothing changed. |
| `ResourceDeadlock.RecoveryLowersWaiting` | xv6-riscv/kernel/proc.c:955-963 | Each recovery takes exactly one process out of those waiting. |
| `ResourceDeadlock.RecoveryRunIsShort` | xv6-riscv/kernel/proc.c:875-966 | So after at most NPROC repeated calls the graph has no cycle. |
| `ResourceDeadlock.HolderAfterKill` | xv6-riscv/kernel/proc.c:862-873 | Who holds a resource after the victim let go of it. |
| `ResourceDeadlock.RecoveryAddsNoEdgeIff` | xv6-riscv/kernel/proc.c:955-963 | A recovery adds no wait-for edge if and only if nobody waits for a resource that the victim shares with a later process. |
| `ResourceDeadlock.ExclusiveRecovery` | xv6-riscv/kernel/proc.c:955-963 | With one holder for each resource it adds none, and the cycles left were there before and do not contain the victim. |
| `ResourceDeadlock.SharedResourceGainsEdge` | xv6-riscv/kernel/proc.c:955-963 | A table with a shared resource where it does add one. |
| `SleepLockDeadlock.ProcOf` | xv6-riscv/kernel/sleeplock.c:14-27 | The first live process with that pid. |
| `SleepLockDeadlock.Kernel.Pid2Proc` | xv6-riscv/kernel/sleeplock.c:14-27 | pid2proc finds it. |
| `SleepLockDeadlock.Kernel.constructor` | xv6-riscv/kernel/sleeplock.c:142-149 | Free locks and no process. |
| `SleepLockDeadlock.Kernel.WouldCreateDeadlock` | xv6-riscv/kernel/sleeplock.c:29-59 | Yes if and only if the current process can be reached from the owner of the lock; NPROC hops are enough. |
| `SleepLockDeadlock.WalkIsCycle` | xv6-riscv/kernel/sleeplock.c:76-99 | After a yes the recovery walk visits exactly the other members of the cycle. |
| `SleepLockDeadlock.Kernel.MarkWalk` | xv6-riscv/kernel/sleeplock.c:68-99 | The circle is flagged, and the victim has the highest energy consumption in it, the current process in case of a tie. |
| `SleepLockDeadlock.Kernel.ClearWalk` | xv6-riscv/kernel/sleeplock.c:115-134 | The second walk clears the flags of the same processes. |
| `SleepLockDeadlock.FlagsUndone` | xv6-riscv/kernel/sleeplock.c:68-134 | After both walks no process of the circle is flagged, and only the victim has changed otherwise. |
| `SleepLockDeadlock.Kernel.EnergyAwareRecovery` | xv6-riscv/kernel/sleeplock.c:61-140 | A maximal victim is killed and awake, its pid returned, and every flag set is cleared. |
| `SleepLockDeadlock.Kernel.ReportDeadlock` | xv6-riscv/kernel/sleeplock.c:160-164 | The report is counted, modulo 2^64, and the recovery acts on the same circle. |
| `SleepLockDeadlock.Kernel.WaitRound` | xv6-riscv/kernel/sleeplock.c:157-167 | One round of the wait loop up to sleep: a report and a recovery happen if and only if the wait closes a cycle, and act on that cycle; otherwise only the wait is recorded. |
| `SleepLockDeadlock.CycleDeadlocks` | xv6-riscv/kernel/sleeplock.c:29-59 | Being on a cycle is being reachable from the owner of the lock one waits for. |
| `EnergyScheduler.CountersAfterRun` | xv6-riscv/kernel/trap.c:84-207 | What the two counters hold after any sequence of charges, wrap-around included. |
| `EnergyScheduler.BalancedIff` | xv6-riscv/kernel/trap.c:84-207 | energy_budget = max(0, 1000 - energy_consumed) after a run of charges if and only if there were fewer than 2^64 of them or the wrapped count is at least 1000. |
| `EnergyScheduler.Cpu.PickChild` | xv6-riscv/kernel/proc.c:461-498 | The candidate with the lowest pid, and only its lock is held. |
| `EnergyScheduler.Cpu.PickFirst` | xv6-riscv/kernel/proc.c:500-510 | The first RUNNABLE process, and only its lock is held. |
| `EnergyScheduler.Cpu.Choose` | xv6-riscv/kernel/proc.c:459-510 | The three passes in order; no lock is taken twice or released unheld. |
| `EnergyScheduler.Cpu.AgeOthers` | xv6-riscv/kernel/proc.c:512-525 | waiting_tick grows for exactly the other RUNNABLE schedtest children. |
| `EnergyScheduler.RunsKeepBalance` | xv6-riscv/kernel/proc.c:130-133 | So it holds for every allocated process with fewer than 2^64 charges since its allocation. |
| `EnergyScheduler.ChoiceByCharges` | xv6-riscv/kernel/proc.c:461-510 | However many charges there were: no schedtest child charged 900 times or more is chosen while a RUNNABLE one was charged less often; ties go to the lowest pid; other processes run only if there is no such child; none is chosen only if none is RUNNABLE. |
| `EnergyScheduler.RichIffLittleConsumed` | xv6-riscv/kernel/proc.c:465-468 | A budget above the threshold means less than 900 consumed if and only if there were fewer than 2^64 charges or the wrapped count is at least 900. |
| `EnergyScheduler.ChoiceByConsumption` | xv6-riscv/kernel/proc.c:461-510 | Under that condition the rule holds for energy_consumed. |
| `EnergyScheduler.WrapMisleads` | xv6-riscv/kernel/proc.c:461-478 | After 2^64 charges it does not: a child with a lower pid and nothing consumed by its counter is passed over. |
| `EnergyScheduler.Cpu.constructor` | xv6-riscv/kernel/proc.c:46-60 | An empty process table with no lock held. |
| `EnergyScheduler.Cpu.Round` | xv6-riscv/kernel/proc.c:456-546 | One round up to the switch: the choice by the rule, in charges always and in energy_consumed while the counters tell; only the chosen process changed apart from the ageing, only its lock held; the timer interval short when somebody runs and long when the CPU idles. |
| `EnergyScheduler.Cpu.Switch` | xv6-riscv/kernel/proc.c:512-535 | The chosen process is RUNNING and current, the others that wait have aged. |
| `EnergyScheduler.Cpu.ClockCharge` | xv6-riscv/kernel/trap.c:192-207 | One charge by clockintr to the running process, if there is one, and the record of it. |
| `EnergyScheduler.Cpu.UserTrapCharge` | xv6-riscv/kernel/trap.c:84-90 | One charge by usertrap to the running process, and the record of it. |
| `EnergyScheduler.Cpu.Allocproc` | xv6-riscv/kernel/proc.c:109-155 | The first unused slot, locked, holding a process of which every field is as for a new one, whatever the slot was used for before, with a new pid, a full budget and no charges; none exactly when there is no such slot or no memory, and then every process is as it was. |
| `EnergyScheduler.Cpu.Freeproc` | xv6-riscv/kernel/proc.c:169-195 | The slot is unused and cleared: no parent, name, channel, exit status, kill mark, energy or deadlock records are left. |
| `EnergyScheduler.Cpu.GiveUpCpu` | xv6-riscv/kernel/proc.c:583-591 | The running process has its new state, nobody is current, and no lock is held. |
| `EnergyScheduler.Cpu.Step` | xv6-riscv/kernel/proc.c:449-552 | Every event keeps the counters equal to what the charges since allocation make them, and makes at most one charge. |
| `EnergyScheduler.Cpu.Run` | xv6-riscv/kernel/proc.c:449-552 | So does every sequence of allocations, frees, rounds, ticks and other changes. |
| `EnergyScheduler.Boot` | xv6-riscv/kernel/proc.c:46-60 | On a new processor, from an empty table on, after fewer than 2^64 events all counters are in balance and every round goes by energy_consumed. |
| `GrepMatcher.HereThen` | xv6-riscv/user/grep.c:84-96 | A pattern matches at the beginning exactly when its first item takes some part and the rest matches what follows. |
| `GrepMatcher.OccursShift` | xv6-riscv/user/grep.c:77-80 | Matching at the beginning of a suffix is matching from that position. |
| `GrepMatcher.MatchHere` | xv6-riscv/user/grep.c:84-96 | True if and only if some prefix of the text is in the language of the pattern, reaching the end when the pattern ends in '$'. |
| `GrepMatcher.MatchStar` | xv6-riscv/user/grep.c:98-106 | True if and only if some number of fitting characters can be followed by a match of the rest. |
| `GrepMatcher.Match` | xv6-riscv/user/grep.c:72-82 | True if and only if some part of the text, the leading part after '^', is in the language of the pattern. |

## Left out

- Device drivers, interrupt controllers, start-up and context-switch assembly: their effects are on registers that the code does not show.
- exec, the system call table, console, shell, test programs, and the disk image builder after its layout of an empty disk: plumbing around the parts modelled.
- Directories, path names and link counts: entries can be made in directories already unlinked, so no clean invariant is promised.
- The kernel's own page table, which is built once and never changed, and copyin, copyout and copyinstr, whose loops over walkaddr do not change the page table except through vmfault.
- The contents of trapframes: kfork's copy of the saved registers is not modelled.
- Stale TLB entries and the reference bits that hardware sets in page-table words.
- FileSystem.FileSys.Balloc: the bitmap is a sequence of bits; its masks are in BlockFormat.MaskBits and its bytes in DiskImage.
- FileSystem.FileSys.Iupdate: of an inode only size and addresses; type, device numbers and link count are not modelled.
- FileWrite.File.Write: inode files only and lengths that are not negative; the bound on logged blocks needs the bitmap in one block, as FSSIZE has it.
- CrashWrite.WriteSurvivesCrash: one writing process; the transactions of several are in LogReservation and BufferCache.
- KrHeap.Heap.Malloc: when memory is obtained its byte count must fit an int; KrHeap.SbrkArgTruncates shows what happens otherwise.
- LruList.Cache.Bget: the panic for want of buffers is possible, as NBUF equals LOGBLOCKS, and the contract says when.
- LogReservation.NoPanicIff: the sleeping and waking inside begin_op is a step without effect; that a waiting call gets in at last is not claimed.
- BufferCache.CacheRefinesView: changes outside transactions and releases of changed buffers are not steps of the model; bget's scan and the choice of the victim are in LruList.
- PetersonPipe.PipeIsSafe: safety only; that a blocked end goes on is not claimed, as sleep is called without a lock to release.
- SleepWakeup.NoLostWakeup: sleepers that pass the condition lock; fairness of the scheduler is not claimed.
- SleepLockDeadlock.Kernel.EnergyAwareRecovery: that the survivors proceed is not claimed, as the victim's locks are not released; the message is not modelled.
- ResourceDeadlock.ProcTable.CheckDeadlock: one fixed table; changes by other processors during the scan are not modelled, as the code takes no locks for it.
- EnergyScheduler.Cpu.Round: one processor's view of the table; the programming of the timer, overflow of pids, and starvation are not modelled.
- EnergyScheduler.Cpu.AgeOthers: waiting_tick is unbounded; its overflow as a C int is undefined.
- UserMemory.Vmfault: when the page is missing in the page table given but present in the process's own, mappages panics; that is a precondition.
- GrepMatcher.Match: the line buffer of grep itself is not modelled.
