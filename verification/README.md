# Verification of xv6 with a lottery scheduler

This project models the parts of the repository where correctness is hardest to
see from the code, and proves what they promise, in Dafny. `dafny verify
dfyconfig.toml` checks all of it. Where the repository has a file both at its
root and under `xv6/`, the one at the root is modelled, because it replaces the
other.

## The parts

- **Lottery scheduler** (`Bits`, `Lfsr`, `Lottery`, `Fairness`). The 16-bit shift
  register, its seed counter, and the two scans of the scheduler. In any 65535
  consecutive decisions over a steady table every process gets its share up to
  one win per ticket. The total is cut to 16 bits before the draw; which
  processes then starve is stated exactly.
- **Crash safety** (`Params`, `Blocks`, `CrashLog`, `LruRing`, `BufferCache`, `FsLog`,
  `LogAdmission`). `CrashLog` analyses the block writes of commit and recovery
  on a bare disk, with crashes everywhere. `BufferCache` is the cache over the
  ring of `LruRing`; each block has one latest content and `bread` returns it.
  `FsLog` runs commit and recovery through that cache, among readers, and shows
  that they issue exactly the analysed writes. `LogAdmission` is the protocol by
  which operations enter and leave transactions.
- **Files** (`BlockFields`, `FsState`, `FsChanges`, `FsSteps`, `FsFormat`, `FsLogged`,
  `FsSpace`, `FsTrunc`, `FlatFiles`, `FileSystem`, `FsWorst`, `FsWorstRun`, `CrashFiles`). One
  disk of blocks holds inodes as words and the free map as bits. An inode owns
  blocks in 141 slots. `FsFormat` says what the bytes on
  the disk are, `FsChanges` treats single changes, `FsSteps` and `FsTrunc`
  whole operations, `FsLogged` the blocks they log, `FsSpace` the room they need,
  `FlatFiles` the byte sequences they stand for, and `FileSystem` holds the
  operations. `FsWorst` and `FsWorstRun` show that the bound on a transaction is
  reached. `CrashFiles` puts the operations on top of the log: what the files are
  after crashes.
- **Processes** (`SpinLock`, `SleepLock`, `Procs`, `ProcSteps`, `ProcInv`, `ProcHistory`).
  Locks at the granularity of their memory accesses, and the process table as
  steps of several CPUs. A critical section that one CPU enters and leaves is
  one step; a section that crosses a context switch is several. `Procs` has the
  loops over the table, whose results the steps use. `ProcHistory` says who is in
  which state after a run.
- **Memory** (`Heap`, `PageTables`, `PageCounts`, `Vm`, `AddressSpaces`). The user-level
  allocator with its circular, address-ordered, coalescing free list (Kernighan
  and Ritchie, The C Programming Language, second edition, section 8.7), and
  two-level page tables over the page pool. `PageCounts` says how many pages an
  operation takes, and `AddressSpaces` is about all directories together.
- **User programs and pipes** (`Shell`, `ShellParser`, `ShellGrammar`, `ShellTokens`,
  `ShellRoundTrip`, `ShellStrings`, `Grep`, `Pipe`). `Shell` is the parser as
  functions, the specification of the cursor-moving one in `ShellParser`.
  `ShellGrammar` says what a line means, as a grammar on tokens, and `ShellTokens`
  that exactly the lines it derives are accepted.

`Counting` has what several modules need about sizes of sets.

Code that changes things in place is modelled by classes and methods with
loops, proved against functions and predicates on values; protocols are state
machines with an invariant over every run. Panics are results. Many proofs hide
the definitions they do not need (`hide`), which keeps them small.

## What was found

Each of these is a property that one would expect and that the code does not
have without a condition. Each has a run or an input that shows it, and the
condition is proved to be exact.

- Ticket totals of 65536 and more are cut to 16 bits, so that processes starve:
  `Fairness.StarvesIff`, `Fairness.LargeTicketCountsStarve`. A positive multiple of
  65536 makes the generator divide by zero: `Lottery.Scheduler.Dispatch`,
  `Lottery.TicketsTrap`.
- The log that mkfs makes is one block short of what `begin_op` admits, so an
  operation within its claim can panic on a new block:
  `LogAdmission.MkfsLogIsOneShort`, `LogAdmission.NewBlocksPassIff`.
- `log_write` tests for a full list before it looks whether the block is listed.
  So three operations that use up their claims make the next call panic even for
  a block that would have cost nothing, with a log of any size:
  `LogAdmission.RelogPanics`, `LogAdmission.EverySizeStops`. What excludes it is that
  operations list fewer than MAXOPBLOCKS blocks each in a log that is large
  enough for that: `LogAdmission.NobodyStoppedIff`.
- `log_write` reads its guard before it takes the lock, so two operations can list
  one block more than the log has slots: `LogAdmission.MkfsLogOverruns`,
  `LogAdmission.FitsIff`.
- There are only as many buffers as `begin_op` admits blocks. That overrun lists
  thirty blocks, which pin all thirty buffers, and the commit panics. It takes
  more than LOGSIZE buffers, whatever the size of the log, to exclude that:
  `LogAdmission.FullCommit`, `LogAdmission.BuffersSufficeIff`, `FsLog.AllPinnedIff`,
  `FsLog.Log.Commit`. Readers that take buffers meanwhile bring the panic nearer.
- A process can be born killed: `ProcInv.BornKilled`, `ProcInv.BornKilledIff`.
- A failing writer can leave a reader asleep beside a full pipe:
  `Pipe.StrandedReader`, `Pipe.Pipe.Write`.
- Requests of almost 4 GB get a block that is too small, and smaller ones from
  about 2 GB on ask `sbrk` for a wrong amount: `Heap.PayloadFitsIff`,
  `Heap.AsksForEnoughIff`, `Heap.HugeRequestShrinks`, `Heap.Allocator.Malloc`.
- The kernel's rows of `kmap` overlap if its data does not start a page, which only
  the linker script sees to: `Vm.KmapOkIff`.

## Model

| member | source | states |
|---|---|---|
| `Lfsr.StepIsTextbook` | rand.c:33-40 | the step as written, with fifteen stray feedback bits that are never masked, equals the textbook shift-register step on every 16-bit word |
| `Lfsr.StepBijective` | rand.c:5-40 | a step maps the non-zero words one to one onto the non-zero words: an explicit inverse undoes it on both sides |
| `Lfsr.StepsBijective` | rand.c:33-40 | so does any number of steps, hence the whole do-while loop for every limit |
| `Lfsr.StepsShow` | rand.c:33-40 | with the bit stream that starts with the seed's sixteen bits and in which each later bit is the sum of the bits 16, 14, 13 and 11 places before it: after n steps the register shows bits n to n + 15 |
| `Lfsr.ShowsOnce` | rand.c:33-40 | no other 16-bit word shows the same bits |
| `Lfsr.SeedCycle` | rand.c:20-29 | the seed loaded by the k-th call is the k-th word of the cycle 1..65535, for every counter value, although the counter itself passes through 0 |
| `Lfsr.Generator.Generate` | rand.c:9-45 | for every 16-bit limit: a trap exactly for limit 0, otherwise the word that the bit stream of the seed shows from bit limit on, reduced by limit; the static counter skips 0 and moves on by one |
| `Lottery.TicketHasOneHolder` | proc.c:377-384 | every ticket number below the total is held by exactly one slot, so a process wins for exactly as many numbers as it holds tickets |
| `Lottery.NoHolderAbove` | proc.c:377-384 | a number at or above the total is held by nobody |
| `Lottery.CapFitsWord` | assign-tickets.c:23-32 | with at most 1000 tickets in each of 64 slots the total fits the generator's 16-bit argument; the cap is enforced by the user program only |
| `Lottery.Scheduler.CountTickets` | proc.c:361-367 | the first scan leaves the sum of the RUNNABLE slots' tickets in the accumulator |
| `Lottery.Scheduler.FindWinner` | proc.c:375-384 | the second scan stops inside the table, on the RUNNABLE slot that holds the number, exactly if the number is below the total |
| `Lottery.Scheduler.Dispatch` | proc.c:353-396 | the winner is the RUNNABLE slot that holds the ticket that the generator draws for the total cut to 16 bits, counted slot by slot; it alone changes, to RUNNING with one tick more; a trap exactly if the total is a positive multiple of 65536, nothing if there are no tickets |
| `Lottery.TicketsTrap` | sysproc.c:139-168 | a run that traps: one RUNNABLE process in a table of 64, the system call gives it 65536 tickets, the next pass of the scheduler divides by zero |
| `Lottery.Scheduler.Undispatch` | proc.c:424-433 | both accumulators are zero again at the head of the loop |
| `Lottery.Scheduler.Run` | proc.c:353-440 | n passes over processes that only yield: a trap exactly if there is a pass and the total is a positive multiple of 65536, and otherwise each slot has gained exactly the number of draws that hit its tickets |
| `Fairness.WinsAreWords` | rand.c:9-45 | in 65535 consecutive calls a slot wins as often as there are words in 1..65535 whose residue is one of its tickets |
| `Fairness.FairWindow` | proc.c:361-384 | for every table and every seed: in any 65535 consecutive decisions a slot wins between r*floor(65535/L) and r*(floor(65535/L)+1) times, L the truncated total and r those of its tickets that lie below L |
| `Fairness.FairShare` | proc.c:361-384 | with a total that fits 16 bits r is the slot's ticket count, so no RUNNABLE process starves |
| `Fairness.RunCycle` | proc.c:353-440 | the same on the scheduler: after 65535 passes every tick counter has grown by its fair share and nothing else in the table has changed |
| `Fairness.StarvesIff` | sysproc.c:139-168 | a RUNNABLE process starves for ever if and only if the tickets in front of it reach the total truncated to 16 bits |
| `Fairness.LargeTicketCountsStarve` | sysproc.c:150-163 | a case that the system call admits, on a table of 64 slots: tickets 2 and 65535, the second process never runs |
| `CrashLog.HeaderRoundTrip` | xv6/log.c:84-113 | what write_head writes read_head reads back, over whatever the header block held before |
| `CrashLog.CommitOrder` | xv6/log.c:176-202 | the writes of a commit one by one: blocks to slots in order, the header with their number and places, blocks to their homes in order, and an empty header |
| `CrashLog.RecoverOrder` | xv6/log.c:68-122 | those of a recovery: from the slots to the places that the header on the disk lists, in order, and an empty header |
| `CrashLog.CommitDecided` | xv6/log.c:192-202 | after any prefix of the block writes of a commit the disk is decided: before the header write all home blocks are old, after it the log holds the whole transaction |
| `CrashLog.CommitCompletes` | xv6/log.c:192-202 | a commit that returns has put every block in place and emptied the log |
| `CrashLog.RecoveryKeepsDecision` | xv6/log.c:115-122 | a recovery cut after any of its writes keeps the decision, a complete one carries it out |
| `CrashLog.RecoveriesKeepDecision` | xv6/log.c:115-122 | so do any number of recoveries that themselves crash |
| `CrashLog.CrashAtomicity` | xv6/log.c:69-122 | commit cut anywhere, any number of cut recoveries, one complete recovery: the home blocks are exactly the old ones or exactly the new ones, according to whether the header write got through |
| `CrashLog.RunShowsDurable` | xv6/log.c:177-202 | over a run with any number of crashes the disk shows exactly the durable transactions, whole and in commit order, among them every commit that returned, and the log is empty |
| `FsLog.Log.LogGuard` | xv6/log.c:218-221 | the guard of log_write, read before the lock is taken, passes exactly if a slot besides the header is left and an operation is open, also for a block that would have been absorbed |
| `FsLog.Log.LogAppend` | xv6/log.c:223-232 | under the lock the block is listed, once, and its buffer pinned |
| `FsLog.Log.Reader` | xv6/file.c:96-112 | a reader's bread, lock or brelse between two steps of a commit changes no content and no dirty block; it panics exactly if its block is not cached and every buffer is pinned |
| `FsLog.Log.WriteLog` | xv6/log.c:176-190 | through the cache, the latest contents of the listed blocks go to the log slots in order, while readers come and go before every round; when it panics every buffer is pinned and exactly the rounds before have been written; without readers' steps it panics exactly if every buffer is pinned at the start, and then nothing is written |
| `FsLog.Log.InstallTrans` | xv6/log.c:68-82 | the slots go to the listed home blocks in order and no buffer stays dirty, while readers come and go before every round; a panic leaves exactly the rounds before, with every buffer pinned |
| `FsLog.Log.InstallOne` | xv6/log.c:68-82 | one round panics exactly if every buffer is pinned when it starts; otherwise one home block is written and is no longer dirty |
| `FsLog.Log.WriteHead` | xv6/log.c:98-113 | exactly the header block is written; a panic exactly if every buffer is pinned |
| `FsLog.Log.ReadHead` | xv6/log.c:84-96 | the list in memory becomes the one on disk |
| `FsLog.Log.Commit` | xv6/log.c:192-202 | while readers come and go before every block write: a panic anywhere leaves exactly a prefix of the writes that CrashAtomicity analyses, so it is one of the crashes covered there, and happens only with every buffer pinned; otherwise the block writes are exactly those, in that order, every block's latest content is on the disk and the log is empty; without readers' steps it panics exactly if blocks are listed and every buffer is pinned, and then nothing is written |
| `FsLog.Log.Recover` | xv6/log.c:115-122 | the block writes are exactly those of the analysed recovery |
| `FsLog.CommitWrote` | xv6/log.c:192-202 | the halves of a commit make up the analysed sequence of writes |
| `FsLog.CutInLog` | xv6/log.c:176-200 | a panic in write_log or before the header is a crash of the commit in which nothing is committed |
| `FsLog.CutInInstall` | xv6/log.c:192-202 | a panic while installing, or before the header is cleared, is a crash of the commit after its decision |
| `FsLog.AllPinnedIff` | xv6/bio.c:78-92 | every buffer is pinned, so that a commit panics, if and only if the listed blocks and the buffers that others reference together make up all buffers |
| `LogAdmission.NextKeeps` | xv6/log.c:125-174 | every step of begin_op, log_write, end_op and commit keeps: listed blocks plus unused claims at most LOGSIZE, distinct blocks, counters exact, no operation during a commit, an idle log is empty, every sleeper of begin_op has a waker |
| `LogAdmission.EveryRunKeeps` | xv6/log.c:125-174 | so every state of every interleaving of any number of processes has these properties |
| `LogAdmission.SleepersMustWait` | xv6/log.c:125-174 | in every run whoever sleeps in begin_op has to: a commit is under way, or an operation is and there is no room for another one |
| `LogAdmission.InOpIsCounted` | xv6/log.c:145-174 | the panics of end_op and of log_write outside a transaction cannot happen inside one |
| `LogAdmission.GuardPassesIff` | xv6/log.c:213-221 | for whatever block an operation logs, listed already or not, the guard passes exactly if there is room in the list and a slot besides the header |
| `LogAdmission.NewBlockPassesIff` | xv6/log.c:213-221 | in every reachable state a new block within an operation's claim passes the guard exactly if the listed blocks leave a slot besides the header |
| `LogAdmission.MkfsLogIsOneShort` | xv6/mkfs.c:25 | with the LOGSIZE blocks that mkfs makes, three admitted operations reach a state in which the thirtieth block panics |
| `LogAdmission.NewBlocksPassIff` | xv6/log.c:125-221 | for every log size: no new block within a claim panics in any run if and only if the log has more than LOGSIZE blocks |
| `LogAdmission.StoppedIff` | xv6/log.c:213-232 | with such a log the guard stops an operation within its claim exactly if the list is full, and then its claim is used up and the block is one that is listed already |
| `LogAdmission.RelogPanics` | xv6/log.c:213-232 | that is reached with every such log: three operations use up their claims and one logs a block again |
| `LogAdmission.DemandAlways` | xv6/log.c:125-174 | in every run in which operations list at most m blocks each, the listed blocks and those that may still be listed are at most MAXOPBLOCKS + 2m |
| `LogAdmission.NobodyStoppedIff` | xv6/log.c:125-232 | for every log size and every m: no operation that lists at most m blocks, and logs them as often as it likes, is stopped in any run if and only if m is 0, or m is below MAXOPBLOCKS and the log has more than MAXOPBLOCKS + 2m + 1 blocks; with mkfs's log that is at most 9 blocks each |
| `LogAdmission.EverySizeStops` | xv6/log.c:125-232 | whatever the size of the log, some run stops an operation that keeps within its claim of MAXOPBLOCKS |
| `LogAdmission.Overrun` | xv6/log.c:218-232 | for every log of 2 to LOGSIZE blocks: a run in which two operations both see the last slot free and both list a block, one more than there are slots |
| `LogAdmission.MkfsLogOverruns` | xv6/log.c:218-232 | with the log that mkfs makes three operations within their claims list thirty blocks for twenty-nine slots |
| `LogAdmission.FitsIff` | xv6/log.c:125-232 | for every log size: the listed blocks fit the slots in every run if and only if the log has more than LOGSIZE blocks, or nothing but its header |
| `LogAdmission.FullCommit` | xv6/log.c:145-174 | a run with the log that mkfs makes that starts a commit with LOGSIZE blocks, as many as there are buffers |
| `LogAdmission.BuffersSufficeIff` | param.h:11-12 | over all runs and all log sizes a commit lists fewer blocks than there are buffers if and only if there are more than LOGSIZE; NBUF is LOGSIZE |
| `LruRing.InsertLinked` | xv6/bio.c:47-55 | linking a node in behind the head gives the ring with that node first, in both directions |
| `LruRing.UnlinkLinked` | xv6/bio.c:129-136 | unlinking gives the ring without the node, in both directions |
| `LruRing.Ring.MoveToFront` | xv6/bio.c:129-138 | the pointer writes of brelse move the buffer to the front and keep the order of the others |
| `BufferCache.CoherentStore` | xv6/bio.c:108-116 | changing a held buffer changes the block's latest content and that of no other block |
| `BufferCache.CoherentWrite` | xv6/memide.c:52-59 | writing a held buffer makes disk and buffer agree |
| `BufferCache.Cache.Bget` | xv6/bio.c:61-93 | the block's only buffer, or the least recently used one that is neither referenced nor dirty; panics exactly if the block is not cached and every buffer is pinned; at most one buffer per block, a clean valid buffer equals the disk |
| `BufferCache.Cache.ReadDisk` | xv6/memide.c:52-59 | a buffer that is not valid gets the block's latest content from the disk |
| `BufferCache.Cache.Bread` | xv6/bio.c:95-106 | waits exactly if somebody holds the block's buffer, which gets one more reference; otherwise the buffer holds the latest content of the block, whatever was recycled in between |
| `BufferCache.Cache.Bwrite` | xv6/bio.c:108-116 | one block write of the buffer's data, after which it is clean |
| `BufferCache.Cache.Brelse` | xv6/bio.c:118-141 | the lock and one reference go; without references the buffer becomes the most recently used |
| `BlockFields.SetBitFrame` | xv6/fs.c:65-68 | setting or clearing a bit of the free map changes that bit and no other |
| `BlockFields.SetWordsFrame` | xv6/fs.c:226-234 | storing an inode changes its sixteen words of the block and no others |
| `FsChanges.GrownAddr` | xv6/fs.c:371-400 | taking a block for a slot changes that slot of that inode and no slot of any inode |
| `FsChanges.GrownInv` | xv6/fs.c:55-78 | it keeps the ownership rule: no block in two slots, the free map marks exactly the blocks in front of the data and the owned ones |
| `FsChanges.GrownBytes` | xv6/fs.c:41-51 | and no byte of any file changes, because the block is zeroed |
| `FsChanges.StoredBytes` | xv6/fs.c:498-504 | writing a data block changes the bytes of that block of that file and no others |
| `FsChanges.UpdatedSynced` | xv6/fs.c:219-236 | iupdate makes the inode on disk equal to the one in memory and leaves its neighbours in the block alone |
| `FsFormat.InodeOnDisk` | xv6/fs.h:29-36 | type, link count, size and addresses of an inode are the bytes 0-1, 6-7, 8-11 and 12-63 of its 64 bytes on the disk |
| `FsFormat.FileOnDisk` | xv6/fs.c:371-400 | byte o of a file is byte o % 512 of the block that the inode, or the block its last address names, lists for o / 512 |
| `FsFormat.UsedOnDisk` | xv6/fs.c:52-95 | block b is in use exactly if bit b % 8 of its byte in the free map is set |
| `FsSteps.GoodInside` | xv6/fs.c:506-509 | a write inside the file needs no iupdate: it takes no block, so the inode on disk stays right |
| `FsSteps.GoodLonger` | xv6/fs.c:506-509 | a write past the end leaves the longer file mapped up to its size, in memory and on disk |
| `FsTrunc.StillUsed` | xv6/fs.c:80-95 | while itrunc runs, the block of its next slot is still marked, so freeing a free block is unreachable |
| `FsTrunc.TruncatedMap` | xv6/fs.c:402-435 | itrunc unmarks exactly the blocks that the inode owned |
| `FsTrunc.TruncatedGood` | xv6/fs.c:402-435 | and leaves ownership, mapping and on-disk inodes right for every file |
| `FsTrunc.ReleasedGood` | xv6/fs.c:331-352 | freeing an inode in memory and on the disk keeps every rule of the file system |
| `FlatFiles.WroteFiles` | xv6/fs.c:478-511 | on the files as plain byte sequences a write overwrites the one file and leaves the others alone |
| `FlatFiles.OverwrittenAt` | xv6/fs.c:478-511 | each byte of the result is the written one in the written range and the old one elsewhere; the file grows only as far as the write |
| `FsLogged.LogsNext` | xv6/fs.c:371-400 | one more block adds to the logged blocks exactly itself, what it needed in the free map, and the indirect block |
| `FsLogged.ChunkBound` | xv6/file.c:126-154 | a write of at most three blocks' worth of bytes that starts inside or at the end of the file logs at most MAXOPBLOCKS = 10 distinct blocks, the inode included, for every offset and every free map |
| `FsSpace.Conserved` | xv6/fs.c:55-95 | the free blocks and the slots that hold a block are together exactly as many as there are data blocks |
| `FsSpace.GrownAllocates` | xv6/fs.c:55-78 | taking the lowest free block for a slot: that slot and no other gets a block, and the free blocks lose their lowest |
| `FsSpace.TooFewFree` | xv6/fs.c:77 | there is no room for the slots that a write needs if and only if more of them are empty than blocks are free |
| `FsWorst.LogsMost` | xv6/file.c:126-146 | the bound is reached: from a good state whose four lowest free blocks lie under four different blocks of the free map, an unaligned full chunk that leads past the direct blocks logs exactly MAXOPBLOCKS, because first fit takes just those four |
| `FsWorstRun.MostLogged` | xv6/file.c:126-146 | a run from an empty disk of a layout that mkfs makes: 63 files are written, three of them truncated, and one chunk then logs exactly MAXOPBLOCKS blocks |
| `FileSystem.Volume.constructor` | xv6/mkfs.c:237-251 | an empty volume satisfies every rule: only the blocks in front of the data are marked |
| `FileSystem.Volume.Balloc` | xv6/fs.c:55-78 | the lowest free block, marked and zeroed, and these two blocks logged; a panic exactly if none is free |
| `FileSystem.Volume.Bfree` | xv6/fs.c:80-95 | one bit cleared, and only a block of the free map logged; a panic exactly if it was clear |
| `FileSystem.Volume.Bmap` | xv6/fs.c:370-400 | the block that the inode lists for the file block, directly for the first twelve and through the indirect block for the others, allocated if it is not there; a panic exactly if there is no room for it; no file byte changes |
| `FileSystem.Volume.Readi` | xv6/fs.c:449-476 | the bytes of the file from the offset on, up to its end; refused exactly beyond the end or on 32-bit overflow; a device exactly if bytes 0 and 1 of the inode on the disk say 3; nothing changes |
| `FileSystem.Volume.Writei` | xv6/fs.c:478-511 | the flat file is overwritten at off and extended if need be, every other file is unchanged, ownership holds, the inode on disk equals the one in memory, and the set of logged blocks is given exactly; refused exactly past the end or beyond MAXFILE; a panic exactly if the slots it needs do not fit the disk, and never for a write inside the file |
| `FileSystem.Volume.WriteMany` | xv6/fs.c:478-511 | any sequence of writes to any files goes well if and only if the slots that the accepted writes need together fit the disk, and then the contents are those of the flat files after the same writes |
| `FileSystem.Volume.Itrunc` | xv6/fs.c:402-435 | never panics; the file is empty, its blocks and no others are free, all other files are unchanged; on the disk the inode keeps type, device numbers and link count and loses everything else; what changes on the disk is logged, namely blocks of the free map and the inode's block |
| `FileSystem.Volume.Iput` | xv6/fs.c:331-352 | frees if and only if it drops the only reference and bytes 6 and 7 of the inode on the disk, its link count, are 0: then the file is emptied, and of the inode's bytes only device numbers and link count remain; every rule holds afterwards, and all other files are unchanged |
| `FileSystem.Volume.CloseOp` | xv6/file.c:73-79 | the transaction of fileclose empties the file exactly under that condition and otherwise changes nothing, and logs at most one block more than the free map has |
| `FileSystem.Volume.WriteOp` | xv6/file.c:135-146 | one transaction of filewrite logs at most MAXOPBLOCKS blocks, and exactly so many in the worst case of LogsMost; only logged blocks change; a panic exactly if there is no room |
| `FileSystem.Volume.FileWrite` | xv6/file.c:117-156 | how many bytes get written is given by offset, length, size and kind of the file; the files afterwards are the flat files with just these bytes written, and the offset and the result say so; a panic exactly if the slots these bytes need do not fit the disk |
| `FlatFiles.TransactsThen` | xv6/log.c:125-174 | operations that share a transaction make up a transaction with the changes and the logged blocks of both |
| `CrashFiles.MountedIs` | xv6/fs.c:287-311 | between operations the inodes read from the disk are those in memory |
| `CrashFiles.CanCommit` | xv6/log.c:176-232 | a transaction that logs no more blocks than the log has slots can be committed |
| `CrashFiles.OneCommit` | xv6/log.c:115-202 | after one commit, returned or cut anywhere and recovered, the files found on the disk are those after the whole transaction or those before it |
| `CrashFiles.FilesSurvive` | xv6/log.c:115-202 | over a whole run of transactions that write and truncate files, with any number of crashes, the file system found on the disk is in order, and its files are those that the durable transactions left, whole and in commit order |
| `SpinLock.StepKeeps` | xv6/spinlock.c:24-97 | every memory access of acquire, release and holding keeps the lock's invariant |
| `SpinLock.MutualExclusion` | xv6/spinlock.c:24-68 | in every reachable state at most one CPU is between its xchg and its release, and the lock is taken exactly if one is |
| `SpinLock.HoldingExact` | xv6/spinlock.c:88-97 | holding, which reads twice without a lock, tells the calling CPU the truth, and the panics of acquire and release stop exactly the wrong calls |
| `SpinLock.AcquireGets` | xv6/spinlock.c:24-44 | in every run a CPU that acquires a free lock gets it in its next steps, with its name in it |
| `SpinLock.ReleaseFrees` | xv6/spinlock.c:46-71 | and one that has it frees it by release |
| `SpinLock.NestRestores` | xv6/spinlock.c:100-125 | matched pushcli and popcli never panic and restore depth and interrupt flag |
| `SpinLock.OffWhileOpen` | xv6/spinlock.c:100-125 | in every state in between, while a pair is open, interrupts are off |
| `SpinLock.Cpu.PushCli` | xv6/spinlock.c:104-114 | one level deeper with interrupts off; the outermost call remembers the interrupt flag |
| `SpinLock.Cpu.PopCli` | xv6/spinlock.c:116-125 | panics with interrupts on or at depth 0, otherwise undoes one level |
| `SleepLock.StepKeeps` | xv6/sleeplock.c:22-53 | every step of acquiresleep, releasesleep, holdingsleep, sleep, wakeup, kill and the hand-over of ptable.lock keeps the invariant |
| `SleepLock.MutualExclusion` | xv6/sleeplock.c:22-42 | at most one process has the sleep lock, and locked and pid say which |
| `SleepLock.NoLostWakeup` | proc.c:501-559 | whenever the inner lock is free and locked is 0, nobody is SLEEPING on the lock or in the gap of sleep between release(lk) and SLEEPING |
| `SleepLock.SleeperHasWaker` | proc.c:501-559 | whoever sleeps has somebody to wake it: the owner, or a process on its way through wakeup |
| `SleepLock.HoldingSleepExact` | xv6/sleeplock.c:44-53 | holdingsleep answers true exactly for the owner |
| `SleepLock.AcquireGets` | xv6/sleeplock.c:21-31 | in every run a process that wants a free sleep lock gets it in its next steps |
| `SleepLock.ReleaseWakes` | xv6/sleeplock.c:33-41 | and one that has it frees it and makes every sleeper runnable |
| `Procs.Table.Wakeup1` | proc.c:542-550 | exactly the sleepers of the channel become RUNNABLE, and nothing else changes |
| `Procs.Table.Kill` | proc.c:564-582 | the first slot with the pid, whatever its state, is marked and, if it sleeps, made RUNNABLE; nothing else changes; it succeeds exactly if there is one |
| `Procs.Table.AdoptChildren` | proc.c:269-276 | all children go to init, which is woken exactly if one of them is a zombie |
| `Procs.Table.Exit` | proc.c:264-279 | entry by entry: the sleeper in wait that is the parent, and init if it inherits a zombie, become RUNNABLE, children go to init, the process is a ZOMBIE, nothing else changes |
| `Procs.Table.Alloc` | proc.c:91-106 | the first unused slot becomes an EMBRYO with the pid, 100 tickets and no ticks, killed stays as it was; nothing changes if there is none |
| `Procs.Table.AssignTickets` | sysproc.c:139-168 | pids and tickets below 1 are refused; the first slot with the pid gets the tickets and nothing else changes |
| `Procs.Table.Scan` | proc.c:295-323 | the lowest zombie child if there is one; no children exactly if there is none and the process has no child or is killed; sleep exactly if it has living children only and is not killed |
| `ProcInv.ForkKeeps` | proc.c:194-236 | each step of fork on its own slot, also the unlocked ones and the failures, keeps the rules of the table |
| `ProcInv.ExitKeeps` | proc.c:264-279 | exit keeps them: parents alive and older, nobody asleep in wait beside a zombie child |
| `ProcInv.ReapKeeps` | proc.c:301-315 | reaping keeps them |
| `ProcInv.CpuMoveKeeps` | proc.c:389-476 | dispatch, resumption, switching out and release keep one CPU per running process |
| `ProcInv.StepKeeps` | proc.c:194-582 | every step of every CPU keeps the invariant of table, CPUs, lock and tick count |
| `ProcInv.EveryRunKeeps` | proc.c:194-582 | so every state of every run has it |
| `ProcInv.CpuOwnership` | proc.c:389-438 | with ptable.lock free a process is RUNNING exactly if a CPU has it as c->proc, and no two CPUs have the same one |
| `ProcInv.StacksInUse` | proc.c:279-317 | no CPU ever stands on a kernel stack that has been freed: wait cannot free the stack of a process that is still leaving |
| `ProcInv.RunnableReady` | proc.c:107-130 | a process that can run or be woken has a kernel stack, a page table and at least one ticket |
| `ProcInv.PidsUnique` | proc.c:100-104 | no other slot has the pid of a process, not even a stale one |
| `ProcInv.WaitersWait` | proc.c:286-328 | nobody is asleep in wait who is killed, has a zombie child or has no child |
| `ProcInv.ChainEnds` | proc.c:213-214 | following parents, through live processes only, ends at init |
| `ProcInv.EveryChainEnds` | proc.c:264-282 | in every reachable state, for every process with a thread |
| `ProcInv.DecisionsAreTicks` | proc.c:303-313 | the schedulers' decisions equal the ticks in the table plus the ticks of reaped processes |
| `ProcInv.KillHitsOnly` | proc.c:564-582 | kill marks a process in use exactly if it has the pid |
| `ProcInv.BornKilled` | proc.c:100-104 | a run in which a process is born killed: kill(0) marks a free slot and allocproc keeps the mark |
| `ProcInv.FreeSlotMarkedIff` | proc.c:91-106 | in every run, for every slot: a slot without a thread carries the killed mark if and only if, since it was last reaped or since boot, a kill hit it by a stale pid while it was free or in the middle of a fork |
| `ProcInv.BornKilledIff` | proc.c:194-236 | in every run a fork publishes a killed child if and only if such a kill hit the child's slot since its last reap |
| `ProcHistory.StepMoves` | proc.c:85-569 | the state diagram: under every invariant state and event, exactly when each slot is UNUSED, EMBRYO, SLEEPING, RUNNABLE, RUNNING or ZOMBIE afterwards, what it sleeps on, and what becomes of pid, parent, mark, tickets and ticks |
| `ProcHistory.WaitComesTo` | proc.c:286-328 | in every run a pass of wait puts the process to sleep if and only if it has children, all living, and is not killed, and reaps exactly the lowest zombie child |
| `ProcHistory.AsleepIff` | proc.c:479-569 | in every run a process is asleep on a channel if and only if it once went to sleep on it and nothing has woken it since: no wakeup of the address, no kill with its pid and, in wait, no exit of a child |
| `Heap.PutBackKeeps` | xv6/umalloc.c:24-44 | putting a block back keeps a circular list with one address wrap, no overlap and no two free blocks that touch, whether it joins up, down, both or neither |
| `Heap.PutBackPartition` | xv6/umalloc.c:24-44 | and free and allocated blocks still partition all memory from sbrk |
| `Heap.SplitPartition` | xv6/umalloc.c:78-82 | so they do when malloc takes the tail of a block |
| `Heap.TakeWhole` | xv6/umalloc.c:76-77 | and when it takes a whole one |
| `Heap.PayloadFitsIff` | xv6/umalloc.c:69 | the block holds the request besides its header if and only if the rounding does not overflow, and then wastes less than a unit |
| `Heap.AsksForEnoughIff` | xv6/umalloc.c:52-54 | sbrk is asked for the memory that is meant if and only if the request is below 2 GB or has overflowed before |
| `Heap.HugeRequestShrinks` | xv6/umalloc.c:54 | a request of 2 GB asks sbrk for a negative amount |
| `Heap.Allocator.FindPlace` | xv6/umalloc.c:30-32 | the search of free ends within one lap, at the free block after which the freed one belongs |
| `Heap.Allocator.Free` | xv6/umalloc.c:24-44 | the block is free and merged with what it touches, other blocks keep their size, and the next search starts at the free block below it |
| `Heap.Allocator.Malloc` | xv6/umalloc.c:63-90 | exactly the units of the request, at the end of the first free block in ring order that is large enough, and disjoint from all other blocks, which keep their sizes; a call that succeeds has made the heap grow, once and by the request or 4096 units, if and only if no free block fitted; 0 only if sbrk fails or the request makes its argument wild, and exactly when is stated |
| `Heap.Allocator.Morecore` | xv6/umalloc.c:46-61 | new memory from sbrk joins the free list and holds the request, exactly if sbrk is asked for what is meant and has it |
| `PageTables.Take` | xv6/kalloc.c:82-95 | moving a page from the pool to an empty slot of a directory keeps every page with one owner and loses none |
| `PageTables.Put` | xv6/kalloc.c:59-77 | so does moving it back |
| `PageCounts.NeedNext` | xv6/vm.c:35-80 | page by page, mapping takes exactly the pages of the range and one for each table that the directory lacks |
| `PageCounts.KernelPages` | xv6/vm.c:105-136 | the kernel's part of a directory takes 65 pages: the directory and 64 tables |
| `PageCounts.CopyNeedIs` | xv6/vm.c:315-345 | copying n pages into a new directory takes 65 + n pages and one for each 1024 of them, since user and kernel share no table |
| `Vm.Walk` | xv6/vm.c:35-55 | the table for a page, made from the pool if asked for, which takes one page exactly if it was missing; none exactly if there is none and none may or can be made; no mapping changes |
| `Vm.MapPage` | xv6/vm.c:60-80 | one page mapped and nothing else, at the cost of one page exactly if its table was missing; a remap exactly if it was mapped, no memory exactly if its table is missing and the pool empty, and in both cases nothing has changed |
| `Vm.Deallocuvm` | xv6/vm.c:255-279 | with its skip over missing tables it frees the same pages in the same order as a page-by-page scan, and unmaps exactly that range |
| `Vm.Freevm` | xv6/vm.c:283-298 | every page the directory owned, and nothing else, goes back to the pool, once |
| `Vm.Rollback` | xv6/vm.c:235-246 | the failure path of allocuvm unmaps exactly the range and gives back every page |
| `Vm.Allocuvm` | xv6/vm.c:221-249 | succeeds if and only if the range is unused and the pool has its pages and the tables they lack: then new zeroed user pages exactly in the range; panics if and only if the pool gets as far as a page that was mapped already; otherwise the range is unmapped and every other mapping as before; no page is lost or has two owners |
| `Vm.RanOut` | xv6/vm.c:231-247 | a pool that is empty at some page of the range is too small for the whole range and for reaching a page that was mapped |
| `Vm.KmapOkIff` | xv6/vm.c:105-115 | the four rows of kmap, in 32-bit arithmetic, lie above KERNBASE and do not overlap if and only if the kernel's data starts a page |
| `Vm.KernelIs` | xv6/vm.c:105-115 | page by page what the four rows map: physical memory from KERNBASE on, read-only exactly in the kernel's text, devices at their own addresses, nothing else |
| `Vm.Setupkvm` | xv6/vm.c:118-136 | with at least 65 pages in the pool, and only then, a directory in which every page has the kernel's entry or none, frame and permission given outright, made of 65 pages, never a remap; otherwise nothing and every page back in the pool |
| `Vm.Copyuvm` | xv6/vm.c:315-345 | succeeds if and only if all pages are present and the pool has what the copy takes; panics if and only if it has what the pages before the first absent one take; the child has the same contents and flags page by page, in pages from the pool; or nothing, and every page is back; the parent's pages are untouched and still nobody else's |
| `Vm.ParentAndChild` | xv6/vm.c:315-345 | parent and child own no page together |
| `AddressSpaces.OneChanges` | xv6/vm.c:221-279 | among any number of directories, an operation that keeps one of them in order and loses no page keeps every page with one owner in the whole system, and loses none there |
| `AddressSpaces.OneMore` | xv6/vm.c:315-345 | so does a new directory made of pages from the pool |
| `AddressSpaces.OneLess` | xv6/vm.c:283-298 | so does freeing one |
| `ShellGrammar.ReadIffDerived` | sh.c:327-446 | a parser of tokens reads a list to its end as a command if and only if the grammar derives the list with that meaning: sound, complete, with >> and redirections anywhere |
| `ShellGrammar.Unambiguous` | sh.c:327-446 | no list of tokens has two meanings |
| `ShellTokens.LineAgrees` | sh.c:344-446 | on every line the parser on characters does what the parser on tokens does, failures included |
| `ShellTokens.ToksIff` | sh.c:265-308 | for every line: the tokens that gettoken finds one after the other, and no other list, spell it with nothing but blanks between them |
| `ShellTokens.AcceptedIffDerived` | sh.c:327-446 | for every line: it is accepted as a command if and only if the grammar derives its tokens with that meaning |
| `ShellTokens.AcceptedIffSpelled` | sh.c:265-446 | for every line: it is accepted as a command if and only if it is spelled by tokens that the grammar derives with that meaning |
| `ShellRoundTrip.RenderToks` | sh.c:265-308 | the tokens of a printed line are the printed tokens |
| `ShellRoundTrip.LineMeans` | sh.c:344-446 | every command with fewer than MAXARGS words has a derivation, with parentheses where they are needed |
| `ShellRoundTrip.RoundTrip` | sh.c:327-446 | for every command tree with valid words and fewer than MAXARGS arguments: parsing its printed form gives the same tree |
| `ShellParser.Parser.GetToken` | sh.c:265-308 | on every line and from every place: blanks, then the end of the line, >>, a single symbol or a word as long as it can be, then all blanks; the kind says which |
| `Shell.LexesOnce` | sh.c:265-308 | nothing else fits that description |
| `ShellParser.Parser.ParseRedirs` | sh.c:374-397 | the loop gives all redirections in order, or the panic |
| `ShellParser.Parser.ParseExec` | sh.c:415-446 | words and redirections in any order; terminates on every line |
| `ShellParser.Parser.ParseBlock` | sh.c:399-413 | a line in parentheses with its redirections, or the panic |
| `ShellParser.Parser.ParsePipe` | sh.c:361-372 | pipelines group to the right; terminates on every line |
| `ShellParser.Parser.ParseLine` | sh.c:344-359 | each & wraps what is before it and ; groups to the right; terminates on every line |
| `ShellStrings.LineWhole` | sh.c:265-446 | every place in a parsed command is a whole word: word characters inside, none behind |
| `ShellStrings.TerminatedWord` | sh.c:448-493 | with NULs behind all words each of them is a C string equal to its token, because none ends inside another |
| `ShellStrings.NulTerminate` | sh.c:448-493 | exactly the characters behind the command's words become NUL |
| `ShellStrings.ParseCmd` | sh.c:327-342 | the parse of the specification, leftovers included; then every argument and file name is a C string equal to its token; on a panic the line is untouched |
| `Grep.BeginsStar` | xv6/grep.c:98-106 | the semantics of c*: some number of hits and then the rest |
| `Grep.ItemsIff` | xv6/grep.c:84-96 | every pattern is read as items in exactly one way: a star binds the character before it, $ is special only at the end |
| `Grep.Match` | xv6/grep.c:72-82 | found exactly if the pattern describes a part of the line, at its beginning after ^ |
| `Grep.MatchHere` | xv6/grep.c:84-96 | found exactly if the text can be cut into pieces that the items of the pattern describe in order |
| `Grep.MatchStar` | xv6/grep.c:98-106 | sound and complete for c* followed by the rest; the three functions terminate on every input |
| `Pipe.CloseCounters` | xv6/pipe.c:84-113 | two 32-bit counters that are at most a ringful apart are equal only if the true counts are |
| `Pipe.DifferentPlaces` | xv6/pipe.c:93-115 | bytes that are held together lie in different places of the ring, also across the wrap of the counters |
| `Pipe.Pipe.Write` | xv6/pipe.c:78-98 | the next bytes go in, in order, as many as fit; readers are left asleep beside a full ring exactly if a writer that must fail had more than a ringful to write |
| `Pipe.StrandedReader` | xv6/pipe.c:78-98 | a run that does it: a reader sleeps, a killed writer writes 513 bytes |
| `Pipe.Pipe.Read` | xv6/pipe.c:100-121 | the oldest bytes come out, in order; nothing from a positive read only if the pipe is empty and the write end closed; nobody sleeps beside something to read |
| `Pipe.Pipe.Close` | xv6/pipe.c:59-75 | one end closes and the sleepers of the other wake; the pipe is freed exactly if both ends are closed |

## Left out

- Heap.Allocator.Malloc: after a wild `morecore` nothing is claimed about memory; that it happens, and exactly when, is.
- Lottery.Scheduler.Dispatch: requires that the ticket sum does not overflow an `int`, which is undefined in C.
- Lottery.Scheduler.Run: the processes that win only yield; the table is steady over the window, as the fairness claim needs.
- BufferCache.Cache.Bread: a call that waits is not followed further; `SleepLock` treats the waiting.
- FsLog.Log.Recover: requires that the header on disk lists distinct blocks outside the log, which is what a commit writes.
- FileSystem.Volume.WriteOp: nothing is claimed about the disk in memory after the panic "out of blocks"; the transaction never commits.
- FsLog.Log.Commit: requires that the list fits the slots or that the log has at least LOGSIZE blocks, as mkfs makes it; `LogAdmission.FitsIff` says when smaller ones are overrun. Readers act before each block write, that is, before each `bread` of a log block; the other `bread` of a round finds its block in the cache, or, in a recovery, nobody else runs. They use blocks outside the list and the log; a commit that waits for a reader of a listed block is not followed further.
- FsLog.Log.WriteLog: the same.
- Vm.Copyuvm: page tables are values of their own, not words in pages of memory, so that a wrong physical address in an entry is not modelled; `kfree`'s range check is left out.
- Vm.Setupkvm: requires that the kernel's data starts a page, as the linker script makes it; `Vm.KmapOkIff` says that this is exact.
- Vm.Allocuvm: nothing is claimed about the state after the panic "remap".
- Vm.MapPage: one turn of the loop; user ranges are mapped one page at a time, as all callers in the model do, and kernel ranges by a loop over it.
- ShellParser.Parser.ParseExec: command nodes are values; that the argument array is filled after redirection nodes already point at its node is not modelled.
- ProcSteps: critical sections on one CPU are atomic steps, which `SpinLock.MutualExclusion` justifies; the lottery is replaced by any RUNNABLE choice; pids do not overflow.
- CrashFiles.FilesSurvive: the operations are writes and truncations; allocating an inode is not among them.
- ialloc, iget, ilock and the inode cache: each inode has one copy in memory, and it is always valid; the number of references to it is a parameter of `iput`.
- Directories, path names, link counts and the directory system calls.
- exec, ELF loading, growproc and sbrk argument handling.
- Boot, assembly, interrupt controllers, disk, console and serial drivers; the disk is the synchronous one of `memide.c`.
- swtch, trap frames and segments: a context switch is a transfer of control.
- Device files: reading and writing them only reports that a driver would be called.
- The `ps`, `sleep` and test programs, the trace printing of the scheduler, and the system calls that only fetch arguments.
- grep's buffer loop: only the matcher is modelled.
- The period of the shift register: fairness needs only that a step is a bijection and that the seeds cycle.
