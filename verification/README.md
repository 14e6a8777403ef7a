# FuriOS kernel: a verified model

This project models the crash-safe storage, memory and stream code of the FuriOS kernel in
Dafny and proves what that code promises, over every input, every run and every crash point.
Code that changes state step by step is modelled as classes and methods with loops; each
method is proved against a function of the old state, and the promises are lemmas about those
functions and invariants that every method keeps.

## What is modelled

**JBD2 journal** (`Journal*.dfy`, `Bytes.dfy`; kernel/ext4.c). The ring and its space
accounting, the on-disk records and their parsers, transactions with their images and revokes,
commit, checkpoint, mount with replay, and the byte-level read and write path. `JournalHistory`
puts them together: for every history of transactions, checkpoints, crashes at any single disk
write and mounts, the system reads what an abstract store holds, and a stopped system mounts
and gets everything committed back. `JournalStore` has that store on its own terms, with what the
open transaction has written and revoked, and says exactly which operations are accepted.
`Journal.dfy` holds the journal as an object whose methods are the C functions.

**FUJ1 redo log** (`RedoLog.dfy`, `RedoHistory.dfy`, `RedoJournal.dfy`; kernel/ext4.c). The log
used without a JBD2 journal, over a cache in which any dirty sector may reach the disk at any
time. A commit that crashes anywhere, with any number of crashes in the mounts that follow, ends
with all of the transaction's writes or none; over whole runs of transactions, flushes, crashes
and mounts the home area changes by whole transactions only, as a ledger that never looks at the
device says.

**Extent tree, indirect tree, directories** (`Extents.dfy`, `ExtentTree.dfy`, `ExtentDisk.dfy`,
`Indirect.dfy`, `IndirectFile.dfy`, `DirBlock.dfy`, `Directory.dfy`; kernel/ext4.c). Each refines
a finite map, and says exactly when an operation succeeds: lookup, assign and truncate over extent
trees of any depth; map, set and clear over pointer blocks that share one disk; find, add and
remove over the bytes of directory blocks. On disk, rebuilding an extent tree uses free blocks
only, gives back exactly the old index blocks, and leaves file and bitmap alone when it fails.

**Copy-on-write memory** (`Pigeonhole.dfy`, `Pmm.dfy`, `CopyOnWrite.dfy`, `AddressSpaces.dfy`;
kernel/pmm.c, kernel/task.c, kernel/pagecache.c). Through any sequence of faults, stores,
protection changes, unmaps, forks and exits, everyone reads what they would read had fork
copied every private page, and may write and execute exactly what they were given or inherited;
reference counts are exact throughout.

**Memory areas and address-space identifiers** (`Vmas.dfy`, `VmaTable.dfy`, `Mprotect.dfy`,
`Asids.dfy`; kernel/task.c). munmap, mprotect and mmap change exactly their range of the areas at
every address and never run out of slots midway; `Mprotect.dfy` puts areas and pages together and
says exactly when mprotect succeeds and what a late failure leaves; no identifier passes to another address space without a full TLB flush.

**TCP data transfer** (`Tcp.dfy`, `TcpStream.dfy`, `TcpSocket.dfy`; kernel/net.c; sections 3.4
and 3.10.7.4 of RFC 9293). Two established sockets over a network that loses, repeats and
reorders segments: what is received is always a prefix of what was written, every segment does
exactly what its positions in the stream say, and one retransmission that gets through, with its
answer, delivers whatever was in flight.

**Block cache, pipes, directory check** (`BlockCache.dfy`, `Pipes.dfy`, `PipeSystem.dfy`,
`Fsck.dfy`; kernel/block_cache.c, kernel/pipe.c, kernel/syscall.c, kernel/fs.c). The write-back
cache refines a sector array under request failures and power cuts and fails only if a request
does; pipes deliver their bytes in order across fork, dup2, close and exit, lose no wakeups and
count their ends exactly; the parent walk accepts exactly the connected directories.
`CachedDisk.dfy` joins cache and redo log: what a power cut leaves behind this cache is what the
redo log's crash model allows.

## What turned out false

Each of these is kept as the code has it, with a concrete counterexample and, unless it says
otherwise, the exact condition under which the property does hold.

- A journal without the revoke feature is mounted and written to like any other, but a committed
  revoke makes every later mount fail: `JournalNoRevoke.RevokeBlocksMount`. The exact condition is
  `JournalChain.ReplayFindsChain` for a log, `JournalRun.InvMountIff` for every state between
  operations and `JournalNoRevoke.CommitMountIff` for one more commit.
- A commit that was cut short leaves headers that the next commit, which reuses its sequence
  number, may run into; two of them can make every later mount fail:
  `JournalLoop.TwoCrashesBlockMount`. Replay stops at the crash boundary exactly under
  `JournalCrash.CrashBoundaryIff`. That condition, and the one of the histories, is sufficient for
  the next mount to succeed; it is not shown to be necessary. Nothing uncommitted is replayed in
  any case (`JournalCrash.UncommittedIsNeverReplayed`).
- Revokes compare sequence numbers as plain 32-bit numbers: `JournalRecovery.SequenceWrapIff`.
- The 32-bit jump in the ring goes wrong in rings of more than 2^31 blocks:
  `JournalRing.AdvanceWraps`, exact in `JournalRing.AdvanceIsStepping` and
  `JournalRing.EveryJumpIff`. A reservation still never overlaps live blocks
  (`JournalRing.ReserveIsExact`), since commit itself steps block by block.
- File block 0xFFFFFFFF can be assigned but not found, and assigning it can hide the blocks
  before it: `Extents.AssignIff`, `Extents.AssignLastHides`. Truncating to more than 0xFFFFFFFF
  blocks keeps the wrong number of blocks: `Extents.KeepIff`.
- A truncation that fails gives its data blocks back while the file still maps them, since they
  are freed before the tree is rebuilt: `ExtentDisk.StrandedBlock`, exact in
  `ExtentDisk.DiskFile.TruncateTo`.
- Taking a reference on a page that nobody holds breaks the page allocator:
  `PageAllocator.Pmm.RefPage` keeps it sound if and only if the page is held.
- A fixed mapping can be refused after its range was unmapped: `Vmas.FixedMapCanLose`, exact in
  `VmaTable.Table.MapFixed`.
- mprotect can fail after it has changed the areas and some of the pages: `Mprotect.LateFailure`,
  exact in `Mprotect.Mprotect`.
- A page of a writable shared file mapping that was only read makes every fork fail until it is
  written or unmapped: `AddressSpaces.ReadThenFork`, reached in `AddressSpaces.ForkRefused`, exact
  in `AddressSpaces.Machine.Fork`.
- A FIN whose sending fails is never sent again: `TcpStream.FailedFinIsLost`, after
  `TcpStream.FailedFin`. The condition is that the device takes the segment
  (`TcpSocket.Socket.SendFin`).
- A pipe read whose copy to user space fails loses a wakeup if a writer waits:
  `Pipes.LostWakeup`, exact in `Pipes.FailedCopyIff`.

Revoke blocks store the low half of a 64-bit block number before the high half, unlike the
"Journal (jbd2)" section of the Linux kernel ext4 documentation; the model follows the code.

## Assumptions

A FUJ1 commit is preceded by a flush of what it logged, as in every caller; without that it may
tear (`RedoLog.UnflushedLogTears`). Disk writes of the JBD2 journal reach the disk in program order, one block at a time, and do not
fail inside a commit; checksum features are off, as the kernel's own mkfs leaves them. A failed
sector read leaves the buffer unchanged. User memory copies, device requests, the network and
the clock are nondeterministic or parameters. A TCP segment is never compared with an edge 2^31
or more away. System calls are atomic with respect to each other, as the kernel is not preempted.

## Model

| member | source | states |
|---|---|---|
| `JournalRing.AdvanceIsStepping` | kernel/ext4.c:753-761 | jumping `n` blocks ahead in the ring is taking `n` single steps with wrap-around if and only if the 32-bit sum of index and jump does not wrap |
| `JournalRing.EveryJumpIff` | kernel/ext4.c:753-761 | every jump is right if and only if the ring has at most 2^31 blocks |
| `JournalRing.DistanceInvertsAdvance` | kernel/ext4.c:763-776 | distance and jump are inverse, both ways, if and only if the sum of the jump fits in 32 bits |
| `JournalRing.FreeIsExact` | kernel/ext4.c:778-804 | the free count is the ring less the live blocks less one, for every head and tail |
| `JournalRing.ReserveIsExact` | kernel/ext4.c:1954-1983 | a reservation is granted exactly when the blocks fit beside the live ones with one to spare, even where its 32-bit end is wrong; no reserved block is a live block |
| `JournalRing.ReserveCoversTx` | kernel/ext4.c:857-892 | no transaction within the table limits needs more blocks than the reserve computes |
| `JournalRing.AdmittedTxCommits` | kernel/ext4.c:1881-1916 | once `tx_start` has seen its minimum free, every transaction within the limits gets its reservation unless it is as long as the ring |
| `JournalFormat.EscapeRoundTrip` | kernel/ext4.c:2120-2126 | unescaping undoes escaping for every image, and an escaped image never looks like a journal header |
| `JournalFormat.DescriptorRoundTrip` | kernel/ext4.c:1468-1583 | parsing the descriptor written for any images gives back those images in order, each with its data position (across the wrap) and escape bit |
| `JournalFormat.RevokeRoundTrip` | kernel/ext4.c:1434-1466 | parsing the revoke block written for any revokes gives back exactly those |
| `JournalFormat.HeaderReadBack` | kernel/ext4.c:1930-1945 | each kind of record block is recognised under its own kind and sequence number and no other |
| `JournalScan.EmitFillsReservation` | kernel/ext4.c:2009-2246 | descriptor, data, revoke and commit blocks together number exactly what was reserved, for any lists |
| `JournalScan.ScanDesc` | kernel/ext4.c:1704-1879 | one descriptor group on disk: the scan collects its images and moves past their data |
| `JournalChain.ScanTx` | kernel/ext4.c:1704-1879 | scanning one committed transaction that the journal can read adds exactly its images and revokes and ends just past its commit block, expecting the next number |
| `JournalChain.ScanTxFails` | kernel/ext4.c:1767-1769 | scanning one that revokes blocks, on a journal without the revoke feature, fails |
| `JournalChain.ReplayFindsChain` | kernel/ext4.c:1704-1879 | on a log of committed transactions replay finds all of them in order and nothing else if the journal has the revoke feature or none of them revokes, and fails otherwise |
| `JournalChain.GuardCovers` | kernel/ext4.c:1730-1740 | the floor of 64 turns is enough for six transactions of any size, whatever four times the journal length wraps to in 32 bits |
| `JournalCrash.PutBody` | kernel/ext4.c:2101-2213 | the writes of a commit together leave the emitted blocks in ring order in the reserved segment, and nothing else changed |
| `JournalCrash.CrashStops` | kernel/ext4.c:1704-1879 | after a crash at any write of a commit, replay stops at the first missing header with the tables it had before |
| `JournalCrash.CrashBoundaryIff` | kernel/ext4.c:1704-1879 | replay stops at the crash boundary for every crash point if and only if none of the places of the transaction's headers holds a stale header with its number |
| `JournalCrash.UncommittedIsNeverReplayed` | kernel/ext4.c:1704-1879 | whatever stale headers there are, a transaction without a commit block contributes nothing to any replay that ends |
| `JournalRecovery.RecoveryIsCheckpoint` | kernel/ext4.c:1585-1611 | applying what replay found gives on every block what checkpointing the committed transactions in order gives, except where the last word is a revoke, which keeps the home block |
| `JournalRecovery.ReplayAfterPartialReplay` | kernel/ext4.c:1585-1611 | replay after a crash at any point of replay ends where an undisturbed replay ends |
| `JournalRecovery.SequenceWrapIff` | kernel/ext4.c:993-1005 | with plain 32-bit comparison every readable chain of `n` transactions from number `q` recovers correctly if and only if no number passes the top of 32 bits or the journal has no revokes |
| `JournalRecovery.NoWrapRecovers` | kernel/ext4.c:993-1005 | the half of that used elsewhere: below the wrap every chain recovers |
| `JournalState.SuperRoundTrip` | kernel/ext4.c:1084-1108 | what the superblock write stores is what the next mount loads |
| `JournalState.WriteChunkView` | kernel/ext4.c:1307-1322 | a transactional write changes exactly its bytes of its block in the view, takes back exactly the revoke of that block, and no block is ever both logged and revoked |
| `JournalState.NoteRevokeView` | kernel/ext4.c:1415-1432 | a revoke drops the block's image and nothing else; the block then reads as before the transaction |
| `JournalState.NoteRevokeTable` | kernel/ext4.c:1415-1432 | the set of revoked blocks grows by that block and loses none, unless it is absent and the table is full, which is exactly when the overflow is noted |
| `JournalState.WriteChunkImages` | kernel/ext4.c:1307-1322 | the open transaction's image of the block is the view with the bytes written, and its images of other blocks stay |
| `JournalHistory.AbortRestores` | kernel/ext4.c:1918-1928 | a transaction that is started, given any writes and revokes, and aborted leaves the disk alone and every block reading as before |
| `JournalView.OverlaysAreView` | kernel/ext4.c:638-675 | home bytes overlaid by pending transactions in order and then the open one are the view, byte by byte, at any offset and length |
| `JournalView.WriteChunksView` | kernel/ext4.c:1383-1413 | a write over any number of blocks changes exactly the bytes it wrote |
| `JournalView.Overlay` | kernel/ext4.c:1324-1350 | the loop copies each image's overlap over the request, in order |
| `JournalRun.InvRecoverable` | kernel/ext4.c:2009-2246 | between operations the disk is one from which mount gets back every committed transaction, if replay can read them |
| `JournalRun.InvMountIff` | kernel/ext4.c:1670-1678 | between operations the next mount succeeds if and only if the journal has the revoke feature or nothing committed revokes |
| `JournalRun.MountRecovers` | kernel/ext4.c:1613-1702 | mount succeeds on every recoverable disk, and a crash at any of its writes leaves a recoverable disk with nothing lost |
| `JournalRun.CheckpointIsSafe` | kernel/ext4.c:1187-1223 | a crash at any write of a checkpoint loses nothing, and a finished checkpoint does not change the view |
| `JournalRun.CheckpointKeepsView` | kernel/ext4.c:1187-1223 | what the committed transactions show is the same whether or not some of them are already home |
| `JournalRun.PartReplayedRecoverable` | kernel/ext4.c:1704-1879 | a home area that replay has only partly rewritten is still recoverable |
| `JournalCommit.CommitIsSafe` | kernel/ext4.c:2009-2246 | a crash before the commit block leaves the state before the transaction, from then on the transaction is in; pending transactions are never overwritten; a finished commit keeps memory and log in step, readable or not |
| `JournalCommit.CommitExtends` | kernel/ext4.c:2009-2246 | with all writes on disk the log holds the new transaction behind the others, which are untouched |
| `JournalStale.StaleCrash` | kernel/ext4.c:2009-2246 | a commit cut short leaves its headers in the blocks just behind where the next mount puts the head, and nowhere else |
| `JournalStale.StaleFresh` | kernel/ext4.c:2009-2246 | a transaction that does not reach back to those headers is safe to log |
| `JournalHistory.StepOk` | kernel/ext4.c:2009-2246 | every step (start, write, revoke, abort, commit, checkpoint, crash at any write, mount) keeps disk and journal in agreement with an abstract store |
| `JournalHistory.HistoryOk` | kernel/ext4.c:1704-1879 | the same for every history of steps |
| `JournalHistory.HistoryIsDurable` | kernel/ext4.c:1704-1879 | from a fresh journal through any such history: a running system reads what the store holds, and a stopped one mounts and then has everything the store holds at home |
| `JournalHistory.FormattedDisk` | kernel/fs.c:3114-3138 | a zeroed journal behind its superblock, as mkfs writes it, is a disk from which every such history can start, for every geometry |
| `JournalHistory.AdmittedCommits` | kernel/ext4.c:1881-1916 | in every history, a transaction that was admitted commits if and only if it has no revoke overflow and is shorter than the ring |
| `JournalHistory.CommittedIsCheckpointed` | kernel/ext4.c:1352-1381 | what reads see below the open transaction is the committed transactions applied in order |
| `JournalStore.AcceptedIff` | kernel/ext4.c:1881-1916 | in every state a history reaches, an operation is accepted exactly when a store that knows only what was written and revoked admits it: a write needs an open transaction and a slot, a commit no overflow and fewer blocks than the ring; a start needs, besides, the reserve in the ring |
| `JournalStore.StoreStep` | kernel/ext4.c:2009-2246 | every step moves the journal's tables as that store moves: no write or revoke that was accepted is lost before the commit, and a commit takes effect as a whole |
| `JournalStore.HistoryIsStore` | kernel/ext4.c:1704-1879 | from a fresh journal through any history: a running system reads through its open transaction what the store holds and accepts what it admits, and a stopped one mounts and then has everything the store holds at home |
| `JournalLoop.TwoCrashesBlockMount` | kernel/ext4.c:1704-1879 | from any fresh journal with a ring of four: start, write a block, crash in the commit, mount, the same again, and then no mount succeeds any more |
| `JournalLoop.FirstMount` | kernel/ext4.c:1704-1879 | after the first of the two crashes the mount succeeds, with the head behind the cut-short body and the same number |
| `JournalNoRevoke.CommitMountIff` | kernel/ext4.c:1415-1432 | in every state a history reaches, after a complete commit and a crash the mount succeeds if and only if the journal has the revoke feature or the transaction revokes nothing |
| `JournalNoRevoke.RevokeBlocksMount` | kernel/ext4.c:1767-1769 | from any fresh journal without the feature: one revoke, one commit, one crash, and no mount succeeds any more |
| `JournalCodec.WrBe32` | kernel/ext4.c:399-404 | in place: the four bytes at the offset and no others become the big-endian value |
| `JournalCodec.TryAddRevoke` | kernel/ext4.c:927-951 | the table loop: an entry for the block is raised to the newer number, else one is added if there is room |
| `JournalCodec.TryAddUpdate` | kernel/ext4.c:953-991 | the table loop: an entry for the block is replaced, else one is added if there is room |
| `JournalCodec.HitsUpdate` | kernel/ext4.c:993-1005 | the loop decides exactly whether a revoke at or after the update's number names its block |
| `JournalCodec.ParseDescriptorBlock` | kernel/ext4.c:1468-1583 | the loop computes the parse used in the round trip, on any bytes, with every rejection |
| `JournalCodec.ParseRevokeBlock` | kernel/ext4.c:1434-1466 | the same for revoke blocks |
| `JournalObject.Journal.StoreSuperBlock` | kernel/ext4.c:1084-1108 | writes journal block 0 with the three fields and nothing else |
| `JournalObject.Journal.RefreshTail` | kernel/ext4.c:1110-1118 | start and tail come from the oldest pending transaction, or say the log is empty |
| `JournalObject.Journal.Revoke` | kernel/ext4.c:1415-1432 | the block is no longer logged; the revoked blocks are the old ones and this one, or the overflow is noted exactly when the table is full |
| `JournalObject.Journal.ReadBytes` | kernel/ext4.c:638-675 | returns the bytes of the view |
| `JournalObject.Journal.WriteBytes` | kernel/ext4.c:1383-1413 | the open transaction afterwards is the one the model computes, block by block |
| `JournalObject.Journal.EmitBody` | kernel/ext4.c:2101-2213 | the nested loops write exactly the modelled writes in program order |
| `JournalObject.Journal.EmitCommit` | kernel/ext4.c:1930-1945 | writes the commit block at its place |
| `JournalObject.Journal.CommitOpen` | kernel/ext4.c:2009-2246 | disk and memory afterwards are the modelled commit; a refusal leaves both |
| `JournalObject.Journal.PushPending` | kernel/ext4.c:1120-1140 | the transaction joins the end of the list |
| `JournalObject.Journal.PopOldest` | kernel/ext4.c:1142-1155 | the oldest leaves, the others move down |
| `JournalObject.Journal.CheckpointUpTo` | kernel/ext4.c:1187-1223 | home and list afterwards are the modelled checkpoint of at most that many transactions |
| `JournalObject.Journal.ScanLog` | kernel/ext4.c:1704-1879 | the scan loop with its guard computes the modelled scan |
| `JournalObject.Journal.ApplyAll` | kernel/ext4.c:1585-1611 | the loop applies the updates in order, leaving out those a revoke hits |
| `JournalObject.Journal.MountAndReplay` | kernel/ext4.c:1704-1879 | load, scan, apply and reset: the modelled mount, with each refusal |
| `JournalObject.Journal.BatchForNeed` | kernel/ext4.c:834-855 | the fewest oldest transactions whose log covers the shortfall, or all one batch may take |
| `JournalObject.Journal.MakeRoom` | kernel/ext4.c:1246-1273 | with no transaction open it always reaches the free space asked for, within its tries, and the view stays |
| `JournalObject.Journal.MaybeCheckpoint` | kernel/ext4.c:1225-1244 | keeps the invariant and the view; short of room it makes room, else a full list goes home, an aged one loses its oldest, and otherwise nothing happens |
| `JournalObject.Journal.Begin` | kernel/ext4.c:1881-1916 | succeeds exactly when no transaction is open, with an empty transaction and the reserve in the ring; a refusal keeps everything |
| `JournalObject.Journal.TxCommitAll` | kernel/ext4.c:2009-2246 | what the open transaction showed is committed, the view does not change, and afterwards the ring is not short of room; a refusal keeps everything |
| `JournalObject.Journal.TxDrop` | kernel/ext4.c:1918-1928 | the view is the committed one again |
| `RedoLog.OneSector` | kernel/ext4.c:465-492 | over a cache that may store any dirty sector at any time, a write inside one sector is all there or not at all after a crash |
| `RedoLog.ReplayApplies` | kernel/ext4.c:2267-2317 | replay carries out exactly the logged records in order and leaves the log alone |
| `RedoLog.LogAppends` | kernel/ext4.c:677-714 | a logged write puts its record and data behind the others and leaves header and home alone |
| `RedoLog.CommitIsAtomic` | kernel/ext4.c:565-620 | whatever a crash at any sector write of a flushed commit leaves, mount makes nothing or all of the transaction out of it |
| `RedoLog.MountIsRepeatable` | kernel/ext4.c:2267-2317 | a crash at any sector write of mount changes nothing about what mount makes of the device in the end |
| `RedoLog.AllOrNothing` | kernel/ext4.c:565-620 | a commit that crashes anywhere, followed by any number of crashing mounts, ends with all of the transaction's writes or none |
| `RedoLog.CrashWhileLogging` | kernel/ext4.c:677-714 | a crash while a transaction is logged leaves nothing to replay |
| `RedoLog.CrashAtQuietHeader` | kernel/ext4.c:518-549 | a crash at the header write of begin or abort leaves nothing to replay and the home area as it was |
| `RedoLog.UnflushedLogTears` | kernel/ext4.c:565-600 | why callers flush before commit: without it there is a crash after which mount installs data that was never logged |
| `RedoHistory.AbortLeaves` | kernel/ext4.c:551-563 | a crash at the header write of abort leaves nothing to replay, with any logged records still in the cache |
| `RedoHistory.StepOk` | kernel/ext4.c:565-620 | every step (begin, write, flush, commit, abort, a crash at any sector write of any of them, mount, a crash in mount) keeps device and home area in agreement |
| `RedoHistory.RunsAreAtomic` | kernel/ext4.c:2267-2317 | over every run of those steps, against a ledger that never looks at the device: a system that is up reads at home exactly the transactions that committed, all of each, and has logged exactly what was written since; one that is down mounts and then holds exactly those transactions |
| `CachedDisk.RawWriteBytes` | kernel/ext4.c:465-492 | over the block cache: succeeds exactly if the range is on the device and no request failed; else the first bytes up to a failing sector are written and no others; every sector of every version since the flush is one the crash model knows |
| `CachedDisk.CacheGivesCrashModel` | kernel/block_cache.c:343-356 | the medium behind the block cache is at any time one that the redo log's crash model allows |
| `CachedDisk.PowerCutIsCrash` | kernel/block_cache.c:343-356 | the same for the cache object, between any two requests |
| `RedoJournal.Journal.Begin` | kernel/ext4.c:518-549 | a header that commits nothing, with the next number, flushed; an empty log; the step of the run theorem |
| `RedoJournal.Journal.LogWrite` | kernel/ext4.c:677-714 | appends the record or refuses at the limits; home is untouched; the step of the run theorem |
| `RedoJournal.Journal.Commit` | kernel/ext4.c:565-620 | header, home writes and clear, each followed by a flush, from any cache state; home holds all records; the step of the run theorem |
| `RedoJournal.Journal.Abort` | kernel/ext4.c:551-563 | home is untouched and the log is clean, from any cache state; the step of the run theorem |
| `RedoJournal.Journal.MountReplay` | kernel/ext4.c:2267-2317 | on any log: the modelled mount, refused exactly where that is; on a log this code wrote its stretches between flushes are those of the crash theorem |
| `RedoJournal.Journal.Replay` | kernel/ext4.c:2289-2312 | the loop that checks, reads and carries out record after record computes the modelled replay, with every refusal |
| `Extents.MapIsRuns` | kernel/ext4.c:3563-3618 | lookup in a tree of any depth agrees with lookup in the runs collected from it, for every block |
| `Extents.MergedMap` | kernel/ext4.c:3648-3678 | merging changes no lookup |
| `Extents.MergedOrdered` | kernel/ext4.c:3648-3678 | merged runs stay in order, no more of them, and no two neighbours could still merge |
| `Extents.Up` | kernel/ext4.c:3769-3901 | every added level has fewer nodes than the one below |
| `Extents.RebuildOk` | kernel/ext4.c:3769-3901 | the rebuilt tree collects to exactly the runs it was built from, and lookup finds them, for any number of runs |
| `Extents.AssignOk` | kernel/ext4.c:3903-3945 | a successful assign changes the map at that block only, which was a hole |
| `Extents.AssignSucceeds` | kernel/ext4.c:3903-3945 | an assign succeeds exactly if the disk block is between 1 and 0xFFFFFFFF, the tree can be collected, the file block is a hole and there are fewer than 256 runs |
| `Extents.CollectedIff` | kernel/ext4.c:3620-3646 | a tree can be collected exactly if none of its extents is uninitialised or at block 0 and those that hold blocks are in order, of a length that fits, and at most 256; the runs are those extents |
| `Extents.AssignCollects` | kernel/ext4.c:3903-3945 | what was assigned to can be collected again and has at most one run more |
| `Extents.AssignIff` | kernel/ext4.c:3903-3945 | the assigned block is found afterwards if and only if it is not 0xFFFFFFFF |
| `Extents.AssignLastHides` | kernel/ext4.c:3518-3530 | a concrete assign of block 0xFFFFFFFF after which the block before it is no longer found |
| `Extents.TruncateOk` | kernel/ext4.c:3947-4002 | truncation keeps the map below the kept blocks, empties it above, and gives back every disk block mapped there |
| `Extents.TruncateFrees` | kernel/ext4.c:3947-4002 | nothing else is given back, and no block twice unless two file blocks shared it |
| `Extents.TruncateCollects` | kernel/ext4.c:3947-4002 | truncation succeeds exactly if the tree can be collected; so can the result, with no more runs |
| `Extents.KeepIff` | kernel/ext4.c:3958-3958 | the number of kept blocks is right for every size up to 0xFFFFFFFF blocks and for no larger size |
| `ExtentTree.MapBlock` | kernel/ext4.c:3496-3561 | the descent loop computes the lookup |
| `ExtentTree.CollectNode` | kernel/ext4.c:3563-3618 | fills the run table with the node's runs, and fails exactly when a run is uninitialised or blockless or the table is full |
| `ExtentTree.MergeInPlace` | kernel/ext4.c:3648-3678 | merges the table in place |
| `ExtentTree.BuildTree` | kernel/ext4.c:3769-3901 | the level loops build the modelled tree |
| `ExtentTree.InsertRun` | kernel/ext4.c:3903-3945 | shifts the table and inserts; refuses exactly a mapped block or a full table; afterwards the table is in order and maps that block and otherwise what it did |
| `ExtentTree.ExtentFile.CollectRuns` | kernel/ext4.c:3620-3646 | the collected runs, refused exactly when one is empty, too long, out of range or out of order |
| `ExtentTree.ExtentFile.AssignBlock` | kernel/ext4.c:3903-3945 | succeeds exactly if the disk block fits, the tree can be collected, the block is a hole and there are fewer than 256 runs; for every block below 0xFFFFFFFF the map then changes there and nowhere else; a refusal changes nothing |
| `ExtentTree.ExtentFile.TruncateTo` | kernel/ext4.c:3947-4002 | succeeds exactly if the tree can be collected; the map is restricted to the kept blocks, and the freed list is the modelled one |
| `ExtentDisk.DiskFile.NewTree` | kernel/ext4.c:3795-3888 | on disk: the new tree is written to blocks that were free, one block a node and no other; it stops short only when no block is left |
| `ExtentDisk.DiskFile.FreeTree` | kernel/ext4.c:3000-3040 | exactly the blocks of the old tree are given back |
| `ExtentDisk.DiskFile.Rebuild` | kernel/ext4.c:3769-3901 | succeeds exactly when the inode can be stored and there is a free block for every node beside the old tree; then the root stands for the rebuilt tree, the old index blocks are free and the new ones were not in use; no block in use is written; a failure leaves bitmap, root and tree |
| `ExtentDisk.DiskFile.CollectNode` | kernel/ext4.c:3563-3618 | reading the children from disk collects the runs of the tree the root stands for |
| `ExtentDisk.DiskFile.AssignBlock` | kernel/ext4.c:3903-3945 | on disk: the same exact condition, with a free block for every node and an inode that can be stored; for every block below 0xFFFFFFFF the map then changes there and nowhere else, and mapped blocks stay in use, apart from the tree's and mapped once; a refusal changes neither file nor bitmap |
| `ExtentDisk.DiskFile.TruncateTo` | kernel/ext4.c:3947-4002 | on disk: data blocks are given back before the tree is rebuilt; it succeeds exactly if the tree can be collected, the inode stored and every node given a block; afterwards mapped blocks are in use and apart from the tree's if and only if it succeeded or gave nothing back |
| `ExtentDisk.StrandedBlock` | kernel/ext4.c:3970-4001 | a file on a full volume for which it fails and leaves a block free that the file still maps |
| `ExtentDisk.NodesFit` | kernel/ext4.c:92-93 | the 512 entries of the node tables are enough for the 256 runs a file may have |
| `Indirect.PathInjective` | kernel/ext4.c:3083-3171 | different file blocks hang at different places of the tree, over all four ranges |
| `Indirect.PathPosition` | kernel/ext4.c:3083-3171 | the places run through the four ranges in order with the last index fastest, and exactly the blocks behind them have none |
| `Indirect.WalkSame` | kernel/ext4.c:3173-3183 | changing one pointer of one block changes nothing that does not lead through it |
| `Indirect.SetLeaf` | kernel/ext4.c:3173-3183 | writing a data pointer changes the map at one place and keeps the tree a tree |
| `Indirect.Link` | kernel/ext4.c:3185-3192 | linking a new empty pointer block changes nothing in the map |
| `Indirect.Unlink` | kernel/ext4.c:3321-3467 | unlinking an empty pointer block changes nothing in the map |
| `IndirectFile.File.MapBlock` | kernel/ext4.c:3083-3171 | follows up to three pointers and returns the map, 0 beyond the last range |
| `IndirectFile.File.SetBlock` | kernel/ext4.c:3194-3305 | succeeds exactly if block and value are in range and there are as many free blocks as pointer blocks missing on the path; those are taken and no others; the block then maps to the value, and every other block as before in any case |
| `IndirectFile.File.ClearBlock` | kernel/ext4.c:3321-3467 | the old block is returned, only this block becomes a hole, and the pointer blocks given back are exactly those that served nothing else |
| `IndirectFile.PruneStep` | kernel/ext4.c:3307-3319 | one level of that: a pointer block is given back if and only if all below it on the path went and it holds nothing else |
| `DirBlock.InsertOk` | kernel/ext4.c:4302-4358 | adding in an unused or a too long record leaves the block tiled, with exactly one entry more, byte by byte |
| `DirBlock.RemoveOk` | kernel/ext4.c:4200-4230 | joining a record to the one before, or marking the first unused, leaves the block tiled with exactly that entry gone |
| `Directory.AddIsInsert` | kernel/ext4.c:4302-4358 | as a map from names, adding an absent name binds it and changes nothing else; names stay unique |
| `Directory.RemoveIsDelete` | kernel/ext4.c:4200-4230 | as a map from names, removing unbinds that name and changes nothing else |
| `Directory.FindIn` | kernel/ext4.c:4130-4184 | the walk over one block finds the first record in use with the name, or that there is none; it reports only blocks that are not tiled as bad |
| `Directory.PlaceIn` | kernel/ext4.c:4302-4358 | finds the first record that can take the entry, or that none can |
| `Directory.RemovedFits` | kernel/ext4.c:4200-4230 | once a record is removed there is room for every entry that fits into its bytes, whether it was joined to an entry, to an unused record or to none |
| `Directory.RemovedHasRoom` | kernel/ext4.c:4302-4358 | in a directory without holes an add then succeeds |
| `Directory.Dir.Find` | kernel/ext4.c:4130-4184 | agrees with the map over all blocks, holes skipped |
| `Directory.Dir.Add` | kernel/ext4.c:4302-4358 | succeeds exactly if the name has 1 to 255 bytes and a block with room comes before any hole; one entry more then, and the map bound at the name if it was free; nothing on failure |
| `Directory.Dir.Remove` | kernel/ext4.c:4200-4230 | succeeds exactly when the name is bound, and unbinds it only |
| `PageAllocator.PushOk` | kernel/pmm.c:116-140 | a page whose last holder lets go is not on the free stack yet, and the stack has room |
| `PageAllocator.Pmm.AllocPage` | kernel/pmm.c:78-91 | a page handed out had no holder; all else stays; none only when stack and memory are used up |
| `PageAllocator.Pmm.RefPage` | kernel/pmm.c:93-105 | keeps the allocator sound if and only if the page has a holder |
| `PageAllocator.Pmm.FreePage` | kernel/pmm.c:116-140 | one holder less; with the last the page is free again; a page without holders is left alone |
| `CopyOnWrite.FreeFrame` | kernel/task.c:821-966 | a frame with no references is named by no page slot and no kernel holder |
| `CopyOnWrite.Alone` | kernel/task.c:3171-3314 | a slot whose frame has one reference is the only one to name it |
| `CopyOnWrite.NoneWritable` | kernel/task.c:1846-1962 | once the parent's entry is read-only nobody can write the shared frame |
| `CopyOnWrite.StoreOk` | kernel/task.c:3171-3314 | a store through a writable entry changes what this task reads and what no other task reads |
| `CopyOnWrite.CopyToOk` | kernel/task.c:3171-3314 | copying a shared frame keeps every task's contents and all counts |
| `CopyOnWrite.ForkPageOk` | kernel/task.c:1846-1962 | sharing one more page with the child keeps counts exact and both tasks reading what an eager copy would give; both then have the page with the rights the parent had, and a private one is written by neither before it is copied |
| `CopyOnWrite.SharedBits` | kernel/task.c:1846-1962 | while a private frame is shared, nobody may write it in hardware and exactly those who may write it are set to copy it |
| `CopyOnWrite.ForkedAll` | kernel/task.c:1846-1962 | once every page was shared the child may do with each what the parent may |
| `AddressSpaces.StoreIsRight` | kernel/task.c:3171-3314 | with memory above the reserve a task can store to a private page exactly if it has the right to |
| `AddressSpaces.LoadIsRight` | kernel/task.c:812-819 | a task can load exactly where it has a page |
| `CopyOnWrite.ReprotectOk` | kernel/task.c:2795-2845 | changing intent and hardware bits keeps the invariant when the frame is private to the page |
| `CopyOnWrite.UnmapOk` | kernel/task.c:941-966 | dropping a page drops one reference and that page only |
| `AddressSpaces.Machine.Load` | kernel/task.c:3171-3314 | succeeds exactly where the task has a page, and every task reads exactly the bytes of the machine in which fork copied every page |
| `AddressSpaces.Machine.MapPrivate` | kernel/task.c:895-939 | a first touch adds the page to both machines with the rights asked for, or fails and changes nothing |
| `AddressSpaces.Machine.StorePage` | kernel/task.c:3171-3314 | a store, with its fault if need be, is the eager machine's store and changes nobody's rights |
| `AddressSpaces.Machine.WriteFault` | kernel/task.c:3171-3314 | makes this page, and no other, writable for this task alone; contents and rights stay; refused exactly as coded, by intent, memory, or the area of a shared page |
| `AddressSpaces.Machine.SetProt` | kernel/task.c:2795-2845 | the task's right to the page becomes the one asked for and no other changes; a private page that shares its frame gets a copy first, and fails exactly when memory is short; contents stay for every task |
| `AddressSpaces.Machine.UnmapPage` | kernel/task.c:941-966 | the page and the right to it are gone from this task in both machines, and no other |
| `AddressSpaces.Machine.UnmapAll` | kernel/task.c:968-988 | all its pages and rights are gone, other tasks are untouched and all counts still exact |
| `AddressSpaces.Machine.Fork` | kernel/task.c:1846-1962 | the child reads what the parent reads, as after an eager copy, and may write and execute exactly what the parent may; the parent keeps its pages and rights, writable pages now copy-on-write; it fails exactly on a clean writable shared page, and then contents, rights and exact counts stay and the child has nothing |
| `AddressSpaces.Machine.MapShared` | kernel/task.c:895-939 | a page of the page cache joins a shared area with a reference of its own and the rights asked for |
| `AddressSpaces.Machine.SetShared` | kernel/task.c:2847-2946 | a shared area comes or goes where the task has no page, and nothing else changes |
| `AddressSpaces.ReadThenFork` | kernel/task.c:1892-1897 | in every state: once a page of a writable shared file mapping has been read, fork fails |
| `AddressSpaces.ForkRefused` | kernel/task.c:1892-1897 | such a state is reached from an empty machine |
| `AddressSpaces.Machine.HolderRef` | kernel/pagecache.c:463-512 | one reference more for a page the cache holds |
| `AddressSpaces.Machine.HolderFree` | kernel/pagecache.c:258-295 | an evicted entry gives up one reference |
| `AddressSpaces.Machine.HolderWrite` | kernel/pagecache.c:90-139 | what the kernel writes to frames it holds never shows in a private page |
| `Vmas.CutView` | kernel/task.c:2737-2793 | cutting a range out of one area empties exactly the addresses of the range in it; every other address keeps file, offset and protection |
| `Vmas.CutCount` | kernel/task.c:2737-2793 | cutting frees a slot when the range covers the area and takes one when it splits it |
| `Vmas.SplitView` | kernel/task.c:2687-2711 | splitting an area changes nothing at any address and keeps areas aligned and disjoint |
| `Vmas.ReprotectView` | kernel/task.c:2966-3042 | once no area straddles an end, changing whole areas changes exactly the range |
| `Vmas.InnerOne` | kernel/task.c:2713-2735 | at most one split is ever needed to unmap a range |
| `Vmas.FixedMapCanLose` | kernel/task.c:2905-2936 | for every table size: with one free slot and an area around the range, a fixed mapping is refused after its range was unmapped |
| `VmaTable.Table.RangeMapped` | kernel/task.c:443-456 | true exactly when every address of the range is mapped |
| `VmaTable.Table.SplitNeed` | kernel/task.c:2713-2735 | counts the areas with the range strictly inside |
| `VmaTable.Table.FreeSlots` | kernel/task.c:2674-2685 | counts the unused slots |
| `VmaTable.Table.UnmapRange` | kernel/task.c:2737-2793 | refused up front exactly when slots are short, and then nothing changes; otherwise exactly the range is unmapped and no split runs out of slots |
| `VmaTable.Table.Munmap` | kernel/task.c:2948-2964 | the same for the page range of the call, with its 64-bit rounding and refusals |
| `VmaTable.Table.SplitAt` | kernel/task.c:2687-2711 | no address changes; fails exactly when a split is needed and no slot is free |
| `VmaTable.Table.ProtectAreas` | kernel/task.c:2966-3029 | the areas succeed exactly under the stated conditions, then exactly the range changes protection; a refusal changes nothing |
| `Mprotect.ProtectPages` | kernel/task.c:3031-3038 | the pages of the range change one by one up to the first that needs a copy there is no memory for; exactly those below it change |
| `Mprotect.ProtectedRights` | kernel/task.c:3031-3038 | the rights of the task after that: as asked for in the range, as before elsewhere |
| `Mprotect.Mprotect` | kernel/task.c:2966-3042 | the whole call: it succeeds exactly when the areas allow it and all pages of the range that share a frame can be copied above the reserve; the rights to the pages of the range are then those asked for and all others as before; if only the copying fails, the areas have changed and so have exactly the pages below the first that could not be copied; other tasks and all contents stay |
| `Mprotect.LateFailure` | kernel/task.c:3027-3038 | such a failure from an empty machine: it leaves an area that may be written over a page that may not |
| `Mprotect.StoreByTask` | kernel/task.c:3171-3314 | a store goes through exactly when the entry, the memory and the area allow it, and is then the eager machine's store |
| `VmaTable.Table.MapFixed` | kernel/task.c:2905-2945 | on success the range shows the new mapping and all else stays; a refusal changes nothing when unmapping was refused and otherwise leaves exactly the range unmapped |
| `VmaTable.Table.MapAnywhere` | kernel/task.c:2914-2945 | takes the highest gap that fits, or reports truthfully that there is none or no slot |
| `BlockCache.LookUpdate` | kernel/block_cache.c:170-179 | with one line per sector, replacing a line matters only for the sectors it had and has |
| `BlockCache.LoadOk` | kernel/block_cache.c:195-217 | reusing a clean line is invisible |
| `BlockCache.StoreSound` | kernel/block_cache.c:159-168 | writing a line back is invisible, and the device sector takes a version the view had |
| `BlockCache.FlushSound` | kernel/block_cache.c:343-356 | with all lines stored the device is the view |
| `BlockCache.Cache.SelectVictim` | kernel/block_cache.c:181-193 | an unused line, else one used longest ago |
| `BlockCache.Cache.WriteBack` | kernel/block_cache.c:159-168 | view unchanged; fails exactly if a request does; on success the line is not dirty |
| `BlockCache.Cache.GetLoad` | kernel/block_cache.c:195-217 | view unchanged whether requests fail or not; fails exactly if a request does, and makes none for a cached sector; a returned line has the sector's view, and took the place of one used longest ago, the others staying |
| `BlockCache.Cache.Read` | kernel/block_cache.c:301-319 | succeeds exactly if the range is right and no request fails, and needs none for cached sectors; returns the view of the sectors, across any evictions; view unchanged |
| `BlockCache.Cache.Write` | kernel/block_cache.c:321-341 | succeeds exactly if the range is right and no request fails; exactly the first sectors that went through change in the view, each a version of its own |
| `BlockCache.Cache.Flush` | kernel/block_cache.c:343-356 | view unchanged; fails exactly if a request does; on success the medium equals the view and older versions are gone |
| `Tcp.WireOrder` | kernel/net.c:315-317 | 32-bit comparison of sequence numbers is comparison of stream positions less than 2^31 apart |
| `TcpStream.WriteExact` | kernel/net.c:2901-2953 | a write is taken exactly if the writer has not shut down, nothing is in flight, the peer's window is open, there are bytes and the device takes them; it sends as many as fit the window and a segment, from the end of the stream, and keeps the link invariant |
| `TcpStream.ShutdownExact` | kernel/net.c:2848-2874 | the FIN goes out at the end of the stream, now if nothing is in flight and else once that is acknowledged, and the invariant stays |
| `TcpStream.RetransmitExact` | kernel/net.c:1788-1833 | whatever is not acknowledged goes out again from its own position with its own bytes or FIN, and nothing else changes |
| `TcpStream.ReceiveExact` | kernel/net.c:1599-1696 | just what any segment ever sent does, however late, twice or out of order: an old acknowledgement is answered; any other is believed and lets a waiting FIN out; of the data exactly the bytes from the receive edge on that the ring has room for are taken; data and FIN are answered with the new edge; the state moves along the connection diagram; the invariant stays |
| `TcpStream.RunOk` | kernel/net.c:1599-1696 | every run of two sockets over a network that loses, repeats and reorders keeps the invariant |
| `TcpStream.StreamSafety` | kernel/net.c:1599-1696 | in every run: what was received is a prefix of what was written, acknowledged <= received <= sent, a closed receive side has the whole stream, and the state of either end says whether its FIN was sent and acknowledged and the peer's arrived |
| `TcpStream.Delivery` | kernel/net.c:1788-1833 | from any state a run reaches: once the peer's reader has made room, a retransmission that arrives and whose answer arrives brings everything in flight across, and the sender knows it |
| `TcpStream.FailedFin` | kernel/net.c:1413-1428 | a FIN that cannot be handed to the device leaves a socket that is shut for writing with nothing in flight and no FIN sent |
| `TcpStream.FailedFinIsLost` | kernel/net.c:1532-1537 | from then on, in every run, no acknowledgement, timer or write sends it, and the peer never sees the end, unless the program shuts down again |
| `TcpSocket.Socket.RxWrite` | kernel/net.c:808-822 | appends to the ring as much as fits |
| `TcpSocket.Socket.RxRead` | kernel/net.c:824-837 | takes the oldest bytes from the ring |
| `TcpSocket.Socket.SendFin` | kernel/net.c:1413-1428 | sends the FIN as modelled, or nothing if the device does not take it |
| `TcpSocket.Socket.OnAck` | kernel/net.c:1516-1541 | advances or clears the unacknowledged segment as modelled |
| `TcpSocket.Socket.OnSegment` | kernel/net.c:1599-1696 | socket and replies afterwards are those of the receiver in `TcpStream.ReceiveExact`, for any segment without RST, whether or not a due FIN can be sent |
| `TcpSocket.Socket.WriteBytes` | kernel/net.c:2901-2953 | accepts one segment as in `TcpStream.WriteExact` |
| `TcpSocket.Socket.ShutdownWrite` | kernel/net.c:2848-2874 | FIN now or once the data is acknowledged |
| `TcpSocket.Socket.Tick` | kernel/net.c:1788-1833 | sends the unacknowledged segment again as in `TcpStream.RetransmitExact` |
| `Asids.Distinct` | kernel/task.c:257-264 | live tasks stamped with the current epoch have pairwise different numbers |
| `Asids.Scheduler.Rollover` | kernel/task.c:236-255 | a full flush, a non-zero epoch across the 32-bit wrap, every live task's stamp forgotten, the running task renumbered |
| `Asids.Scheduler.AllocFor` | kernel/task.c:257-264 | the number was given to no address space since the last full flush, and there is a flush exactly when the numbers have run out |
| `Asids.Scheduler.TaskAlloc` | kernel/task.c:483-533 | the first unused slot gets a task with a fresh number and an address space of its own; other tasks keep theirs; the running task stays in the current epoch |
| `Asids.Scheduler.Switch` | kernel/task.c:1826-1830 | the chosen task is in the current epoch, its number is loaded, and no number changed hands without a full flush, which happens exactly when it needed a number and none was left |
| `Asids.Scheduler.Release` | kernel/task.c:990-1029 | its translations are gone, other tasks are untouched and the invariant stays |
| `Asids.Scheduler.Run` | kernel/task.c:1826-1830 | translations cached while a task runs never mix two address spaces under one number |
| `Pipes.WakeOk` | kernel/task.c:2565-2582 | whatever happened to one pipe, waking everyone on it restores: waiting readers face an empty pipe with a writer, waiting writers a full one with a reader |
| `Pipes.DropOk` | kernel/task.c:324-344 | closing an end keeps counts equal to open descriptors and the bytes in every pipe that still has an end; a pipe with none is free |
| `Pipes.RefOk` | kernel/task.c:302-322 | copying an end keeps counts equal to open descriptors and the bytes in every pipe |
| `Pipes.FailedCopyIff` | kernel/syscall.c:509-511 | after a read whose copy to user space fails the invariant holds if and only if no writer was waiting |
| `Pipes.LostWakeup` | kernel/syscall.c:509-511 | a concrete state in which that loses a wakeup |
| `PipeSystem.Ring.Write` | kernel/pipe.c:106-127 | the ring afterwards holds its bytes followed by the first that fit |
| `PipeSystem.Ring.Read` | kernel/pipe.c:84-104 | returns the oldest bytes and keeps the rest, in order |
| `PipeSystem.Kernel.Close` | kernel/task.c:2500-2525 | closes one descriptor; the pipe loses that end and keeps its bytes while an end is open, and no other pipe changes; counts, wakeups and the order of bytes stay right |
| `PipeSystem.Kernel.Dup2` | kernel/task.c:2527-2543 | the slot gets a copy, its old content is closed; bytes, counts and wakeups stay right |
| `PipeSystem.Kernel.ForkFds` | kernel/task.c:1947-1952 | the child has the parent's descriptors, all counted, and the pipes their bytes |
| `PipeSystem.Kernel.Exit` | kernel/task.c:1197-1229 | all descriptors closed, waiters woken, the slot no longer live; pipes that are still open keep their bytes |
| `PipeSystem.Kernel.MakePipe` | kernel/syscall.c:659-714 | one end of each kind of a free pipe in the lowest two free descriptors from 3 on, exactly when there are a pipe, two descriptors and a place for the result; otherwise descriptors and pipes in use are as before |
| `PipeSystem.Kernel.Read` | kernel/syscall.c:483-516 | what was ever read from the pipe, followed by what it holds, is what was written to it; blocks, ends or faults exactly as stated, with the bytes a failing copy loses; no wakeup is lost unless the first copy fails while a writer waits |
| `PipeSystem.Kernel.Write` | kernel/syscall.c:353-392 | as many bytes join the end as can be copied and fit, and the result is the one the state and the copy determine: done, fault, no reader, full; no wakeup is lost, and the order of bytes stays right |
| `Fsck.ShortPath` | kernel/fs.c:3873-3894 | whatever reaches the root does so within as many inodes as there are |
| `Fsck.WalkUp` | kernel/fs.c:3873-3894 | the bounded walk accepts a directory exactly when a chain of allocated directories leads from it to inode 2 |
| `Fsck.CheckDirs` | kernel/fs.c:3846-3895 | accepts exactly when every allocated directory has its dot entries and hangs from the root |

## Left out

- JournalHistory.HistoryIsDurable: holds for histories in which no commit reaches back to headers that a cut-short commit left, no commit revokes on a journal without the revoke feature, and sequence numbers stay below 2^32, because outside that the code fails (see above).
- JournalCommit.CommitIsSafe: the same conditions, for one commit.
- JournalObject.Journal.TxCommitAll: without the condition on revokes, as long as there is no crash; the one on stale headers is stated in the number of stale blocks.
- JournalObject.Journal.MountAndReplay: the checks of the journal superblock's magic, type, block size and feature words are not modelled; the geometry they yield is given.
- JournalHistory.FormattedDisk: of the journal superblock only sequence, start and head are modelled.
- RedoHistory.RunsAreAtomic: writes outside a transaction, which go straight to the home area, are not steps; a commit follows a flush (see above).
- RedoJournal.Journal.LogWrite: the writes to the log region succeed; `CachedDisk.RawWriteBytes` has their failures.
- ExtentTree.ExtentFile.AssignBlock: tree nodes are values there; `ExtentDisk.DiskFile.AssignBlock` has them as disk blocks.
- ExtentTree.ExtentFile.TruncateTo: tree nodes are values and the freed blocks a list there; `ExtentDisk.DiskFile.TruncateTo` has them on disk.
- ExtentDisk.DiskFile.Rebuild: reads and writes of node blocks succeed; the block bitmap of all groups is one set.
- ExtentDisk.DiskFile.TruncateTo: writes to the bitmap succeed; the contents of data blocks, which a new node may overwrite, are not modelled.
- IndirectFile.File.SetBlock: block numbers fit in 32 bits and reads and writes of pointer blocks succeed; the block bitmap is a list of free blocks.
- Directory.Dir.Find: blocks are tiled, as every operation keeps them; what the walk does on others is in `Directory.FindIn`.
- Directory.Dir.Add: growing a directory by a block is not modelled; callers look the name up first.
- AddressSpaces.Machine.Fork: running out of memory for the child's kernel stack and page tables, and its signal and file state, are not modelled; shared pages appear in counts and frames only.
- AddressSpaces.Machine.UnmapPage: writing a dirty shared page back is taken to succeed.
- AddressSpaces.Machine.HolderRef: the page cache is modelled as a holder of references, not its lookup, eviction order or contents.
- AddressSpaces.Machine.MapShared: shared file mappings only. Pages of MAP_SHARED|MAP_ANONYMOUS areas, which after mprotect are never writable again because the fault handler asks for an inode (kernel/task.c:3276), are not modelled.
- Mprotect.Mprotect: page table allocation does not fail; which pages of the task lie in shared areas is a set that the areas and the machine agree on.
- Asids.Scheduler.Rollover: no translation is fetched between the full flush and the reload of the base register inside the rollover.
- TcpSocket.Socket.OnSegment: segments with RST; an acknowledgement that cannot be sent counts as lost; the handshake, listening, timeouts that give up, TIME_WAIT expiry and closing the receive side are not modelled. That a network delivers something in the end is not assumed; `TcpStream.Delivery` says what happens when it does.
- PipeSystem.Kernel.Read: a user buffer can be accessed up to some byte and not beyond; pipe contents are a queue there; the ring that implements it is `PipeSystem.Ring`. Signals that interrupt a wait, and SIGPIPE, are not modelled.
- BlockCache.Cache.Read: attaching to another device and the self-test are not modelled.
- Fsck.CheckDirs: only the connectivity part of the checker; the inode scan that fills its tables, and repairs, are not modelled.
- Checksummed journal modes (csum v2 and v3): the writer sums the plain image and replay the escaped one, so the round trip fails for images that start with the journal magic.
- The recovery flag in the file-system superblock, and mapping journal blocks through the journal inode: the log is an array of blocks.
- I/O errors in the middle of a JBD2 commit: the head has moved by then and is not moved back.
- In-memory counters (free blocks, cached inode fields), which an abort does not roll back.
- AHCI, NVMe, network and interrupt hardware, MMU registers: an abstract disk, network or register.
- ELF loading, path lookup, sockets other than established TCP, procfs-like files, user programs: glue that would add only easy members.
