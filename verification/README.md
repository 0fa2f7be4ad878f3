# JFSfuse: a verified model of the journal and of the file block paths

The project models two cores of the JFSfuse file system and two smaller parts beside them, and proves
what they keep over whole runs.

* **Journal.** The log manager packs 36-byte record headers and 4096-byte page images into 8192-byte
  units and flushes them page by page; a commit orders data flush, log records, commit record and
  in-place writes; recovery scans the log forward and redoes it backward. Storage is a log area, a log
  superblock and a map of blocks; every call that reaches it is an event, and a crash leaves the effect
  of any prefix of the events.
* **File blocks.** An extent table is read as a partial function from logical to physical blocks. Truncate,
  punch, take, insert, split and move are exact transformations of that function. A bitmap allocator with
  rollback supplies the blocks, and a volume of inodes, names and open handles ties them together.
* **Inline extended attributes**: the entry codec and the finite map it stores.
* **Lock tables**: byte-range locks and whole-file locks per inode.

State that the program updates in place is a class (`LogManager`, `LogReader`, `JournalRecovery`,
`TransactionManager`, `PageCache`, `Storage`, `Xtree`, `BlockAllocMap`, `Volume`, `XattrArea`, `LockTable`),
and every method is tied to functions on values, about which the theorems are proved.

| files | content |
|---|---|
| `Bytes`, `LogRecord`, `Device` | words, record headers, storage with a trace and injected faults |
| `LogWriter`, `LogLayout`, `LogScan`, `LogReadBack`, `ScanExact` | what the writer lays out, what the scanner finds of it, and what it makes of any bytes |
| `LogFlush`, `LogCrash`, `LogVisible` | the log at every moment of a flush and of the logging of a transaction |
| `Recovery`, `PassExact`, `CrashSafety`, `WriteAhead` | the backward pass, on any log and on those of the writer, crash atomicity of the intended form, write-ahead order |
| `CommitShape` | the calls of a commit by kind; logs that are marked as replayed |
| `FirstUnit`, `AsWritten`, `Restarting` | what recovery as written works on, its crash atomicity and durability in every log state, restarts |
| `LogManager`, `JournalRecovery`, `Transaction` | the classes of the journal |
| `LateCommit`, `LiveRecords`, `FailedRuns`, `NextCommit` | commits that fail: what device and buffer keep, what recovery gives after any run of failures and successes |
| `VolumeSync` | the write-back of dirty pages by a sync |
| `Extents`, `ExtentTable`, `ExtentMove`, `Xtree` | extent tables and the inline extent root |
| `Allocator`, `Ownership` | the block allocator, and owners of blocks |
| `FileData`, `FileWrite`, `FileUpdate` | reading and writing bytes |
| `VolumeModel`, `BlockSafety`, `BlockRuns`, `TidyRuns`, `LinkSafety`, `FileLife`, `VolumeBytes`, `VolumeFacts`, `Volume` | the volume as a state machine, its invariants over runs, and the class |
| `Xattr`, `Locks` | extended attributes, lock tables |

## Where the code departs from its comments

The model follows the code. Each departure is stated as a condition that decides, for all inputs, whether
the promised property holds; where the promise is about an intended form, that form is modelled beside it.

* **The log stays marked as replayed.** A new log is written in state `LOGREDONE` (src/mkfs.rs:162-163), the log
  manager writes back the state it has read with every flush (src/journal/logmgr.rs:227-256), and mount and
  replay skip recovery in that state (src/volume.rs:377-381, src/journal/recovery.rs:565-568). So on every
  volume of this program, and on any other once it was recovered, committed work is never redone, in either
  form of recovery (`CommitState`, `ReplayedCommit`, `ReplayedRun`, `FailedRunReplayed`). A commit there is
  atomic if and only if every stage of its in-place writes is the old or the new state (`CommitAtomicWhen`,
  `IntendedAtomicWhen`), and no write is ever covered by the log (`WritesAheadWhen`). The points below matter
  for logs in another state, as another implementation leaves them.
* **The scan stops at the first zero word** (src/journal/recovery.rs:364-367), and the writer leaves a zero
  tail in every unit (src/journal/logmgr.rs:275-281). As written recovery sees the first unit only
  (`ScanFindsFirstUnit`, `SeesFirstUnit`). `UnitScan` skips tails and finds everything (`UnitScanFindsAll`).
* **Page deduplication never triggers** (src/journal/recovery.rs:740-753). As written the backward pass leaves
  every block at its oldest image (`OldestSurvives`), equals forward redo exactly when no block has two
  differing end images (`BackwardEqualsForward`), and can lose an update (`LostUpdate`). With each page
  written for the first record met it always equals forward redo (`FirstMetEqualsForward`).
* Crash atomicity is proved for the tail-skipping, first-met form on logs that are to be replayed (`CommitAtomic`,
  `RunAtomic`, and for every log state `IntendedAtomicWhen`). For the recovery as written it is decided exactly
  for every commit of every run in every log state: a commit is atomic against every crash if and only if
  each stage of its in-place writes, with the image that recovery redoes on top, is the old or the new state
  (`CommitAtomicWhen`, `RunAtomicWhen`); with one page for each block that means at most one changing page
  and a harmless image (`DistinctAtomicWhen`, `FirstCommitAtomic`). A finished commit can still be undone:
  `FinishedSurvives`, `RunSurvivesWhen`, `QuietRecoveryKeeps` say exactly when it is not.
* **A failed commit stays in the buffer** (src/journal/logmgr.rs:326-368): once its commit record was put there,
  the next flush that succeeds carries it to the device, and recovery redoes a transaction whose commit
  reported failure. `FailedRunRecovers` states the outcome for every run of failing and succeeding commits,
  `FailureStays` for one failure at any call and one success, if and only if.
* **A sync writes dirty pages in place before it commits** (src/volume.rs:440): write-ahead order holds if and
  only if each page written back is already an image of a log that will be replayed (`SyncAheadWhen`,
  `WriteBackCrash`).
* **A punch inside one extent** gives the right piece the address of the freed blocks (src/btree/xtree.rs:541):
  `PunchRight`, `PunchWrong`, `PunchKeepsWhen`, `MoveKeepsWhen`.
* **A punch clears whole blocks**, also the bytes of its first and last block that lie outside the range
  (src/volume.rs:774-784): `PunchBytes`.
* **A seventeenth kept extent is dropped** (src/btree/xtree.rs:578-588, 680-690): `TakeRight`, `OverflowsWhen`.
* **Everything behind the first hole is read as a hole** (src/btree/xtree.rs:162-166): `ReadRight`,
  `EachLandsWhen`. A write over blocks mapped behind a hole maps them twice, in overlapping extents: `WriteApartWhen`,
  `StepTidyWhen`. Runs and single lookups may then disagree; reads and writes are modelled on such tables too.
* **A write to a full table counts as written** though its new blocks are lost (src/volume.rs:577-585):
  `WriteExact`, `ReadAfterWrite`, `WriteLost`.
* **A failed move has already taken the window from the source**: abort keeps cached bytes
  (src/volume.rs:889-936, src/transaction.rs:237-249): `FullMoveLoses`.
* **A recycled inode slot keeps its extent root** (src/volume.rs:1478-1493): `CreateKeepsWhen`,
  `RecycledSlotBreaks`.
* **Growing inside the last block clears nothing** (src/volume.rs:726-731): bytes cut off earlier come back,
  `GrowsZeroWhen`.
* **A creation that finds its name taken has already made the inode**, which stays live with a link and no name
  (src/volume.rs:1478-1517): `StepExactWhen`.
* **Handles are counted per inode-table block**: a file unlinked while a neighbour is open is never freed
  (`UnlinkOrphans`, `OrphanStays`).
* **Rollback undoes allocations before frees**: `RollbackRestores`, `RollbackLeak`.
* **An error after a transaction has begun leaves it open**, and no other can begin until a sync
  (src/volume.rs:548, 803, 1467, src/transaction.rs:67-72): the `busy` flag of the volume.
* **A byte-range request drops the owner's overlapping locks whole** (src/fuse/mod.rs:442-444):
  `OutsideKeptWhen`. A negative start relative to the end of the file never resolves to a position inside
  it (src/fuse/mod.rs:374): `Resolve`.

## Model

| member | source | states |
|---|---|---|
| LogRecord.LrdRoundTrip | src/journal/logmgr.rs:385-399 | decoding the 36 bytes of any record header gives the header back |
| LogRecord.PxdRoundTrip | src/types.rs:189-240 | a 24-bit length and a 40-bit address survive being packed into two words |
| Device.Storage.Issue | src/storage/mod.rs:579-596 | a call takes full effect and is traced, or does nothing once the injected fault is reached |
| LogWriter.UnitSize | src/journal/logmgr.rs:267-319 | a unit of writer records takes 36 bytes a record and 4096 an image |
| LogWriter.UnitNeverFull | src/journal/logmgr.rs:227-256 | no unit is ever exactly full, so a flush never meets the offset at which it would write nothing; a header behind the records never has its length field across a page |
| LogLayout.RecordKeepsWriter | src/journal/logmgr.rs:267-319 | a record always finds room inside one unit, and buffer and offset stay those of the list of units |
| LogLayout.CommitKeepsWriter | src/journal/logmgr.rs:326-368 | the same for a commit record, before and after its flush |
| LogLayout.BackchainLinks | src/journal/logmgr.rs:258-319 | records of a transaction are chained by byte offset: each points to the start of the one before, the first to nowhere after a commit |
| LogScan.NextRecordFinds | src/journal/recovery.rs:358-390 | the scanner decodes any record it stands on and moves behind it |
| LogScan.ScanRun | src/journal/recovery.rs:358-390 | records that lie one after the other are found one after the other |
| LogScan.UnitTail | src/journal/logmgr.rs:275-281 | behind the records of every unit there is a zero word |
| ScanExact.StepIs | src/journal/recovery.rs:358-390 | one step of the scan on any bytes: end, read error, or every header field, the payload and the next place, by byte position |
| ScanExact.ScanIs | src/journal/recovery.rs:559-600 | the collected records are the longest chain of such steps within the end pointer; the scan fails exactly when the step behind it is a read error |
| ScanExact.FindEndIs | src/journal/recovery.rs:394-424 | a log without an end pointer ends at the first zero word behind a chain of headers |
| LogReadBack.ScanFindsFirstUnit | src/journal/recovery.rs:559-600 | scan inverts write on the first unit: as written, exactly its flushed records are found, in order |
| LogReadBack.UnitScanFindsAll | src/journal/recovery.rs:358-390 | skipping unit tails, every flushed record of every unit is found, in order, also over a torn last unit |
| LogFlush.NotBadBehind | src/journal/recovery.rs:358-390 | at every moment of a flush the scan can step over the end of the flushed records |
| LogCrash.FlushCompletes | src/journal/logmgr.rs:227-256 | after a flush the log area holds every record at its offset and the end pointer stands behind them |
| LogCrash.FlushCut | src/journal/logmgr.rs:227-256 | a crash inside a flush leaves the end pointer and every block, and a unit with some of its pages written |
| LogCrash.LoggedSettles | src/transaction.rs:174-188 | logging a transaction leads from a log that holds every record to one that holds its records as well |
| LogCrash.LoggedCut | src/transaction.rs:174-188 | a crash while logging leaves the old records and some page images flushed, never the commit record |
| LogVisible.CutVisible | src/journal/recovery.rs:559-600 | what recovery sees of a log cut off inside a flush |
| Recovery.BackwardWritesLive | src/journal/recovery.rs:645-764 | the backward pass writes exactly the images of transactions that commit later on aggregates not mounted later, newest first |
| PassExact.PassWrites | src/journal/recovery.rs:645-764 | on any log, by raw header words: the pass writes exactly the images whose transaction commits later, whose aggregate is not mounted later, and whose block no later record forbids once it is tracked |
| PassExact.BlocksAfterPass | src/journal/recovery.rs:721-764 | after the pass each block holds the oldest of these images, or what it held |
| PassExact.RecoverExact | src/journal/recovery.rs:559-642 | the same for the whole recovery, which leaves the log marked as replayed |
| PassExact.LiveIsRedoable | src/journal/recovery.rs:645-713 | the live records of the other theorems are those, by raw header words |
| Recovery.OldestSurvives | src/journal/recovery.rs:721-764 | as written, every block ends at its oldest such image |
| Recovery.BackwardEqualsForward | src/journal/recovery.rs:602-621 | as written, the pass equals redo from oldest to newest if and only if oldest and newest image of each block agree |
| Recovery.FirstMetEqualsForward | src/journal/recovery.rs:721-764 | with each page written for the first record met, one backward pass equals redo from oldest to newest |
| Recovery.PartThenWhole | src/journal/recovery.rs:721-764 | redoing a part of the writes first changes nothing about redoing all of them |
| CrashSafety.CommitAtomic | src/transaction.rs:153-220 | wherever a commit's storage calls stop, recovery gives all old or all new blocks, and the new ones once the journal was flushed |
| CrashSafety.CommitKeepsQuiet | src/transaction.rs:153-220 | a complete commit leaves log and blocks in agreement, with exactly its images in place |
| CrashSafety.RunKeepsQuiet | src/transaction.rs:153-220 | the same for every run of commits that fits the log |
| CrashSafety.RunAtomic | src/transaction.rs:153-220 | wherever the calls of a whole run stop, recovery gives the blocks after some first transactions, which include every finished commit and none not begun |
| CrashSafety.QuietRecovers | src/journal/recovery.rs:559-642 | recovering a disk between transactions changes no block |
| FirstUnit.SeesFirstUnit | src/journal/recovery.rs:559-600 | as written, recovery of a log that holds all its records works on the first unit, also before the end pointer was ever set |
| FirstUnit.QuietRecoveryKeeps | src/journal/recovery.rs:559-642 | as written, recovery between transactions keeps the blocks if and only if the log is marked as replayed or the committed images of the first unit are current |
| AsWritten.CommitAtomicWhen | src/transaction.rs:153-220 | with the recovery as written and a log in any state, a commit gives all old or all new blocks after every crash if and only if each stage of its in-place writes, with the redone image on top, is the old or the new state; two pages may go to one block |
| AsWritten.DistinctAtomicWhen | src/transaction.rs:153-220 | when every page has a block of its own, that is: at most one page changes its block, and the redone image is current or just what the commit writes |
| AsWritten.RunAtomicWhen | src/transaction.rs:153-220 | every commit of a run, in any log state, is atomic with the recovery as written if and only if each meets that condition where it stands |
| AsWritten.FirstCommitAtomic | src/transaction.rs:153-220 | on a new log, in the state that mkfs writes or another, the stages alone decide; with one page for each block: at most one page changes its block |
| AsWritten.IntendedAtomicWhen | src/transaction.rs:153-220 | the intended form in any log state: atomic if and only if the log is to be replayed or the stages are the old or the new state |
| AsWritten.FinishedSurvives | src/journal/recovery.rs:559-642 | a finished commit survives recovery as written if and only if the log is marked as replayed, or still one unit with it, or redoing the first unit's image over the new blocks changes nothing |
| AsWritten.RunSurvivesWhen | src/journal/recovery.rs:559-642 | the same for a whole run, on the units it has written |
| CommitShape.CommitState | src/journal/logmgr.rs:227-256 | every superblock write of a commit carries the state that was read |
| CommitShape.ReplayedCommit | src/journal/recovery.rs:565-568 | a commit stopped anywhere on a log marked as replayed: the mark stays, both forms of recovery do nothing, and the blocks are those of the stage reached |
| CommitShape.ReplayedRun | src/volume.rs:368-394 | the same wherever a whole run of commits stops |
| Restarting.LostUpdate | src/journal/recovery.rs:740-753 | as written, recovery after two complete commits to one block brings the first image back |
| Restarting.RecoverRestarts | src/journal/recovery.rs:559-642 | recovery stopped after any of its calls and run again ends with the same disk, also after the log is marked as replayed |
| Restarting.RecoverUnitsRestarts | src/journal/recovery.rs:559-642 | the same for the tail-skipping, first-met form |
| WriteAhead.CommitWritesAhead | src/transaction.rs:174-206 | when a block is written in place, its image and commit record are visible to recovery and were flushed before |
| WriteAhead.RunWritesAhead | src/transaction.rs:174-206 | the same for every block write of every run of commits |
| WriteAhead.WritesAheadWhen | src/transaction.rs:174-206 | with the scan as written and a log in any state, a block written in place is covered if and only if the log is to be replayed and is still one unit, or its first unit holds just this image |
| CommitShape.EarlyFailureKeepsBlocks | src/transaction.rs:167-188 | a commit that stops before its journal flush is complete has changed no metadata block, on any disk |
| LogManager.LogManager.FlushJournal | src/journal/logmgr.rs:227-256 | makes the calls of the flush plan, all on success and a proper part on failure |
| LogManager.LogManager.AppendLogRecord | src/journal/logmgr.rs:267-319 | appends one page image, flushing the unit before when it does not fit |
| LogManager.LogManager.CommitTransaction | src/journal/logmgr.rs:326-368 | appends the commit record and flushes; after a failed flush the record is in the buffer exactly if the flush that makes room for it was made |
| JournalRecovery.LogReader.NextForward | src/journal/recovery.rs:358-390 | one step of the scan: the record at the cursor, or the end |
| JournalRecovery.LogReader.ScanForEnd | src/journal/recovery.rs:394-424 | finds the end of a log whose end pointer was never written |
| JournalRecovery.JournalRecovery.Collect | src/journal/recovery.rs:559-600 | collects the visible records |
| JournalRecovery.JournalRecovery.ProcessRecord | src/journal/recovery.rs:645-713 | one record of the backward pass |
| JournalRecovery.JournalRecovery.UpdatePage | src/journal/recovery.rs:721-764 | writes an image unless its page counts as complete |
| JournalRecovery.JournalRecovery.ReplayBackward | src/journal/recovery.rs:602-621 | makes the writes of the backward pass |
| JournalRecovery.JournalRecovery.Replay | src/journal/recovery.rs:559-642 | the calls of the whole recovery; none when the log is marked as replayed or a read fails |
| Transaction.TransactionManager.Begin | src/transaction.rs:67-81 | at most one active transaction, with ids that strictly increase |
| Transaction.TransactionManager.MarkDirty | src/transaction.rs:103-121 | the key is listed, at the end unless it is there already; its cached page is dirty and carries the transaction's id; nothing else changes |
| Transaction.TransactionManager.Abort | src/transaction.rs:237-249 | gives up the transaction and makes no storage call; its pages lose their marks and two pins and keep their modified bytes, all others are as they were |
| Transaction.TransactionManager.Commit | src/transaction.rs:153-220 | on success every cached page of the transaction is written to its block, in the order of the marks, between a data flush and a metadata flush, each behind its image and commit record in the log, and leaves the cache; no other block is ever written; after a failure the pages lose their marks; the journal is left as the calls made leave it; recovery gives all old or all new blocks, the form as written under the condition of `CommitAtomicWhen`, and on a log marked as replayed neither does anything |
| Transaction.RanAtomic | src/transaction.rs:153-220 | the same for any part of the plan that a fault allows |
| Transaction.RanAsWritten | src/transaction.rs:153-220 | the same for the recovery as written, under its exact condition |
| Transaction.RanReplayed | src/transaction.rs:153-220 | on a log marked as replayed, recovery leaves whatever part was made |
| NextCommit.FailureStays | src/transaction.rs:153-220 | after a commit that stopped at any call, in the journal or among the in-place writes, and a second one that succeeded, recovery gives exactly the blocks on disk if and only if the first had not put its commit record, or the second overwrites every block the first had still to change |
| NextCommit.FailedCommitReturns | src/journal/logmgr.rs:326-368 | past that point recovery redoes the failed transaction and then the second one |
| NextCommit.FailedCommitForgotten | src/transaction.rs:174-188 | before that point the failed transaction leaves no trace |
| NextCommit.OverwrittenPages | src/transaction.rs:190-206 | with one page for each block, overwritten means: every changing page not yet in place has a page of the second commit on its block |
| FailedRuns.FailedRunRecovers | src/transaction.rs:153-220 | every run of commits that each stop at any call: recovery gives the old blocks with the images of exactly those transactions whose commit record is visible on the device, in log order, and every commit whose journal flush was complete is among them |
| FailedRuns.EndIsSet | src/journal/logmgr.rs:227-256 | that theorem applies once any record was flushed, before the run or by it |
| FailedRuns.FailedRunAsWritten | src/journal/recovery.rs:559-642 | the same runs with the recovery as written: the one live image among the flushed records of the first unit over the blocks on disk |
| FailedRuns.FailedRunReplayed | src/journal/recovery.rs:565-568 | the same runs on a log marked as replayed: recovery does nothing |
| LateCommit.LooseVisible | src/journal/recovery.rs:559-600 | after any number of failed flushes recovery sees exactly the records up to the end pointer |
| LateCommit.NextCommitRuns | src/journal/logmgr.rs:227-256 | a commit after any failures that completes its journal flush leaves a log that holds every buffered record |
| VolumeSync.FlushAll | src/storage/mod.rs:999-1018 | writes every dirty page of the cache to its block and nothing else, in any order, and marks all clean only if no write failed |
| VolumeSync.SyncVolume | src/volume.rs:438-462 | all dirty pages, then the pages of an open transaction as a commit writes them, then the device: all of it on success, a proper part otherwise |
| VolumeSync.SyncAheadWhen | src/volume.rs:438-462 | the write-backs of a sync keep write-ahead order if and only if each page written back is an image of a log that will be replayed; as written, just the image that recovery redoes |
| VolumeSync.WriteBackCrash | src/volume.rs:438-462 | what both forms of recovery give after a crash among the write-backs: the pages written so far, under the images each redoes |
| Extents.AllExact | src/btree/xtree.rs:445-498 | truncate, take and punch without a split extent are exact on every table, overlapping ones included: kept slots map what stays, removed extents map what goes |
| Extents.AllConserves | src/btree/xtree.rs:604-693 | every physical block is kept or taken out, as often as it was there |
| Extents.ValidIsAscending | src/btree/xtree.rs:698-721 | `validate` accepts exactly the tables that are ascending and without overlap |
| ExtentTable.CutKeepsValid | src/btree/xtree.rs:445-498 | truncate, take and punch keep `validate` true and the order of extents |
| ExtentTable.ValidIsApart | src/btree/xtree.rs:698-721 | a table that passes `validate` covers no block twice |
| ExtentTable.CutCover | src/btree/xtree.rs:508-590 | a cut covers the blocks that stay as often as before, and none of its window |
| ExtentTable.KeptCount | src/btree/xtree.rs:604-693 | a window inside one extent needs one slot more, any other needs no more |
| ExtentTable.OverflowsWhen | src/btree/xtree.rs:680-690 | the root overflows if and only if all slots are in use and an extent is split |
| ExtentTable.TruncateRight | src/btree/xtree.rs:445-498 | the table after a truncation maps what it did below the cut and nothing above |
| ExtentTable.TakeRight | src/btree/xtree.rs:604-693 | the table after a take is exact if and only if it does not overflow |
| ExtentTable.PunchRight | src/btree/xtree.rs:508-590 | the table after a punch is exact if and only if no extent sticks out on both sides |
| ExtentTable.PunchWrong | src/btree/xtree.rs:541-541 | every spanning punch goes wrong |
| ExtentTable.PunchIsTake | src/btree/xtree.rs:508-693 | punch takes out what take does and, without a split extent, leaves the same slots |
| ExtentTable.InsertIsRight | src/btree/xtree.rs:343-387 | an insertion maps the new blocks and keeps all others if and only if a merged length fits 24 bits |
| ExtentTable.SplitKeepsMapping | src/btree/xtree.rs:731-783 | splitting an extent changes no mapping |
| Xtree.Xtree.Lookup | src/btree/xtree.rs:119-142 | the first extent that contains the block |
| Xtree.Xtree.MapBlocks | src/btree/xtree.rs:146-170 | the runs of a range up to the first hole |
| Xtree.Xtree.InsertExtent | src/btree/xtree.rs:343-387 | merges with the last extent or appends; refused by a full root |
| Xtree.Xtree.InsertTakenExtent | src/btree/xtree.rs:413-435 | appends in a slot of its own; refused by a full root |
| Xtree.Xtree.WriteBack | src/btree/xtree.rs:578-588 | stores what fits the slots and counts all |
| Xtree.Xtree.TruncateExtents | src/btree/xtree.rs:445-498 | the truncated table, and the extents to free in order |
| Xtree.Xtree.PunchExtents | src/btree/xtree.rs:508-590 | the punched table, and the extents to free in order |
| Xtree.Xtree.TakeExtents | src/btree/xtree.rs:604-693 | the table without the window, and its extents |
| Xtree.Xtree.Validate | src/btree/xtree.rs:698-721 | true exactly for ascending tables without overlap |
| Xtree.Xtree.SplitExtent | src/btree/xtree.rs:731-783 | splits exactly when an extent straddles the point and a slot is free |
| Allocator.BlockAllocMap.FindFreeRun | src/alloc/dmap.rs:271-291 | the least start at or behind the hint with enough free blocks; none only if there is no such run |
| Allocator.BlockAllocMap.AllocExtent | src/alloc/dmap.rs:230-268 | first fit from the hint, then from the start; a valid request fails only if no run exists anywhere |
| Allocator.BlockAllocMap.FreeExtent | src/alloc/dmap.rs:296-320 | frees a chunk, or refuses one beyond the end without a change |
| Allocator.BlockAllocMap.Rollback | src/alloc/dmap.rs:379-401 | undoes all allocations, then all frees |
| Allocator.FirstFitUnique | src/alloc/dmap.rs:230-291 | first fit is the only run with the promised properties |
| Allocator.CountExact | src/alloc/dmap.rs:230-320 | after every run the free count equals the number of free bits if and only if every free hit blocks in use |
| Allocator.RollbackRestores | src/alloc/dmap.rs:379-401 | after every interleaving since a commit, rollback restores bitmap and count if and only if no freed block was free at the commit |
| Allocator.ReallocatedMeans | src/alloc/dmap.rs:379-401 | such a block was allocated since the commit |
| Allocator.RollbackLeak | src/alloc/dmap.rs:379-401 | blocks allocated and freed again come out of a rollback in use |
| FileData.ReadData | src/btree/xtree.rs:173-215 | the bytes of a range as its runs give them up to the first hole, zeros behind, on overlapping tables too |
| FileData.ReadRight | src/btree/xtree.rs:146-215 | a read gives the bytes of the file for all contents if and only if no mapped block lies behind a hole and no run leaves the extent that a lookup finds |
| FileData.ReadRightApart | src/btree/xtree.rs:146-215 | in a table without overlap that is: no mapped block lies behind a hole |
| FileWrite.WriteExact | src/volume.rs:531-619 | exact effect of a write on every byte of the file, for every table |
| FileWrite.OverflowLoses | src/btree/xtree.rs:343-387 | a merge past 24 bits: a block that was mapped reads as zeros after the write, whatever the device holds |
| FileWrite.ReadAfterWrite | src/volume.rs:500-656 | reading back gives the written bytes, whatever they are and however extents overlap, if and only if nothing was unmapped, or a slot is free or the first fit continues the last extent |
| FileWrite.WriteLost | src/volume.rs:577-585 | data that does not come back otherwise |
| FileWrite.EachLandsWhen | src/volume.rs:531-619 | every byte of the range is found by every later reader, wherever it starts, if and only if besides that the runs agree with lookups and nothing behind the first hole was mapped |
| FileUpdate.WriteRun | src/volume.rs:600-618 | patches the mapped blocks of one run |
| FileUpdate.WriteHole | src/volume.rs:549-575 | fills new blocks, zero around the data |
| FileUpdate.WriteFile | src/volume.rs:522-619 | the whole write on table, allocator and device, its failures included, on overlapping tables too |
| ExtentMove.MoveExact | src/volume.rs:866-953 | a move that reports success removes exactly the source window and gives the destination window its mapping, if and only if no destination extent spans the window and the source root does not overflow |
| ExtentMove.MoveConserves | src/volume.rs:866-953 | blocks of source, destination and freed list are conserved, with multiplicity, if and only if no destination extent spans the window and the source root does not overflow |
| ExtentMove.FullMoveLoses | src/volume.rs:889-936 | a move fails if and only if it took something that the rest of the destination root has no slots for; the source window is then unmapped, and a block of it was mapped |
| VolumeBytes.MoveBytes | src/volume.rs:866-953 | after an exact move the destination window reads as the source window did, the source window as zeros, all other bytes as before |
| Ownership.OwnedMeans | src/volume.rs:542-586 | what one owner per block says: not free, not claimed by another file, not claimed twice |
| BlockSafety.CutKeeps | src/volume.rs:679-691 | freeing what a cut takes out keeps one owner per block |
| BlockSafety.GrowKeeps | src/volume.rs:542-586 | so does giving free blocks to a file, also when a merged length overflows its field |
| BlockSafety.PreallocKeeps | src/volume.rs:796-813 | so does a preallocation, also one that fails part of the way |
| BlockSafety.MoveKeeps | src/volume.rs:889-936 | so does a move that splits no target extent, between files or inside one, and every move that fails |
| BlockSafety.FreeKeeps | src/volume.rs:1837-1871 | so does freeing an inode |
| BlockRuns.StepKeepsSpace | src/volume.rs:500-953 | every careful operation keeps one owner per block, and none but a creation gives a block a new owner |
| BlockRuns.RunKeepsSpace | src/volume.rs:500-953 | and so does every run of such operations |
| BlockRuns.MappedOnce | src/volume.rs:542-586 | in every such state a mapped block is not free and nothing else is mapped to it |
| BlockRuns.PunchKeepsWhen | src/volume.rs:781-795 | a punch keeps the invariant if and only if no extent is split, or only the last one, whose right piece overflows the root |
| BlockRuns.PunchSafeMeans | src/btree/xtree.rs:508-590 | without overlap that is: every extent that spans the window is the last of sixteen in use |
| BlockRuns.MoveKeepsWhen | src/volume.rs:866-953 | a move keeps the invariant if and only if it fails, takes nothing or splits no target extent |
| BlockRuns.CreateKeepsWhen | src/volume.rs:1463-1493 | a new file keeps the invariant if and only if every block its slot still names is named once, lies on the volume, is not free and belongs to nobody |
| BlockRuns.RecycledSlotBreaks | src/volume.rs:1478-1493 | a new file in a recycled slot claims free blocks |
| TidyRuns.WriteApartWhen | src/volume.rs:531-586 | a write keeps the extents of a table apart if and only if it needs no new run, the table does not take it, or all blocks from the first hole on were unmapped |
| TidyRuns.InsertApart | src/btree/xtree.rs:343-387 | the same for a run of any length, with merged lengths cut to 24 bits |
| TidyRuns.MoveApart | src/volume.rs:866-953 | a move leaves the destination without overlap, with or without a split extent |
| TidyRuns.StepTidyWhen | src/volume.rs:500-953 | a careful operation keeps one owner per block, block 0 unowned and the extents of every live file apart if and only if it is no write over blocks mapped behind a hole and no creation over such leftovers |
| TidyRuns.RunTidyWhen | src/volume.rs:500-953 | every state of a careful run is tidy if and only if every operation of the run meets that condition |
| TidyRuns.StepZeroWhen | src/volume.rs:500-953 | overlap or not, block 0 stays unowned unless a new file finds it in its slot |
| TidyRuns.RunKeepsZero | src/volume.rs:500-953 | the same over runs |
| TidyRuns.SpaceIsReady | src/volume.rs:500-656 | in such a state every live table meets what the next read or write asks for |
| LinkSafety.StepKeepsLinks | src/volume.rs:1806-1895 | every operation keeps handle counts equal to the sum over the inodes of the block, names alive, and links at least as many as names |
| LinkSafety.RunKeepsLinks | src/volume.rs:1806-1977 | and so does every run with matched releases |
| LinkSafety.FreedSafely | src/volume.rs:2088-2125 | an inode is freed only by unlink or release, with link count zero, no name and no open handle |
| LinkSafety.UnlinkIs | src/volume.rs:1834-1884 | an unlink frees if and only if the last link goes and no inode of the block is open |
| LinkSafety.ReleaseIs | src/volume.rs:2088-2125 | a release frees if and only if no link is left and it closed the last handle of the block |
| LinkSafety.UnlinkOrphans | src/volume.rs:1834-1835 | an unlinked file is orphaned if and only if another inode of its block is open |
| LinkSafety.OrphanStays | src/volume.rs:2088-2125 | no run of other operations frees an orphan |
| FileLife.StepExactWhen | src/volume.rs:1463-1517 | an operation keeps link counts equal to the number of names if and only if it is no creation that takes its slot and then fails |
| FileLife.RunFromEmpty | src/volume.rs:1463-1963 | over every run from an empty volume without such a creation the link count of each inode is the number of its names |
| FileLife.UnlinkFrees | src/volume.rs:1834-1884 | unlinking the last name with no handle open gives up the inode and frees exactly the blocks it claims |
| FileLife.CreateThenUnlink | src/volume.rs:1463-1884 | a file created and unlinked again is gone, its name too, and its blocks are free |
| FileLife.ReleaseFrees | src/volume.rs:2088-2125 | the release that closes the last handle of a block frees a file without links and exactly its blocks |
| FileLife.ResizeGivesBack | src/volume.rs:679-701 | a change of size frees exactly the blocks that the file claimed and no longer claims |
| FileLife.PunchGivesBack | src/volume.rs:781-795 | so does a punch that splits no extent |
| VolumeBytes.WriteBytes | src/volume.rs:500-656 | a write changes exactly the bytes that land, and no byte of any other file |
| VolumeBytes.ShrinkBytes | src/volume.rs:679-701 | shrinking clears exactly the bytes of removed blocks |
| VolumeBytes.GrowBytes | src/volume.rs:702-724 | growing past the last block clears the rest of that block and nothing else |
| VolumeBytes.GrowsZeroWhen | src/volume.rs:702-731 | the bytes that a growing file gains read as zeros for all contents if and only if no block of the gained range is mapped, but for the last one when growing clears it |
| VolumeBytes.PreallocQuiet | src/volume.rs:796-813 | a preallocation changes no byte of any file |
| Volume.Volume.WriteAt | src/volume.rs:500-656 | the operation on the volume: the size is the larger of the old one and the end of the write, and the exact effect on the bytes of all files |
| Volume.Volume.TruncateFile | src/volume.rs:668-735 | the file has the new size, and the exact effect on the bytes of all files |
| Volume.Volume.AllocateRange | src/volume.rs:796-828 | every block of the range is mapped unless all slots are in use; the size covers the range unless it is to be kept; no byte of any file changes |
| Volume.Volume.PunchRange | src/volume.rs:781-795 | sizes stay; without overlap and without a split extent the blocks the range touches read as zeros and all other bytes stay |
| Volume.Volume.CopyFileRangeExtent | src/volume.rs:866-953 | the move on any volume: refused unless aligned, done exactly when it takes something and the root has slots for it; the size covers the range; a full table rolls the bitmap back |
| Volume.Volume.CreateFile | src/volume.rs:1463-1517 | succeeds exactly when a slot is free, the name is good and new and the directory has room: then the first free slot holds a live file with one link, no bytes and the extents found there |
| Volume.Volume.LinkFile | src/volume.rs:1906-1963 | succeeds exactly when the name is good and new and there is room: one name and one link more, nothing else |
| Volume.Volume.UnlinkFile | src/volume.rs:1806-1895 | one name and one link less; the inode is given up exactly when none is left and its block of eight has no handle |
| Volume.Volume.OpenFile | src/volume.rs:1966-1970 | one more handle on the inode's block of eight |
| Volume.Volume.ReleaseFile | src/volume.rs:2088-2125 | one handle less, not below none; the inode is given up exactly when it has no link and its block no handle |
| Volume.Volume.SyncVolume | src/volume.rs:438-462 | ends a transaction that an error left open; the write-backs before it are in `VolumeSync` |
| VolumeFacts.PunchBytes | src/volume.rs:781-795 | a punch without overlap and without a split extent clears whole blocks, also their bytes outside the range |
| VolumeFacts.PreallocMaps | src/volume.rs:796-813 | a preallocation that succeeds maps every block of its range as long as the root has a slot, and unmaps none |
| VolumeFacts.ClearedIs | src/volume.rs:679-731 | which bytes a change of size clears; none in front of both sizes |
| VolumeFacts.SlotIs | src/volume.rs:1131-1167 | the slot of a new file is the first that is free; none only if all are in use |
| VolumeFacts.WriteTakes | src/volume.rs:542-586 | a write takes one run for all from the first hole on, the first free one at or behind the hole's own number, and fails only if no run is long enough |
| Xattr.CodecRoundTrip | src/volume.rs:2336-2363 | parsing inverts writing a list if and only if all names fit 255 and all values 65535 bytes |
| Xattr.EntryLayout | src/volume.rs:2356-2363 | the bytes of an entry by position: both lengths, lowest byte first, then name and value |
| Xattr.ListSize | src/volume.rs:2186-2190 | the room a list takes is the sum of four bytes, name and value over its entries |
| Xattr.SetRefines | src/volume.rs:2173-2184 | setting is a map update and keeps names unique |
| Xattr.RemoveRefines | src/volume.rs:2270-2276 | removing is removal from the map |
| Xattr.XattrArea.Parse | src/volume.rs:2336-2354 | the loop of the parser gives the parsed list of any bytes |
| Xattr.XattrArea.Get | src/volume.rs:2229-2240 | the value of the map, or none |
| Xattr.XattrArea.Set | src/volume.rs:2134-2224 | the map updated, or the first limit or flag that forbids it and no change |
| Xattr.XattrArea.Remove | src/volume.rs:2257-2318 | the map without the name, and whether it was there |
| Locks.GrantedIsSafe | src/fuse/mod.rs:427-451 | a granted request leaves no byte locked by two owners unless both read, and none twice by one |
| Locks.GrantedHolds | src/fuse/mod.rs:427-451 | the owner holds the range in the new mode; other owners hold what they held |
| Locks.OutsideKeptWhen | src/fuse/mod.rs:442-448 | the owner keeps its bytes outside the range if and only if its overlapping locks lie inside or hold no byte, for empty and wrapped ranges too |
| Locks.BlocksMeans | src/fuse/mod.rs:148-160 | standing in the way means sharing a byte, with either lock for writing |
| Locks.GrantedExclusive | src/fuse/mod.rs:1665-1687 | an exclusive holder of a file is its only holder |
| Locks.RunIsSafe | src/fuse/mod.rs:370-482 | all of this after every run of requests from empty tables |
| Locks.LockTable.CheckConflict | src/fuse/mod.rs:388-410 | a lock that stands in the way, if and only if there is one |
| Locks.LockTable.SetLk | src/fuse/mod.rs:427-451 | granted exactly when no other owner's overlapping lock is for writing, nor any when the request is; then the owner holds the range in the new mode and what lay clear of it, after a release nothing; other owners and inodes keep what they had; the tables stay safe |
| Locks.LockTable.GetLk | src/fuse/mod.rs:456-482 | reports `F_UNLCK` with the request's own range if and only if the same request would be granted, and otherwise a lock in the way with its range and owner |
| Locks.LockTable.Flock | src/fuse/mod.rs:1648-1689 | granted exactly when no other owner holds the file, or only readers meet; then the owner holds exactly the requested mode, after a release none; all other owners and inodes keep what they had |
| Locks.LockTable.ReleaseLocks | src/fuse/mod.rs:1628-1631 | the owner holds no byte and no file lock on the inode any more; everyone else holds what they held |
| Locks.Resolve | src/fuse/mod.rs:370-385 | what start and end a request stands for, with 64-bit wrap-around |

## Left out

- `PageCache` eviction and sharing of a block under two keys: the cache is a map from inode and block to a page of 4096 bytes.
- Directory trees (`src/btree/dtree.rs`), `mkdir`, `rmdir`, symbolic links and `rename`: names are a finite map, all inodes are regular files, and whether a directory has room is an input.
- SYNCPT stop test, `find_syncpt`, UPDATEMAP records and the page checksum: the writer never produces these records. Records that forbid redo are covered by `PassWrites`; the theorems about forward redo exclude them.
- Recovery.BackwardEqualsForward: states the case without no-redo records, which the writer never produces.
- Log areas that are not whole units, and runs that do not fit the log area: the log never wraps in the program.
- The log and the blocks are separate parts of the storage; an inline log that overlaps blocks of the volume is not modelled.
- CrashSafety.CommitAtomic: is stated for the tail-skipping, first-met form of recovery on logs that are to be replayed; `IntendedAtomicWhen` decides that form in every log state, `CommitAtomicWhen` the form as written.
- CrashSafety.RunAtomic: the same; `FailedRunRecovers` adds runs in which commits fail, `RunAtomicWhen` the form as written, `ReplayedRun` logs marked as replayed.
- CrashSafety.QuietRecovers: the same; for the form as written see `QuietRecoveryKeeps`.
- Transaction.RanAtomic: the same; see `RanAsWritten` and `RanReplayed`.
- LogReadBack.UnitScanFindsAll: speaks of the scan that skips unit tails; the scan as written is in `ScanFindsFirstUnit`.
- WriteAhead.CommitWritesAhead: visibility is that of the tail-skipping scan; for the scan as written `WritesAheadWhen` decides it.
- WriteAhead.RunWritesAhead: the same; block writes outside commits are those of a sync, in `SyncAheadWhen`.
- NextCommit.FailureStays: is stated, with `FailedCommitReturns` and `FailedCommitForgotten`, for the tail-skipping, first-met form on logs that are to be replayed; `FailedRunAsWritten` and `FailedRunReplayed` give the other outcomes.
- FailedRuns.FailedRunRecovers: assumes that the end pointer has been written once and that ids differ modulo 2^32; before the first completed flush of a log, `CommitAtomic` covers one commit.
- Torn page writes and reordered writes: a page write is atomic and calls take effect in order, as the fault injector has it.
- Data-path read and write errors, interrupts, permission checks and errno mapping: they would add easy members.
- `nblocks`, timestamps and other inode fields, and the byte framing of inodes; the attribute area is modelled on its own.
- Writing and reloading the bitmap pages: the bitmap is written at one offset and loaded from another, so only the bitmap in memory is modelled.
- Volume.Volume.CreateFile: takes the extent root it finds in the slot, as the code does; `CreateKeepsWhen` says when that is safe.
- Volume.Volume.WriteAt: asks that the blocks of the table are on the device and that block 0, which stands for a hole in a run, is none of them; `SpaceIsReady` gives both in every state of the runs of `RunKeepsZero`.
- Volume.Volume.TruncateFile: asks for the same, because growing clears the last block through a run.
- FileData.ReadData: asks for the same.
- VolumeBytes.WriteBytes: assumes merged lengths below 2^24, as do `WriteExact`, `ReadAfterWrite` and `EachLandsWhen`; `OverflowLoses` shows what a longer merge does. Block 0 is never free.
- VolumeBytes.PreallocQuiet: assumes merged lengths below 2^24 as well.
- TidyRuns.WriteApartWhen: assumes merged lengths below 2^24; `InsertApart` states the condition without that.
- VolumeSync.SyncVolume: leaves out the bitmap pages that are written behind the commit, and so does `Volume.Volume.SyncVolume`.
- FileUpdate.WriteFile: a request is below 2^32 bytes, as in the kernel interface, so the 24-bit length of an allocation is not cut.
- Link counts and handle counts are unbounded.
