# TyLsmDB in Dafny

TyLsmDB is an embedded LSM key-value store. This project models its hard parts and proves what they promise,
always against one simple meaning: a set of versions `(user key, sequence, Put or Delete)`, where a read at
`read_seq` returns the newest version at or below it (`Visibility`).

## Main results

- **The store is a map, across crashes** (`RecoveryRuns.StoreIsFold`). In every state of every run of writes,
  freezes, flushes, compactions, snapshots, reopenings and crashes within a flush, what is read at the last
  sequence is the fold of all batches written, and the store rebuilt from disk reads the same.
- **Snapshots are stable** (`LsmSafety.SnapshotStability`, `Databases.ScanStability`), layered point reads find the
  newest version in every reachable state (`LsmSafety.LayeredReadCorrect`), files of a level have disjoint key
  ranges (`LsmSafety.ReachableLevelsDisjoint`), and compaction changes no read from its watermark on
  (`LsmSafety.CompactionKeeps`).
- **Transactions are serially equivalent** (`Transactions.SerialEquivalence`), and are refused if and only if a batch
  written since their snapshot touches what they read, scanned or wrote (`Conflicts.RefusedExactly`).
- **Group commit** under every interleaving (`GroupCommit.*`): one undrained leader, each request drained, taken and
  completed once, Ok only for applied batches, gapless disjoint sequence ranges, nobody stranded; a group is the
  requests that arrived since the last drain, and is numbered in the order of their arrival (`GroupOrder.*`).
- **Choices are exact, not only safe**: which files a manual compaction picks and takes along (`PickerExact.*`), when it
  only moves a file (`CompactionExact.MovesTriviallyIff`), which tombstones it drops (`LevelOrder.TombstoneGoesIff`), how
  its output is cut (`Splitter.SplitFillsChunks`), when a memtable is frozen and flushed (`Filling.*`), and that the table
  files are exactly those the levels name (`CompactionExact.ReachableNamed`).
- **Orders and ranges mean what they say**: keys compare byte by byte (`Keys.LessIsBytewise`), bounds obey the laws of
  intervals, and scans split and shrink with them (`Ranges.*`).
- **Fast structures refine simple ones**: two-level table cursor, k-way merge, visible-row iterator, point lookup
  through Bloom filter, index and block cache.
- **Codecs, logs and recovery** down to bytes: varints, blocks, table files, batches, edits, framed logs cut anywhere,
  MANIFEST replay. Payloads cut short, continued or damaged are refused (`Refusals.*`), and the bytes themselves are
  fixed by layout laws and one example of each record (`Formats.*`).

Things the code does not do in general, each with an input that shows it and the exact condition under which it does:

- **Bounded level-0 compactions.** A range may select a newer level-0 file and leave an older one that shares a key with
  it. In two stores reached by two writes and two flushes an overwritten value comes back
  (`BoundedInputs.StaleValueReturns`) and a deleted key comes back because its tombstone is dropped
  (`BoundedInputs.DeletedKeyReturns`). A compaction, bounded or not, keeps every read at or above its watermark if and
  only if it is harmless: wherever the newest version left above the output level is older than the newest one in the
  input files, the two read alike (`BoundedCompaction.CompactionSafeIff`).
- **The empty user key** is cut apart by splitting (`Splitter.EmptyKeyIsCut`), exactly when `Splitter.EmptyKeyCut` says;
  no other key ever is.
- **Log rotation.** Reopening after a flush keeps every version if and only if the other memtables were empty
  (`RecoveryRotation.FlushSafeIff`), because the log is rotated while they still depend on it; a value that was read
  before is gone after (`RecoveryFlush.RotationLosesWrite`). One write group whose first batch fills the memtable gets
  there by itself (`RecoveryRotation.GroupLeavesTwo`).
- **Records without payload** end a log for its reader, whatever follows (`Wal.EmptyPayloadHidesRest`); a log reads back
  whole if and only if it has none (`Wal.LogRoundTrip`). Batches and edits never encode to an empty payload.
- **Errors of a write group.** A call can return an error although its batch was applied
  (`GroupOutcomes.ErrorMayBeApplied`): in every run, if and only if the flush at the end of its group failed
  (`GroupOutcomes.ErrorAppliedIff`).
- **Levels that do not exist.** An edit is logged before its level is checked, so recovery succeeds if and only if every
  level named in the MANIFEST exists (`Manifest.ReplaysIffLevels`); a MANIFEST written with three levels does not
  recover with two (`Manifest.FewerLevelsDoNotRecover`).

## Hypotheses

- Every operation of the store is one atomic step, except in `GroupCommit`.
- A level-0 compaction leaves behind no older level-0 file that shares a user key with a selected one (`L0Closed`);
  unbounded compactions and level picks take every level-0 file (`Picker.PickManualPicked`).
- Compaction output is not cut between versions of the empty user key (`SplitSafe`).
- There are at least two levels; sequence numbers, lengths and counts stay below the widths they are written in
  (`KeyFits`, `BatchFits`, `EditFits`, `TableFits`); sequence numbers are unbounded otherwise.
- In runs over a disk, all writes go to the log, a flush finds the other memtables empty (`OthersEmpty`), no I/O fails
  and nothing is appended after a torn record.
- Checksums have 32 bits and decompression inverts compression (`Tables.Lawful`, `Wal.Is32Bit`); both crates are
  parameters. So are file sizes and the order in which compaction workers take file numbers.

## Layout

`Keys`, `Visibility`, `LayerCompaction`, `LayerExactness`: keys and the meaning of reads and compaction on stacks of
version sets. `Sorting`, `Executor`, `Splitter`, `Versions`, `Picker`, `PickerExact`, `MemTables`: the parts. `Lsm` and
`LsmWrites`, `LsmCompaction`, `LsmRewrite`, `LsmSteps`, `LsmSafety`: the state machine, its invariant and its runs;
`LevelOrder`, `CompactionExact`: what runs keep beyond it; `BoundedCompaction`, `BoundedInputs`: level-0 compactions that
leave files behind. `Watermarks`, `Iterators`, `Database`, `Transactions`: the objects that are updated in place, proved
against the state machine; `Filling`, `Ranges`, `Conflicts`: what their sizes, bounds and footprints mean. `GroupCommit`,
`GroupOrder`, `GroupOutcomes`, `GroupWrites`: the write queue. `Coding`, `Payloads`, `Blocks`, `Bloom`, `Tables`,
`TableReads`, `TableCursors`, `StoreReads`, `Wal`, `Manifest`, `Replays`, `Formats`, `Refusals`: bytes. `Recovery`,
`RecoveryFlush`, `RecoveryRuns`, `RecoveryRotation`, `RecoveryBytes`: reopening.

Memtables and versions are values: the code copies a version before it changes it, and a memtable is owned by the
state that holds it.

## Model

| member | source | states |
|---|---|---|
| `Keys.InternalKeyOrder` | src/key/internal_key.rs:40-47 | user key ascending, sequence descending, type ascending is a strict total order |
| `Keys.LessIsBytewise` | src/key/internal_key.rs:40-44 | for all user keys: one is below another if and only if it is a proper prefix of it or has the smaller byte where they first differ |
| `Keys.InternalKeyMeans` | src/key/internal_key.rs:40-47 | for all internal keys: bytes of the user key first, then the larger sequence, then put before deletion |
| `Visibility.FirstHitIsNewest` | src/db.rs:271-331 | with layers in recency order, the first layer that answers holds the newest version over all layers |
| `LayerCompaction.CompactionKeepsReads` | src/compact/executor.rs:6-31 | replacing moved versions by what collection keeps changes no read at or above the watermark, dropped tombstones included |
| `LayerCompaction.CompactionKeepsRecency` | src/db.rs:885-925 | a closed move of versions to a deeper layer keeps the recency order |
| `LayerCompaction.AfterContents` | src/compact/executor.rs:15-29 | compaction adds no version and loses none above the watermark |
| `LayerExactness.RecencyIsExact` | src/db.rs:271-331 | with no version in two layers, first-hit reading is right if and only if layers are in recency order |
| `LayerExactness.ReadAfter` | src/db.rs:885-925 | one read at or above the watermark after any compaction: stale exactly where a layer above answers with a version older than the newest of the input; otherwise unchanged, dropped tombstones included |
| `LayerExactness.CompactionReadsIff` | src/compact/picker.rs:86-102 | all such reads stay right if and only if nothing stale stays above |
| `BoundedCompaction.CompactionSafeIff` | src/compact/picker.rs:86-102 | a compaction of a picked task, bounded or not, keeps every read at or above the watermark if and only if no file left above is stale |
| `BoundedCompaction.ClosedIsHarmless` | src/compact/picker.rs:74-79 | leaving no older level-0 file with a shared key is enough |
| `BoundedCompaction.StaysAboveFiles` | src/compact/picker.rs:86-102 | what stays above a level-0 compaction is the memtables and the level-0 files not selected |
| `BoundedInputs.StaleValueReturns` | src/compact/picker.rs:92-97 | a reachable store and a bounded range after whose compaction an overwritten value is read again |
| `BoundedInputs.DeletedKeyReturns` | src/db.rs:948-962 | a reachable store and a bounded range after whose compaction a deleted key is read again |
| `Executor.CompactEntries` | src/compact/executor.rs:6-31 | the loop computes the collection specified on the sorted entries |
| `Executor.CompactedIsGc` | src/compact/executor.rs:6-31 | its output is, as a set, everything above the watermark and per key the newest version at or below it unless a droppable tombstone, in order |
| `Executor.CompactionAbsorbs` | src/compact/executor.rs:6-31 | compacting with a lower watermark and weaker dropping first makes no difference; so it is idempotent |
| `Executor.LengthTestExact` | src/db.rs:932-946 | equal output length means equal output, so the trivial-move test is exact |
| `CompactionExact.MovesTriviallyIff` | src/db.rs:866-868 | a picked compaction only moves its file if and only if it comes from a level below 0, meets no file below, has no two versions of a key at or below the watermark and no tombstone it may drop |
| `CompactionExact.OutputsFill` | src/db.rs:964-1006 | a compaction that rewrites leaves at most the allowed number of tables, each but the last of at least the target size |
| `CompactionExact.ReachableNamed` | src/db.rs:928-929 | in every reachable state the table files are exactly those some level names |
| `Splitter.SplitCompactionEntries` | src/db.rs:1282-1316 | the loop computes the specified chunks |
| `Splitter.SplitPartition` | src/db.rs:1282-1316 | chunks are non-empty, at most the allowed number, and concatenate to the output |
| `Splitter.SplitSeparatesKeys` | src/db.rs:1295-1302 | no non-empty user key is ever in two chunks, and chunks are in key order |
| `Splitter.SplitFillsChunks` | src/db.rs:1295-1306 | every chunk but the last reaches the target, and while another chunk was allowed no earlier cut was due in any |
| `Splitter.EmptyKeyCut` | src/db.rs:1296-1297 | chunks have disjoint user keys if and only if the versions of the empty key do not fill a chunk early |
| `Splitter.EmptyKeyIsCut` | src/db.rs:1296-1297 | two versions of the empty key that are cut apart |
| `Versions.DeleteAll` | src/version/version.rs:43-55 | deleting files edit by edit removes exactly those numbers from one level |
| `Versions.AddAll` | src/version/version.rs:28-41 | adding files edit by edit adds exactly those files to one level |
| `LevelOrder.EditsKeepSorted` | src/version/version.rs:28-55 | whatever edits are applied to a version with sorted levels leave them sorted by smallest key |
| `LevelOrder.ReachableSorted` | src/version/version.rs:38-39 | in every reachable state every level below 0 is sorted by smallest key |
| `Lsm.SequenceRange` | src/db.rs:1162-1187 | the sequence range recorded of a table is that of its entries: both ends occur and all lie between |
| `Picker.PickManualPicked` | src/compact/picker.rs:26-48 | a manual pick is well formed, and an unbounded one takes every level-0 file |
| `PickerExact.PickManualNone` | src/compact/picker.rs:26-48 | nothing is picked if and only if no level-0 file and no file of levels 1 to the last but one reaches into the range: largest key within the lower bound, smallest within the upper |
| `PickerExact.PickManualTop` | src/compact/picker.rs:86-102 | if some level-0 file does, exactly those that do are picked, in their order |
| `PickerExact.PickManualDeep` | src/compact/picker.rs:36-45 | otherwise the first file that does, of the lowest such level |
| `PickerExact.TaskExact` | src/compact/picker.rs:104-147 | a task takes along all of level 1, or of a deeper level exactly the files that meet its input, and its range is the least around all its files |
| `Picker.PickLevelPicked` | src/compact/picker.rs:68-84 | a level pick is well formed |
| `LevelOrder.PickLevelExact` | src/compact/picker.rs:68-84 | in every reachable state it takes all of level 0, or of a deeper level the one file whose keys are below those of all others; nothing only from an empty level |
| `MemTables.InsertKeeps` | src/memtable/btree.rs:24-38 | an insert keeps the order and replaces exactly the entry of its key |
| `Filling.BatchGrows` | src/memtable/btree.rs:24-38 | a batch makes the memtable grow by key length plus 40 plus value length of each of its records |
| `Filling.RunSized` | src/memtable/btree.rs:24-38 | in every state of every run the size recorded of each memtable is the size of its entries |
| `Filling.ReplaySize` | src/db.rs:1124-1131 | a memtable rebuilt from a log has grown by every record of it |
| `MemTables.MemGet` | src/memtable/btree.rs:40-50 | the memtable lookup finds its newest version at or below the read sequence |
| `LsmWrites.WriteKeepsInv` | src/db.rs:1327-1339 | a batch adds its versions at the next sequences, keeps the invariant and no earlier read changes |
| `LsmWrites.FreezeKeepsInv` | src/db.rs:1075-1087 | freezing keeps the invariant and all versions |
| `LsmWrites.FlushKeepsInv` | src/db.rs:487-514 | flushing keeps the invariant and all versions |
| `LsmCompaction.MoveIsOk` | src/compact/picker.rs:104-147 | what a picked compaction leaves behind at or above its output level is above what it moves |
| `LsmCompaction.DropIsSafe` | src/db.rs:948-962 | when tombstones may be dropped, no deeper level holds a moved key |
| `LevelOrder.TombstoneGoesIff` | src/db.rs:948-962 | of a key with nothing newer at or below the watermark, a tombstone is dropped if and only if no file below the output level meets the range of the compaction |
| `LsmRewrite.RetainedApart` | src/compact/picker.rs:104-147 | a file not picked at the output level lies wholly left or wholly right of all inputs |
| `LsmRewrite.OutputLevelDisjoint` | src/db.rs:885-925 | the output level has pairwise disjoint key ranges after a compaction |
| `LsmRewrite.RewriteEditsApply` | src/db.rs:902-925 | the logged edits replace exactly the inputs by the outputs |
| `LsmRewrite.MoveEditsApply` | src/db.rs:870-883 | the two edits of a trivial move shift one file down a level |
| `LsmSafety.CompactionKeeps` | src/db.rs:854-930 | a picked compaction keeps the invariant, every read from the watermark on and every version above it |
| `LsmSafety.StepKeeps` | src/db.rs:854-930 | every step keeps the invariant and what every registered read sequence sees |
| `LsmSafety.RunProtects` | src/mvcc/watermark.rs:14-36 | while a read sequence is registered, a run changes no read at it and hides no version above it |
| `LsmSafety.SnapshotStability` | src/mvcc/snapshot.rs:12-35 | a live snapshot's visible map and layered reads are the same at any two states of a run |
| `LsmSafety.LayeredReadCorrect` | src/db.rs:259-333 | the layered read equals the newest version over all entries |
| `LsmSafety.ReachableLevelsDisjoint` | src/version/version.rs:28-55 | in every reachable state files of a level have disjoint user-key ranges |
| `Watermarks.Watermark.Add` | src/mvcc/watermark.rs:14-17 | registers one more occurrence of a read sequence |
| `Watermarks.Watermark.Remove` | src/mvcc/watermark.rs:19-28 | releases one occurrence, and only one |
| `Watermarks.Watermark.Oldest` | src/mvcc/watermark.rs:30-36 | the least registered sequence, if any |
| `Watermarks.Snapshot.constructor` | src/mvcc/snapshot.rs:12-18 | a snapshot registers its read sequence |
| `Watermarks.Snapshot.Clone` | src/mvcc/snapshot.rs:25-29 | a clone registers the sequence again |
| `Watermarks.Snapshot.Drop` | src/mvcc/snapshot.rs:31-35 | a drop releases it once |
| `Iterators.EntryIterator.Next` | src/iterator/storage_iterator.rs:39-44 | the flat cursor moves by one, not past the end |
| `Iterators.EntryIterator.Seek` | src/iterator/storage_iterator.rs:46-51 | the flat cursor goes to the lower bound |
| `Iterators.EntryIterator.constructor` | src/iterator/storage_iterator.rs:20-24 | the flat cursor starts at the front of the sorted entries |
| `Iterators.MergedSorted` | src/iterator/merge_iterator.rs:22-64 | merging sorted children yields exactly their entries in order |
| `Iterators.LowestChild` | src/iterator/merge_iterator.rs:22-34 | one pass finds the child with the least current key, the earliest on a tie |
| `Iterators.LowestIsEarliest` | src/iterator/merge_iterator.rs:22-35 | on a tie of keys the earliest child is taken |
| `Iterators.MergeIterator.Next` | src/iterator/merge_iterator.rs:50-56 | drops the head of the merge and nothing else |
| `Iterators.MergeIterator.Seek` | src/iterator/merge_iterator.rs:58-64 | is the merge of all children sought |
| `Iterators.DBIterator.constructor` | src/iterator/db_iterator.rs:31-48 | starts at the lower bound with exactly the visible rows from there ahead |
| `Iterators.DBIterator.AdvanceToNextVisible` | src/iterator/db_iterator.rs:82-105 | moves to the next visible row; terminates on the entries left in the merge |
| `Iterators.DBIterator.Collect` | src/iterator/db_iterator.rs:70-80 | returns all remaining rows |
| `Iterators.ScanCorrect` | src/iterator/db_iterator.rs:82-139 | after the lower-bound seek the rows are the in-bounds keys whose newest version is a Put, ascending, for all bound kinds |
| `Iterators.ScanChildren` | src/db.rs:339-347 | draining the iterator over the children is such a scan |
| `Iterators.SameViewSameScan` | src/db.rs:353-409 | scans of equal visible maps are equal row by row |
| `Ranges.BoundLaws` | src/iterator/db_iterator.rs:127-139 | a two-sided range is the conjunction of its sides, each one-sided range is the complement of another, and the range from a key to itself holds that key alone |
| `Ranges.BoundsFollowOrder` | src/iterator/db_iterator.rs:127-139 | lower bounds are closed upwards in the order of keys, upper bounds downwards |
| `Ranges.SeekSkipsExactly` | src/iterator/db_iterator.rs:115-125 | seeking to a lower bound skips every version outside it and only those, but for a deletion of the excluded key under sequence 0 |
| `Ranges.PointScan` | src/iterator/db_iterator.rs:82-105 | the scan from a key to itself is the row of that key if it is visible, and empty otherwise |
| `Ranges.ScanSplits` | src/iterator/db_iterator.rs:82-105 | a scan split at any key of its range is the two scans one after the other, whichever side the key is on |
| `Ranges.PointRangeConflict` | src/db.rs:634-644 | having scanned the range of one key conflicts exactly as having read the key |
| `Ranges.SplitRangeConflict` | src/db.rs:634-644 | having scanned a range conflicts exactly as having scanned its two parts |
| `Databases.ScanStability` | src/db.rs:353-409 | a live snapshot's scan of any range is the same at any two states of a run |
| `Databases.TableGet` | src/table/reader.rs:90-96 | the first version met in a sorted table is its newest |
| `Databases.SearchImmutables` | src/db.rs:274-278 | the first hit through the immutable memtables, newest first |
| `Databases.SearchL0` | src/db.rs:288-307 | the first hit through the level-0 files front to back, files out of range skipped |
| `Databases.SearchLevels` | src/db.rs:309-331 | the first hit through the levels, one file of each |
| `Databases.Database.GetOpt` | src/db.rs:259-333 | returns the visible value at the snapshot's or the last sequence, or Closed |
| `Databases.Database.ScanOpt` | src/db.rs:339-409 | returns the range scan at that sequence over all layers, or Closed |
| `Databases.Database.Flush` | src/db.rs:487-514 | takes the flush step of the state machine, or Closed |
| `Databases.Database.ApplyBatchAt` | src/db.rs:1327-1339 | inserts every record at its sequence and raises the last sequence to the largest |
| `Databases.Database.FreezeMutableIfNeeded` | src/db.rs:1075-1087 | freezes exactly a non-empty memtable of at least the configured size |
| `Filling.FreezesIff` | src/db.rs:1075-1087 | a batch freezes the memtable if and only if the records written since it was empty, counted by their bytes, reach the configured size |
| `Filling.FillingCommitFlushes` | src/db.rs:472-485 | a commit that fills the memtable adds one level-0 table in front, the oldest memtable waiting or the memtable itself; any other leaves the tables alone |
| `Filling.SmallGroup` | src/db.rs:843-851 | a write group that leaves the memtable below the configured size is not followed by a flush |
| `Filling.LargeBatch` | src/db.rs:843-851 | one batch of at least the configured size is enough for a flush |
| `Databases.Database.AnyEntryAfter` | src/db.rs:646-693 | true if and only if some layer holds a later version whose key matches |
| `Databases.Database.AnyKeyChanged` | src/db.rs:625-632 | true if and only if some key of the set has a later version |
| `Databases.Database.EnsureNoTransactionConflicts` | src/db.rs:588-644 | refuses if and only if a later version touches a read key, read range or written key |
| `Databases.Database.CommitTransaction` | src/db.rs:428-485 | a refused or empty commit changes nothing; otherwise the whole batch is applied, then freeze and flush |
| `Databases.Database.ApplyOne` | src/db.rs:843-850 | one batch at the next sequences, then a freeze if that filled the memtable |
| `Databases.Database.ApplyWriteGroup` | src/db.rs:809-852 | applies all batches in queue order at consecutive sequences, freezing in between; returns whether a batch filled the memtable |
| `Databases.FillsIffFreezes` | src/db.rs:842-851 | a flush is due exactly when the group froze a memtable |
| `Databases.Database.CollectionPoint` | src/db.rs:859-863 | the oldest live read sequence, or the last sequence when none is live |
| `Databases.Database.NothingToCollect` | src/db.rs:932-946 | true if and only if the move is trivial: one file, no overlap, nothing collected |
| `Databases.Database.ExecuteTask` | src/db.rs:854-930 | takes the compaction step of the state machine |
| `Transactions.SerialEquivalence` | src/mvcc/transaction.rs:50-131 | every answer of an accepted transaction is the one it would get running alone at its commit point |
| `Transactions.AcceptedIsSerial` | src/mvcc/transaction.rs:122-131 | no conflict with the footprint of the operations made means they were all answered as alone at the commit point, however the transaction lived |
| `Transactions.ConflictExact` | src/db.rs:625-693 | a later version of a key exists at commit if and only if a batch since the snapshot wrote it; compaction hides none |
| `Conflicts.FootprintIs` | src/mvcc/transaction.rs:50-120 | the sets a transaction keeps are the keys it wrote, the ranges it scanned and the keys it read before writing them |
| `Conflicts.RefusedExactly` | src/db.rs:588-623 | a transaction is refused if and only if some batch written since its snapshot has a record for a key it touched |
| `Transactions.CommitView` | src/db.rs:428-485 | a commit is atomic: the visible map after it is the one before with all its writes applied |
| `Transactions.OverlayFind` | src/mvcc/transaction.rs:139-154 | a key reads as its last own write says, else as the snapshot says |
| `Transactions.Transaction.Get` | src/mvcc/transaction.rs:50-64 | answers over the own-write overlay and keeps the footprint of the operations made |
| `Transactions.Transaction.FindLocal` | src/mvcc/transaction.rs:139-154 | the backward search finds the last own write of the key |
| `Transactions.Transaction.Scan` | src/mvcc/transaction.rs:66-106 | answers the range over the overlay and keeps the footprint |
| `Transactions.Transaction.Write` | src/mvcc/transaction.rs:108-120 | appends the write unless closed or read-only |
| `Transactions.Transaction.Rollback` | src/mvcc/transaction.rs:133-137 | closes the transaction and touches nothing else |
| `Transactions.Transaction.Commit` | src/mvcc/transaction.rs:122-131 | succeeds if and only if there is no conflict, and then every answer was serial; an error changes nothing |
| `GroupCommit.StepKeepsInv` | src/db.rs:214-253 | every step of every call keeps the protocol invariant |
| `GroupCommit.UniqueLeader` | src/db.rs:222-232 | in every run a call leads undrained if and only if it heads the queue |
| `GroupCommit.OnceEach` | src/db.rs:87-101 | each request is drained once, its batch is still there when taken, its result is set once |
| `GroupCommit.OkIsApplied` | src/db.rs:775-807 | a call that returned Ok has its batch in the log with a range of its size |
| `GroupCommit.RangesPartition` | src/db.rs:815-819 | the sequence numbers handed out are exactly those between first and last, each in one range, one range a request |
| `GroupOrder.GroupIsArrivals` | src/db.rs:214-253 | in every run a drain takes exactly the requests that arrived since the drain before, in the order of arrival, and the group, the part already taken included, stays in that order |
| `GroupOrder.AppliedInArrivalOrder` | src/db.rs:815-819 | in every run, of two calls drained by one leader the first to arrive has the lower sequence numbers |
| `GroupCommit.NoCallStranded` | src/db.rs:103-118 | n calls make at most 7n steps, and while one that arrived has not returned, some call can step |
| `GroupOutcomes.ErrorAppliedIff` | src/db.rs:775-807 | in every run, a call that returned an error has its batch in the log if and only if its group was applied and the flush at the end failed, and not in it if and only if the group was refused |
| `GroupOutcomes.ErrorMayBeApplied` | src/db.rs:802-804 | a run from the start in which a call returns an error although its batch is applied |
| `GroupWrites.GroupFillsRanges` | src/db.rs:815-851 | applying a group on the store adds exactly the versions of its ranges, each batch under the sequences of its own |
| `Coding.PutVarU64` | src/util/coding.rs:16-22 | appends the bytes of the varint |
| `Coding.ReadVarU64` | src/util/coding.rs:29-44 | reads it byte by byte as specified, ten bytes at most |
| `Coding.VarU64RoundTrip` | src/util/coding.rs:16-44 | every u64 reads back whatever follows, consuming its own bytes only |
| `Coding.VarintReads` | src/util/coding.rs:29-44 | a varint is read if and only if a last byte comes among the first ten; the value fits 64 bits |
| `Coding.VarU32RoundTrip` | src/util/coding.rs:24-27 | every u32 reads back |
| `Coding.KeyRoundTrip` | src/table/format.rs:53-66 | an internal key reads back whatever follows |
| `Coding.HandleRoundTrip` | src/table/format.rs:38-50 | a block handle reads back |
| `Coding.FooterRoundTrip` | src/table/format.rs:76-96 | the 40-byte footer reads back both handles |
| `Formats.VarintLayout` | src/util/coding.rs:16-22 | byte i of a varint is its i-th group of seven bits, the top bit on all but the last, no byte superfluous |
| `Formats.LeLayout` | src/table/format.rs:38-41 | fixed-width integers are little-endian |
| `Formats.FooterLayout` | src/table/format.rs:76-82 | a footer is four 8-byte integers and the magic bytes |
| `Refusals.FooterReads` | src/table/format.rs:84-96 | bytes are a footer if and only if there are forty of them and they end with the magic number |
| `Refusals.UnknownTypeRefused` | src/table/format.rs:60-74 | an internal key is read if and only if its type is that of a put or a deletion |
| `Refusals.LargeNumberRefused` | src/util/coding.rs:24-27 | a number above 32 bits is refused where one of 32 bits is read |
| `Payloads.EncodeWithSequence` | src/batch.rs:40-64 | the loop writes the specified payload |
| `Payloads.DecodePayload` | src/batch.rs:66-102 | the loop reads it as specified, errors included |
| `Payloads.BatchRoundTrip` | src/batch.rs:40-102 | a batch payload reads back with its start sequence and no byte left |
| `Payloads.TrailingBytesRefused` | src/batch.rs:95-99 | any extra byte after a batch payload is an error |
| `Payloads.EditRoundTrip` | src/version/edit.rs:22-95 | every version edit reads back with no byte left |
| `Payloads.PropertiesRoundTrip` | src/table/properties.rs:15-64 | table properties read back, missing keys included |
| `Formats.BatchExample` | src/batch.rs:40-64 | the bytes of a batch with both kinds of record |
| `Formats.RefusedRecords` | src/batch.rs:80-94 | a deletion with a value and a record of an unknown type are refused |
| `Formats.EditExamples` | src/version/edit.rs:22-49 | the bytes of the four short edits |
| `Formats.AddFileExample` | src/version/edit.rs:37-41 | the bytes of an added file |
| `Refusals.BatchPrefixFree` | src/batch.rs:66-102 | no payload that reads as a batch is the beginning of another that does |
| `Refusals.TruncatedBatchRefused` | src/batch.rs:66-102 | a batch payload cut short anywhere is refused |
| `Refusals.EditPrefixFree` | src/version/edit.rs:51-74 | no bytes that read as an edit are the beginning of others that do |
| `Refusals.TruncatedEditRefused` | src/version/edit.rs:51-74 | an edit cut short anywhere is refused |
| `Refusals.UnknownEditRefused` | src/version/edit.rs:68 | an unknown edit tag is refused whatever follows |
| `TableReads.PropertiesDescribe` | src/table/builder.rs:95-115 | what a table records of itself is true: number of entries, least and greatest key, a filter that admits all its keys |
| `Blocks.BlockBuilder.Add` | src/table/block_builder.rs:25-49 | appends one prefix-compressed entry, with a restart every interval |
| `Blocks.BlockBuilder.Finish` | src/table/block_builder.rs:59-69 | the data, the restart offsets and their number |
| `Blocks.Decode` | src/table/block.rs:13-69 | the loop decodes as specified, errors included |
| `Blocks.BlockRoundTrip` | src/table/block.rs:13-69 | for any restart interval and any entries in any order a block decodes to them; the trailer is never read as data |
| `Blocks.TaggedAllIdentity` | src/table/block_builder.rs:34-37 | they come back unchanged if and only if every key is tagged as its value is |
| `Blocks.RestartIsSelfContained` | src/table/block_builder.rs:27-32 | from a restart the data decodes without what came before |
| `Blocks.RestartOffsetAt` | src/table/block_builder.rs:27-29 | the j-th offset is where entry j * interval starts |
| `Formats.BlockExample` | src/table/block_builder.rs:25-69 | the bytes of a block of two entries that share a byte |
| `Formats.DataBlockRestarts` | src/table/block_builder.rs:25-69 | a data block ends with its number of restarts, one for every sixteen entries |
| `Refusals.SharedTooLongRefused` | src/table/block.rs:42-46 | an entry that shares more than there is of the key before it is refused |
| `Bloom.BuildBloomFilter` | src/util/bloom.rs:41-67 | builds the filter whose set bits are exactly the probes of the keys |
| `Bloom.MayContain` | src/util/bloom.rs:24-39 | tests every probe |
| `Bloom.FilterExact` | src/util/bloom.rs:13-39 | through encoding and decoding it answers yes if and only if every probe was set by some key |
| `Bloom.NoFalseNegatives` | src/util/bloom.rs:24-39 | never no for a key of the table |
| `Bloom.HashLaws` | src/util/bloom.rs:69-76 | the hash is FNV-1a: offset basis, and each byte exclusive-ored in bit by bit and multiplied by the prime modulo 2^32 |
| `Bloom.RotationSwapsParts` | src/util/bloom.rs:31 | the rotation swaps the low 17 and the high 15 bits |
| `Bloom.FilterShape` | src/util/bloom.rs:41-57 | ten bits a key but at least 64, seven probes |
| `Bloom.AbsentKeyRefused` | src/util/bloom.rs:24-39 | a filter and a key it refuses |
| `Bloom.FilterExample` | src/util/bloom.rs:41-67 | the bytes of that filter |
| `Tables.SSTableBuilder.WriteBlock` | src/table/builder.rs:143-156 | the handle is where the block was written and how long it is stored |
| `Tables.SSTableBuilder.FlushCurrentBlock` | src/table/builder.rs:121-141 | flushes the block with its first and last key, and starts an empty one |
| `Tables.SSTableBuilder.Add` | src/table/builder.rs:77-93 | adds one entry; a block is cut as soon as it reaches the block size |
| `Tables.SSTableBuilder.Finish` | src/table/builder.rs:95-115 | the file is the table of all entries added, and opening and reading it returns them |
| `Tables.HandleAddressesBlock` | src/table/reader.rs:341-364 | every index handle addresses exactly the bytes of its block |
| `Tables.OpensBack` | src/table/reader.rs:36-60 | a table opens with the index and properties it was written with |
| `Tables.TableRoundTrip` | src/table/reader.rs:122-141 | reading an opened table returns every entry in order, unchanged if and only if tags agree with values |
| `Tables.DecodeIndexEntries` | src/table/reader.rs:366-385 | the loop decodes the index as specified, errors included |
| `Tables.IndexRoundTrip` | src/table/builder.rs:166-176 | the index reads back |
| `Tables.BlockSizeIsLength` | src/table/block_builder.rs:55-57 | the size by which a block is cut is the length of its bytes |
| `Formats.TrailerLayout` | src/table/builder.rs:143-156 | after a stored block come the tag of its compression and the checksum of both |
| `Refusals.IndexPrefixFree` | src/table/reader.rs:366-385 | no bytes that read as an index are the beginning of others that do |
| `Refusals.ChangedBlockFails` | src/table/reader.rs:341-364 | a block changed on disk is refused if the checksum tells the two apart |
| `TableReads.BlockCache.Insert` | src/cache/block_cache.rs:47-55 | keeps the bound, evicts at most one block, changes no other |
| `TableReads.BlockCache.Get` | src/cache/block_cache.rs:36-45 | under a coherent cache a hit is the block its table holds at that offset |
| `TableReads.ReadDecodedBlock` | src/table/reader.rs:159-180 | with or without the cache it is the block at that handle, and the cache stays coherent |
| `TableReads.CoherentWithMore` | src/cache/block_cache.rs:36-55 | opening a table under a new number keeps the cache coherent |
| `TableReads.BuiltIsIndexed` | src/table/builder.rs:121-141 | a table built from sorted entries has an index that bounds its blocks |
| `TableReads.BuiltIsSearchable` | src/table/builder.rs:95-115 | and is one the lookup can rely on |
| `TableReads.GetWithCache` | src/table/reader.rs:66-97 | on such a table the pruned lookup returns the newest version at or below the read sequence over all its entries |
| `TableReads.EntriesWithCache` | src/table/reader.rs:122-141 | returns all entries in index order, or the error |
| `StoreReads.BuiltFilesAreOpen` | src/table/reader.rs:36-60 | live files written by the builder from their tables can be looked up |
| `StoreReads.GetFromBytes` | src/db.rs:259-333 | the point read over memtables and table bytes, through filters, indexes and the block cache, finds the newest version over the whole store |
| `TableCursors.SSTableStorageIterator.LoadBlockAt` | src/table/reader.rs:219-239 | stops at the first block from there on that holds an entry |
| `TableCursors.SSTableStorageIterator.Next` | src/table/reader.rs:271-281 | moves as the flat cursor over the concatenated blocks |
| `TableCursors.SSTableStorageIterator.Seek` | src/table/reader.rs:283-297 | goes where the flat cursor's lower bound is |
| `Wal.LogWriter.Append` | src/wal/writer.rs:24-36 | appends one frame |
| `Wal.ReadExactOrEof` | src/wal/reader.rs:52-67 | under any pattern of short reads, true if and only if a positive number of bytes was there |
| `Wal.ReadNextRecord` | src/wal/reader.rs:25-49 | reads one record as specified, torn and damaged ones included |
| `Wal.TruncatedLog` | src/wal/reader.rs:25-67 | a log cut anywhere reads without error as its whole records up to the first empty payload |
| `Wal.TruncationTolerated` | src/wal/reader.rs:25-67 | without empty payloads: exactly the payloads whose frames fit before the cut |
| `Wal.LogRoundTrip` | src/wal/reader.rs:52-67 | a whole log reads back if and only if no payload is empty |
| `Wal.EmptyPayloadHidesRest` | src/wal/reader.rs:52-67 | a log of an empty and a non-empty payload reads as empty |
| `Formats.FrameLayout` | src/wal/writer.rs:24-36 | checksum and length, little-endian, then the type, then the payload |
| `Refusals.DamagedLogFails` | src/wal/reader.rs:25-49 | a log with a damaged record in it cannot be read, whatever precedes it |
| `Refusals.ChangedPayloadFails` | src/wal/reader.rs:37-47 | a payload changed on disk makes the log unreadable if the checksum tells the two apart |
| `Wal.ReadAllRecords` | src/wal/reader.rs:25-67 | reading record by record under any short reads gives the log as specified |
| `Wal.ReadAllEdits` | src/version/manifest.rs:69-75 | reads and decodes edits until the log ends, failing on damage |
| `Wal.ManifestTruncation` | src/version/manifest.rs:35-75 | a MANIFEST cut anywhere reads as the edits whose records are whole |
| `Manifest.RecoveryRefines` | src/version/version_set.rs:57-142 | after any valid edits and allocations, across reopenings, recovery gives the same version, log number and last sequence, and a next file number at most the live one and above every number in use |
| `Manifest.CreatedBacked` | src/version/version_set.rs:34-55 | a new database is backed by its MANIFEST, so runs start from there |
| `Manifest.RecoversIffValid` | src/version/version_set.rs:110-115 | recovery succeeds if and only if no logged edit was for a missing level |
| `Manifest.ReplaysIffLevels` | src/version/version.rs:28-55 | edits replay with a number of levels if and only if every level they name exists |
| `Replays.ReplayedFiles` | src/version/version_set.rs:57-82 | after a replay a level holds exactly the files added to it whose number was not deleted from it since |
| `Replays.ReplayedCounters` | src/version/version_set.rs:117-142 | the next file number is the largest any edit asks for, the last sequence the largest logged, the log number the last logged |
| `Manifest.FewerLevelsDoNotRecover` | src/version/version_set.rs:57-82 | a MANIFEST written with three levels that does not recover with two |
| `Manifest.AllocationsIncrease` | src/version/version_set.rs:104-108 | numbers allocated in one run strictly increase |
| `Manifest.BytesRecover` | src/version/version_set.rs:57-82 | the same from the bytes of the MANIFEST |
| `Manifest.Recover` | src/version/version_set.rs:57-82 | the loop folds the edits it reads, failing on damage or an edit that cannot be applied |
| `Manifest.VersionSet.Create` | src/version/version_set.rs:34-55 | a new MANIFEST holds the three edits that replay to the initial state |
| `Manifest.VersionSet.LogAndApply` | src/version/version_set.rs:110-142 | the edit is logged and applied, and the MANIFEST stays a refinement |
| `Manifest.VersionSet.AllocateFileNumber` | src/version/version_set.rs:104-108 | hands out the next number |
| `Recovery.ReopenIsIdentity` | src/db.rs:128-168 | the store rebuilt from disk holds the same versions and last sequence, and the disk is enough again |
| `Recovery.ReopenKeepsReads` | src/db.rs:128-168 | every read at every sequence answers the same |
| `Recovery.WriteKeepsDurable` | src/db.rs:809-852 | a logged write leaves the disk enough |
| `RecoveryFlush.CrashInFlush` | src/db.rs:734-749 | a crash before the log number is logged, between any two of the flush's writes, loses nothing |
| `RecoveryFlush.FlushKeepsDurable` | src/db.rs:734-749 | a whole flush leaves the disk enough when the other memtables are empty |
| `RecoveryFlush.RotationKeepsExactly` | src/db.rs:740-747 | after any flush, reopening gives exactly the table contents |
| `RecoveryFlush.RotationLosesWrite` | src/db.rs:740-747 | a store in which a value reads at the last sequence, and after a flush and a reopening does not |
| `RecoveryRuns.CompactionKeepsDurable` | src/db.rs:854-930 | a whole compaction leaves the disk enough |
| `RecoveryRuns.EventKeeps` | src/db.rs:128-168 | every event leaves the disk enough, and only writes change what is read last |
| `RecoveryRuns.BurnedDurable` | src/db.rs:499-512 | a flush that meets an orphan table file fails, burns its number and leaves the disk enough |
| `RecoveryRuns.StoreIsFold` | src/db.rs:128-168 | in every state of every run the last visible map is the fold of all batches, and so is that of the reopened store |
| `RecoveryRotation.FlushSafeIff` | src/db.rs:740-747 | after any run without a crash within a flush, a flush goes through, and reopening keeps every version if and only if the other memtables are empty |
| `RecoveryRotation.HistoryTidy` | src/db.rs:704-712 | without a crash within a flush no table file is at or above the next number, so no flush meets an orphan |
| `RecoveryRotation.GroupLeavesTwo` | src/db.rs:843-851 | a group whose first batch fills the memtable leaves two memtables with entries |
| `RecoveryBytes.RecoverWal` | src/db.rs:1124-1131 | replays every batch of the log under its own sequences, failing on damage |
| `RecoveryBytes.OpensFromBytes` | src/db.rs:128-168 | the bytes of a disk with its log cut anywhere open as the disk whose log ends with the last whole batch |
| `RecoveryBytes.OpensWhole` | src/db.rs:128-168 | without a torn record the bytes open as the disk they encode |

## Left out

- Races between compaction, flush and snapshot creation: steps are atomic outside the write queue.
- Crash between the edits of one compaction: deletions are logged before additions, so this is not atomic in the code.
- Failed I/O and corrupt blocks inside table cursors beyond returning the error; appending after a torn record.
- CRC-32C, zstd, file names, renames, directory syncs and the table cache: external code and plumbing.
- SkipMap memtables, the arena and `MemTable::scan`: one sorted-map memtable stands for both kinds.
- Rate limiting, write pressure, compaction scoring, metrics, cache statistics and options: no effect on what is read.
- `ConcatIterator`, `TwoMergeIterator`, `BlockIterator`, `TableIterator`: not on the read path of the store, or thin.
- Databases.Database.ExecuteTask: requires `L0Closed` and `SplitSafe`, which the code does not test; what happens without them is in `BoundedCompaction.CompactionSafeIff` and `Splitter.EmptyKeyCut`.
- LsmSafety.CompactionKeeps: the invariant is kept only for level-0 compactions that are closed; reads without that are in `BoundedCompaction.CompactionSafeIff`.
- LsmCompaction.MoveIsOk: for closed compactions only, like `LsmSafety.CompactionKeeps`.
- Databases.Database.GetOpt: reads tables as lists of entries; the read down to bytes is `StoreReads.GetFromBytes`.
- Databases.Database.ScanOpt: its children are flat cursors over lists of entries; that the two-level table cursor moves like one is in `TableCursors`, but the merge is not run over cursor objects.
- Databases.Database.CommitTransaction: no log append, no write pressure, and no failure of the flush after the batch is applied; errors after an application are modelled for the write queue in `GroupOutcomes`.
- Databases.Database.ApplyWriteGroup: no log append; logged writes are in `Recovery.WriteKeepsDurable`.
- Transactions.Transaction.Commit: an error of the flush after the batch is applied is not modelled, as for `Databases.Database.CommitTransaction`.
- Databases.Database.Flush: does not write logs and does not fail; the disk side of a flush is in `RecoveryFlush`, a flush that fails in `RecoveryRuns.BurnedDurable`.
- RecoveryFlush.FlushKeepsDurable: for flushes that find the other memtables empty; what others lose is exactly `RecoveryFlush.RotationKeepsExactly`.
- RecoveryRuns.EventKeeps: histories whose flushes find the other memtables empty; the first flush that does not is `RecoveryRotation.FlushSafeIff`.
- RecoveryRuns.StoreIsFold: the same histories.
- Wal.ReadNextRecord: reads the length as a number and does not model the allocation of a payload buffer.
