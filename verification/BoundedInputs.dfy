/**
 Two stores on which a bounded compaction changes a read (src/compact/picker.rs:92-97): an overwritten value comes
 back, and a deleted key comes back.
 */
module BoundedInputs {
  import opened Keys
  import opened Visibility
  import opened Splitter
  import opened MemTables
  import opened Versions
  import opened Picker
  import opened Lsm
  import opened LsmCompaction
  import opened LsmSafety
  import opened BoundedCompaction
  import opened LayerExactness

  const K1: Bytes := [1]
  const K2: Bytes := [2]

  lemma SmallKeys()
    ensures Less(K1, K2) && !Less(K2, K1) && !Less(K1, K1) && !Less(K2, K2)
  {
  }

  /** Two level-0 files: the older holds `[1]`, the newer holds `[1]` again, by `r`, and `[2]`. */
  function OldEntry(): Entry { Entry(InternalKey(K1, 1, PutType), Put([10])) }

  function NewEntry(r: BatchRecord): Entry { RecordEntry(r, 2) }

  function OtherEntry(): Entry { Entry(InternalKey(K2, 3, PutType), Put([20])) }

  function FirstBatch(): seq<BatchRecord> { [PutRecord(K1, [10])] }

  function SecondBatch(r: BatchRecord): seq<BatchRecord> { [r, PutRecord(K2, [20])] }

  ghost predicate OnlyTables(db: Db) {
    db.mutable.map_ == [] && db.immutables == [] && db.live == multiset{}
  }

  lemma Begin()
    ensures var db := InitDb(2);
            && OnlyTables(db) && db.lastSequence == 0 && db.version == Version([], [[], []]) && db.files == map[]
            && db.nextFileNumber == 2
  {
    assert EmptyVersion(2).levels == [[], []];
  }

  lemma InsertOne(m: MemTable, e: Entry)
    requires m.map_ == []
    ensures InsertAll(m, [e]).map_ == [e]
  {
    assert [e][1..] == [];
    assert InsertAll(m, [e]) == InsertAll(MemInsert(m, e), []);
  }

  lemma InsertTwo(m: MemTable, d: Entry, e: Entry)
    requires m.map_ == [] && KeyLess(d.key, e.key)
    ensures InsertAll(m, [d, e]).map_ == [d, e]
  {
    InternalKeyOrder();
    var m1 := MemInsert(m, d);
    assert m1.map_ == [d];
    assert [d, e][1..] == [e] && [e][1..] == [] && [d][1..] == [];
    assert InsertAll(m, [d, e]) == InsertAll(m1, [e]) == InsertAll(MemInsert(m1, e), []);
    assert LowerBound([d], e.key) == 1;
    assert [d][..1] + [e] + [d][1..] == [d, e];
  }

  /** Writing a batch into an empty memtable and flushing it. */
  function WrittenOut(db: Db, batch: seq<BatchRecord>): Db { FlushMemtable(ApplyBatch(db, batch), 0) }

  lemma OneTable(db: Db, batch: seq<BatchRecord>, s: seq<Entry>)
    requires OnlyTables(db) && s != []
    requires InsertAll(db.mutable, BatchEntries(db.lastSequence + 1, batch)).map_ == s
    ensures ApplyBatch(db, batch).mutable.map_ == s
    ensures var db' := WrittenOut(db, batch);
            && OnlyTables(db')
            && db'.lastSequence == db.lastSequence + |batch| && db'.nextFileNumber == db.nextFileNumber + 2
            && db'.files == db.files[db.nextFileNumber := s]
            && db'.version == Version([MetaOf(db.nextFileNumber, 0, s)] + db.version.l0Files, db.version.levels)
  {
    hide InsertAll, BatchEntries, MetaOf;
  }

  ghost function TwoTables(r: BatchRecord): Db { WrittenOut(WrittenOut(InitDb(2), FirstBatch()), SecondBatch(r)) }

  function Older(): FileMeta { MetaOf(2, 0, [OldEntry()]) }

  function Newer(r: BatchRecord): FileMeta { MetaOf(4, 0, [NewEntry(r), OtherEntry()]) }

  lemma FirstEntries()
    ensures BatchEntries(1, FirstBatch()) == [OldEntry()]
  {
  }

  lemma SecondEntries(r: BatchRecord)
    requires r.key == K1
    ensures BatchEntries(2, SecondBatch(r)) == [NewEntry(r), OtherEntry()]
    ensures KeyLess(NewEntry(r).key, OtherEntry().key)
  {
    SmallKeys();
  }

  ghost predicate TablesAre(db: Db, r: BatchRecord) {
    && OnlyTables(db) && db.lastSequence == 3 && db.nextFileNumber == 6
    && db.files == map[2 := [OldEntry()], 4 := [NewEntry(r), OtherEntry()]]
    && db.version == Version([Newer(r), Older()], [[], []])
  }

  lemma TablesAreOf(db: Db, r: BatchRecord)
    requires OnlyTables(db) && db.lastSequence == 3 && db.nextFileNumber == 6
    requires db.files == map[2 := [OldEntry()], 4 := [NewEntry(r), OtherEntry()]]
    requires db.version == Version([Newer(r), Older()], [[], []])
    ensures TablesAre(db, r)
  {
  }

  lemma TwoTablesAre(r: BatchRecord)
    requires r.key == K1
    ensures TablesAre(TwoTables(r), r)
  {
    hide *;
    Begin();
    FirstEntries();
    SecondEntries(r);
    var db0 := InitDb(2);
    EmptyMemtable(db0);
    InsertOne(db0.mutable, OldEntry());
    OneTable(db0, FirstBatch(), [OldEntry()]);
    var db1 := WrittenOut(db0, FirstBatch());
    EmptyMemtable(db1);
    InsertTwo(db1.mutable, NewEntry(r), OtherEntry());
    BatchSizes(r);
    OneTable(db1, SecondBatch(r), [NewEntry(r), OtherEntry()]);
    TablesNamed(r);
    TablesAreOf(TwoTables(r), r);
  }

  lemma EmptyMemtable(db: Db)
    requires OnlyTables(db)
    ensures db.mutable.map_ == []
  {
  }

  lemma BatchSizes(r: BatchRecord)
    ensures |FirstBatch()| == 1 && |SecondBatch(r)| == 2
  {
  }

  lemma TablesNamed(r: BatchRecord)
    ensures Newer(r) == MetaOf(4, 0, [NewEntry(r), OtherEntry()]) && Older() == MetaOf(2, 0, [OldEntry()])
    ensures TwoTables(r) == WrittenOut(WrittenOut(InitDb(2), FirstBatch()), SecondBatch(r))
  {
  }

  const OPTS: Options := Options(1, 1, 1)

  lemma TwoTablesReachable(r: BatchRecord)
    ensures Reachable(OPTS, TwoTables(r))
  {
    hide ApplyBatch, FlushMemtable, InitDb;
    var s0 := InitDb(2);
    var s1 := ApplyBatch(s0, FirstBatch());
    var s2 := FlushMemtable(s1, 0);
    var s3 := ApplyBatch(s2, SecondBatch(r));
    var s4 := FlushMemtable(s3, 0);
    var states, steps := [s0, s1, s2, s3, s4], [Write(FirstBatch()), Flush(0), Write(SecondBatch(r)), Flush(0)];
    assert IsRun(OPTS, states, steps);
    assert states[0] == InitDb(2) && states[|steps|] == TwoTables(r);
  }

  lemma KeysOf(r: BatchRecord)
    requires r.key == K1
    ensures Newer(r).smallest.userKey == K1 && Newer(r).largest.userKey == K2 && Newer(r).number == 4
    ensures Older().smallest.userKey == K1 && Older().largest.userKey == K1 && Older().number == 2
  {
  }

  /** The range from `[2]` on meets the newer file only. */
  lemma PickedTask(db: Db, r: BatchRecord) returns (task: CompactionTask)
    requires r.key == K1 && TablesAre(db, r)
    ensures PickManual(db.version, Included(K2), Unbounded) == Some(task)
    ensures Picked(db.version, task)
    ensures task.inputLevel == 0 && task.inputFiles == [Newer(r)] && task.AllInputFiles() == [Newer(r)] && Older() != Newer(r)
  {
    SmallKeys();
    KeysOf(r);
    var v := db.version;
    hide Newer, Older, UserKeyRange, TablesAre;
    assert FileOverlapsRange(Newer(r), Included(K2), Unbounded) && !FileOverlapsRange(Older(), Included(K2), Unbounded);
    RangeOfTwo(Newer(r), Older(), Included(K2), Unbounded);
    task := TaskForFiles(v, 0, [Newer(r)]);
    assert [Newer(r)] + [] == [Newer(r)];
    PickManualPicked(v, Included(K2), Unbounded);
  }

  lemma RangeOfTwo(f: FileMeta, g: FileMeta, lower: Bound, upper: Bound)
    requires FileOverlapsRange(f, lower, upper) && !FileOverlapsRange(g, lower, upper)
    ensures InRange([f, g], lower, upper) == [f]
  {
    hide FileOverlapsRange;
    assert [f, g][1..] == [g] && [g][1..] == [];
    assert InRange([g], lower, upper) == InRange([], lower, upper);
  }

  lemma WatermarkHere(db: Db, r: BatchRecord)
    requires TablesAre(db, r)
    ensures GcWatermark(db) == 3 && db.nextFileNumber == 6
  {
  }

  lemma TaskCompactable(db: Db, r: BatchRecord, task: CompactionTask) returns (numbers: seq<nat>, sizes: seq<nat>)
    requires r.key == K1 && Picked(db.version, task) && TablesAre(db, r) && task.inputFiles != []
    ensures Compactable(OPTS, db, task, numbers, sizes) && GcWatermark(db) == 3
  {
    hide *;
    WatermarkHere(db, r);
    var n := |Chunks(OPTS, db, task, GcWatermark(db))|;
    numbers, sizes := seq(n, i requires 0 <= i < n => 6 + i), seq(n, i => 0);
    NextNumbers(db, numbers);
    OneOutput(CompactionOutput(db, task, GcWatermark(db)));
    CompactableOf(OPTS, db, task, numbers, sizes);
  }

  lemma NextNumbers(db: Db, numbers: seq<nat>)
    requires forall i :: 0 <= i < |numbers| ==> numbers[i] == db.nextFileNumber + i
    ensures FreshNumbers(db, numbers)
  {
  }

  lemma OneOutput(output: seq<Entry>)
    ensures SplitSafe(OPTS, output)
  {
    hide EmptyRun, TotalSize;
  }

  lemma CompactableOf(opts: Options, db: Db, task: CompactionTask, numbers: seq<nat>, sizes: seq<nat>)
    requires Picked(db.version, task) && SplitSafe(opts, CompactionOutput(db, task, GcWatermark(db))) && FreshNumbers(db, numbers)
    requires task.inputFiles != [] && |numbers| == |Chunks(opts, db, task, GcWatermark(db))| && |sizes| == |numbers|
    ensures Compactable(opts, db, task, numbers, sizes)
  {
    hide Picked, SplitSafe, FreshNumbers, MovesTrivially, Chunks, CompactionOutput, GcWatermark;
  }

  lemma TableContentsAre(db: Db, r: BatchRecord)
    requires TablesAre(db, r)
    ensures db.version.l0Files == [Newer(r), Older()]
    ensures TableEntries(db.files, Newer(r)) == [NewEntry(r), OtherEntry()] && TableEntries(db.files, Older()) == [OldEntry()]
    ensures Base(db) == 1 && |Layers(db)| > 0 && Layers(db)[0] == {}
  {
    NumbersOf(r);
    hide NewEntry, OtherEntry, OldEntry;
  }

  lemma OneFileSet(files: map<nat, seq<Entry>>, f: FileMeta, a: Entry, b: Entry)
    requires TableEntries(files, f) == [a, b]
    ensures LevelSet(files, [f]) == {a, b}
  {
    hide LevelSet, TableEntries;
    LevelSetHas(files, [f], f, a);
    LevelSetHas(files, [f], f, b);
    forall e | e in LevelSet(files, [f]) ensures e in {a, b} {
      var g := InLevelSet(files, [f], e);
    }
  }

  lemma Contained(db: Db, r: BatchRecord, task: CompactionTask)
    requires TablesAre(db, r) && TablesOk(db.version, db.files, db.nextFileNumber) && TaskShape(db.version, task)
    requires task.inputLevel == 0 && task.inputFiles == [Newer(r)] && task.AllInputFiles() == [Newer(r)] && Older() != Newer(r)
    ensures LevelSet(db.files, task.AllInputFiles()) == {NewEntry(r), OtherEntry()}
    ensures |Moved(db, task)| == |Layers(db)| && LevelIndex(db, task.outputLevel) < |Layers(db)|
    ensures StaysAbove(db, task) == {OldEntry()}
  {
    hide *;
    TableContentsAre(db, r);
    LayersCount(db, task);
    OneFileSet(db.files, Newer(r), NewEntry(r), OtherEntry());
    assert Older() in db.version.l0Files && OldEntry() in TableEntries(db.files, Older());
    StaysAboveFiles(db, task, OldEntry());
    forall e | e in StaysAbove(db, task) ensures e == OldEntry() {
      StaysAboveFiles(db, task, e);
      if g :| g in db.version.l0Files && g !in task.inputFiles && e in TableEntries(db.files, g) {
        assert g == Older();
      }
    }
  }

  lemma NumbersOf(r: BatchRecord)
    ensures Newer(r).number == 4 && Older().number == 2
  {
  }

  lemma NewestHere(r: BatchRecord)
    requires r.key == K1
    ensures Newest({NewEntry(r), OtherEntry()}, K1, 3) == Some(NewEntry(r))
    ensures Newest({OldEntry()}, K1, 3) == Some(OldEntry())
    ensures NewEntry(r).key.sequence == 2 && OldEntry().key.sequence == 1 && Visible(Some(OldEntry())) == Some([10])
  {
    assert K1 != K2;
    NewestUnique({NewEntry(r), OtherEntry()}, K1, 3, NewEntry(r));
    NewestUnique({OldEntry()}, K1, 3, OldEntry());
  }

  /** The older file is left although it shares `[1]` with the newer one. */
  lemma NotClosed(db: Db, r: BatchRecord, task: CompactionTask)
    requires r.key == K1 && TablesAre(db, r)
    requires task.inputLevel == 0 && task.inputFiles == [Newer(r)] && Older() != Newer(r)
    ensures !L0Closed(db, task)
  {
    TableContentsAre(db, r);
    assert NewEntry(r).key.userKey == OldEntry().key.userKey;
    hide TablesAre, Newer, Older, NewEntry, OldEntry, OtherEntry, TableEntries;
    assert NewEntry(r) in TableEntries(db.files, db.version.l0Files[0]) && OldEntry() in TableEntries(db.files, db.version.l0Files[1]);
  }

  lemma LastOf(db: Db, r: BatchRecord)
    requires TablesAre(db, r)
    ensures db.lastSequence == 3
  {
  }

  /** After the compaction `[1]` reads at the last sequence as it did before the second batch. */
  lemma BoundedRead(r: BatchRecord) returns (task: CompactionTask, numbers: seq<nat>, sizes: seq<nat>)
    requires r.key == K1
    ensures Reachable(OPTS, TwoTables(r)) && TwoTables(r).lastSequence == 3
    ensures PickManual(TwoTables(r).version, Included(K2), Unbounded) == Some(task) && !L0Closed(TwoTables(r), task)
    ensures Compactable(OPTS, TwoTables(r), task, numbers, sizes)
    ensures FirstHitValue(TwoTables(r), K1, 3) == Visible(Some(NewEntry(r)))
    ensures FirstHitValue(ExecuteCompaction(OPTS, TwoTables(r), task, GcWatermark(TwoTables(r)), numbers, sizes), K1, 3) == Some([10])
  {
    hide *;
    var db := TwoTables(r);
    TwoTablesReachable(r);
    ReachableInv(OPTS, db);
    UnpackInv(db);
    TwoTablesAre(r);
    LastOf(db, r);
    task := PickedTask(db, r);
    NotClosed(db, r, task);
    numbers, sizes := TaskCompactable(db, r, task);
    CompactableShape(OPTS, db, task, numbers, sizes);
    Contained(db, r, task);
    NewestHere(r);
    ReadAfterCompaction(OPTS, db, task, numbers, sizes, K1, 3);
    StaleHere(r);
    LayeredReadCorrect(db, K1, 3);
    ValueOf(db, K1, 3);
    ValueOf(ExecuteCompaction(OPTS, db, task, GcWatermark(db), numbers, sizes), K1, 3);
  }

  lemma StaleHere(r: BatchRecord)
    requires r.key == K1
    ensures StaleAt({OldEntry()}, {NewEntry(r), OtherEntry()}, K1, 3)
  {
    NewestHere(r);
  }

  lemma ValueOf(db: Db, k: Bytes, r: nat)
    ensures FirstHitValue(db, k, r) == Visible(FirstHit(Layers(db), k, r))
    ensures Get(All(db), k, r) == Visible(Newest(All(db), k, r))
  {
  }

  /** An overwritten value comes back. */
  lemma StaleValueReturns() returns (db: Db, task: CompactionTask, numbers: seq<nat>, sizes: seq<nat>)
    ensures Reachable(OPTS, db) && db.lastSequence == 3
    ensures PickManual(db.version, Included(K2), Unbounded) == Some(task) && !L0Closed(db, task)
    ensures Compactable(OPTS, db, task, numbers, sizes)
    ensures FirstHitValue(db, K1, 3) == Some([11])
    ensures FirstHitValue(ExecuteCompaction(OPTS, db, task, GcWatermark(db), numbers, sizes), K1, 3) == Some([10])
  {
    hide TwoTables, Compactable, ExecuteCompaction, GcWatermark, L0Closed, PickManual, FirstHitValue, Reachable;
    var r := PutRecord(K1, [11]);
    db := TwoTables(r);
    task, numbers, sizes := BoundedRead(r);
  }

  /** A deleted key comes back: the tombstone is dropped, the value it hid stays above. */
  lemma DeletedKeyReturns() returns (db: Db, task: CompactionTask, numbers: seq<nat>, sizes: seq<nat>)
    ensures Reachable(OPTS, db) && db.lastSequence == 3
    ensures PickManual(db.version, Included(K2), Unbounded) == Some(task) && !L0Closed(db, task)
    ensures Compactable(OPTS, db, task, numbers, sizes)
    ensures FirstHitValue(db, K1, 3) == None
    ensures FirstHitValue(ExecuteCompaction(OPTS, db, task, GcWatermark(db), numbers, sizes), K1, 3) == Some([10])
  {
    hide TwoTables, Compactable, ExecuteCompaction, GcWatermark, L0Closed, PickManual, FirstHitValue, Reachable;
    var r := DeleteRecord(K1);
    db := TwoTables(r);
    task, numbers, sizes := BoundedRead(r);
  }
}
