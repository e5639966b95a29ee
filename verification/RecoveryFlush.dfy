/**
 Flushes and crashes within them (src/db.rs:487-514, 699-749).  A flush writes its table, logs AddFile and
 LastSequence, creates the next log and logs its number; a crash may leave the disk at any point in between.
 */
module RecoveryFlush {
  import opened Keys
  import opened Visibility
  import opened Executor
  import opened MemTables
  import opened Versions
  import opened Lsm
  import opened LsmWrites
  import opened LsmSafety
  import opened Manifest
  import opened Recovery

  function FlushEdits(db: Db, size: nat): seq<VersionEdit>
    requires Flushable(db).map_ != []
  {
    [AddFile(0, FlushedMeta(db, size)), LastSequence(db.lastSequence), LogNumber(db.nextFileNumber + 1)]
  }

  /** The edits logged when the flush has come to a stage. */
  function StageEdits(stage: nat): nat {
    if stage <= 2 then stage else if stage == 3 then 2 else 3
  }

  /**
   The disk when a flush stopped: after writing the table (0), AddFile (1), LastSequence (2), creating the
   next log (3), LogNumber (4).  A log that is there already is appended to.
   */
  function FlushDisk(db: Db, disk: Disk, size: nat, stage: nat): Disk
    requires Flushable(db).map_ != [] && stage <= 4
  {
    Disk(disk.edits + FlushEdits(db, size)[..StageEdits(stage)],
         disk.files[db.nextFileNumber := Flushable(db).map_],
         if stage <= 2 then disk.logs else disk.logs[db.nextFileNumber + 1 := LogOf(disk, db.nextFileNumber + 1)])
  }

  /** The version set after each stage. */
  function StageState(db: Db, vs: VersionState, size: nat, stage: nat): VersionState
    requires Flushable(db).map_ != [] && vs.current == db.version
  {
    var n := db.nextFileNumber;
    var added := vs.(current := db.version.(l0Files := [FlushedMeta(db, size)] + db.version.l0Files),
                     nextFileNumber := Max(vs.nextFileNumber, n + 1));
    var counted := added.(lastSequence := Max(vs.lastSequence, db.lastSequence));
    if stage == 0 then vs
    else if stage == 1 then added
    else if stage <= 3 then counted
    else counted.(logNumber := n + 1, nextFileNumber := Max(counted.nextFileNumber, n + 2))
  }

  lemma StageReplay(maxLevels: nat, db: Db, disk: Disk, size: nat, stage: nat, vs: VersionState)
    requires Flushable(db).map_ != [] && stage <= 4
    requires Replay(InitialState(maxLevels), disk.edits) == Some(vs) && vs.current == db.version
    ensures Replay(InitialState(maxLevels), FlushDisk(db, disk, size, stage).edits) == Some(StageState(db, vs, size, stage))
  {
    assert FlushedMeta(db, size).number == db.nextFileNumber;
    hide Replay, FlushedMeta, InitialState;
    var init := InitialState(maxLevels);
    var es := FlushEdits(db, size);
    assert disk.edits + es[..0] == disk.edits;
    ReplaySnoc(init, disk.edits, es[0]);
    assert disk.edits + es[..1] == disk.edits + [es[0]];
    assert [FlushedMeta(db, size)] + db.version.l0Files == WithFile(db.version.l0Files, 0, FlushedMeta(db, size));
    ReplaySnoc(init, disk.edits + es[..1], es[1]);
    assert disk.edits + es[..2] == disk.edits + es[..1] + [es[1]];
    ReplaySnoc(init, disk.edits + es[..2], es[2]);
    assert disk.edits + es[..3] == disk.edits + es[..2] + [es[2]];
  }

  lemma StagePasses(db: Db, vs: VersionState, size: nat, stage: nat)
    requires Flushable(db).map_ != [] && vs.current == db.version && NumbersPassed(vs)
    ensures NumbersPassed(StageState(db, vs, size, stage))
  {
    var meta := FlushedMeta(db, size);
    assert meta.number == db.nextFileNumber;
    hide FlushedMeta;
    var t := StageState(db, vs, size, stage);
    assert forall f :: f in t.current.l0Files ==> f == meta || f in vs.current.l0Files;
  }

  // ----- a flush that stopped before its log number was logged

  /** The store with the flushed table added, while the memtables are kept. */
  function Interrupted(db: Db, size: nat, stage: nat): Db
    requires Flushable(db).map_ != []
  {
    db.(files := db.files[db.nextFileNumber := Flushable(db).map_],
        version := if stage == 0 then db.version else db.version.(l0Files := [FlushedMeta(db, size)] + db.version.l0Files),
        nextFileNumber := db.nextFileNumber + 2)
  }

  /** Repeating the lowest memtable as the newest table changes nothing. */
  lemma RepeatLast(ms: seq<set<Entry>>, ts: seq<set<Entry>>, last: set<Entry>)
    requires ms != [] && last == ms[|ms| - 1] && Recency(ms + ts)
    ensures Recency(ms + ([last] + ts)) && Union(ms + ([last] + ts)) == Union(ms + ts)
  {
    hide Union;
    RecencyConcat(ms, ts);
    RecencyConcat([last], ts);
    RecencyConcat(ms, [last] + ts);
    assert Shadows(last, last);
    forall m | m in ms ensures Shadows(m, last) {
      var i :| 0 <= i < |ms| && ms[i] == m;
    }
    UnionConcat(ms, ts);
    UnionConcat(ms, [last] + ts);
    UnionTop(last, ts);
    LayerWithin(ms, |ms| - 1);
  }

  lemma LayerWithin(ls: seq<set<Entry>>, i: nat)
    requires i < |ls|
    ensures ls[i] <= Union(ls)
  {
  }

  lemma LowestMemtable(db: Db)
    ensures MemLayers(db)[|MemLayers(db)| - 1] == Elems(Flushable(db).map_)
  {
  }

  lemma InterruptedTables(db: Db, size: nat, stage: nat)
    requires Inv(db) && Flushable(db).map_ != []
    ensures var db' := Interrupted(db, size, stage);
            && TablesOk(db'.version, db'.files, db'.nextFileNumber)
            && TableLayers(db') == (if stage == 0 then [] else [Elems(Flushable(db).map_)]) + TableLayers(db)
            && MemLayers(db') == MemLayers(db)
  {
    hide Recency, Functional, All;
    var db', s := Interrupted(db, size, stage), Flushable(db).map_;
    assert MemOk(Flushable(db));
    StrictlySortedSorted(s);
    NewTableOk(db.files, db.nextFileNumber, size, s);
    FlushTables(db.version, db.files, db.nextFileNumber, s, FlushedMeta(db, size));
    NewNumberSameTables(db.version, db.files, db.nextFileNumber, s);
    SameVersionContents(db.version, db.files, db'.files);
    assert db'.files[db.nextFileNumber] == s;
    if stage > 0 {
      assert L0Layers(db'.files, db'.version.l0Files) == [Elems(s)] + L0Layers(db.files, db.version.l0Files);
    } else {
      MoreNumbers(db.version, db'.files, db.nextFileNumber);
    }
  }

  lemma MoreNumbers(v: Version, files: map<nat, seq<Entry>>, next: nat)
    requires |v.levels| >= 2 && v.levels[0] == [] && NumbersUnique(v) && LevelsDisjoint(v)
    requires forall n, f :: InLevel(v, n, f) ==> FileOk(files, f) && f.number < next
    ensures TablesOk(v, files, next + 2)
  {
    hide FileOk, LevelsDisjoint;
  }

  lemma InterruptedInv(db: Db, size: nat, stage: nat)
    requires Inv(db) && Flushable(db).map_ != []
    ensures var db' := Interrupted(db, size, stage);
            && Inv(db') && All(db') == All(db) && MemContents(db') == MemContents(db)
  {
    hide *;
    var db' := Interrupted(db, size, stage);
    InterruptedTables(db, size, stage);
    LowestMemtable(db);
    UnpackInv(db);
    LayersSplit(db);
    LayersSplit(db');
    MemContentsIs(db);
    MemContentsIs(db');
    AllIs(db);
    AllIs(db');
    RepeatLast(MemLayers(db), TableLayers(db), Elems(Flushable(db).map_));
    if stage == 0 {
      assert [] + TableLayers(db) == TableLayers(db);
    }
    InterruptedKeeps(db, size, stage);
    PackInv(db, db');
  }

  lemma InterruptedKeeps(db: Db, size: nat, stage: nat)
    requires Flushable(db).map_ != []
    ensures SameButTables(db, Interrupted(db, size, stage))
    ensures var db' := Interrupted(db, size, stage);
            db'.mutable == db.mutable && db'.immutables == db.immutables && db'.lastSequence == db.lastSequence && db'.live == db.live
  {
    hide FlushedMeta;
  }

  lemma LogPassed(vs: VersionState)
    requires NumbersPassed(vs)
    ensures vs.logNumber < vs.nextFileNumber
  {
  }

  lemma NothingLogged(last: nat)
    ensures LogEntries([]) == [] && Elems([]) == {} && ReplayLast(last, []) == last
  {
  }

  /**
   A crash at any stage before the log number is logged loses nothing, whatever other memtables hold: the
   store rebuilt from disk has the same versions and last sequence, and the disk is enough again.
   */
  lemma CrashInFlush(maxLevels: nat, db: Db, disk: Disk, size: nat, stage: nat)
    requires Durable(maxLevels, db, disk) && Flushable(db).map_ != [] && stage <= 3
    ensures Durable(maxLevels, Interrupted(db, size, stage), FlushDisk(db, disk, size, stage))
    ensures All(Interrupted(db, size, stage)) == All(db)
    ensures OpenDb(maxLevels, FlushDisk(db, disk, size, stage)).Some?
    ensures var db' := OpenDb(maxLevels, FlushDisk(db, disk, size, stage)).value;
            && Durable(maxLevels, db', FlushDisk(db, disk, size, stage))
            && All(db') == All(db) && db'.lastSequence == db.lastSequence
  {
    hide Inv, Replay, NumbersPassed, All, MemContents, Increasing, LogEntries, ReplayLast, InitialState, FlushedMeta, OpenDb;
    var vs := Replay(InitialState(maxLevels), disk.edits).value;
    var vs', disk' := StageState(db, vs, size, stage), FlushDisk(db, disk, size, stage);
    StageReplay(maxLevels, db, disk, size, stage, vs);
    StagePasses(db, vs, size, stage);
    InterruptedInv(db, size, stage);
    LogPassed(vs);
    var wal := LogOf(disk, vs.logNumber);
    assert LogOf(disk', vs'.logNumber) == wal;
    ReplayLastSplit(vs.lastSequence, vs'.lastSequence, wal);
    ReplayLastSplit(vs.lastSequence, vs.lastSequence, wal);
    ReopenIsIdentity(maxLevels, Interrupted(db, size, stage), disk');
  }

  // ----- a whole flush

  /** The memtable to be flushed is the only one with entries. */
  predicate OthersEmpty(db: Db) {
    db.immutables == [] || (|db.immutables| == 1 && db.mutable.map_ == [])
  }

  lemma FlushedMemtables(db: Db, size: nat)
    requires OthersEmpty(db) && Flushable(db).map_ != []
    ensures MemContents(FlushMemtable(db, size)) == {}
  {
    var db' := FlushMemtable(db, size);
    assert db'.immutables == [] && db'.mutable.map_ == [];
    OneMemtable(db');
  }

  /** A whole flush leaves the disk enough when no other memtable holds entries. */
  lemma FlushKeepsDurable(maxLevels: nat, db: Db, disk: Disk, size: nat)
    requires Durable(maxLevels, db, disk) && Flushable(db).map_ != [] && OthersEmpty(db)
    ensures Durable(maxLevels, FlushMemtable(db, size), FlushDisk(db, disk, size, 4))
    ensures All(FlushMemtable(db, size)) == All(db)
  {
    hide Inv, Replay, NumbersPassed, All, MemContents, LogEntries, ReplayLast, InitialState, FlushedMeta;
    var vs := Replay(InitialState(maxLevels), disk.edits).value;
    var vs', disk' := StageState(db, vs, size, 4), FlushDisk(db, disk, size, 4);
    StageReplay(maxLevels, db, disk, size, 4, vs);
    StagePasses(db, vs, size, 4);
    FlushKeepsInv(db, size);
    FlushedMemtables(db, size);
    RotatedLog(db, disk, vs, size);
    ReplayLastSplit(vs.lastSequence, vs.lastSequence, LogOf(disk, vs.logNumber));
    NothingLogged(vs'.lastSequence);
  }

  /** The log a flush starts is empty. */
  lemma RotatedLog(db: Db, disk: Disk, vs: VersionState, size: nat)
    requires Holds(db, disk, vs) && Flushable(db).map_ != []
    ensures LogOf(FlushDisk(db, disk, size, 4), db.nextFileNumber + 1) == []
    ensures StageState(db, vs, size, 4).logNumber == db.nextFileNumber + 1
  {
    hide NumbersPassed, MemContents, LogEntries, ReplayLast, FlushedMeta;
  }

  /**
   Without that condition the rotation of the log can lose writes: reopening after a flush keeps the versions
   exactly when every entry left in a memtable is in some table already.
   */
  lemma RotationKeepsExactly(maxLevels: nat, db: Db, disk: Disk, size: nat)
    requires Durable(maxLevels, db, disk) && Flushable(db).map_ != []
    ensures OpenDb(maxLevels, FlushDisk(db, disk, size, 4)).Some?
    ensures var flushed, reopened := FlushMemtable(db, size), OpenDb(maxLevels, FlushDisk(db, disk, size, 4)).value;
            && All(reopened) == TableContents(flushed)
            && reopened.lastSequence == db.lastSequence
            && (All(reopened) == All(flushed) <==> MemContents(flushed) <= TableContents(flushed))
  {
    hide Inv, Replay, NumbersPassed, All, MemContents, TableContents, LogEntries, ReplayLast, InitialState, FlushedMeta, Union, TablesExist;
    var vs := Replay(InitialState(maxLevels), disk.edits).value;
    var vs', disk' := StageState(db, vs, size, 4), FlushDisk(db, disk, size, 4);
    var flushed := FlushMemtable(db, size);
    StageReplay(maxLevels, db, disk, size, 4, vs);
    StagePasses(db, vs, size, 4);
    FlushKeepsInv(db, size);
    RotatedLog(db, disk, vs, size);
    assert TablesOk(flushed.version, flushed.files, flushed.nextFileNumber) by { UnpackInv(flushed); }
    NumbersWithin(vs', flushed.files, flushed.nextFileNumber);
    ReplayLastSplit(vs.lastSequence, vs.lastSequence, LogOf(disk, vs.logNumber));
    NothingLogged(vs'.lastSequence);
    var reopened := OpenDb(maxLevels, disk').value;
    OneMemtable(reopened);
    LayersSplit(reopened);
    LayersSplit(flushed);
    assert MemContents(reopened) == {};
    SameTableLayers(flushed, reopened);
  }

  /** Two writes with a freeze between them. */
  lemma TwoWrites() returns (db: Db, disk: Disk, x: Entry, e: Entry)
    ensures Durable(2, db, disk) && db.lastSequence == 2
    ensures x == Entry(InternalKey([1], 1, PutType), Put([10])) && e == Entry(InternalKey([2], 2, PutType), Put([20]))
    ensures db.mutable.map_ == [e] && |db.immutables| == 1 && db.immutables[0].map_ == [x]
    ensures db.version == EmptyVersion(2)
  {
    hide *;
    var db0, disk0 := InitDb(2), Disk(InitialEdits, map[], map[1 := []]);
    NewIsDurable(2);
    InitFields(2);
    var a, b := [PutRecord([1], [10])], [PutRecord([2], [20])];
    x, e := Entry(InternalKey([1], 1, PutType), Put([10])), Entry(InternalKey([2], 2, PutType), Put([20]));
    WriteKeepsDurable(2, db0, disk0, a);
    OneApplied(db0, [1], [10]);
    var db1, disk1 := ApplyBatch(db0, a), Appended(disk0, LogNumberOf(2, disk0), Logged(db0.lastSequence + 1, a));
    FreezeKeepsDurable(2, db1, disk1);
    FreezeFields(db1);
    var db2 := FreezeMutable(db1);
    WriteKeepsDurable(2, db2, disk1, b);
    OneApplied(db2, [2], [20]);
    db, disk := ApplyBatch(db2, b), Appended(disk1, LogNumberOf(2, disk1), Logged(db2.lastSequence + 1, b));
  }

  lemma InitFields(maxLevels: nat)
    ensures var db := InitDb(maxLevels);
            db.mutable.map_ == [] && db.immutables == [] && db.lastSequence == 0 && db.version == EmptyVersion(maxLevels)
  {
  }

  lemma FreezeFields(db: Db)
    ensures var db' := FreezeMutable(db);
            && db'.mutable.map_ == [] && db'.immutables == db.immutables + [db.mutable]
            && db'.lastSequence == db.lastSequence && db'.version == db.version
  {
  }

  lemma OneApplied(db: Db, key: Bytes, value: Bytes)
    requires db.mutable.map_ == []
    ensures var db' := ApplyBatch(db, [PutRecord(key, value)]);
            && db'.mutable.map_ == [Entry(InternalKey(key, db.lastSequence + 1, PutType), Put(value))]
            && db'.immutables == db.immutables && db'.lastSequence == db.lastSequence + 1 && db'.version == db.version
  {
    hide InsertAll, BatchEntries;
    OneWritten(db.mutable, db.lastSequence + 1, key, value);
  }

  lemma FlushFields(db: Db, size: nat, x: Entry)
    requires |db.immutables| == 1 && db.immutables[0].map_ == [x]
    ensures Flushable(db).map_ == [x]
    ensures var db' := FlushMemtable(db, size);
            && |db'.version.l0Files| == |db.version.l0Files| + 1 && TableEntries(db'.files, db'.version.l0Files[0]) == [x]
            && db'.version.levels == db.version.levels
  {
  }

  lemma EmptyLevels(maxLevels: nat)
    ensures EmptyVersion(maxLevels).l0Files == []
    ensures forall n :: 0 <= n < |EmptyVersion(maxLevels).levels| ==> EmptyVersion(maxLevels).levels[n] == []
  {
  }

  /**
   Flushing then loses the second write: its value reads at the last sequence before, and after reopening the key
   is gone.
   */
  lemma RotationLosesWrite() returns (db: Db, disk: Disk)
    ensures Durable(2, db, disk) && Flushable(db).map_ != []
    ensures Get(All(db), [2], db.lastSequence) == Some([20])
    ensures All(FlushMemtable(db, 0)) == All(db)
    ensures OpenDb(2, FlushDisk(db, disk, 0, 4)).Some?
    ensures var reopened := OpenDb(2, FlushDisk(db, disk, 0, 4)).value;
            reopened.lastSequence == db.lastSequence && Get(All(reopened), [2], db.lastSequence) == None
  {
    hide *;
    var x, e;
    db, disk, x, e := TwoWrites();
    DurableInv(2, db, disk);
    UnpackInv(db);
    FlushFields(db, 0, x);
    FlushKeepsInv(db, 0);
    EmptyLevels(2);
    InMutable(db, e);
    ReadsLast(All(db), e);
    RotationKeepsExactly(2, db, disk, 0);
    OnlyTable(FlushMemtable(db, 0), x);
    ReadsNothing(x, [2], 2);
  }

  lemma DurableInv(maxLevels: nat, db: Db, disk: Disk)
    requires Durable(maxLevels, db, disk)
    ensures Inv(db)
  {
    hide Inv, Holds, Replay;
  }

  lemma ReadsLast(s: set<Entry>, e: Entry)
    requires Functional(s) && Bounded(s, e.key.sequence) && e in s && e.value.Put?
    ensures Get(s, e.key.userKey, e.key.sequence) == Some(e.value.value)
  {
    NewestUnique(s, e.key.userKey, e.key.sequence, e);
  }

  lemma ReadsNothing(x: Entry, k: Bytes, r: nat)
    requires x.key.userKey != k
    ensures Get({x}, k, r) == None
  {
  }

  lemma OneWritten(m: MemTable, sequence: nat, key: Bytes, value: Bytes)
    requires m.map_ == []
    ensures InsertAll(m, BatchEntries(sequence, [PutRecord(key, value)])).map_ == [Entry(InternalKey(key, sequence, PutType), Put(value))]
  {
    var es := BatchEntries(sequence, [PutRecord(key, value)]);
    assert es[1..] == [];
    assert InsertAll(m, es) == InsertAll(MemInsert(m, es[0]), []);
  }

  lemma InMutable(db: Db, e: Entry)
    requires e in db.mutable.map_
    ensures e in All(db)
  {
    assert Layers(db)[0] == Elems(db.mutable.map_);
    assert Elems(db.mutable.map_) in Layers(db) && e in Elems(db.mutable.map_);
  }

  lemma OnlyTable(db: Db, x: Entry)
    requires |db.version.l0Files| == 1 && TableEntries(db.files, db.version.l0Files[0]) == [x]
    requires forall n :: 0 <= n < |db.version.levels| ==> db.version.levels[n] == []
    ensures TableContents(db) == {x}
  {
    var l0, ls := L0Layers(db.files, db.version.l0Files), LevelLayers(db.files, db.version.levels);
    assert Elems([x]) == {x};
    assert l0 == [{x}];
    UnionConcat(l0, ls);
    UnionTop({x}, []);
    assert [{x}] + [] == l0 && Union([]) == {};
    forall n | 0 <= n < |ls| ensures ls[n] == {} {
    }
    assert Union(ls) == {};
  }
}
