/**
 Reopening the store (src/db.rs:128-168, 734-749, 1124-1131, 1327-1339): what is on disk is enough to rebuild
 what can be read.

 The disk holds the edits of the MANIFEST, the table files and the logs.  A write is appended to the log the
 version set names; a flush writes a table, logs three edits and starts a new log.
 */
module Recovery {
  import opened Keys
  import opened Visibility
  import opened Executor
  import opened MemTables
  import opened Versions
  import opened Lsm
  import opened LsmWrites
  import opened LsmSafety
  import opened Manifest

  datatype Logged = Logged(start: nat, batch: seq<BatchRecord>)

  datatype Disk = Disk(edits: seq<VersionEdit>, files: map<nat, seq<Entry>>, logs: map<nat, seq<Logged>>)

  function LogOf(disk: Disk, n: nat): seq<Logged> {
    if n in disk.logs then disk.logs[n] else []
  }

  // ----- replaying a log

  function LogEntries(wal: seq<Logged>): seq<Entry> {
    if wal == [] then []
    else
      var n := |wal| - 1;
      LogEntries(wal[..n]) + BatchEntries(wal[n].start, wal[n].batch)
  }

  /** `apply_batch` record by record into the memtable. */
  function ReplayMemtable(wal: seq<Logged>): MemTable {
    if wal == [] then EMPTY_MEMTABLE
    else
      var n := |wal| - 1;
      InsertAll(ReplayMemtable(wal[..n]), BatchEntries(wal[n].start, wal[n].batch))
  }

  function LastOf(last: nat, l: Logged): nat {
    if l.batch == [] then last else Max(last, l.start + |l.batch| - 1)
  }

  function ReplayLast(last: nat, wal: seq<Logged>): nat {
    if wal == [] then last else LastOf(ReplayLast(last, wal[..|wal| - 1]), wal[|wal| - 1])
  }

  /** Sequence numbers go up along the log. */
  ghost predicate Increasing(es: seq<Entry>) {
    forall i, j :: 0 <= i < j < |es| ==> es[i].key.sequence < es[j].key.sequence
  }

  lemma IncreasingParts(a: seq<Entry>, b: seq<Entry>)
    requires Increasing(a + b)
    ensures Increasing(a) && Increasing(b)
    ensures forall x, y :: x in a && y in b ==> x.key.sequence < y.key.sequence
  {
    var c := a + b;
    assert forall i :: 0 <= i < |a| ==> c[i] == a[i];
    assert forall i :: 0 <= i < |b| ==> c[|a| + i] == b[i];
    forall i, j | 0 <= i < j < |b| ensures b[i].key.sequence < b[j].key.sequence {
      assert c[|a| + i].key.sequence < c[|a| + j].key.sequence;
    }
  }

  lemma ElemsAdd(a: seq<Entry>, b: seq<Entry>)
    ensures Elems(a + b) == Elems(a) + Elems(b)
  {
  }

  lemma {:induction false} ReplayContents(wal: seq<Logged>)
    requires Increasing(LogEntries(wal))
    ensures MemOk(ReplayMemtable(wal)) && Elems(ReplayMemtable(wal).map_) == Elems(LogEntries(wal))
    decreases |wal|
  {
    assert StrictlySorted([]);
    hide InsertAll, BatchEntries, StrictlySorted;
    if wal != [] {
      var n := |wal| - 1;
      var before, es := LogEntries(wal[..n]), BatchEntries(wal[n].start, wal[n].batch);
      IncreasingParts(before, es);
      ReplayContents(wal[..n]);
      var m := ReplayMemtable(wal[..n]);
      BatchEntriesFresh(wal[n].start, wal[n].batch);
      InsertedContents(m, before, es);
    }
  }

  lemma InsertedContents(m: MemTable, before: seq<Entry>, es: seq<Entry>)
    requires MemOk(m) && Elems(m.map_) == Elems(before)
    requires Increasing(es) && (forall e :: e in es ==> Consistent(e))
    requires forall x, y :: x in before && y in es ==> x.key.sequence < y.key.sequence
    ensures MemOk(InsertAll(m, es)) && Elems(InsertAll(m, es).map_) == Elems(before + es)
  {
    hide InsertAll, StrictlySorted;
    forall e, x | e in es && x in m.map_ ensures x.key != e.key {
      assert x in Elems(m.map_);
    }
    InsertAllElems(m, es);
    ElemsAdd(before, es);
    var m' := InsertAll(m, es);
    forall e | e in m'.map_ ensures Consistent(e) {
      assert e in Elems(m'.map_);
      if e !in es { assert e in Elems(m.map_); }
    }
  }

  lemma {:induction false} ReplayLastSplit(last: nat, more: nat, wal: seq<Logged>)
    requires last <= more
    ensures ReplayLast(more, wal) == Max(more, ReplayLast(last, wal))
    decreases |wal|
  {
    if wal != [] { ReplayLastSplit(last, more, wal[..|wal| - 1]); }
  }

  // ----- opening

  /** Every table of the version can be opened. */
  predicate TablesExist(v: Version, files: map<nat, seq<Entry>>) {
    && (forall f :: f in v.l0Files ==> f.number in files)
    && (forall n, f :: 0 <= n < |v.levels| && f in v.levels[n] ==> f.number in files)
  }

  function OpenDb(maxLevels: nat, disk: Disk): Option<Db> {
    match Replay(InitialState(maxLevels), disk.edits)
    case None => None
    case Some(vs) =>
      if !TablesExist(vs.current, disk.files) then None
      else
        var wal := LogOf(disk, vs.logNumber);
        Some(Db(ReplayMemtable(wal), [], vs.current, disk.files, ReplayLast(vs.lastSequence, wal), vs.nextFileNumber, multiset{}))
  }

  // ----- what ties the disk to the store

  function MemLayers(db: Db): seq<set<Entry>> {
    [Elems(db.mutable.map_)] + ImmutableLayers(db.immutables)
  }

  function TableLayers(db: Db): seq<set<Entry>> {
    L0Layers(db.files, db.version.l0Files) + LevelLayers(db.files, db.version.levels)
  }

  ghost function MemContents(db: Db): set<Entry> { Union(MemLayers(db)) }

  ghost function TableContents(db: Db): set<Entry> { Union(TableLayers(db)) }

  lemma LayersSplit(db: Db)
    ensures Layers(db) == MemLayers(db) + TableLayers(db)
    ensures All(db) == MemContents(db) + TableContents(db)
  {
    UnionConcat(MemLayers(db), TableLayers(db));
    assert Layers(db) == MemLayers(db) + TableLayers(db);
  }

  /** What replay of the MANIFEST gives is the version in use, and the log it names holds the memtables. */
  ghost predicate Holds(db: Db, disk: Disk, vs: VersionState) {
    && vs.current == db.version && vs.nextFileNumber <= db.nextFileNumber && NumbersPassed(vs)
    && disk.files == db.files
    && Increasing(LogEntries(LogOf(disk, vs.logNumber)))
    && MemContents(db) == Elems(LogEntries(LogOf(disk, vs.logNumber)))
    && ReplayLast(vs.lastSequence, LogOf(disk, vs.logNumber)) == db.lastSequence
    && forall n :: n in disk.logs && n >= vs.nextFileNumber ==> disk.logs[n] == []
  }

  ghost predicate Durable(maxLevels: nat, db: Db, disk: Disk) {
    && Inv(db)
    && Replay(InitialState(maxLevels), disk.edits).Some?
    && Holds(db, disk, Replay(InitialState(maxLevels), disk.edits).value)
  }

  // ----- reopening

  lemma UnionShadows(ms: seq<set<Entry>>, t: set<Entry>)
    requires forall m :: m in ms ==> Shadows(m, t)
    ensures Shadows(Union(ms), t)
  {
    forall e, f | e in t && f in Union(ms) && f.key.userKey == e.key.userKey && f.key.sequence <= e.key.sequence
      ensures e in Union(ms)
    {
      var m :| m in ms && f in m;
      assert Shadows(m, t);
    }
  }

  /** Layers may be merged into the top one. */
  lemma MergedTop(ms: seq<set<Entry>>, ts: seq<set<Entry>>)
    requires Recency(ms + ts)
    ensures Recency([Union(ms)] + ts) && Union([Union(ms)] + ts) == Union(ms + ts)
  {
    hide Recency, Union, Shadows;
    RecencyConcat(ms, ts);
    RecencyConcat([Union(ms)], ts);
    UnionConcat(ms, ts);
    UnionTop(Union(ms), ts);
    RecencySingleton(Union(ms));
    forall t | t in ts ensures Shadows(Union(ms), t) {
      UnionShadows(ms, t);
    }
  }

  lemma NumbersWithin(vs: VersionState, files: map<nat, seq<Entry>>, next: nat)
    requires TablesOk(vs.current, files, next) && NumbersPassed(vs)
    ensures TablesOk(vs.current, files, vs.nextFileNumber) && TablesExist(vs.current, files)
  {
    var v := vs.current;
    forall n, f | InLevel(v, n, f) ensures FileOk(files, f) && f.number < vs.nextFileNumber {
    }
    assert forall f :: f in v.l0Files ==> InLevel(v, 0, f);
    forall n, f | 0 <= n < |v.levels| && f in v.levels[n] ensures f.number in files {
      assert InLevel(v, n, f);
    }
  }

  /** The layers of a store whose only memtable is the mutable one. */
  lemma OneMemtable(db: Db)
    requires db.immutables == []
    ensures Layers(db) == [Elems(db.mutable.map_)] + TableLayers(db) && MemContents(db) == Elems(db.mutable.map_)
  {
    LayersSplit(db);
    assert ImmutableLayers([]) == [];
    assert MemLayers(db) == [Elems(db.mutable.map_)];
    UnionTop(Elems(db.mutable.map_), []);
    assert Union([]) == {};
  }

  lemma SameTableLayers(db: Db, db': Db)
    requires db'.version == db.version && db'.files == db.files
    ensures TableLayers(db') == TableLayers(db) && TableContents(db') == TableContents(db)
  {
  }

  lemma SameMemLayers(db: Db, db': Db)
    requires db'.mutable == db.mutable && db'.immutables == db.immutables
    ensures MemLayers(db') == MemLayers(db) && MemContents(db') == MemContents(db)
  {
  }

  lemma AllIs(db: Db)
    ensures All(db) == Union(Layers(db))
  {
  }

  lemma MemContentsIs(db: Db)
    ensures MemContents(db) == Union(MemLayers(db)) && TableContents(db) == Union(TableLayers(db)) && MemLayers(db) != []
  {
  }

  lemma ReopenedInv(db: Db, db': Db, vs: VersionState)
    requires Inv(db) && NumbersPassed(vs) && vs.current == db.version
    requires MemOk(db'.mutable) && Elems(db'.mutable.map_) == MemContents(db) && db'.immutables == []
    requires db'.version == db.version && db'.files == db.files && db'.lastSequence == db.lastSequence
    requires db'.nextFileNumber == vs.nextFileNumber && db'.live == multiset{}
    ensures Inv(db') && All(db') == All(db) && MemContents(db') == MemContents(db)
  {
    hide *;
    UnpackInv(db);
    LayersSplit(db);
    MergedTop(MemLayers(db), TableLayers(db));
    OneMemtable(db');
    SameTableLayers(db, db');
    AllIs(db);
    AllIs(db');
    MemContentsIs(db);
    NumbersWithin(vs, db.files, db.nextFileNumber);
    PackReopened(db');
  }

  lemma PackReopened(db: Db)
    requires MemOk(db.mutable) && db.immutables == [] && db.live == multiset{}
    requires TablesOk(db.version, db.files, db.nextFileNumber) && Recency(Layers(db))
    requires Functional(All(db)) && Bounded(All(db), db.lastSequence)
    ensures Inv(db)
  {
    hide TablesOk, Recency, Layers, All, MemOk, Functional, Bounded;
  }

  /**
   Reopening is the identity on what can be read: the store rebuilt from disk holds the same versions and the
   same last sequence, and is again a store the disk is enough for.
   */
  lemma ReopenIsIdentity(maxLevels: nat, db: Db, disk: Disk)
    requires Durable(maxLevels, db, disk)
    ensures OpenDb(maxLevels, disk).Some?
    ensures var db' := OpenDb(maxLevels, disk).value;
            && Durable(maxLevels, db', disk)
            && All(db') == All(db) && db'.lastSequence == db.lastSequence
  {
    hide Inv, Replay, ReplayMemtable, ReplayLast, LogEntries, All, MemContents, Increasing, NumbersPassed, TablesExist, InitialState;
    var vs := Replay(InitialState(maxLevels), disk.edits).value;
    var wal := LogOf(disk, vs.logNumber);
    ReplayContents(wal);
    assert TablesOk(db.version, db.files, db.nextFileNumber) by { UnpackInv(db); }
    NumbersWithin(vs, db.files, db.nextFileNumber);
    ReopenedInv(db, OpenDb(maxLevels, disk).value, vs);
  }

  /** So every read at every sequence answers the same, layer by layer and as a scan. */
  lemma ReopenKeepsReads(maxLevels: nat, db: Db, disk: Disk, r: nat)
    requires Durable(maxLevels, db, disk)
    ensures OpenDb(maxLevels, disk).Some?
    ensures var db' := OpenDb(maxLevels, disk).value;
            && View(All(db'), r) == View(All(db), r)
            && forall k :: FirstHitValue(db', k, r) == FirstHitValue(db, k, r)
  {
    hide OpenDb, All, View, Holds, Get;
    ReopenIsIdentity(maxLevels, db, disk);
    var db' := OpenDb(maxLevels, disk).value;
    assert Inv(db') && Inv(db);
    hide Inv;
    forall k ensures FirstHitValue(db', k, r) == FirstHitValue(db, k, r) {
      LayeredReadCorrect(db', k, r);
      LayeredReadCorrect(db, k, r);
    }
  }

  lemma NewIsDurable(maxLevels: nat)
    requires maxLevels >= 2
    ensures Durable(maxLevels, InitDb(maxLevels), Disk(InitialEdits, map[], map[1 := []]))
  {
    var db, disk := InitDb(maxLevels), Disk(InitialEdits, map[], map[1 := []]);
    InitInv(maxLevels);
    InitialReplay(maxLevels);
    InitialPasses(maxLevels);
    hide Inv, Replay, NumbersPassed;
    OneMemtable(db);
    assert Elems([]) == {};
  }

  // ----- writing

  /** The number of the log that writes go to. */
  function LogNumberOf(maxLevels: nat, disk: Disk): nat {
    match Replay(InitialState(maxLevels), disk.edits)
    case Some(vs) => vs.logNumber
    case None => 1
  }

  function Appended(disk: Disk, log: nat, l: Logged): Disk {
    disk.(logs := disk.logs[log := LogOf(disk, log) + [l]])
  }

  lemma LogEntriesSnoc(wal: seq<Logged>, l: Logged)
    ensures LogEntries(wal + [l]) == LogEntries(wal) + BatchEntries(l.start, l.batch)
    ensures forall last :: ReplayLast(last, wal + [l]) == LastOf(ReplayLast(last, wal), l)
  {
    hide BatchEntries;
    assert (wal + [l])[..|wal|] == wal;
  }

  lemma IncreasingConcat(a: seq<Entry>, b: seq<Entry>)
    requires Increasing(a) && Increasing(b) && forall x, y :: x in a && y in b ==> x.key.sequence < y.key.sequence
    ensures Increasing(a + b)
  {
    var c := a + b;
    forall i, j | 0 <= i < j < |c| ensures c[i].key.sequence < c[j].key.sequence {
      if i < |a| && |a| <= j {
        assert c[i] in a && c[j] in b;
      } else if |a| <= i {
        assert b[i - |a|].key.sequence < b[j - |a|].key.sequence;
      }
    }
  }

  lemma WriteContents(db: Db, batch: seq<BatchRecord>)
    requires Inv(db)
    ensures MemContents(ApplyBatch(db, batch)) == MemContents(db) + Elems(BatchEntries(db.lastSequence + 1, batch))
    ensures Bounded(MemContents(db), db.lastSequence)
  {
    hide InsertAll, BatchEntries, MemOk, Functional, Recency, TablesOk, Union;
    LayersSplit(db);
    var top, rest := Elems(db.mutable.map_), ImmutableLayers(db.immutables);
    UnionTop(top, rest);
    WriteMutable(db, batch);
    UnionTop(Elems(ApplyBatch(db, batch).mutable.map_), rest);
  }

  lemma IncreasingWrite(before: seq<Entry>, last: nat, batch: seq<BatchRecord>)
    requires Increasing(before) && Bounded(Elems(before), last)
    ensures Increasing(before + BatchEntries(last + 1, batch))
  {
    var es := BatchEntries(last + 1, batch);
    assert Increasing(es);
    BatchEntriesFresh(last + 1, batch);
    hide BatchEntries, Increasing;
    assert forall x :: x in before ==> x in Elems(before);
    IncreasingConcat(before, es);
  }

  /** A logged write: the disk stays enough. */
  lemma WriteKeepsDurable(maxLevels: nat, db: Db, disk: Disk, batch: seq<BatchRecord>)
    requires Durable(maxLevels, db, disk)
    ensures Durable(maxLevels, ApplyBatch(db, batch), Appended(disk, LogNumberOf(maxLevels, disk), Logged(db.lastSequence + 1, batch)))
  {
    hide Inv, Replay, MemContents, Increasing, LogEntries, ReplayLast, InsertAll, BatchEntries, Elems, InitialState;
    var vs := Replay(InitialState(maxLevels), disk.edits).value;
    var wal, l := LogOf(disk, vs.logNumber), Logged(db.lastSequence + 1, batch);
    WriteKeepsInv(db, batch);
    WriteContents(db, batch);
    LogEntriesSnoc(wal, l);
    var es := BatchEntries(l.start, batch);
    IncreasingWrite(LogEntries(wal), db.lastSequence, batch);
    ElemsAdd(LogEntries(wal), es);
  }

  // ----- freezing and snapshots

  lemma FreezeKeepsDurable(maxLevels: nat, db: Db, disk: Disk)
    requires Durable(maxLevels, db, disk) && db.mutable.map_ != []
    ensures Durable(maxLevels, FreezeMutable(db), disk)
  {
    hide Inv, Replay, NumbersPassed, Increasing, LogEntries, InitialState, Union;
    FreezeKeepsInv(db);
    var db' := FreezeMutable(db);
    assert Elems([]) == {};
    assert ImmutableLayers(db'.immutables) == [Elems(db.mutable.map_)] + ImmutableLayers(db.immutables);
    assert MemLayers(db') == [{}] + MemLayers(db);
    EmptyTop(MemLayers(db));
  }

  lemma SnapshotsKeepDurable(maxLevels: nat, db: Db, disk: Disk, live: multiset<nat>)
    requires Durable(maxLevels, db, disk) && forall s :: s in live ==> s in db.live || s == db.lastSequence
    ensures Durable(maxLevels, db.(live := live), disk)
  {
    hide Inv, Replay, NumbersPassed, Increasing, LogEntries, InitialState, Union;
    SnapshotKeepsInv(db, live);
    assert MemLayers(db.(live := live)) == MemLayers(db);
  }
}
