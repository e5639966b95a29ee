/**
 Rotating the log (src/db.rs:740-747): the log before the rotation is no longer replayed, though memtables other
 than the flushed one may depend on it.  As long as no crash came within a flush, a flush keeps every version
 across reopening exactly when the other memtables are empty.
 */
module RecoveryRotation {
  import opened Keys
  import opened Visibility
  import LayerCompaction
  import opened Executor
  import opened Splitter
  import opened MemTables
  import opened Versions
  import opened Picker
  import opened Lsm
  import opened LsmWrites
  import opened LsmCompaction
  import opened LsmRewrite
  import opened LsmSafety
  import opened BoundedCompaction
  import opened Manifest
  import opened Recovery
  import opened RecoveryFlush
  import opened RecoveryRuns
  import opened Databases

  /** No version is in two memtables, or in a memtable and a table. */
  ghost predicate Separate(db: Db) {
    && (forall i, j :: 0 <= i < j < |MemLayers(db)| ==> MemLayers(db)[i] !! MemLayers(db)[j])
    && MemContents(db) !! TableContents(db)
  }

  /** A memtable with entries other than the one to be flushed. */
  lemma OtherMemtable(db: Db) returns (i: nat, e: Entry)
    requires Inv(db) && Flushable(db).map_ != [] && !OthersEmpty(db)
    ensures i < |MemLayers(db)| - 1 && e in MemLayers(db)[i]
  {
    hide TablesOk, Recency, Functional;
    var n := |db.immutables|;
    if db.mutable.map_ != [] {
      i, e := 0, db.mutable.map_[0];
    } else {
      assert db.immutables[n - 1] in db.immutables;
      i, e := 1, db.immutables[n - 1].map_[0];
      assert MemLayers(db)[1] == Elems(db.immutables[n - 1].map_);
    }
  }

  /** What a flush does to memtables and tables. */
  lemma FlushMoves(db: Db, size: nat)
    requires Inv(db) && Flushable(db).map_ != []
    ensures var db', n := FlushMemtable(db, size), |MemLayers(db)| - 1;
            && MemLayers(db') == (if db.immutables == [] then [{}] else MemLayers(db)[..n])
            && TableLayers(db') == [MemLayers(db)[n]] + TableLayers(db)
  {
    hide *;
    FlushMovesTables(db, size);
    FlushMovesMemtables(db, size);
    LowestMemtable(db);
    MemContentsIs(db);
  }

  lemma FlushMovesTables(db: Db, size: nat)
    requires Inv(db) && Flushable(db).map_ != []
    ensures TableLayers(FlushMemtable(db, size)) == [Elems(Flushable(db).map_)] + TableLayers(db)
  {
    hide Recency, Functional, All, MemOk;
    var db', s := FlushMemtable(db, size), Flushable(db).map_;
    NewNumberSameTables(db.version, db.files, db.nextFileNumber, s);
    SameVersionContents(db.version, db.files, db'.files);
    hide TablesOk, LevelLayers, Elems, MetaOf;
    assert L0Layers(db'.files, db'.version.l0Files) == [Elems(s)] + L0Layers(db'.files, db.version.l0Files);
  }

  lemma FlushMovesMemtables(db: Db, size: nat)
    requires Flushable(db).map_ != []
    ensures |MemLayers(db)| > 0
    ensures MemLayers(FlushMemtable(db, size)) == (if db.immutables == [] then [{}] else MemLayers(db)[..|MemLayers(db)| - 1])
  {
    hide FlushedMeta;
    var db' := FlushMemtable(db, size);
    assert Elems([]) == {};
    assert ImmutableLayers([]) == [];
    if db.immutables != [] {
      assert ImmutableLayers(db.immutables) == ImmutableLayers(db'.immutables) + [Elems(db.immutables[0].map_)];
    }
  }

  /** In such a state, reopening after a flush keeps every version if and only if no other memtable holds entries. */
  lemma RotationKeepsIff(maxLevels: nat, db: Db, disk: Disk, size: nat)
    requires Durable(maxLevels, db, disk) && Separate(db) && Flushable(db).map_ != []
    ensures OpenDb(maxLevels, FlushDisk(db, disk, size, 4)).Some?
    ensures All(OpenDb(maxLevels, FlushDisk(db, disk, size, 4)).value) == All(FlushMemtable(db, size)) <==> OthersEmpty(db)
  {
    hide Inv, Replay, Holds, All, OpenDb, FlushDisk, FlushMemtable, OthersEmpty, Union, MemLayers, TableLayers;
    RotationKeepsExactly(maxLevels, db, disk, size);
    var flushed := FlushMemtable(db, size);
    if OthersEmpty(db) {
      FlushedMemtables(db, size);
    } else {
      var i, e := OtherMemtable(db);
      FlushMoves(db, size);
      LeftBehind(db, flushed, i, e);
    }
  }

  lemma LeftBehind(db: Db, flushed: Db, i: nat, e: Entry)
    requires Separate(db) && i < |MemLayers(db)| - 1 && e in MemLayers(db)[i]
    requires MemLayers(flushed) == (if db.immutables == [] then [{}] else MemLayers(db)[..|MemLayers(db)| - 1])
    requires TableLayers(flushed) == [MemLayers(db)[|MemLayers(db)| - 1]] + TableLayers(db)
    ensures e in MemContents(flushed) && e !in TableContents(flushed)
  {
    var ms := MemLayers(db);
    var n := |ms| - 1;
    assert |ImmutableLayers(db.immutables)| == |db.immutables| == n;
    hide MemLayers, TableLayers;
    assert MemLayers(flushed)[i] == ms[i];
    LayerCompaction.InUnion(ms, i, e);
    LayerCompaction.InUnion(MemLayers(flushed), i, e);
    UnionTop(ms[n], TableLayers(db));
  }

  // ----- every event but a crash within a flush keeps versions apart

  ghost predicate PairwiseApart(ls: seq<set<Entry>>) {
    forall i, j :: 0 <= i < j < |ls| ==> ls[i] !! ls[j]
  }

  lemma EmptyFirst(ls: seq<set<Entry>>)
    requires PairwiseApart(ls)
    ensures PairwiseApart([{}] + ls)
  {
  }

  lemma WriteSeparate(db: Db, batch: seq<BatchRecord>)
    requires Inv(db) && Separate(db)
    ensures Separate(ApplyBatch(db, batch))
  {
    hide InsertAll, BatchEntries, Functional, Recency, TablesOk, MemOk, Union;
    var db' := ApplyBatch(db, batch);
    var es := Elems(BatchEntries(db.lastSequence + 1, batch));
    BatchEntriesFresh(db.lastSequence + 1, batch);
    assert forall e: Entry :: e in es ==> e.key.sequence > db.lastSequence;
    WriteContents(db, batch);
    LayersSplit(db);
    LayersSplit(db');
    UnionTop(Elems(db.mutable.map_), ImmutableLayers(db.immutables));
    WriteMutable(db, batch);
    var ms, ms' := MemLayers(db), MemLayers(db');
    assert ms'[0] == ms[0] + es;
    assert TableContents(db') == TableContents(db) by { assert TableLayers(db') == TableLayers(db); }
    forall i, j | 0 <= i < j < |ms'| ensures ms'[i] !! ms'[j] {
      assert ms[i] !! ms[j] && ms'[j] == ms[j];
      forall e: Entry | e in ms[j] ensures e.key.sequence <= db.lastSequence { LayerCompaction.InUnion(ms, j, e); }
    }
  }

  lemma FreezeSeparate(db: Db)
    requires Separate(db)
    ensures Separate(FreezeMutable(db))
  {
    hide Union;
    var db' := FreezeMutable(db);
    assert Elems([]) == {};
    assert ImmutableLayers(db'.immutables) == [Elems(db.mutable.map_)] + ImmutableLayers(db.immutables);
    assert MemLayers(db') == [{}] + MemLayers(db);
    EmptyTop(MemLayers(db));
    assert PairwiseApart(MemLayers(db));
    EmptyFirst(MemLayers(db));
    assert TableLayers(db') == TableLayers(db);
  }

  lemma OneEmptyLayer()
    ensures Union([{}]) == {}
  {
  }

  lemma FlushSeparate(db: Db, size: nat)
    requires Inv(db) && Separate(db) && Flushable(db).map_ != []
    ensures Separate(FlushMemtable(db, size))
  {
    hide Inv, FlushMemtable, MemLayers, TableLayers, Union, All;
    FlushMoves(db, size);
    var ms, db' := MemLayers(db), FlushMemtable(db, size);
    MemContentsIs(db);
    var n := |ms| - 1;
    UnionTop(ms[n], TableLayers(db));
    if db.immutables == [] {
      OneEmptyLayer();
    } else {
      forall e | e in MemContents(db') ensures e in Union(ms) && e !in ms[n] {
        var i := LayerCompaction.MovedLayer(ms[..n], e);
        LayerCompaction.InUnion(ms, i, e);
      }
    }
  }

  /** The store with its tables only. */
  function TablesOnly(db: Db): Db {
    db.(mutable := EMPTY_MEMTABLE, immutables := [])
  }

  lemma TablesOnlyInv(db: Db)
    requires Inv(db)
    ensures Inv(TablesOnly(db)) && All(TablesOnly(db)) == TableContents(db)
  {
    var t := TablesOnly(db);
    assert t.immutables == [] && Elems(t.mutable.map_) == {};
    assert t.version == db.version && t.files == db.files;
    hide *;
    UnpackInv(db);
    LayersSplit(db);
    LayersSplit(t);
    OneMemtable(t);
    SameTableLayers(db, t);
    RecencyConcat(MemLayers(db), TableLayers(db));
    EmptyTop(TableLayers(db));
    FunctionalSubset(All(db), All(t));
    TablesOnlyPack(db, t);
  }

  lemma TablesOnlyPack(db: Db, t: Db)
    requires Inv(db) && t == TablesOnly(db) && All(t) <= All(db) && Functional(All(t)) && Recency(Layers(t))
    ensures Inv(t)
  {
    hide TablesOk, Functional, Recency, Layers, All;
    assert TablesOk(t.version, t.files, t.nextFileNumber);
  }

  /** Compaction takes nothing from memtables: it acts as on the tables alone. */
  lemma CompactionSeparate(opts: Options, db: Db, task: CompactionTask, numbers: seq<nat>, sizes: seq<nat>)
    requires Inv(db) && Separate(db) && Enabled(opts, db, Compact(task, numbers, sizes))
    ensures Separate(Do(opts, db, Compact(task, numbers, sizes)))
  {
    hide Inv, All, Picked, Union, TableLayers, MemLayers, Split, Compacted;
    var t := TablesOnly(db);
    TablesOnlyInv(db);
    SameWatermark(db, t);
    PickedNonEmpty(db.version, task);
    assert Enabled(opts, t, Compact(task, numbers, sizes)) by { SameTask(opts, db, t, task, GcWatermark(db), numbers, sizes); }
    CompactionKeeps(opts, t, task, numbers, sizes);
    var db', t' := Do(opts, db, Compact(task, numbers, sizes)), Do(opts, t, Compact(task, numbers, sizes));
    assert db'.version == t'.version && db'.files == t'.files && db'.mutable == db.mutable && db'.immutables == db.immutables
           && t'.immutables == [] && t'.mutable == EMPTY_MEMTABLE by {
      SameTask(opts, db, t, task, GcWatermark(db), numbers, sizes);
    }
    LayersSplit(t');
    SameTableLayers(t', db');
    SameMemLayers(db, db');
  }

  lemma SameWatermark(db: Db, t: Db)
    requires Inv(db) && t.live == db.live && t.lastSequence == db.lastSequence
    ensures GcWatermark(t) == GcWatermark(db)
  {
    hide Inv;
    if db.live != multiset{} {
      assert IsOldest(db.live, GcWatermark(db)) && IsOldest(db.live, GcWatermark(t));
    }
  }

  lemma SameTask(opts: Options, db: Db, t: Db, task: CompactionTask, w: nat, numbers: seq<nat>, sizes: seq<nat>)
    requires t == TablesOnly(db) && task.inputFiles != []
    requires !MovesTrivially(db, task, w) ==> |numbers| == |Chunks(opts, db, task, w)| && |sizes| == |numbers|
    ensures L0Closed(t, task) == L0Closed(db, task)
    ensures CompactionOutput(t, task, w) == CompactionOutput(db, task, w)
    ensures FreshNumbers(t, numbers) == FreshNumbers(db, numbers)
    ensures MovesTrivially(t, task, w) == MovesTrivially(db, task, w)
    ensures Chunks(opts, t, task, w) == Chunks(opts, db, task, w)
    ensures ExecuteCompaction(opts, t, task, w, numbers, sizes) == TablesOnly(ExecuteCompaction(opts, db, task, w, numbers, sizes))
  {
    hide Split, Compacted, Gather, Applied, OutputFiles;
  }

  lemma ReopenSeparate(maxLevels: nat, db: Db, disk: Disk)
    requires Durable(maxLevels, db, disk) && Separate(db)
    ensures OpenDb(maxLevels, disk).Some? && Separate(OpenDb(maxLevels, disk).value)
  {
    hide Inv, Replay, All, MemContents, TableContents, InitialState, LogEntries, ReplayMemtable;
    ReopenIsIdentity(maxLevels, db, disk);
    var db' := OpenDb(maxLevels, disk).value;
    assert |MemLayers(db')| == 1;
    SameTableLayers(db, db');
    var vs := Replay(InitialState(maxLevels), disk.edits).value;
    assert MemContents(db') == MemContents(db);
  }

  lemma SnapshotsSeparate(db: Db, live: multiset<nat>)
    requires Separate(db)
    ensures Separate(db.(live := live))
  {
    hide Union;
    assert MemLayers(db.(live := live)) == MemLayers(db) && TableLayers(db.(live := live)) == TableLayers(db);
  }

  lemma BurnedSeparate(db: Db)
    requires Separate(db)
    ensures Separate(Burned(db))
  {
    SameMemLayers(db, Burned(db));
    SameTableLayers(db, Burned(db));
  }

  lemma EventSeparate(maxLevels: nat, opts: Options, world: World, event: Event)
    requires Durable(maxLevels, world.db, world.disk) && Separate(world.db)
    requires Allowed(opts, world, event) && !event.CrashWithinFlush?
    ensures Separate(After(maxLevels, opts, world, event).db)
  {
    hide Holds, Inv, Separate, OpenDb, FlushMemtable, FreezeMutable, ApplyBatch, ExecuteCompaction, DiskAfter, Picked, L0Closed, SplitSafe,
         MovesTrivially, Chunks, GcWatermark, FreshNumbers, CompactionOutput, OthersEmpty, Replay;
    var db := world.db;
    match event
    case Reopen => ReopenSeparate(maxLevels, db, world.disk);
    case Plain(step) =>
      match step {
        case Write(batch) => WriteSeparate(db, batch);
        case Freeze => FreezeSeparate(db);
        case Flush(size) =>
          if FlushFails(db) {
            BurnedSeparate(db);
          } else if Flushable(db).map_ != [] {
            FlushSeparate(db, size);
          } else {
            NothingToFlush(db, size);
          }
        case Compact(task, numbers, sizes) => CompactionSeparate(opts, db, task, numbers, sizes);
        case TakeSnapshot => SnapshotsSeparate(db, db.live + multiset{db.lastSequence});
        case CloneSnapshot(s) => SnapshotsSeparate(db, db.live + multiset{s});
        case ReleaseSnapshot(s) => SnapshotsSeparate(db, db.live - multiset{s});
      }
  }

  // ----- no orphans

  /** Every table file is below the next number that recovery would give. */
  ghost predicate Tidy(maxLevels: nat, db: Db, disk: Disk) {
    var r := Replay(InitialState(maxLevels), disk.edits);
    r.Some? && forall n :: n in db.files ==> n < r.value.nextFileNumber
  }

  /** So the next flush finds its number free. */
  lemma TidyFlushes(maxLevels: nat, db: Db, disk: Disk)
    requires Durable(maxLevels, db, disk) && Tidy(maxLevels, db, disk)
    ensures !FlushFails(db)
  {
    hide Inv, Replay, NumbersPassed, MemContents, LogEntries, ReplayLast, Increasing;
  }

  lemma FlushTidy(maxLevels: nat, db: Db, disk: Disk, size: nat)
    requires Durable(maxLevels, db, disk) && Tidy(maxLevels, db, disk) && Flushable(db).map_ != []
    ensures Tidy(maxLevels, FlushMemtable(db, size), FlushDisk(db, disk, size, 4))
  {
    hide Inv, Replay, NumbersPassed, MemContents, LogEntries, ReplayLast, Increasing, InitialState, FlushedMeta;
    var vs := Replay(InitialState(maxLevels), disk.edits).value;
    StageReplay(maxLevels, db, disk, size, 4, vs);
  }

  /** A compaction writes only files that its edits name. */
  lemma CompactionTidy(maxLevels: nat, opts: Options, db: Db, disk: Disk, task: CompactionTask, numbers: seq<nat>, sizes: seq<nat>)
    requires Durable(maxLevels, db, disk) && Tidy(maxLevels, db, disk) && Enabled(opts, db, Compact(task, numbers, sizes))
    ensures task.inputFiles != []
    ensures forall i :: 0 <= i < |Chunks(opts, db, task, GcWatermark(db))| ==> Chunks(opts, db, task, GcWatermark(db))[i] != []
    ensures var db' := Do(opts, db, Compact(task, numbers, sizes));
            Tidy(maxLevels, db', CompactedDisk(disk, CompactionEdits(opts, db, task, GcWatermark(db), numbers, sizes), db'))
  {
    CompactIsExecute(opts, db, task, numbers, sizes);
    hide *;
    var w := GcWatermark(db);
    var db' := ExecuteCompaction(opts, db, task, w, numbers, sizes);
    DurableInv(maxLevels, db, disk);
    ChunksFilled(opts, db, task, w);
    var edits := CompactionKeepsDurable(maxLevels, opts, db, disk, task, numbers, sizes);
    CompactedEdits(disk, edits, db');
    ReplayGrows(maxLevels, disk, edits, db', db);
    forall n | n in db'.files ensures n in db.files || exists level, f :: InLevel(db'.version, level, f) && f.number == n {
      OutputFilesListed(opts, db, task, numbers, sizes, n);
    }
    AllBelow(maxLevels, db, db', disk, CompactedDisk(disk, edits, db'));
  }

  lemma CompactedEdits(disk: Disk, edits: seq<VersionEdit>, db': Db)
    ensures CompactedDisk(disk, edits, db').edits == disk.edits + edits
  {
  }

  lemma ReplayGrows(maxLevels: nat, disk: Disk, edits: seq<VersionEdit>, db': Db, db: Db)
    requires Tidy(maxLevels, db, disk) && Durable(maxLevels, db', CompactedDisk(disk, edits, db'))
    ensures Replay(InitialState(maxLevels), disk.edits).Some? && Replay(InitialState(maxLevels), disk.edits + edits).Some?
    ensures Replay(InitialState(maxLevels), disk.edits).value.nextFileNumber <= Replay(InitialState(maxLevels), disk.edits + edits).value.nextFileNumber
  {
    hide Replay, Holds, Inv, InitialState;
    ReplayAppend(InitialState(maxLevels), disk.edits, edits);
    NextNeverShrinks(Replay(InitialState(maxLevels), disk.edits).value, edits);
  }

  lemma {:induction false} NextNeverShrinks(vs: VersionState, edits: seq<VersionEdit>)
    requires Replay(vs, edits).Some?
    ensures vs.nextFileNumber <= Replay(vs, edits).value.nextFileNumber
    decreases |edits|
  {
    hide ApplyEdit, EditOk;
    if edits != [] {
      NextGrows(vs, edits[0]);
      NextNeverShrinks(ApplyEdit(vs, edits[0]), edits[1..]);
    }
  }

  lemma OutputFilesListed(opts: Options, db: Db, task: CompactionTask, numbers: seq<nat>, sizes: seq<nat>, n: nat)
    requires Inv(db) && Compactable(opts, db, task, numbers, sizes) && task.inputFiles != []
    requires !MovesTrivially(db, task, GcWatermark(db)) ==>
               |numbers| == |Chunks(opts, db, task, GcWatermark(db))| && |sizes| == |numbers|
    requires n in ExecuteCompaction(opts, db, task, GcWatermark(db), numbers, sizes).files
    ensures n in db.files ||
            exists level, f :: InLevel(ExecuteCompaction(opts, db, task, GcWatermark(db), numbers, sizes).version, level, f) && f.number == n
  {
    hide *;
    var w := GcWatermark(db);
    CompactableShape(opts, db, task, numbers, sizes);
    UnpackInv(db);
    UniqueOf(db);
    LevelsOf(db.version, task);
    if MovesTrivially(db, task, w) {
      MoveState(opts, db, task, w, numbers, sizes);
    } else {
      FreshOf(opts, db, task, numbers, sizes);
      var metas := RewriteState(opts, db, task, w, numbers, sizes);
      var chunks := Chunks(opts, db, task, w);
      OutputFilesAt(chunks, numbers);
      MetaNumbersAre(chunks, numbers, sizes);
      if n in numbers {
        var i :| 0 <= i < |numbers| && numbers[i] == n;
        NewVersionLevels(db.version, task, metas, task.outputLevel, metas[i]);
        assert metas[i] in metas && metas[i].number == n;
      }
    }
  }

  lemma FreshOf(opts: Options, db: Db, task: CompactionTask, numbers: seq<nat>, sizes: seq<nat>)
    requires Compactable(opts, db, task, numbers, sizes)
    ensures forall i, j :: 0 <= i < j < |numbers| ==> numbers[i] != numbers[j]
  {
    hide Picked, MovesTrivially, Chunks, GcWatermark, CompactionOutput, SplitSafe;
  }

  lemma AllBelow(maxLevels: nat, db: Db, db': Db, disk: Disk, disk': Disk)
    requires Tidy(maxLevels, db, disk) && Durable(maxLevels, db', disk')
    requires Replay(InitialState(maxLevels), disk.edits).Some? && Replay(InitialState(maxLevels), disk'.edits).Some?
    requires Replay(InitialState(maxLevels), disk.edits).value.nextFileNumber <= Replay(InitialState(maxLevels), disk'.edits).value.nextFileNumber
    requires forall n :: n in db'.files ==> n in db.files || exists level, f :: InLevel(db'.version, level, f) && f.number == n
    ensures Tidy(maxLevels, db', disk')
  {
    hide Inv, Replay, MemContents, LogEntries, ReplayLast, Increasing, InitialState;
  }

  lemma ReopenTidy(maxLevels: nat, db: Db, disk: Disk)
    requires Durable(maxLevels, db, disk) && Tidy(maxLevels, db, disk)
    ensures OpenDb(maxLevels, disk).Some? && Tidy(maxLevels, OpenDb(maxLevels, disk).value, disk)
  {
    ReopenIsIdentity(maxLevels, db, disk);
    hide Inv, Replay, InitialState, MemContents, LogEntries, ReplayMemtable, ReplayLast, Increasing, NumbersPassed, All, TablesExist;
  }

  lemma EventTidy(maxLevels: nat, opts: Options, world: World, event: Event)
    requires Durable(maxLevels, world.db, world.disk) && Tidy(maxLevels, world.db, world.disk)
    requires Allowed(opts, world, event) && !event.CrashWithinFlush?
    ensures Tidy(maxLevels, After(maxLevels, opts, world, event).db, After(maxLevels, opts, world, event).disk)
  {
    hide Holds, Inv, FlushMemtable, ExecuteCompaction, Picked, L0Closed, SplitSafe, MovesTrivially, Chunks, GcWatermark, FreshNumbers,
         CompactionOutput, OthersEmpty, Replay, InitialState, InsertAll, BatchEntries, ReplayMemtable, ReplayLast, CompactionEdits, FlushDisk,
         CompactedDisk, Compactable;
    var db := world.db;
    match event
    case Reopen => ReopenTidy(maxLevels, db, world.disk);
    case Plain(step) =>
      match step {
        case Flush(size) =>
          if FlushFails(db) {
          } else if Flushable(db).map_ != [] {
            FlushTidy(maxLevels, db, world.disk, size);
          } else {
            NothingToFlush(db, size);
          }
        case Compact(task, numbers, sizes) => CompactionTidy(maxLevels, opts, db, world.disk, task, numbers, sizes);
        case _ =>
      }
  }

  lemma StartTidy(maxLevels: nat)
    ensures Tidy(maxLevels, InitDb(maxLevels), Disk(InitialEdits, map[], map[1 := []]))
  {
    InitialReplay(maxLevels);
    hide Replay;
  }

  /** Without a crash within a flush there are never orphans. */
  lemma {:induction false} HistoryTidy(maxLevels: nat, opts: Options, worlds: seq<World>, events: seq<Event>, i: nat)
    requires maxLevels >= 2 && IsHistory(maxLevels, opts, worlds, events) && i <= |events|
    requires forall j :: 0 <= j < i ==> !events[j].CrashWithinFlush?
    ensures Durable(maxLevels, worlds[i].db, worlds[i].disk) && Tidy(maxLevels, worlds[i].db, worlds[i].disk)
  {
    hide Durable, Tidy, After, Allowed;
    StoreIsFold(maxLevels, opts, worlds, events, i);
    if i == 0 {
      StartTidy(maxLevels);
    } else {
      HistoryTidy(maxLevels, opts, worlds, events, i - 1);
      EventTidy(maxLevels, opts, worlds[i - 1], events[i - 1]);
    }
  }

  lemma {:induction false} HistorySeparate(maxLevels: nat, opts: Options, worlds: seq<World>, events: seq<Event>, i: nat)
    requires maxLevels >= 2 && IsHistory(maxLevels, opts, worlds, events) && i <= |events|
    requires forall j :: 0 <= j < i ==> !events[j].CrashWithinFlush?
    ensures Durable(maxLevels, worlds[i].db, worlds[i].disk) && Separate(worlds[i].db)
  {
    hide Durable, Separate, After, Allowed;
    StoreIsFold(maxLevels, opts, worlds, events, i);
    if i == 0 {
      NothingShared(maxLevels);
    } else {
      HistorySeparate(maxLevels, opts, worlds, events, i - 1);
      EventSeparate(maxLevels, opts, worlds[i - 1], events[i - 1]);
    }
  }

  lemma NothingShared(maxLevels: nat)
    requires maxLevels >= 2
    ensures Separate(InitDb(maxLevels))
  {
    var db := InitDb(maxLevels);
    InitInv(maxLevels);
    LayersSplit(db);
    OneMemtable(db);
    assert |MemLayers(db)| == 1;
  }

  /**
   After any run without a crash within a flush, a flush goes through, and reopening then keeps every version if
   and only if the flushed memtable was the only one with entries.
   */
  lemma FlushSafeIff(maxLevels: nat, opts: Options, worlds: seq<World>, events: seq<Event>, size: nat)
    requires maxLevels >= 2 && IsHistory(maxLevels, opts, worlds, events)
    requires forall j :: 0 <= j < |events| ==> !events[j].CrashWithinFlush?
    requires Flushable(worlds[|events|].db).map_ != []
    ensures !FlushFails(worlds[|events|].db)
    ensures var db, disk := worlds[|events|].db, worlds[|events|].disk;
            var reopened := OpenDb(maxLevels, FlushDisk(db, disk, size, 4));
            && reopened.Some?
            && (All(reopened.value) == All(FlushMemtable(db, size)) <==> OthersEmpty(db))
  {
    hide Durable, Separate, After, Allowed, OpenDb, FlushDisk, All, FlushMemtable, OthersEmpty, Tidy, FlushFails;
    HistoryTidy(maxLevels, opts, worlds, events, |events|);
    TidyFlushes(maxLevels, worlds[|events|].db, worlds[|events|].disk);
    HistorySeparate(maxLevels, opts, worlds, events, |events|);
    RotationKeepsIff(maxLevels, worlds[|events|].db, worlds[|events|].disk, size);
  }

  lemma WrittenNonEmpty(m: MemTable, start: nat, batch: seq<BatchRecord>)
    requires m.map_ == [] && batch != []
    ensures InsertAll(m, BatchEntries(start, batch)).map_ != []
  {
    assert StrictlySorted(m.map_);
    hide InsertAll, StrictlySorted;
    var es := BatchEntries(start, batch);
    BatchEntriesFresh(start, batch);
    InsertAllElems(m, es);
    assert es[0] in Elems(es);
  }

  /**
   One write group can do this by itself: when its first batch fills the memtable, the rest of the group goes
   into another one, and the flush at its end takes only the first.
   */
  lemma GroupLeavesTwo(opts: Options, db: Db, a: seq<BatchRecord>, b: seq<BatchRecord>)
    requires Full(opts, ApplyBatch(db, a).mutable) && b != []
    ensures !OthersEmpty(GroupApplied(opts, db, [a, b]))
  {
    hide InsertAll, BatchEntries;
    var first := AppliedAndFrozen(opts, db, a);
    assert [a, b][1..] == [b] && [b][1..] == [];
    WrittenNonEmpty(first.mutable, first.lastSequence + 1, b);
    assert GroupApplied(opts, db, [a, b]) == GroupApplied(opts, first, [b]);
    assert GroupApplied(opts, first, [b]) == AppliedAndFrozen(opts, first, b);
  }
}
