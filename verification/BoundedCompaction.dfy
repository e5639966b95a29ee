/**
 Compactions that leave level-0 files behind (src/compact/picker.rs:86-102, src/db.rs:854-962).  A bounded range
 may select a newer level-0 file and not an older one that shares a key with it.
 */
module BoundedCompaction {
  import opened Keys
  import opened Visibility
  import opened LayerCompaction
  import opened LayerExactness
  import opened Versions
  import opened Picker
  import opened Lsm
  import opened LsmCompaction
  import opened LsmSteps
  import opened LsmSafety

  // ----- when a compaction keeps every read

  /** What a read meets above the output level once the input files are gone. */
  ghost function StaysAbove(db: Db, task: CompactionTask): set<Entry>
    requires |Moved(db, task)| == |Layers(db)| && LevelIndex(db, task.outputLevel) < |Layers(db)|
  {
    Union(Staying(Layers(db), Moved(db, task), LevelIndex(db, task.outputLevel)))
  }

  /**
   No file left above the output level is stale: wherever the newest version it would answer is older than the
   newest one in the input files, the two read alike.
   */
  ghost predicate Harmless(db: Db, task: CompactionTask, w: nat)
    requires |Moved(db, task)| == |Layers(db)| && LevelIndex(db, task.outputLevel) < |Layers(db)|
  {
    Unharmed(StaysAbove(db, task), LevelSet(db.files, task.AllInputFiles()), w)
  }

  lemma LayersCount(db: Db, task: CompactionTask)
    requires TaskShape(db.version, task)
    ensures |Moved(db, task)| == |Layers(db)| && LevelIndex(db, task.outputLevel) < |Layers(db)|
  {
    LayerCount(db, task);
  }

  /** Files of one level-0 place, or of one level, are moved key by key; so is the output level as a whole. */
  lemma NoSharedKey(db: Db, task: CompactionTask, i: nat, m: nat, f: FileMeta, g: FileMeta, x: Entry, y: Entry)
    requires TablesOk(db.version, db.files, db.nextFileNumber) && TaskShape(db.version, task)
    requires i == m || i == LevelIndex(db, task.outputLevel)
    requires SelectedAt(db, task, m, f) && LeftAt(db, task, i, g)
    requires x in TableEntries(db.files, f) && y in TableEntries(db.files, g)
    ensures x.key.userKey != y.key.userKey
  {
    hide TablesOk;
    if LevelIndex(db, 0) < i {
      var n := i - LevelIndex(db, 0);
      if n == task.outputLevel {
        OutputLevelSeparate(db, task, f, g, x, y);
      } else {
        SameLevelSeparate(db, n, f, g, x, y);
      }
    }
  }

  lemma LeftSharesNoKey(db: Db, task: CompactionTask, i: nat, m: nat, x: Entry, y: Entry)
    requires TablesOk(db.version, db.files, db.nextFileNumber) && TaskShape(db.version, task)
    requires |Moved(db, task)| == |Layers(db)|
    requires i < |Layers(db)| && m < |Layers(db)| && (i == m || i == LevelIndex(db, task.outputLevel))
    requires x in Moved(db, task)[m] && y in Layers(db)[i] - Moved(db, task)[i]
    ensures x.key.userKey != y.key.userKey
  {
    assert db.version.levels[0] == [];
    LayerCount(db, task);
    LayerAt(db, task, m);
    hide Moved, Layers, TablesOk, TaskShape, LevelSet;
    var f := MovedFrom(db, task, m, x);
    if Base(db) <= i {
      var g := LeftFrom(db, task, i, y);
      NoSharedKey(db, task, i, m, f, g, x, y);
    }
  }

  lemma PickMoves(db: Db, task: CompactionTask)
    requires TablesOk(db.version, db.files, db.nextFileNumber) && TaskShape(db.version, task)
    ensures Moves(Layers(db), Moved(db, task), LevelIndex(db, task.outputLevel))
  {
    LayersCount(db, task);
    var ls, moved, t := Layers(db), Moved(db, task), LevelIndex(db, task.outputLevel);
    hide Layers, Moved, TablesOk, TaskShape, Union;
    forall i | 0 <= i < |ls| ensures moved[i] <= ls[i] && (i > t ==> moved[i] == {}) {
      MovedInside(db, task, i);
    }
    forall i: nat, x, y | i < |ls| && x in moved[i] && y in ls[i] - moved[i] ensures x.key.userKey != y.key.userKey {
      LeftSharesNoKey(db, task, i, i, x, y);
    }
    forall x, y | x in Union(moved) && y in ls[t] - moved[t] ensures x.key.userKey != y.key.userKey {
      var m := MovedLayer(moved, x);
      LeftSharesNoKey(db, task, t, m, x, y);
    }
  }

  lemma {:induction false} FirstHitNonEmpty(ls: seq<set<Entry>>, k: Bytes, r: nat)
    ensures FirstHit(NonEmpty(ls), k, r) == FirstHit(ls, k, r)
  {
    if ls != [] {
      FirstHitNonEmpty(ls[1..], k, r);
      if ls[0] != {} {
        assert NonEmpty(ls) == [ls[0]] + NonEmpty(ls[1..]);
      } else {
        assert NonEmpty(ls) == NonEmpty(ls[1..]);
      }
    }
  }

  /** Every read at or above `w` answers the same, stopping at the first hit. */
  ghost predicate SameReadsFrom(db: Db, db': Db, w: nat) {
    forall k, r: nat :: w <= r ==> FirstHitValue(db', k, r) == FirstHitValue(db, k, r)
  }

  /** The layers a read meets after a compaction. */
  lemma LayersAfter(opts: Options, db: Db, task: CompactionTask, numbers: seq<nat>, sizes: seq<nat>, k: Bytes, r: nat)
    requires Inv(db) && Compactable(opts, db, task, numbers, sizes)
    ensures |Moved(db, task)| == |Layers(db)| && LevelIndex(db, task.outputLevel) < |Layers(db)|
    ensures var w, drop := GcWatermark(db), CanDropTombstones(db.version, task);
            FirstHit(Layers(ExecuteCompaction(opts, db, task, w, numbers, sizes)), k, r) ==
            FirstHit(After(Layers(db), Moved(db, task), LevelIndex(db, task.outputLevel), Gc(Union(Moved(db, task)), w, drop)), k, r)
  {
    CompactableShape(opts, db, task, numbers, sizes);
    hide *;
    var w, drop := GcWatermark(db), CanDropTombstones(db.version, task);
    var metas := CompactionEffect(opts, db, task, numbers, sizes);
    var db' := ExecuteCompaction(opts, db, task, w, numbers, sizes);
    UnpackInv(db);
    MovedUnion(db, task);
    var kept := Gc(LevelSet(db.files, task.AllInputFiles()), w, drop);
    EffectLayers(db, db', task, metas, kept);
    FirstHitNonEmpty(Layers(db'), k, r);
    FirstHitNonEmpty(After(Layers(db), Moved(db, task), LevelIndex(db, task.outputLevel), kept), k, r);
  }

  /** One read after a compaction: stale exactly where a file left above answers for a newer version that went down. */
  lemma ReadAfterCompaction(opts: Options, db: Db, task: CompactionTask, numbers: seq<nat>, sizes: seq<nat>, k: Bytes, r: nat)
    requires Inv(db) && Compactable(opts, db, task, numbers, sizes) && GcWatermark(db) <= r
    ensures |Moved(db, task)| == |Layers(db)| && LevelIndex(db, task.outputLevel) < |Layers(db)|
    ensures var hit := FirstHit(Layers(ExecuteCompaction(opts, db, task, GcWatermark(db), numbers, sizes)), k, r);
            var above, input := StaysAbove(db, task), LevelSet(db.files, task.AllInputFiles());
            if StaleAt(above, input, k, r) then hit == Newest(above, k, r) && Newest(All(db), k, r) == Newest(input, k, r)
            else Visible(hit) == Get(All(db), k, r)
  {
    CompactableShape(opts, db, task, numbers, sizes);
    hide *;
    var w, drop := GcWatermark(db), CanDropTombstones(db.version, task);
    UnpackInv(db);
    LayersAfter(opts, db, task, numbers, sizes, k, r);
    MovedUnion(db, task);
    PickMoves(db, task);
    if drop { DropIsSafe(db, task); }
    StaysAboveIs(db, task);
    ReadAfter(Layers(db), Moved(db, task), LevelIndex(db, task.outputLevel), w, drop, k, r);
  }

  lemma StaysAboveIs(db: Db, task: CompactionTask)
    requires |Moved(db, task)| == |Layers(db)| && LevelIndex(db, task.outputLevel) < |Layers(db)|
    ensures StaysAbove(db, task) == Union(Staying(Layers(db), Moved(db, task), LevelIndex(db, task.outputLevel)))
  {
  }

  /**
   A compaction, bounded or not, keeps every read at or above its watermark if and only if it is harmless; a
   dropped tombstone of which an older version stays above is a harm like any other.
   */
  lemma CompactionSafeIff(opts: Options, db: Db, task: CompactionTask, numbers: seq<nat>, sizes: seq<nat>)
    requires Inv(db) && Compactable(opts, db, task, numbers, sizes)
    ensures |Moved(db, task)| == |Layers(db)| && LevelIndex(db, task.outputLevel) < |Layers(db)|
    ensures var db' := ExecuteCompaction(opts, db, task, GcWatermark(db), numbers, sizes);
            SameReadsFrom(db, db', GcWatermark(db)) <==> Harmless(db, task, GcWatermark(db))
  {
    CompactableShape(opts, db, task, numbers, sizes);
    LayersCount(db, task);
    HarmlessIs(db, task, GcWatermark(db));
    hide *;
    var w, drop := GcWatermark(db), CanDropTombstones(db.version, task);
    UnpackInv(db);
    MovedUnion(db, task);
    PickMoves(db, task);
    if drop { DropIsSafe(db, task); }
    ReadsAfter(opts, db, task, numbers, sizes);
    CompactionReadsIff(Layers(db), Moved(db, task), LevelIndex(db, task.outputLevel), w, drop);
  }

  lemma HarmlessIs(db: Db, task: CompactionTask, w: nat)
    requires |Moved(db, task)| == |Layers(db)| && LevelIndex(db, task.outputLevel) < |Layers(db)|
    ensures Harmless(db, task, w) ==
            Unharmed(Union(Staying(Layers(db), Moved(db, task), LevelIndex(db, task.outputLevel))), LevelSet(db.files, task.AllInputFiles()), w)
  {
    hide Unharmed, Layers, Moved, Union, LevelSet;
  }

  lemma ReadsAfter(opts: Options, db: Db, task: CompactionTask, numbers: seq<nat>, sizes: seq<nat>)
    requires Inv(db) && Compactable(opts, db, task, numbers, sizes)
    ensures |Moved(db, task)| == |Layers(db)| && LevelIndex(db, task.outputLevel) < |Layers(db)|
    ensures task.inputFiles != []
    ensures !MovesTrivially(db, task, GcWatermark(db)) ==>
              |numbers| == |Chunks(opts, db, task, GcWatermark(db))| && |sizes| == |numbers|
    ensures var w, drop := GcWatermark(db), CanDropTombstones(db.version, task);
            var db' := ExecuteCompaction(opts, db, task, w, numbers, sizes);
            SameReadsFrom(db, db', w) <==>
            ReadsRight(After(Layers(db), Moved(db, task), LevelIndex(db, task.outputLevel), Gc(Union(Moved(db, task)), w, drop)), Union(Layers(db)), w)
  {
    CompactableShape(opts, db, task, numbers, sizes);
    LayersCount(db, task);
    hide *;
    var w, drop := GcWatermark(db), CanDropTombstones(db.version, task);
    var db' := ExecuteCompaction(opts, db, task, w, numbers, sizes);
    var after := After(Layers(db), Moved(db, task), LevelIndex(db, task.outputLevel), Gc(Union(Moved(db, task)), w, drop));
    UnpackInv(db);
    forall k, r: nat ensures FirstHitValue(db', k, r) == Visible(FirstHit(after, k, r)) && FirstHitValue(db, k, r) == Get(All(db), k, r) {
      LayersAfter(opts, db, task, numbers, sizes, k, r);
      LayeredReadCorrect(db, k, r);
      ValueIs(db', k, r);
    }
    SameReadsIs(db, db', after, w);
  }

  lemma ValueIs(db: Db, k: Bytes, r: nat)
    ensures FirstHitValue(db, k, r) == Visible(FirstHit(Layers(db), k, r))
  {
  }

  lemma SameReadsIs(db: Db, db': Db, after: seq<set<Entry>>, w: nat)
    requires forall k, r: nat ::
               FirstHitValue(db', k, r) == Visible(FirstHit(after, k, r)) && FirstHitValue(db, k, r) == Get(All(db), k, r)
    ensures SameReadsFrom(db, db', w) <==> ReadsRight(after, All(db), w)
  {
    hide All, Get, Visible, FirstHit, FirstHitValue;
  }

  /** A compaction that leaves no older level-0 file with a shared key is harmless. */
  lemma ClosedIsHarmless(opts: Options, db: Db, task: CompactionTask, numbers: seq<nat>, sizes: seq<nat>)
    requires Inv(db) && Compactable(opts, db, task, numbers, sizes) && L0Closed(db, task)
    ensures |Moved(db, task)| == |Layers(db)| && LevelIndex(db, task.outputLevel) < |Layers(db)|
    ensures Harmless(db, task, GcWatermark(db))
  {
    CompactableShape(opts, db, task, numbers, sizes);
    ClosedEnabled(opts, db, task, numbers, sizes);
    hide *;
    var db' := ExecuteCompaction(opts, db, task, GcWatermark(db), numbers, sizes);
    CompactionSafeIff(opts, db, task, numbers, sizes);
    CompactionKeeps(opts, db, task, numbers, sizes);
    forall k, r: nat | GcWatermark(db) <= r ensures FirstHitValue(db', k, r) == FirstHitValue(db, k, r) {
      LayeredReadCorrect(db, k, r);
      LayeredReadCorrect(db', k, r);
      SameFromGet(db, db', GcWatermark(db), k, r);
    }
    SameReadsOf(db, db', GcWatermark(db));
  }

  lemma SameFromGet(db: Db, db': Db, w: nat, k: Bytes, r: nat)
    requires SameFrom(All(db), All(db'), w) && w <= r
    ensures Get(All(db'), k, r) == Get(All(db), k, r)
  {
    hide All, Get;
  }

  lemma SameReadsOf(db: Db, db': Db, w: nat)
    requires forall k, r: nat :: w <= r ==> FirstHitValue(db', k, r) == FirstHitValue(db, k, r)
    ensures SameReadsFrom(db, db', w)
  {
  }

  /** For a level-0 compaction these are the memtables and the level-0 files that were not selected. */
  lemma StaysAboveFiles(db: Db, task: CompactionTask, e: Entry)
    requires TablesOk(db.version, db.files, db.nextFileNumber) && TaskShape(db.version, task) && task.inputLevel == 0
    ensures |Moved(db, task)| == |Layers(db)| && LevelIndex(db, task.outputLevel) < |Layers(db)|
    ensures e in StaysAbove(db, task) <==>
            || (exists i :: 0 <= i < Base(db) && i < |Layers(db)| && e in Layers(db)[i])
            || (exists g :: g in db.version.l0Files && g !in task.inputFiles && e in TableEntries(db.files, g))
  {
    LayersCount(db, task);
    hide Layers, Moved, TablesOk, TaskShape, Union, LevelSet, TableEntries, MovedL0, MovedLevels, Base, StaysAbove;
    if e in StaysAbove(db, task) {
      StaysInLayerOrFile(db, task, e);
    }
    if i :| 0 <= i < Base(db) && i < |Layers(db)| && e in Layers(db)[i] {
      LayerStays(db, task, i, e);
    }
    if g :| g in db.version.l0Files && g !in task.inputFiles && e in TableEntries(db.files, g) {
      var j :| 0 <= j < |db.version.l0Files| && db.version.l0Files[j] == g;
      FileStays(db, task, j, e);
    }
  }

  lemma StaysInLayerOrFile(db: Db, task: CompactionTask, e: Entry)
    requires TablesOk(db.version, db.files, db.nextFileNumber) && TaskShape(db.version, task) && task.inputLevel == 0
    requires |Moved(db, task)| == |Layers(db)| && LevelIndex(db, task.outputLevel) < |Layers(db)|
    requires e in StaysAbove(db, task)
    ensures || (exists i :: 0 <= i < Base(db) && i < |Layers(db)| && e in Layers(db)[i])
            || (exists g :: g in db.version.l0Files && g !in task.inputFiles && e in TableEntries(db.files, g))
  {
    var ls, moved, t := Layers(db), Moved(db, task), LevelIndex(db, task.outputLevel);
    assert db.version.levels[0] == [] && t == LevelIndex(db, 0) + 1;
    hide Layers, Moved, TablesOk, Union, LevelSet, TableEntries, TaskShape;
    var i := MovedLayer(Staying(ls, moved, t), e);
    if Base(db) <= i {
      var g := LeftFrom(db, task, i, e);
    }
  }

  lemma LayerStays(db: Db, task: CompactionTask, i: nat, e: Entry)
    requires |Moved(db, task)| == |Layers(db)| && LevelIndex(db, task.outputLevel) < |Layers(db)|
    requires i < Base(db) && e in Layers(db)[i]
    ensures e in StaysAbove(db, task)
  {
    LayerCount(db, task);
    LayerAt(db, task, i);
    hide Layers, Moved, Union;
    InUnion(Staying(Layers(db), Moved(db, task), LevelIndex(db, task.outputLevel)), i, e);
  }

  lemma FileStays(db: Db, task: CompactionTask, j: nat, e: Entry)
    requires |Moved(db, task)| == |Layers(db)| && LevelIndex(db, task.outputLevel) < |Layers(db)|
    requires j < |db.version.l0Files| && db.version.l0Files[j] !in task.inputFiles && e in TableEntries(db.files, db.version.l0Files[j])
    ensures e in StaysAbove(db, task)
  {
    var i := Base(db) + j;
    LayerCount(db, task);
    LayerAt(db, task, i);
    hide Layers, Moved, Union, TableEntries;
    InUnion(Staying(Layers(db), Moved(db, task), LevelIndex(db, task.outputLevel)), i, e);
  }
}
