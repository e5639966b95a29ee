/**
 Compaction keeps the invariant and every read at or above the watermark (src/db.rs:854-962).

 The concrete step -- pick, gather, collect, split, log deletions and additions -- is shown to be a
 move of versions between layers in the sense of `LayerCompaction`.
 */
module LsmCompaction {
  import opened Keys
  import opened Visibility
  import opened LayerCompaction
  import opened Executor
  import opened Versions
  import opened Picker
  import opened Lsm

  // ----- contents of tables

  lemma KeysInRange(files: map<nat, seq<Entry>>, f: FileMeta, e: Entry)
    requires FileOk(files, f) && e in TableEntries(files, f)
    ensures Leq(f.smallest.userKey, e.key.userKey) && Leq(e.key.userKey, f.largest.userKey)
  {
    var s := files[f.number];
    UserKeyOrder();
    var i :| 0 <= i < |s| && s[i] == e;
    assert 0 < i ==> KeyLeq(EntryKey(s[0]), EntryKey(s[i]));
    assert i < |s| - 1 ==> KeyLeq(EntryKey(s[i]), EntryKey(s[|s| - 1]));
  }

  lemma DisjointNoSharedKey(files: map<nat, seq<Entry>>, f: FileMeta, g: FileMeta, x: Entry, y: Entry)
    requires FileOk(files, f) && FileOk(files, g) && DisjointRanges(f, g)
    requires x in TableEntries(files, f) && y in TableEntries(files, g)
    ensures x.key.userKey != y.key.userKey
  {
    KeysInRange(files, f, x);
    KeysInRange(files, g, y);
    if x.key.userKey == y.key.userKey {
      LeqTrans(g.smallest.userKey, y.key.userKey, f.largest.userKey);
      LeqTrans(f.smallest.userKey, x.key.userKey, g.largest.userKey);
    }
  }

  lemma {:induction false} GatherIsLevelSet(files: map<nat, seq<Entry>>, fs: seq<FileMeta>)
    ensures Elems(Gather(files, fs)) == LevelSet(files, fs)
  {
    if fs != [] {
      GatherIsLevelSet(files, fs[1..]);
      LevelSetConcat(files, [fs[0]], fs[1..]);
      assert fs == [fs[0]] + fs[1..];
      assert Elems(Gather(files, fs)) == Elems(TableEntries(files, fs[0])) + Elems(Gather(files, fs[1..]));
    }
  }

  lemma LevelSetConcat(files: map<nat, seq<Entry>>, a: seq<FileMeta>, b: seq<FileMeta>)
    ensures LevelSet(files, a + b) == LevelSet(files, a) + LevelSet(files, b)
  {
  }

  lemma InLevelSet(files: map<nat, seq<Entry>>, fs: seq<FileMeta>, e: Entry) returns (f: FileMeta)
    requires e in LevelSet(files, fs)
    ensures f in fs && e in TableEntries(files, f)
  {
    f :| f in fs && e in TableEntries(files, f);
  }

  lemma LevelSetHas(files: map<nat, seq<Entry>>, fs: seq<FileMeta>, f: FileMeta, e: Entry)
    requires f in fs && e in TableEntries(files, f)
    ensures e in LevelSet(files, fs)
  {
  }

  lemma LevelSetMono(files: map<nat, seq<Entry>>, a: seq<FileMeta>, b: seq<FileMeta>)
    requires forall f :: f in a ==> f in b
    ensures LevelSet(files, a) <= LevelSet(files, b)
  {
  }

  lemma TableOk(db: Db, n: nat, f: FileMeta)
    requires TablesOk(db.version, db.files, db.nextFileNumber) && InLevel(db.version, n, f)
    ensures FileOk(db.files, f)
  {
  }

  /** Two files of one level share no user key. */
  lemma SameLevelSeparate(db: Db, n: nat, f: FileMeta, g: FileMeta, x: Entry, y: Entry)
    requires TablesOk(db.version, db.files, db.nextFileNumber) && n > 0
    requires InLevel(db.version, n, f) && InLevel(db.version, n, g) && f != g
    requires x in TableEntries(db.files, f) && y in TableEntries(db.files, g)
    ensures x.key.userKey != y.key.userKey
  {
    TableOk(db, n, f);
    TableOk(db, n, g);
    assert DisjointRanges(f, g);
    hide FileOk, TablesOk;
    DisjointNoSharedKey(db.files, f, g, x, y);
  }

  // ----- the move

  /** What a picked task selects. */
  ghost predicate TaskShape(v: Version, task: CompactionTask) {
    && task.outputLevel == task.inputLevel + 1 < |v.levels|
    && task.inputFiles != []
    && (forall f :: f in task.inputFiles ==> InLevel(v, task.inputLevel, f))
    && (forall f :: f in task.overlapFiles ==> InLevel(v, task.outputLevel, f))
    && (task.inputLevel == 0 ==> forall g :: InLevel(v, task.outputLevel, g) ==> g in task.overlapFiles)
    && (task.inputLevel > 0 ==>
          && |task.inputFiles| == 1
          && var f := task.inputFiles[0];
             forall g :: InLevel(v, task.outputLevel, g) ==>
               (g in task.overlapFiles <==> UserKeyOverlaps(g, f.smallest.userKey, f.largest.userKey)))
    && (forall f :: f in task.inputFiles || f in task.overlapFiles ==>
          Leq(task.smallestUserKey, f.smallest.userKey) && Leq(f.largest.userKey, task.largestUserKey))
  }

  lemma PickedShape(v: Version, task: CompactionTask)
    requires Picked(v, task)
    ensures TaskShape(v, task)
  {
    assert task.overlapFiles == [] ==> task.AllInputFiles() == task.inputFiles;
    var r := UserKeyRange(task.AllInputFiles());
  }

  /** What leaves each level-0 file, and each level. */
  function MovedL0(db: Db, task: CompactionTask): seq<set<Entry>> {
    seq(|db.version.l0Files|, i requires 0 <= i < |db.version.l0Files| =>
      if task.inputLevel == 0 && db.version.l0Files[i] in task.inputFiles
      then Elems(TableEntries(db.files, db.version.l0Files[i])) else {})
  }

  function MovedLevels(db: Db, task: CompactionTask): seq<set<Entry>> {
    seq(|db.version.levels|, n requires 0 <= n < |db.version.levels| =>
      if n == task.outputLevel then LevelSet(db.files, task.overlapFiles)
      else if n == task.inputLevel && n > 0 then LevelSet(db.files, task.inputFiles)
      else {})
  }

  function Moved(db: Db, task: CompactionTask): seq<set<Entry>> {
    seq(1 + |db.immutables|, i => {}) + MovedL0(db, task) + MovedLevels(db, task)
  }

  function Base(db: Db): nat { 1 + |db.immutables| }

  function LevelIndex(db: Db, n: nat): nat { Base(db) + |db.version.l0Files| + n }

  lemma LayerCount(db: Db, task: CompactionTask)
    ensures |Layers(db)| == |Moved(db, task)| == LevelIndex(db, |db.version.levels|)
  {
  }

  /** A layer is a memtable, a level-0 file, or a level. */
  lemma LayerAt(db: Db, task: CompactionTask, i: nat)
    requires i < LevelIndex(db, |db.version.levels|)
    ensures i < |Layers(db)| && i < |Moved(db, task)|
    ensures i < Base(db) ==> Moved(db, task)[i] == {}
    ensures Base(db) <= i < LevelIndex(db, 0) ==>
              && Layers(db)[i] == Elems(TableEntries(db.files, db.version.l0Files[i - Base(db)]))
              && Moved(db, task)[i] == MovedL0(db, task)[i - Base(db)]
    ensures LevelIndex(db, 0) <= i ==>
              && Layers(db)[i] == LevelSet(db.files, db.version.levels[i - LevelIndex(db, 0)])
              && Moved(db, task)[i] == MovedLevels(db, task)[i - LevelIndex(db, 0)]
  {
    hide Elems, LevelSet, TableEntries;
  }

  /** `f`, selected for compaction, is what layer `m` loses a version of. */
  predicate SelectedAt(db: Db, task: CompactionTask, m: nat, f: FileMeta) {
    || (f in task.inputFiles && task.inputLevel == 0 &&
        Base(db) <= m < LevelIndex(db, 0) && f == db.version.l0Files[m - Base(db)])
    || (f in task.inputFiles && task.inputLevel > 0 &&
        InLevel(db.version, task.inputLevel, f) && m == LevelIndex(db, task.inputLevel))
    || (f in task.overlapFiles && InLevel(db.version, task.outputLevel, f) && m == LevelIndex(db, task.outputLevel))
  }

  /** `g`, a file of disk layer `i`, is not selected. */
  predicate LeftAt(db: Db, task: CompactionTask, i: nat, g: FileMeta) {
    || (Base(db) <= i < LevelIndex(db, 0) && g == db.version.l0Files[i - Base(db)] &&
        (task.inputLevel == 0 ==> g !in task.inputFiles))
    || (LevelIndex(db, 0) < i && var n := i - LevelIndex(db, 0);
        InLevel(db.version, n, g) && (n == task.inputLevel ==> g !in task.inputFiles)
        && (n == task.outputLevel ==> g !in task.overlapFiles))
  }

  /** A moved version lies in a selected file of the level its layer stands for. */
  lemma MovedFrom(db: Db, task: CompactionTask, m: nat, x: Entry) returns (f: FileMeta)
    requires TaskShape(db.version, task) && m < |Moved(db, task)| && x in Moved(db, task)[m]
    ensures x in TableEntries(db.files, f) && SelectedAt(db, task, m, f)
  {
    LayerCount(db, task);
    LayerAt(db, task, m);
    hide Layers, Moved;
    if m < LevelIndex(db, 0) {
      f := db.version.l0Files[m - Base(db)];
    } else {
      var n := m - LevelIndex(db, 0);
      if n == task.outputLevel {
        f := InLevelSet(db.files, task.overlapFiles, x);
      } else {
        f := InLevelSet(db.files, task.inputFiles, x);
      }
    }
  }

  /** A version left behind on disk lies in a file that was not selected. */
  lemma LeftFrom(db: Db, task: CompactionTask, i: nat, y: Entry) returns (g: FileMeta)
    requires TaskShape(db.version, task) && db.version.levels[0] == []
    requires Base(db) <= i < |Layers(db)| && |Moved(db, task)| == |Layers(db)| && y in Layers(db)[i] - Moved(db, task)[i]
    ensures y in TableEntries(db.files, g) && LeftAt(db, task, i, g)
  {
    hide Layers, Moved, LevelSet;
    LayerCount(db, task);
    LayerAt(db, task, i);
    hide TaskShape;
    if i < LevelIndex(db, 0) {
      g := db.version.l0Files[i - Base(db)];
    } else {
      var n := i - LevelIndex(db, 0);
      g := InLevelSet(db.files, db.version.levels[n], y);
      if n == task.inputLevel && g in task.inputFiles {
        LevelSetHas(db.files, task.inputFiles, g, y);
      }
      if n == task.outputLevel && g in task.overlapFiles {
        LevelSetHas(db.files, task.overlapFiles, g, y);
      }
    }
  }

  /** The interval argument, one file at a time: unselected files of the output level share no key with selected ones. */
  lemma OutputLevelSeparate(db: Db, task: CompactionTask, f: FileMeta, g: FileMeta, x: Entry, y: Entry)
    requires TaskShape(db.version, task) && TablesOk(db.version, db.files, db.nextFileNumber)
    requires (f in task.inputFiles && InLevel(db.version, task.inputLevel, f)) || (f in task.overlapFiles && InLevel(db.version, task.outputLevel, f))
    requires InLevel(db.version, task.outputLevel, g) && g !in task.overlapFiles
    requires x in TableEntries(db.files, f) && y in TableEntries(db.files, g)
    ensures x.key.userKey != y.key.userKey
  {
    hide TablesOk;
    if f in task.overlapFiles && InLevel(db.version, task.outputLevel, f) {
      SameLevelSeparate(db, task.outputLevel, f, g, x, y);
    } else {
      assert task.inputLevel > 0 && task.inputFiles == [f];
      assert !UserKeyOverlaps(g, f.smallest.userKey, f.largest.userKey);
      hide FileOk;
      TableOk(db, task.inputLevel, f);
      TableOk(db, task.outputLevel, g);
      KeysInRange(db.files, f, x);
      KeysInRange(db.files, g, y);
      LeqTransTo(g.smallest.userKey, y.key.userKey, f.largest.userKey);
      LeqTransTo(f.smallest.userKey, x.key.userKey, g.largest.userKey);
    }
    hide *;
  }

  lemma LeftIsAbove(db: Db, task: CompactionTask, i: nat, m: nat, f: FileMeta, g: FileMeta, x: Entry, y: Entry)
    requires TablesOk(db.version, db.files, db.nextFileNumber) && TaskShape(db.version, task) && L0Closed(db, task)
    requires i <= LevelIndex(db, task.outputLevel)
    requires SelectedAt(db, task, m, f) && LeftAt(db, task, i, g)
    requires x in TableEntries(db.files, f) && y in TableEntries(db.files, g) && x.key.userKey == y.key.userKey
    ensures i < m
  {
    hide TablesOk, L0Closed;
    if i < LevelIndex(db, 0) {
      if m <= i {
        L0Older(db, task, m - Base(db), i - Base(db), x, y);
      }
    } else {
      var n := i - LevelIndex(db, 0);
      if n == task.outputLevel {
        OutputLevelSeparate(db, task, f, g, x, y);
      } else if n == task.inputLevel && m <= i {
        SameLevelSeparate(db, n, f, g, x, y);
      }
    }
  }

  lemma MoveClosed(db: Db, task: CompactionTask, i: nat, m: nat, x: Entry, y: Entry)
    requires TablesOk(db.version, db.files, db.nextFileNumber) && TaskShape(db.version, task) && L0Closed(db, task)
    requires |Moved(db, task)| == |Layers(db)|
    requires i <= LevelIndex(db, task.outputLevel) && i < |Layers(db)| && m < |Layers(db)|
    requires x in Moved(db, task)[m] && y in Layers(db)[i] - Moved(db, task)[i] && x.key.userKey == y.key.userKey
    ensures i < m
  {
    assert db.version.levels[0] == [];
    hide Moved, Layers, TablesOk, L0Closed, TaskShape;
    var f := MovedFrom(db, task, m, x);
    if Base(db) <= i {
      var g := LeftFrom(db, task, i, y);
      LeftIsAbove(db, task, i, m, f, g, x, y);
    }
  }

  lemma L0Older(db: Db, task: CompactionTask, i: nat, j: nat, x: Entry, y: Entry)
    requires task.inputLevel == 0 && L0Closed(db, task) && i <= j < |db.version.l0Files|
    requires db.version.l0Files[i] in task.inputFiles && db.version.l0Files[j] !in task.inputFiles
    requires x in TableEntries(db.files, db.version.l0Files[i]) && y in TableEntries(db.files, db.version.l0Files[j])
    ensures x.key.userKey != y.key.userKey
  {
  }

  lemma MoveIsOk(db: Db, task: CompactionTask)
    requires TablesOk(db.version, db.files, db.nextFileNumber) && TaskShape(db.version, task) && L0Closed(db, task)
    ensures MoveOk(Layers(db), Moved(db, task), LevelIndex(db, task.outputLevel))
  {
    LayerCount(db, task);
    var ls, moved, t := Layers(db), Moved(db, task), LevelIndex(db, task.outputLevel);
    forall i | 0 <= i < |ls| ensures moved[i] <= ls[i] && (i > t ==> moved[i] == {}) {
      MovedInside(db, task, i);
    }
    forall i: nat, m: nat, x, y | i <= t && m < |ls| && x in moved[m] && y in ls[i] - moved[i] && x.key.userKey == y.key.userKey
      ensures i < m
    {
      MoveClosed(db, task, i, m, x, y);
    }
  }

  lemma MovedInside(db: Db, task: CompactionTask, i: nat)
    requires TaskShape(db.version, task) && i < |Layers(db)| && |Layers(db)| == |Moved(db, task)|
    ensures Moved(db, task)[i] <= Layers(db)[i]
    ensures i > LevelIndex(db, task.outputLevel) ==> Moved(db, task)[i] == {}
  {
    LayerCount(db, task);
    LayerAt(db, task, i);
    hide Layers, Moved, LevelSet;
    LevelSetMono(db.files, task.overlapFiles, db.version.levels[task.outputLevel]);
    if task.inputLevel > 0 {
      LevelSetMono(db.files, task.inputFiles, db.version.levels[task.inputLevel]);
    }
  }

  lemma InputMoved(db: Db, task: CompactionTask, f: FileMeta, e: Entry)
    requires TaskShape(db.version, task) && e in TableEntries(db.files, f)
    requires f in task.inputFiles || f in task.overlapFiles
    ensures e in Union(Moved(db, task))
  {
    LayerCount(db, task);
    hide Union;
    var m: nat;
    if f in task.overlapFiles {
      m := LevelIndex(db, task.outputLevel);
      LevelSetHas(db.files, task.overlapFiles, f, e);
    } else if task.inputLevel == 0 {
      var i :| 0 <= i < |db.version.l0Files| && db.version.l0Files[i] == f;
      m := Base(db) + i;
    } else {
      m := LevelIndex(db, task.inputLevel);
      LevelSetHas(db.files, task.inputFiles, f, e);
    }
    LayerAt(db, task, m);
    hide Moved, LevelSet;
    InUnion(Moved(db, task), m, e);
  }

  lemma MovedUnion(db: Db, task: CompactionTask)
    requires TaskShape(db.version, task)
    ensures Union(Moved(db, task)) == LevelSet(db.files, task.AllInputFiles())
  {
    hide Moved, Union, LevelSet;
    forall e | e in Union(Moved(db, task)) ensures e in LevelSet(db.files, task.AllInputFiles()) {
      var m := MovedLayer(Moved(db, task), e);
      var f := MovedFrom(db, task, m, e);
      LevelSetHas(db.files, task.AllInputFiles(), f, e);
    }
    forall e | e in LevelSet(db.files, task.AllInputFiles()) ensures e in Union(Moved(db, task)) {
      var f := InLevelSet(db.files, task.AllInputFiles(), e);
      InputMoved(db, task, f, e);
    }
  }

  /** Tombstones may go when no deeper file overlaps the compaction's range (src/db.rs:948-962). */
  lemma DropIsSafe(db: Db, task: CompactionTask)
    requires TablesOk(db.version, db.files, db.nextFileNumber) && TaskShape(db.version, task) && CanDropTombstones(db.version, task)
    ensures DropSafe(Layers(db), Moved(db, task), LevelIndex(db, task.outputLevel))
  {
    hide Moved, Union, Layers, TablesOk, FileOk, LevelSet, TableEntries, TaskShape, CanDropTombstones;
    LayerCount(db, task);
    MovedUnion(db, task);
    forall j: nat, x, y | LevelIndex(db, task.outputLevel) < j < |Layers(db)| && x in Union(Moved(db, task)) && y in Layers(db)[j]
      ensures x.key.userKey != y.key.userKey
    {
      DeeperLayer(db, task, j, x, y);
    }
  }

  lemma DeeperLayer(db: Db, task: CompactionTask, j: nat, x: Entry, y: Entry)
    requires TablesOk(db.version, db.files, db.nextFileNumber) && TaskShape(db.version, task) && CanDropTombstones(db.version, task)
    requires LevelIndex(db, task.outputLevel) < j < |Layers(db)| && y in Layers(db)[j]
    requires x in LevelSet(db.files, task.AllInputFiles())
    ensures x.key.userKey != y.key.userKey
  {
    hide Moved, Union, Layers, TablesOk, FileOk, LevelSet, TableEntries, TaskShape, CanDropTombstones;
    LayerCount(db, task);
    LayerAt(db, task, j);
    var n := j - LevelIndex(db, 0);
    var g := InLevelSet(db.files, db.version.levels[n], y);
    var f := InLevelSet(db.files, task.AllInputFiles(), x);
    DeeperSeparate(db, task, n, f, g, x, y);
  }

  lemma DeeperSeparate(db: Db, task: CompactionTask, n: nat, f: FileMeta, g: FileMeta, x: Entry, y: Entry)
    requires TablesOk(db.version, db.files, db.nextFileNumber) && TaskShape(db.version, task) && CanDropTombstones(db.version, task)
    requires f in task.AllInputFiles() && x in TableEntries(db.files, f)
    requires task.outputLevel < n < |db.version.levels| && g in db.version.levels[n] && y in TableEntries(db.files, g)
    ensures x.key.userKey != y.key.userKey
  {
    RangeCovers(db, task, f, x);
    assert InLevel(db.version, n, g);
    TableOk(db, n, g);
    assert !UserKeyOverlaps(g, task.smallestUserKey, task.largestUserKey);
    hide FileOk, TablesOk, TaskShape;
    KeysInRange(db.files, g, y);
    if x.key.userKey == y.key.userKey {
      LeqTrans(g.smallest.userKey, y.key.userKey, task.largestUserKey);
      LeqTrans(task.smallestUserKey, x.key.userKey, g.largest.userKey);
    }
  }

  lemma RangeCovers(db: Db, task: CompactionTask, f: FileMeta, x: Entry)
    requires TablesOk(db.version, db.files, db.nextFileNumber) && TaskShape(db.version, task)
    requires f in task.AllInputFiles() && x in TableEntries(db.files, f)
    ensures Leq(task.smallestUserKey, x.key.userKey) && Leq(x.key.userKey, task.largestUserKey)
  {
    KeysInRange(db.files, f, x);
    LeqTrans(task.smallestUserKey, f.smallest.userKey, x.key.userKey);
    LeqTrans(x.key.userKey, f.largest.userKey, task.largestUserKey);
  }
}
