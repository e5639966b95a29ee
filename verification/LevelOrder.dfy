/**
 Levels stay sorted by smallest key (src/version/version.rs:28-55), and what the picker and the tombstone test
 (src/db.rs:948-962) make of them.
 */
module LevelOrder {
  import opened Keys
  import opened Visibility
  import opened LayerCompaction
  import opened Sorting
  import opened Executor
  import opened Versions
  import opened Picker
  import opened Lsm
  import opened LsmCompaction
  import opened LsmSafety

  ghost predicate LevelSorted(files: seq<FileMeta>) {
    forall i, j :: 0 <= i < j < |files| ==> KeyLeq(files[i].smallest, files[j].smallest)
  }

  ghost predicate VersionSorted(v: Version) {
    forall n :: 0 < n < |v.levels| ==> LevelSorted(v.levels[n])
  }

  lemma {:induction false} RetainSorted(files: seq<FileMeta>, numbers: set<nat>)
    requires LevelSorted(files)
    ensures LevelSorted(Retain(files, numbers))
  {
    if files != [] {
      var rest := Retain(files[1..], numbers);
      assert LevelSorted(files[1..]);
      RetainSorted(files[1..], numbers);
      forall j | 0 <= j < |rest| ensures KeyLeq(files[0].smallest, rest[j].smallest) {
        assert rest[j] in files[1..];
        var i :| 0 <= i < |files[1..]| && files[1..][i] == rest[j];
        assert KeyLeq(files[0].smallest, files[i + 1].smallest);
      }
    }
  }

  lemma WithFileSorted(files: seq<FileMeta>, level: nat, meta: FileMeta)
    requires level > 0
    ensures LevelSorted(WithFile(files, level, meta))
  {
    SortBySorted(files + [meta], SmallestKey);
    assert forall i, j :: 0 <= i < j < |WithFile(files, level, meta)| ==>
        KeyLeq(SmallestKey(WithFile(files, level, meta)[i]), SmallestKey(WithFile(files, level, meta)[j]));
  }

  lemma EditKeepsSorted(v: Version, edit: VersionEdit)
    requires VersionSorted(v) && ApplyToVersion(v, edit).Some?
    ensures VersionSorted(ApplyToVersion(v, edit).value)
  {
    hide LevelSorted, WithFile, Retain;
    match edit
    case AddFile(level, meta) =>
      if level > 0 { WithFileSorted(v.levels[level], level, meta); }
    case DeleteFile(level, number) =>
      if level > 0 { RetainSorted(v.levels[level], {number}); }
    case _ =>
  }

  /** Whatever edits are applied, one by one, to sorted levels leave them sorted; so does replaying a MANIFEST. */
  lemma {:induction false} EditsKeepSorted(v: Version, edits: seq<VersionEdit>)
    requires VersionSorted(v) && ApplyAll(v, edits).Some?
    ensures VersionSorted(ApplyAll(v, edits).value)
    decreases |edits|
  {
    if edits != [] {
      EditKeepsSorted(v, edits[0]);
      EditsKeepSorted(ApplyToVersion(v, edits[0]).value, edits[1..]);
    }
  }

  lemma StepKeepsSorted(opts: Options, db: Db, step: Step)
    requires VersionSorted(db.version) && Enabled(opts, db, step)
    ensures VersionSorted(Do(opts, db, step).version)
  {
    hide Picked, L0Closed, SplitSafe, Chunks, CompactionOutput, MovesTrivially, GcWatermark, InsertAll, BatchEntries, ApplyAll,
         RewriteEdits, OutputMetas, OutputFiles, MoveEdits, MetaOf;
    hide VersionSorted;
    if step.Compact? {
      forall edits | ApplyAll(db.version, edits).Some? ensures VersionSorted(ApplyAll(db.version, edits).value) {
        EditsKeepSorted(db.version, edits);
      }
    } else if step.Flush? {
      SameLevelsSorted(db.version, Do(opts, db, step).version);
    }
  }

  lemma SameLevelsSorted(v: Version, w: Version)
    requires VersionSorted(v) && w.levels == v.levels
    ensures VersionSorted(w)
  {
  }

  /** In every reachable state every level below 0 is sorted by smallest key. */
  lemma ReachableSorted(opts: Options, db: Db)
    requires Reachable(opts, db)
    ensures VersionSorted(db.version)
  {
    var maxLevels: nat, states, steps :|
      maxLevels >= 2 && IsRun(opts, states, steps) && states[0] == InitDb(maxLevels) && states[|steps|] == db;
    RunSorted(opts, states, steps, |steps|);
  }

  lemma {:induction false} RunSorted(opts: Options, states: seq<Db>, steps: seq<Step>, i: nat)
    requires IsRun(opts, states, steps) && VersionSorted(states[0].version) && i <= |steps|
    ensures VersionSorted(states[i].version)
  {
    hide VersionSorted, Enabled, Do;
    if i > 0 {
      RunSorted(opts, states, steps, i - 1);
      StepKeepsSorted(opts, states[i - 1], steps[i - 1]);
    }
  }

  /**
   A level pick takes every level-0 file, or of a deeper level the one file all of whose keys are below those of
   every other file there; it takes nothing only from an empty level.
   */
  lemma PickLevelExact(opts: Options, db: Db, level: nat)
    requires Reachable(opts, db) && level < |db.version.levels|
    ensures PickLevel(db.version, level).None? <==> LevelFiles(db.version, level) == []
    ensures PickLevel(db.version, level).Some? ==>
              var task := PickLevel(db.version, level).value;
              && task.inputLevel == level
              && (level == 0 ==> task.inputFiles == db.version.l0Files)
              && (level > 0 ==>
                    && |task.inputFiles| == 1 && task.inputFiles[0] in db.version.levels[level]
                    && forall g :: g in db.version.levels[level] && g != task.inputFiles[0] ==>
                         Less(task.inputFiles[0].largest.userKey, g.smallest.userKey))
  {
    ReachableSorted(opts, db);
    ReachableInv(opts, db);
    UnpackInv(db);
    hide Reachable, Inv, TaskForFiles;
    if level > 0 && db.version.levels[level] != [] {
      FirstIsLeftmost(db, level);
    }
    TaskInput(db.version, level);
  }

  lemma TaskInput(v: Version, level: nat)
    ensures forall files :: files != [] ==> TaskForFiles(v, level, files).inputLevel == level && TaskForFiles(v, level, files).inputFiles == files
  {
  }

  lemma FirstIsLeftmost(db: Db, n: nat)
    requires TablesOk(db.version, db.files, db.nextFileNumber) && VersionSorted(db.version)
    requires 0 < n < |db.version.levels| && db.version.levels[n] != []
    ensures forall g :: g in db.version.levels[n] && g != db.version.levels[n][0] ==>
              Less(db.version.levels[n][0].largest.userKey, g.smallest.userKey)
  {
    var fs := db.version.levels[n];
    forall g | g in fs && g != fs[0] ensures Less(fs[0].largest.userKey, g.smallest.userKey) {
      var j :| 0 <= j < |fs| && fs[j] == g;
      assert LevelSorted(fs) && LevelDisjoint(fs);
      assert InLevel(db.version, n, g);
      TableOk(db, n, g);
      hide TablesOk, VersionSorted;
      SmallestLeqLargest(db.files, g);
      SortedDisjoint(fs[0], g);
    }
  }

  lemma SmallestLeqLargest(files: map<nat, seq<Entry>>, f: FileMeta)
    requires FileOk(files, f)
    ensures Leq(f.smallest.userKey, f.largest.userKey)
  {
    var s := files[f.number];
    assert s[0] in TableEntries(files, f);
    hide Sorted;
    KeysInRange(files, f, s[0]);
  }

  lemma SortedDisjoint(f: FileMeta, g: FileMeta)
    requires KeyLeq(f.smallest, g.smallest) && DisjointRanges(f, g) && Leq(g.smallest.userKey, g.largest.userKey)
    ensures Less(f.largest.userKey, g.smallest.userKey)
  {
    UserKeyOrder();
  }

  // ----- which tombstones a compaction drops

  /** Some file below the output level holds keys on both sides of, or within, the range of the compaction. */
  ghost predicate DeeperMeets(v: Version, task: CompactionTask) {
    exists n, f :: task.outputLevel < n < |v.levels| && f in v.levels[n]
                   && !Less(f.largest.userKey, task.smallestUserKey) && !Less(task.largestUserKey, f.smallest.userKey)
  }

  /**
   Of a key with nothing newer at or below the watermark, a tombstone among the inputs is dropped exactly when no
   file below the output level meets the range of the compaction.
   */
  lemma TombstoneGoesIff(db: Db, task: CompactionTask, w: nat, e: Entry)
    requires Inv(db) && Picked(db.version, task)
    requires e.value.Delete? && IsNewest(LevelSet(db.files, task.AllInputFiles()), e.key.userKey, w, e)
    ensures e !in CompactionOutput(db, task, w) <==> !DeeperMeets(db.version, task)
  {
    var input, drop := Gather(db.files, task.AllInputFiles()), CanDropTombstones(db.version, task);
    DropsUnlessMet(db.version, task);
    PickedShape(db.version, task);
    GatherIsLevelSet(db.files, task.AllInputFiles());
    InputConsistent(db, task);
    UnpackInv(db);
    FunctionalSubset(All(db), Elems(input));
    CompactedIsGc(input, w, drop);
    hide *;
    OutputIs(db, task, w);
    TombstoneInGc(LevelSet(db.files, task.AllInputFiles()), w, drop, e);
    InElems(CompactionOutput(db, task, w), e);
  }

  lemma InElems(s: seq<Entry>, e: Entry)
    ensures e in Elems(s) <==> e in s
  {
  }

  lemma OutputIs(db: Db, task: CompactionTask, w: nat)
    ensures CompactionOutput(db, task, w) == Compacted(Gather(db.files, task.AllInputFiles()), w, CanDropTombstones(db.version, task))
  {
  }

  lemma TombstoneInGc(s: set<Entry>, w: nat, drop: bool, e: Entry)
    requires e.value.Delete? && IsNewest(s, e.key.userKey, w, e)
    ensures e in Gc(s, w, drop) <==> !drop
  {
  }

  lemma DropsUnlessMet(v: Version, task: CompactionTask)
    ensures CanDropTombstones(v, task) <==> !DeeperMeets(v, task)
  {
    forall n, f | task.outputLevel < n < |v.levels| && f in v.levels[n]
      ensures UserKeyOverlaps(f, task.smallestUserKey, task.largestUserKey) <==>
              !Less(f.largest.userKey, task.smallestUserKey) && !Less(task.largestUserKey, f.smallest.userKey)
    {
    }
    hide UserKeyOverlaps, Less;
  }
}
