/**
 Safety of whole runs: the invariant, layered reads, snapshot stability, and the persistence of
 versions above a live read sequence.
 */
module LsmSafety {
  import opened Keys
  import opened Visibility
  import opened LayerCompaction
  import opened Executor
  import opened Splitter
  import opened Versions
  import opened Picker
  import opened Lsm
  import opened LsmWrites
  import opened LsmCompaction
  import opened LsmRewrite
  import opened LsmSteps

  // ----- one compaction

  /** `now` answers like `before` from `w` on: no read at or above `w` changes, no version above `w` is lost. */
  ghost predicate SameFrom(before: set<Entry>, now: set<Entry>, w: nat) {
    && now <= before
    && (forall k, r: nat :: w <= r ==> Get(now, k, r) == Get(before, k, r))
    && (forall e :: e in before && e.key.sequence > w ==> e in now)
  }

  lemma UnpackInv(db: Db)
    requires Inv(db)
    ensures TablesOk(db.version, db.files, db.nextFileNumber) && Recency(Layers(db))
    ensures All(db) == Union(Layers(db)) && Functional(All(db)) && Bounded(All(db), db.lastSequence)
  {
  }

  lemma PackInv(db: Db, db': Db)
    requires Inv(db) && All(db') <= All(db)
    requires db'.mutable == db.mutable && db'.immutables == db.immutables
    requires db'.lastSequence == db.lastSequence && db'.live == db.live
    requires TablesOk(db'.version, db'.files, db'.nextFileNumber) && Recency(Layers(db'))
    ensures Inv(db')
  {
    hide TablesOk, Recency, Layers;
  }

  lemma UnpackEffect(db: Db, db': Db, task: CompactionTask, metas: seq<FileMeta>, kept: set<Entry>)
    requires Effect(db, db', task, metas, kept)
    ensures db'.mutable == db.mutable && db'.immutables == db.immutables
    ensures db'.lastSequence == db.lastSequence && db'.live == db.live
    ensures All(db') == Union(Layers(db'))
  {
  }

  lemma EffectKeeps(db: Db, db': Db, task: CompactionTask, metas: seq<FileMeta>, w: nat, drop: bool)
    requires Inv(db) && TaskShape(db.version, task) && L0Closed(db, task)
    requires drop ==> CanDropTombstones(db.version, task)
    requires Effect(db, db', task, metas, Gc(LevelSet(db.files, task.AllInputFiles()), w, drop))
    ensures Inv(db') && SameFrom(All(db), All(db'), w)
  {
    hide *;
    var input := LevelSet(db.files, task.AllInputFiles());
    var kept := Gc(input, w, drop);
    var ls, moved, t := Layers(db), Moved(db, task), LevelIndex(db, task.outputLevel);
    UnpackInv(db);
    UnpackEffect(db, db', task, metas, kept);
    MovedUnion(db, task);
    MoveIsOk(db, task);
    if drop { DropIsSafe(db, task); }
    GcWithin(input, w, drop);
    EffectTables(db, db', task, metas, kept);
    EffectLayers(db, db', task, metas, kept);
    NonEmptyRecency(After(ls, moved, t, kept));
    NonEmptyRecency(Layers(db'));
    CompactionKeepsRecency(ls, moved, t, w, drop);
    MovedSameFrom(ls, moved, t, w, drop);
    PackInv(db, db');
  }

  lemma MovedSameFrom(ls: seq<set<Entry>>, moved: seq<set<Entry>>, t: nat, w: nat, drop: bool)
    requires Recency(ls) && Functional(Union(ls)) && MoveOk(ls, moved, t)
    requires drop ==> DropSafe(ls, moved, t)
    ensures SameFrom(Union(ls), Union(After(ls, moved, t, Gc(Union(moved), w, drop))), w)
    ensures Union(After(ls, moved, t, Gc(Union(moved), w, drop))) <= Union(ls)
  {
    AfterContents(ls, moved, t, w, drop);
    hide Recency, Functional, MoveOk, DropSafe, Union, After, Gc, Get;
    forall k, r: nat | w <= r ensures Get(Union(After(ls, moved, t, Gc(Union(moved), w, drop))), k, r) == Get(Union(ls), k, r) {
      CompactionKeepsReads(ls, moved, t, w, drop, k, r);
    }
  }

  // ----- the concrete outputs

  lemma {:induction false} OutputFilesAt(chunks: seq<seq<Entry>>, numbers: seq<nat>)
    requires |numbers| == |chunks|
    requires forall i, j :: 0 <= i < j < |numbers| ==> numbers[i] != numbers[j]
    ensures forall n :: n in OutputFiles(chunks, numbers) <==> n in numbers
    ensures forall i :: 0 <= i < |numbers| ==> OutputFiles(chunks, numbers)[numbers[i]] == chunks[i]
  {
    if chunks != [] {
      OutputFilesAt(chunks[1..], numbers[1..]);
      assert numbers == [numbers[0]] + numbers[1..];
      forall i | 0 <= i < |numbers| ensures OutputFiles(chunks, numbers)[numbers[i]] == chunks[i] {
        if i > 0 {
          assert numbers[1..][i - 1] == numbers[i] && chunks[1..][i - 1] == chunks[i];
        }
      }
    }
  }

  lemma {:induction false} FlattenElements(chunks: seq<seq<Entry>>)
    ensures forall e :: e in Flatten(chunks) <==> exists i :: 0 <= i < |chunks| && e in chunks[i]
  {
    if chunks != [] {
      FlattenElements(chunks[1..]);
      forall e | e in Flatten(chunks[1..]) ensures exists i :: 0 <= i < |chunks| && e in chunks[i] {
        var i :| 0 <= i < |chunks[1..]| && e in chunks[1..][i];
        assert e in chunks[i + 1];
      }
      forall e, i | 0 <= i < |chunks| && e in chunks[i] ensures e in Flatten(chunks) {
        InFlatten(chunks, i, e);
      }
    }
  }

  lemma {:induction false} ChunkSorted(chunks: seq<seq<Entry>>, i: nat)
    requires i < |chunks| && Sorted(Flatten(chunks))
    ensures Sorted(chunks[i])
  {
    var all := Flatten(chunks);
    if i == 0 {
      forall p, q | 0 <= p < q < |chunks[0]| ensures KeyLeq(EntryKey(chunks[0][p]), EntryKey(chunks[0][q])) {
        assert all[p] == chunks[0][p] && all[q] == chunks[0][q];
      }
    } else {
      var rest, c := Flatten(chunks[1..]), |chunks[0]|;
      forall p, q | 0 <= p < q < |rest| ensures KeyLeq(EntryKey(rest[p]), EntryKey(rest[q])) {
        assert all[c + p] == rest[p] && all[c + q] == rest[q];
      }
      ChunkSorted(chunks[1..], i - 1);
    }
  }

  lemma InputConsistent(db: Db, task: CompactionTask)
    requires Inv(db) && TaskShape(db.version, task)
    ensures LevelSet(db.files, task.AllInputFiles()) <= All(db)
    ensures forall e :: e in LevelSet(db.files, task.AllInputFiles()) ==> Consistent(e)
  {
    forall e | e in LevelSet(db.files, task.AllInputFiles()) ensures Consistent(e) {
      var f := InLevelSet(db.files, task.AllInputFiles(), e);
      assert f in task.inputFiles || f in task.overlapFiles;
      assert FileOk(db.files, f);
    }
    MovedUnion(db, task);
    MoveIsOkInside(db, task);
  }

  lemma MoveIsOkInside(db: Db, task: CompactionTask)
    requires TaskShape(db.version, task)
    ensures Union(Moved(db, task)) <= All(db)
  {
    LayerCount(db, task);
    hide Layers, Moved, Union;
    forall e | e in Union(Moved(db, task)) ensures e in Union(Layers(db)) {
      var m := MovedLayer(Moved(db, task), e);
      MovedInside(db, task, m);
      InUnion(Layers(db), m, e);
    }
  }

  /** What the written chunks are: sorted, consistent, key-disjoint tables holding exactly the collected versions. */
  ghost predicate GoodChunks(chunks: seq<seq<Entry>>, kept: set<Entry>) {
    && (forall i :: 0 <= i < |chunks| ==> chunks[i] != [] && Sorted(chunks[i]) && forall e :: e in chunks[i] ==> Consistent(e))
    && KeyDisjoint(chunks)
    && (forall e :: e in kept <==> exists i :: 0 <= i < |chunks| && e in chunks[i])
  }

  lemma ChunksGood(opts: Options, db: Db, task: CompactionTask, w: nat)
    requires Inv(db) && TaskShape(db.version, task) && SplitSafe(opts, CompactionOutput(db, task, w))
    ensures GoodChunks(Chunks(opts, db, task, w), Gc(LevelSet(db.files, task.AllInputFiles()), w, CanDropTombstones(db.version, task)))
  {
    var drop, input := CanDropTombstones(db.version, task), Gather(db.files, task.AllInputFiles());
    var output := CompactionOutput(db, task, w);
    GatherIsLevelSet(db.files, task.AllInputFiles());
    InputConsistent(db, task);
    UnpackInv(db);
    hide Inv, TaskShape, Gc, LevelSet, Gather, Functional, All, CanDropTombstones;
    FunctionalSubset(All(db), Elems(input));
    CompactedIsGc(input, w, drop);
    GcWithin(Elems(input), w, drop);
    forall e | e in output ensures Consistent(e) {
      assert e in Elems(output);
    }
    SplitGood(output, opts);
  }

  lemma SplitGood(output: seq<Entry>, opts: Options)
    requires Sorted(output) && SplitSafe(opts, output) && forall e :: e in output ==> Consistent(e)
    ensures GoodChunks(Split(output, opts.targetFileSizeBase, opts.maxSubcompactions), Elems(output))
  {
    var chunks := Split(output, opts.targetFileSizeBase, opts.maxSubcompactions);
    SplitPartition(output, opts.targetFileSizeBase, opts.maxSubcompactions);
    EmptyKeyCut(output, opts.targetFileSizeBase, opts.maxSubcompactions);
    FlattenElements(chunks);
    hide Split, TotalSize, EmptyRun, Flatten;
    forall i | 0 <= i < |chunks| ensures chunks[i] != [] && Sorted(chunks[i]) && forall e :: e in chunks[i] ==> Consistent(e) {
      assert chunks[i] in chunks;
      ChunkSorted(chunks, i);
    }
  }

  lemma OutputMetaOk(chunks: seq<seq<Entry>>, numbers: seq<nat>, sizes: seq<nat>, kept: set<Entry>, files: map<nat, seq<Entry>>, i: nat)
    requires |numbers| == |chunks| && |sizes| == |chunks| && GoodChunks(chunks, kept) && i < |chunks|
    requires numbers[i] in files && files[numbers[i]] == chunks[i]
    ensures FileOk(files, OutputMetas(chunks, numbers, sizes)[i])
    ensures OutputMetas(chunks, numbers, sizes)[i].number == numbers[i]
  {
  }

  lemma OutputMetasOrdered(chunks: seq<seq<Entry>>, numbers: seq<nat>, sizes: seq<nat>, kept: set<Entry>, i: nat, j: nat)
    requires |numbers| == |chunks| && |sizes| == |chunks| && GoodChunks(chunks, kept) && i < j < |chunks|
    ensures var ms := OutputMetas(chunks, numbers, sizes);
            Less(ms[i].largest.userKey, ms[j].smallest.userKey)
  {
    assert StrictlyBefore(chunks[i], chunks[j]);
    assert chunks[i][|chunks[i]| - 1] in chunks[i] && chunks[j][0] in chunks[j];
  }

  lemma OutputContents(chunks: seq<seq<Entry>>, numbers: seq<nat>, sizes: seq<nat>, kept: set<Entry>, files: map<nat, seq<Entry>>)
    requires |numbers| == |chunks| && |sizes| == |chunks| && GoodChunks(chunks, kept)
    requires forall i :: 0 <= i < |chunks| ==> numbers[i] in files && files[numbers[i]] == chunks[i]
    ensures LevelSet(files, OutputMetas(chunks, numbers, sizes)) == kept
  {
    var ms := OutputMetas(chunks, numbers, sizes);
    OutputEntries(chunks, numbers, sizes, kept, files);
    hide OutputMetas, LevelSet, TableEntries, GoodChunks;
    forall e | e in kept ensures e in LevelSet(files, ms) {
      var i := KeptIn(chunks, kept, e);
      LevelSetHas(files, ms, ms[i], e);
    }
    forall e | e in LevelSet(files, ms) ensures e in kept {
      var f := InLevelSet(files, ms, e);
      var i :| 0 <= i < |ms| && ms[i] == f;
      ChunkKept(chunks, kept, i, e);
    }
  }

  lemma KeptIn(chunks: seq<seq<Entry>>, kept: set<Entry>, e: Entry) returns (i: nat)
    requires GoodChunks(chunks, kept) && e in kept
    ensures i < |chunks| && e in chunks[i]
  {
    i :| 0 <= i < |chunks| && e in chunks[i];
  }

  lemma ChunkKept(chunks: seq<seq<Entry>>, kept: set<Entry>, i: nat, e: Entry)
    requires GoodChunks(chunks, kept) && i < |chunks| && e in chunks[i]
    ensures e in kept
  {
  }

  lemma OutputEntries(chunks: seq<seq<Entry>>, numbers: seq<nat>, sizes: seq<nat>, kept: set<Entry>, files: map<nat, seq<Entry>>)
    requires |numbers| == |chunks| && |sizes| == |chunks| && GoodChunks(chunks, kept)
    requires forall i :: 0 <= i < |chunks| ==> numbers[i] in files && files[numbers[i]] == chunks[i]
    ensures var ms := OutputMetas(chunks, numbers, sizes);
            |ms| == |chunks| && forall i :: 0 <= i < |chunks| ==> TableEntries(files, ms[i]) == chunks[i]
  {
  }

  lemma UntouchedByRewrite(db: Db, task: CompactionTask, chunks: seq<seq<Entry>>, numbers: seq<nat>, metas: seq<FileMeta>, db': Db, n: nat, f: FileMeta)
    requires TablesOk(db.version, db.files, db.nextFileNumber) && TaskShape(db.version, task)
    requires |numbers| == |chunks| && FreshNumbers(db, numbers)
    requires |metas| == |numbers| && forall i :: 0 <= i < |metas| ==> metas[i].number == numbers[i]
    requires db'.files == (db.files - Numbers(task.AllInputFiles())) + OutputFiles(chunks, numbers)
    requires db'.nextFileNumber == db.nextFileNumber + |chunks|
    requires InLevel(db.version, n, f) && !SelectedIn(task, n, f)
    ensures Untouched(db, db', metas, f)
  {
    OutputFilesAt(chunks, numbers);
    assert f.number < db.nextFileNumber && FileOk(db.files, f);
    forall g | g in task.AllInputFiles() ensures g.number != f.number {
      assert InLevel(db.version, task.inputLevel, g) || InLevel(db.version, task.outputLevel, g);
    }
  }

  ghost predicate SameButTables(db: Db, db': Db) {
    db'.mutable == db.mutable && db'.immutables == db.immutables && db'.lastSequence == db.lastSequence && db'.live == db.live
  }

  lemma ChunksFilled(opts: Options, db: Db, task: CompactionTask, w: nat)
    ensures forall i :: 0 <= i < |Chunks(opts, db, task, w)| ==> Chunks(opts, db, task, w)[i] != []
  {
    hide CompactionOutput;
    SplitPartition(CompactionOutput(db, task, w), opts.targetFileSizeBase, opts.maxSubcompactions);
    var chunks := Chunks(opts, db, task, w);
    assert forall i :: 0 <= i < |chunks| ==> chunks[i] in chunks;
  }

  lemma RewriteState(opts: Options, db: Db, task: CompactionTask, w: nat, numbers: seq<nat>, sizes: seq<nat>) returns (metas: seq<FileMeta>)
    requires TaskShape(db.version, task) && NumbersUnique(db.version) && !MovesTrivially(db, task, w)
    requires |numbers| == |Chunks(opts, db, task, w)| && |sizes| == |numbers|
    ensures var chunks, db' := Chunks(opts, db, task, w), ExecuteCompaction(opts, db, task, w, numbers, sizes);
            && (forall i :: 0 <= i < |chunks| ==> chunks[i] != [])
            && metas == OutputMetas(chunks, numbers, sizes) && |metas| == |chunks|
            && SameButTables(db, db')
            && ValidLevel(db.version, task.inputLevel) && ValidLevel(db.version, task.outputLevel)
            && db'.version == NewVersion(db.version, task, metas)
            && db'.files == (db.files - Numbers(task.AllInputFiles())) + OutputFiles(chunks, numbers)
            && db'.nextFileNumber == db.nextFileNumber + |chunks|
  {
    hide *;
    LevelsOf(db.version, task);
    ChunksFilled(opts, db, task, w);
    metas := OutputMetas(Chunks(opts, db, task, w), numbers, sizes);
    RewriteFields(opts, db, task, w, numbers, sizes, metas);
    RewriteEditsApply(db.version, task, metas);
    AppliedIs(db.version, RewriteEdits(task, metas), NewVersion(db.version, task, metas));
  }

  lemma RewriteFields(opts: Options, db: Db, task: CompactionTask, w: nat, numbers: seq<nat>, sizes: seq<nat>, metas: seq<FileMeta>)
    requires task.inputFiles != [] && !MovesTrivially(db, task, w)
    requires |numbers| == |Chunks(opts, db, task, w)| && |sizes| == |numbers|
    requires forall i :: 0 <= i < |Chunks(opts, db, task, w)| ==> Chunks(opts, db, task, w)[i] != []
    requires metas == OutputMetas(Chunks(opts, db, task, w), numbers, sizes)
    ensures |metas| == |numbers|
    ensures var db' := ExecuteCompaction(opts, db, task, w, numbers, sizes);
            && SameButTables(db, db')
            && db'.version == Applied(db.version, RewriteEdits(task, metas))
            && db'.files == (db.files - Numbers(task.AllInputFiles())) + OutputFiles(Chunks(opts, db, task, w), numbers)
            && db'.nextFileNumber == db.nextFileNumber + |numbers|
  {
    hide MovesTrivially, Chunks, Applied, RewriteEdits, OutputFiles, Numbers, MetaOf;
  }

  lemma AppliedIs(v: Version, edits: seq<VersionEdit>, next: Version)
    requires ApplyAll(v, edits) == Some(next)
    ensures Applied(v, edits) == next
  {
  }

  lemma OutputsAt(db: Db, task: CompactionTask, chunks: seq<seq<Entry>>, numbers: seq<nat>, files': map<nat, seq<Entry>>)
    requires |numbers| == |chunks| && FreshNumbers(db, numbers)
    requires files' == (db.files - Numbers(task.AllInputFiles())) + OutputFiles(chunks, numbers)
    ensures forall i :: 0 <= i < |chunks| ==>
              numbers[i] in files' && files'[numbers[i]] == chunks[i] && numbers[i] < db.nextFileNumber + |chunks|
    ensures forall i, j :: 0 <= i < j < |numbers| ==> numbers[i] != numbers[j]
  {
    OutputFilesAt(chunks, numbers);
    assert forall i :: 0 <= i < |numbers| ==> numbers[i] in numbers;
  }

  lemma PackEffect(db: Db, db': Db, task: CompactionTask, metas: seq<FileMeta>, kept: set<Entry>)
    requires SameButTables(db, db')
    requires ValidLevel(db.version, task.inputLevel) && ValidLevel(db.version, task.outputLevel)
    requires db'.version == NewVersion(db.version, task, metas)
    requires forall n, f :: InLevel(db.version, n, f) && !SelectedIn(task, n, f) ==> Untouched(db, db', metas, f)
    requires forall i :: 0 <= i < |metas| ==> FileOk(db'.files, metas[i]) && metas[i].number < db'.nextFileNumber
    requires forall i, j :: 0 <= i < j < |metas| ==>
               metas[i].number != metas[j].number && Less(metas[i].largest.userKey, metas[j].smallest.userKey)
    requires LevelSet(db'.files, metas) == kept
    ensures Effect(db, db', task, metas, kept)
  {
    hide FileOk, Untouched, NewVersion, LevelSet;
  }

  lemma RewriteEffect(opts: Options, db: Db, task: CompactionTask, w: nat, numbers: seq<nat>, sizes: seq<nat>,
                      db': Db, chunks: seq<seq<Entry>>, kept: set<Entry>)
    returns (metas: seq<FileMeta>)
    requires Inv(db) && TaskShape(db.version, task) && SplitSafe(opts, CompactionOutput(db, task, w)) && !MovesTrivially(db, task, w)
    requires chunks == Chunks(opts, db, task, w) && FreshNumbers(db, numbers) && |numbers| == |chunks| && |sizes| == |numbers|
    requires db' == ExecuteCompaction(opts, db, task, w, numbers, sizes)
    requires kept == Gc(LevelSet(db.files, task.AllInputFiles()), w, CanDropTombstones(db.version, task))
    ensures Effect(db, db', task, metas, kept)
  {
    hide *;
    ChunksGood(opts, db, task, w);
    UnpackInv(db);
    NumbersUniqueOf(db);
    metas := RewriteState(opts, db, task, w, numbers, sizes);
    OutputsAt(db, task, chunks, numbers, db'.files);
    OutputContents(chunks, numbers, sizes, kept, db'.files);
    OutputMetasGood(chunks, numbers, sizes, kept, db'.files);
    forall n, f | InLevel(db.version, n, f) && !SelectedIn(task, n, f) ensures Untouched(db, db', metas, f) {
      UntouchedByRewrite(db, task, chunks, numbers, metas, db', n, f);
    }
    PackEffect(db, db', task, metas, kept);
  }

  lemma OutputMetasGood(chunks: seq<seq<Entry>>, numbers: seq<nat>, sizes: seq<nat>, kept: set<Entry>, files: map<nat, seq<Entry>>)
    requires |numbers| == |chunks| && |sizes| == |chunks| && GoodChunks(chunks, kept)
    requires forall i :: 0 <= i < |chunks| ==> numbers[i] in files && files[numbers[i]] == chunks[i]
    requires forall i, j :: 0 <= i < j < |numbers| ==> numbers[i] != numbers[j]
    ensures var metas := OutputMetas(chunks, numbers, sizes);
            && |metas| == |chunks|
            && (forall i :: 0 <= i < |metas| ==> FileOk(files, metas[i]) && metas[i].number == numbers[i])
            && (forall i, j :: 0 <= i < j < |metas| ==>
                  metas[i].number != metas[j].number && Less(metas[i].largest.userKey, metas[j].smallest.userKey))
  {
    var metas := OutputMetas(chunks, numbers, sizes);
    assert |metas| == |chunks|;
    hide FileOk, OutputMetas;
    forall i | 0 <= i < |chunks| ensures FileOk(files, metas[i]) && metas[i].number == numbers[i] {
      OutputMetaOk(chunks, numbers, sizes, kept, files, i);
    }
    forall i, j | 0 <= i < j < |metas| ensures Less(metas[i].largest.userKey, metas[j].smallest.userKey) {
      OutputMetasOrdered(chunks, numbers, sizes, kept, i, j);
    }
  }

  lemma MoveState(opts: Options, db: Db, task: CompactionTask, w: nat, numbers: seq<nat>, sizes: seq<nat>)
    requires TaskShape(db.version, task) && MovesTrivially(db, task, w)
    ensures var db' := ExecuteCompaction(opts, db, task, w, numbers, sizes);
            && SameButTables(db, db')
            && ValidLevel(db.version, task.inputLevel) && ValidLevel(db.version, task.outputLevel)
            && db'.version == NewVersion(db.version, task, task.inputFiles)
            && db'.files == db.files && db'.nextFileNumber == db.nextFileNumber
  {
    MoveEditsApply(db.version, task);
    hide NewVersion, ApplyAll;
  }

  lemma MovedTable(db: Db, task: CompactionTask, w: nat)
    requires TablesOk(db.version, db.files, db.nextFileNumber) && TaskShape(db.version, task) && MovesTrivially(db, task, w)
    ensures var s := TableEntries(db.files, task.inputFiles[0]);
            && task.AllInputFiles() == task.inputFiles
            && LevelSet(db.files, task.inputFiles) == Elems(s)
            && Sorted(s)
            && |Compacted(s, w, CanDropTombstones(db.version, task))| == |s|
  {
    var f := task.inputFiles[0];
    TableOk(db, task.inputLevel, f);
    assert task.inputFiles == [f] && task.AllInputFiles() == [f];
    GatherIsLevelSet(db.files, [f]);
    assert Gather(db.files, [f]) == TableEntries(db.files, f) + Gather(db.files, []) == TableEntries(db.files, f);
    hide Compacted, TablesOk;
  }

  /** Nothing to collect: the moved file already holds what collection would keep. */
  lemma MoveKeepsAll(db: Db, task: CompactionTask, w: nat)
    requires Inv(db) && TaskShape(db.version, task) && MovesTrivially(db, task, w)
    ensures LevelSet(db.files, task.inputFiles) == Gc(LevelSet(db.files, task.AllInputFiles()), w, CanDropTombstones(db.version, task))
  {
    var s, drop := TableEntries(db.files, task.inputFiles[0]), CanDropTombstones(db.version, task);
    hide *;
    UnpackInv(db);
    MovedTable(db, task, w);
    InputConsistent(db, task);
    FunctionalSubset(All(db), Elems(s));
    LengthTestExact(s, w, drop);
    CompactedIsGc(s, w, drop);
  }

  lemma UntouchedByMove(db: Db, db': Db, task: CompactionTask, n: nat, g: FileMeta)
    requires TablesOk(db.version, db.files, db.nextFileNumber) && TaskShape(db.version, task) && task.IsTrivialMove()
    requires db'.files == db.files && db'.nextFileNumber == db.nextFileNumber
    requires InLevel(db.version, n, g) && !SelectedIn(task, n, g)
    ensures Untouched(db, db', task.inputFiles, g)
  {
    var f := task.inputFiles[0];
    assert InLevel(db.version, task.inputLevel, f);
  }

  lemma MovedFile(db: Db, task: CompactionTask, w: nat)
    requires TablesOk(db.version, db.files, db.nextFileNumber) && TaskShape(db.version, task) && MovesTrivially(db, task, w)
    ensures task.IsTrivialMove() && |task.inputFiles| == 1
    ensures FileOk(db.files, task.inputFiles[0]) && task.inputFiles[0].number < db.nextFileNumber
  {
    assert InLevel(db.version, task.inputLevel, task.inputFiles[0]);
    hide FileOk;
  }

  lemma MoveEffect(opts: Options, db: Db, task: CompactionTask, w: nat, numbers: seq<nat>, sizes: seq<nat>, db': Db, kept: set<Entry>)
    requires Inv(db) && TaskShape(db.version, task) && MovesTrivially(db, task, w)
    requires db' == ExecuteCompaction(opts, db, task, w, numbers, sizes)
    requires kept == Gc(LevelSet(db.files, task.AllInputFiles()), w, CanDropTombstones(db.version, task))
    ensures Effect(db, db', task, task.inputFiles, kept)
  {
    hide *;
    UnpackInv(db);
    MovedFile(db, task, w);
    MoveState(opts, db, task, w, numbers, sizes);
    MoveKeepsAll(db, task, w);
    forall n, g | InLevel(db.version, n, g) && !SelectedIn(task, n, g) ensures Untouched(db, db', task.inputFiles, g) {
      UntouchedByMove(db, db', task, n, g);
    }
    PackEffect(db, db', task, task.inputFiles, kept);
  }

  /** What a compaction does to the files, closed or not. */
  lemma CompactionEffect(opts: Options, db: Db, task: CompactionTask, numbers: seq<nat>, sizes: seq<nat>) returns (metas: seq<FileMeta>)
    requires Inv(db) && Compactable(opts, db, task, numbers, sizes)
    ensures TaskShape(db.version, task)
    ensures var w, drop := GcWatermark(db), CanDropTombstones(db.version, task);
            Effect(db, ExecuteCompaction(opts, db, task, w, numbers, sizes), task, metas, Gc(LevelSet(db.files, task.AllInputFiles()), w, drop))
  {
    var w, drop := GcWatermark(db), CanDropTombstones(db.version, task);
    PickedShape(db.version, task);
    hide Inv, TaskShape, Effect, CanDropTombstones, ExecuteCompaction, Picked, GcWatermark, CompactionOutput, Chunks, FreshNumbers, SplitSafe,
         MovesTrivially, Gc;
    var db' := ExecuteCompaction(opts, db, task, w, numbers, sizes);
    if MovesTrivially(db, task, w) {
      metas := task.inputFiles;
      MoveEffect(opts, db, task, w, numbers, sizes, db', Gc(LevelSet(db.files, task.AllInputFiles()), w, drop));
    } else {
      metas := RewriteEffect(opts, db, task, w, numbers, sizes, db', Chunks(opts, db, task, w),
                             Gc(LevelSet(db.files, task.AllInputFiles()), w, drop));
    }
  }

  lemma CompactableShape(opts: Options, db: Db, task: CompactionTask, numbers: seq<nat>, sizes: seq<nat>)
    requires Compactable(opts, db, task, numbers, sizes)
    ensures Picked(db.version, task) && TaskShape(db.version, task) && task.inputFiles != []
    ensures !MovesTrivially(db, task, GcWatermark(db)) ==>
              |numbers| == |Chunks(opts, db, task, GcWatermark(db))| && |sizes| == |numbers|
  {
    PickedShape(db.version, task);
    hide TaskShape, MovesTrivially, Chunks, GcWatermark, CompactionOutput, SplitSafe, FreshNumbers;
  }

  lemma CompactIsExecute(opts: Options, db: Db, task: CompactionTask, numbers: seq<nat>, sizes: seq<nat>)
    requires Enabled(opts, db, Compact(task, numbers, sizes))
    ensures Compactable(opts, db, task, numbers, sizes) && TaskShape(db.version, task) && task.inputFiles != []
    ensures !MovesTrivially(db, task, GcWatermark(db)) ==>
              |numbers| == |Chunks(opts, db, task, GcWatermark(db))| && |sizes| == |numbers|
    ensures Do(opts, db, Compact(task, numbers, sizes)) == ExecuteCompaction(opts, db, task, GcWatermark(db), numbers, sizes)
  {
    CompactableShape(opts, db, task, numbers, sizes);
    hide Compactable, TaskShape, MovesTrivially, Chunks, GcWatermark, ExecuteCompaction, L0Closed, Picked;
  }

  lemma ClosedEnabled(opts: Options, db: Db, task: CompactionTask, numbers: seq<nat>, sizes: seq<nat>)
    requires Compactable(opts, db, task, numbers, sizes) && L0Closed(db, task) && task.inputFiles != []
    requires !MovesTrivially(db, task, GcWatermark(db)) ==>
               |numbers| == |Chunks(opts, db, task, GcWatermark(db))| && |sizes| == |numbers|
    ensures Enabled(opts, db, Compact(task, numbers, sizes))
    ensures Do(opts, db, Compact(task, numbers, sizes)) == ExecuteCompaction(opts, db, task, GcWatermark(db), numbers, sizes)
  {
    hide Compactable, L0Closed, ExecuteCompaction, GcWatermark, MovesTrivially, Chunks;
  }

  lemma ClosedTask(opts: Options, db: Db, task: CompactionTask, numbers: seq<nat>, sizes: seq<nat>)
    requires Enabled(opts, db, Compact(task, numbers, sizes))
    ensures L0Closed(db, task)
  {
    hide Compactable, L0Closed;
  }

  /** A picked compaction keeps the invariant and every read from the watermark on. */
  lemma CompactionKeeps(opts: Options, db: Db, task: CompactionTask, numbers: seq<nat>, sizes: seq<nat>)
    requires Inv(db) && Enabled(opts, db, Compact(task, numbers, sizes))
    ensures var db' := Do(opts, db, Compact(task, numbers, sizes));
            Inv(db') && SameFrom(All(db), All(db'), GcWatermark(db))
  {
    hide *;
    CompactIsExecute(opts, db, task, numbers, sizes);
    var metas := CompactionEffect(opts, db, task, numbers, sizes);
    ClosedTask(opts, db, task, numbers, sizes);
    var w := GcWatermark(db);
    EffectKeeps(db, ExecuteCompaction(opts, db, task, w, numbers, sizes), task, metas, w, CanDropTombstones(db.version, task));
  }

  // ----- every step

  /** What a registered read sequence is promised by one step. */
  ghost predicate Protects(db: Db, db': Db, r: nat) {
    && (forall k :: Get(All(db'), k, r) == Get(All(db), k, r))
    && (forall e :: e in All(db) && e.key.sequence > r ==> e in All(db'))
    && (forall e :: e in All(db') && e.key.sequence <= r ==> e in All(db))
  }

  lemma SameAllProtects(db: Db, db': Db, r: nat)
    requires All(db') == All(db)
    ensures Protects(db, db', r)
  {
  }

  lemma WriteProtects(db: Db, batch: seq<BatchRecord>, r: nat)
    requires Inv(db) && r <= db.lastSequence
    ensures Protects(db, ApplyBatch(db, batch), r)
  {
    hide Inv, All, Get, ApplyBatch;
    WriteKeepsInv(db, batch);
    BatchEntriesFresh(db.lastSequence + 1, batch);
  }

  lemma SnapshotKeepsInv(db: Db, live: multiset<nat>)
    requires Inv(db) && forall s :: s in live ==> s in db.live || s == db.lastSequence
    ensures Inv(db.(live := live)) && All(db.(live := live)) == All(db)
  {
    var db' := db.(live := live);
    assert Layers(db') == Layers(db);
    hide TablesOk, Recency, Functional, Layers, Bounded;
  }

  lemma WatermarkProtects(db: Db, r: nat)
    ensures r in db.live ==> GcWatermark(db) <= r
  {
  }

  lemma SameFromProtects(db: Db, db': Db, w: nat, r: nat)
    requires SameFrom(All(db), All(db'), w) && w <= r
    ensures Protects(db, db', r)
  {
    hide All, Get;
  }

  lemma LastOnlyGrows(opts: Options, db: Db, step: Step)
    requires Enabled(opts, db, step)
    ensures db.lastSequence <= Do(opts, db, step).lastSequence
  {
    hide Picked, L0Closed, SplitSafe, MovesTrivially, Chunks, GcWatermark, CompactionOutput, InsertAll, BatchEntries, Applied, OutputFiles,
         RewriteEdits, MoveEdits, MetaOf;
  }

  /** Every step keeps the invariant and protects every registered read sequence. */
  lemma StepKeeps(opts: Options, db: Db, step: Step, r: nat)
    requires Inv(db) && Enabled(opts, db, step)
    ensures Inv(Do(opts, db, step)) && db.lastSequence <= Do(opts, db, step).lastSequence
    ensures r in db.live ==> Protects(db, Do(opts, db, step), r)
  {
    var db' := Do(opts, db, step);
    assert r in db.live ==> r <= db.lastSequence;
    hide Inv, All, Get, Protects, ExecuteCompaction, FlushMemtable, FreezeMutable, ApplyBatch, Picked, L0Closed, SplitSafe, MovesTrivially,
         Chunks, GcWatermark, SameFrom, CompactionOutput, FreshNumbers;
    LastOnlyGrows(opts, db, step);
    match step {
      case Write(batch) =>
        WriteKeepsInv(db, batch);
        if r in db.live { WriteProtects(db, batch, r); }
      case Freeze =>
        FreezeKeepsInv(db);
        SameAllProtects(db, db', r);
      case Flush(size) =>
        FlushKeepsInv(db, size);
        SameAllProtects(db, db', r);
      case Compact(task, numbers, sizes) =>
        CompactionKeeps(opts, db, task, numbers, sizes);
        WatermarkProtects(db, r);
        if r in db.live { SameFromProtects(db, db', GcWatermark(db), r); }
      case TakeSnapshot =>
        SnapshotKeepsInv(db, db.live + multiset{db.lastSequence});
        SameAllProtects(db, db', r);
      case CloneSnapshot(s) =>
        SnapshotKeepsInv(db, db.live + multiset{s});
        SameAllProtects(db, db', r);
      case ReleaseSnapshot(s) =>
        SnapshotKeepsInv(db, db.live - multiset{s});
        SameAllProtects(db, db', r);
    }
  }

  // ----- whole runs

  ghost predicate IsRun(opts: Options, states: seq<Db>, steps: seq<Step>) {
    && |states| == |steps| + 1
    && forall i :: 0 <= i < |steps| ==> Enabled(opts, states[i], steps[i]) && states[i + 1] == Do(opts, states[i], steps[i])
  }

  ghost predicate Reachable(opts: Options, db: Db) {
    exists maxLevels: nat, states, steps ::
      maxLevels >= 2 && IsRun(opts, states, steps) && states[0] == InitDb(maxLevels) && states[|steps|] == db
  }

  lemma {:induction false} RunKeepsInv(opts: Options, states: seq<Db>, steps: seq<Step>, i: nat)
    requires IsRun(opts, states, steps) && Inv(states[0]) && i <= |steps|
    ensures Inv(states[i])
  {
    if i > 0 {
      RunKeepsInv(opts, states, steps, i - 1);
      StepKeeps(opts, states[i - 1], steps[i - 1], 0);
    }
  }

  lemma ReachableInv(opts: Options, db: Db)
    requires Reachable(opts, db)
    ensures Inv(db)
  {
    var maxLevels: nat, states, steps :|
      maxLevels >= 2 && IsRun(opts, states, steps) && states[0] == InitDb(maxLevels) && states[|steps|] == db;
    InitInv(maxLevels);
    RunKeepsInv(opts, states, steps, |steps|);
  }

  /** While a read sequence stays registered, a run protects it from end to end. */
  lemma {:induction false} RunProtects(opts: Options, states: seq<Db>, steps: seq<Step>, i: nat, j: nat, r: nat)
    requires IsRun(opts, states, steps) && Inv(states[0]) && i <= j <= |steps|
    requires forall m :: i <= m < j ==> r in states[m].live
    ensures Protects(states[i], states[j], r)
    decreases j - i
  {
    if i < j {
      RunKeepsInv(opts, states, steps, j - 1);
      assert Enabled(opts, states[j - 1], steps[j - 1]) && states[j] == Do(opts, states[j - 1], steps[j - 1]);
      hide Inv, All, Get, Enabled, Do, Protects;
      RunProtects(opts, states, steps, i, j - 1, r);
      StepKeeps(opts, states[j - 1], steps[j - 1], r);
      ProtectsTrans(states[i], states[j - 1], states[j], r);
    } else {
      SameAllProtects(states[i], states[j], r);
    }
    hide *;
  }

  lemma ProtectsTrans(a: Db, b: Db, c: Db, r: nat)
    requires Protects(a, b, r) && Protects(b, c, r)
    ensures Protects(a, c, r)
  {
    hide All, Get;
  }

  /** Snapshot stability: whatever else the store does, a live snapshot's visible map never changes. */
  lemma SnapshotStability(opts: Options, states: seq<Db>, steps: seq<Step>, i: nat, j: nat, r: nat)
    requires IsRun(opts, states, steps) && Inv(states[0]) && i <= j <= |steps|
    requires forall m :: i <= m < j ==> r in states[m].live
    ensures View(All(states[j]), r) == View(All(states[i]), r)
    ensures forall k :: FirstHitValue(states[j], k, r) == FirstHitValue(states[i], k, r)
  {
    RunProtects(opts, states, steps, i, j, r);
    RunKeepsInv(opts, states, steps, i);
    RunKeepsInv(opts, states, steps, j);
    SameReadsSameView(All(states[j]), r, All(states[i]), r);
    forall k ensures FirstHitValue(states[j], k, r) == FirstHitValue(states[i], k, r) {
      LayeredReadCorrect(states[i], k, r);
      LayeredReadCorrect(states[j], k, r);
    }
  }

  ghost function FirstHitValue(db: Db, k: Bytes, r: nat): Option<Bytes> {
    Visible(FirstHit(Layers(db), k, r))
  }

  /** In every state kept by the invariant, stopping at the first layer that answers reads the newest version. */
  lemma LayeredReadCorrect(db: Db, k: Bytes, r: nat)
    requires Inv(db)
    ensures FirstHit(Layers(db), k, r) == Newest(All(db), k, r)
    ensures FirstHitValue(db, k, r) == Get(All(db), k, r)
  {
    FirstHitIsNewest(Layers(db), k, r);
  }

  /** In every reachable state the files of a level at or below 1 have pairwise disjoint user-key ranges. */
  lemma ReachableLevelsDisjoint(opts: Options, db: Db, n: nat, i: nat, j: nat)
    requires Reachable(opts, db) && 0 < n < |db.version.levels| && i < j < |db.version.levels[n]|
    ensures DisjointRanges(db.version.levels[n][i], db.version.levels[n][j])
  {
    ReachableInv(opts, db);
    var fs := db.version.levels[n];
    assert LevelDisjoint(fs);
    if fs[i] == fs[j] {
      RepeatedTwice(fs, i, j);
    }
  }

  lemma RepeatedTwice(fs: seq<FileMeta>, i: nat, j: nat)
    requires i < j < |fs| && fs[i] == fs[j]
    ensures multiset(fs)[fs[i]] >= 2
  {
    assert fs == fs[..j] + [fs[j]] + fs[j + 1..];
    assert fs[..j][i] == fs[i] && fs[i] in fs[..j];
  }
}
