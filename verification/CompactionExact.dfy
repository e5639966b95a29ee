/**
 What a compaction leaves behind (src/db.rs:854-946, 964-1006): when it only moves its file, how full the files it
 writes are, and that no table is kept that no level names.
 */
module CompactionExact {
  import opened Keys
  import opened Sorting
  import opened Executor
  import opened Splitter
  import opened Versions
  import opened Picker
  import opened Lsm
  import opened LsmCompaction
  import opened LsmRewrite
  import opened LsmSteps
  import opened LsmSafety

  // ----- trivial moves

  /** Nothing at or below the watermark goes: no key has two versions there, and no tombstone may be dropped. */
  ghost predicate AllStay(s: seq<Entry>, w: nat, drop: bool, seen: set<Bytes>) {
    && (forall i :: 0 <= i < |s| && s[i].key.sequence <= w ==>
          s[i].key.userKey !in seen && (s[i].value.Put? || !drop))
    && (forall i, j :: 0 <= i < j < |s| && s[i].key.sequence <= w && s[j].key.sequence <= w ==>
          s[i].key.userKey != s[j].key.userKey)
  }

  lemma AllStayTail(h: Entry, rest: seq<Entry>, w: nat, drop: bool, seen: set<Bytes>)
    requires AllStay([h] + rest, w, drop, seen)
    ensures h.key.sequence > w ==> AllStay(rest, w, drop, seen)
    ensures h.key.sequence <= w ==>
              h.key.userKey !in seen && (h.value.Put? || !drop) && AllStay(rest, w, drop, seen + {h.key.userKey})
  {
    var s := [h] + rest;
    assert s[0] == h;
    forall i | 0 <= i < |rest| ensures rest[i] == s[i + 1] {
    }
    forall i, j | 0 <= i < j < |rest| && rest[i].key.sequence <= w && rest[j].key.sequence <= w
      ensures rest[i].key.userKey != rest[j].key.userKey
    {
      assert s[i + 1] == rest[i] && s[j + 1] == rest[j];
    }
  }

  lemma AllStayGrow(h: Entry, rest: seq<Entry>, w: nat, drop: bool, seen: set<Bytes>)
    requires h.key.sequence > w ==> AllStay(rest, w, drop, seen)
    requires h.key.sequence <= w ==>
               h.key.userKey !in seen && (h.value.Put? || !drop) && AllStay(rest, w, drop, seen + {h.key.userKey})
    ensures AllStay([h] + rest, w, drop, seen)
  {
    var s := [h] + rest;
    assert s[0] == h;
    forall i | 0 < i < |s| ensures s[i] == rest[i - 1] {
    }
    forall i, j | 0 <= i < j < |s| && s[i].key.sequence <= w && s[j].key.sequence <= w
      ensures s[i].key.userKey != s[j].key.userKey
    {
      assert s[j] == rest[j - 1];
    }
  }

  lemma AllStayCons(h: Entry, rest: seq<Entry>, w: nat, drop: bool, seen: set<Bytes>)
    ensures AllStay([h] + rest, w, drop, seen) <==>
            if h.key.sequence > w then AllStay(rest, w, drop, seen)
            else h.key.userKey !in seen && (h.value.Put? || !drop) && AllStay(rest, w, drop, seen + {h.key.userKey})
  {
    if AllStay([h] + rest, w, drop, seen) {
      AllStayTail(h, rest, w, drop, seen);
    } else if if h.key.sequence > w then AllStay(rest, w, drop, seen)
              else h.key.userKey !in seen && (h.value.Put? || !drop) && AllStay(rest, w, drop, seen + {h.key.userKey}) {
      AllStayGrow(h, rest, w, drop, seen);
    }
    hide AllStay;
  }

  lemma {:induction false} KeptWhole(s: seq<Entry>, w: nat, drop: bool, seen: set<Bytes>)
    requires Sorted(s)
    ensures |Collect(s, w, drop, seen)| == |s| <==> AllStay(s, w, drop, seen)
  {
    if s != [] {
      var h, rest := s[0], s[1..];
      assert s == [h] + rest;
      SortedTail(s);
      AllStayCons(h, rest, w, drop, seen);
      hide AllStay;
      CollectSorted(rest, w, drop, seen);
      CollectSorted(rest, w, drop, seen + {h.key.userKey});
      KeptWhole(rest, w, drop, seen);
      KeptWhole(rest, w, drop, seen + {h.key.userKey});
    }
  }

  /**
   A picked compaction only moves its file exactly when it comes from a deeper level, meets no file below, and
   everything in its file would stay.
   */
  lemma MovesTriviallyIff(db: Db, task: CompactionTask, w: nat)
    requires Inv(db) && Picked(db.version, task)
    ensures task.inputFiles != []
    ensures MovesTrivially(db, task, w) <==>
            && task.inputLevel > 0 && task.overlapFiles == []
            && AllStay(TableEntries(db.files, task.inputFiles[0]), w, CanDropTombstones(db.version, task), {})
  {
    var f, drop := task.inputFiles[0], CanDropTombstones(db.version, task);
    var s := TableEntries(db.files, f);
    OneInput(db.version, task);
    UnpackInv(db);
    TableOk(db, task.inputLevel, f);
    CompactedWhole(s, w, drop);
    hide Inv, AllStay, CanDropTombstones, Compacted, Picked;
  }

  lemma OneInput(v: Version, task: CompactionTask)
    requires Picked(v, task)
    ensures task.inputFiles != [] && InLevel(v, task.inputLevel, task.inputFiles[0])
    ensures task.inputLevel > 0 ==> |task.inputFiles| == 1
  {
    hide TaskForFiles;
  }

  lemma CompactedWhole(s: seq<Entry>, w: nat, drop: bool)
    requires Sorted(s)
    ensures |Compacted(s, w, drop)| == |s| <==> AllStay(s, w, drop, {})
  {
    SortBySorted(s, EntryKey);
    KeptWhole(s, w, drop, {});
  }

  // ----- the files written

  /**
   A compaction that rewrites leaves at most the allowed number of new tables, at least one, and every one but the
   last holds at least the target size.
   */
  lemma OutputsFill(opts: Options, db: Db, task: CompactionTask, numbers: seq<nat>, sizes: seq<nat>)
    requires Inv(db) && Compactable(opts, db, task, numbers, sizes)
    requires task.inputFiles != [] && !MovesTrivially(db, task, GcWatermark(db))
    ensures |numbers| == |Chunks(opts, db, task, GcWatermark(db))| && |sizes| == |numbers|
    ensures var db' := ExecuteCompaction(opts, db, task, GcWatermark(db), numbers, sizes);
            && |numbers| <= (if opts.maxSubcompactions == 0 then 1 else opts.maxSubcompactions)
            && (forall i :: 0 <= i < |numbers| ==> numbers[i] in db'.files)
            && (forall i :: 0 <= i < |numbers| - 1 ==> TotalSize(db'.files[numbers[i]]) >= opts.targetFileSizeBase)
  {
    var w := GcWatermark(db);
    ChunksBounded(opts, db, task, w);
    CompactableFresh(opts, db, task, numbers, sizes);
    hide *;
    UnpackInv(db);
    NumbersUniqueOf(db);
    PickedShape(db.version, task);
    var chunks, db' := Chunks(opts, db, task, w), ExecuteCompaction(opts, db, task, w, numbers, sizes);
    var metas := RewriteState(opts, db, task, w, numbers, sizes);
    OutputsAt(db, task, chunks, numbers, db'.files);
  }


  lemma CompactableFresh(opts: Options, db: Db, task: CompactionTask, numbers: seq<nat>, sizes: seq<nat>)
    requires Compactable(opts, db, task, numbers, sizes)
    ensures Picked(db.version, task) && FreshNumbers(db, numbers) && task.inputFiles != []
    ensures !MovesTrivially(db, task, GcWatermark(db)) ==>
              |numbers| == |Chunks(opts, db, task, GcWatermark(db))| && |sizes| == |numbers|
  {
    hide FreshNumbers, Chunks, GcWatermark, MovesTrivially, CompactionOutput, SplitSafe;
  }

  lemma ChunksBounded(opts: Options, db: Db, task: CompactionTask, w: nat)
    ensures var cs := Chunks(opts, db, task, w);
            && |cs| <= (if opts.maxSubcompactions == 0 then 1 else opts.maxSubcompactions)
            && forall i :: 0 <= i < |cs| - 1 ==> TotalSize(cs[i]) >= opts.targetFileSizeBase
  {
    hide CompactionOutput, TotalSize;
    SplitPartition(CompactionOutput(db, task, w), opts.targetFileSizeBase, opts.maxSubcompactions);
    SplitFillsChunks(CompactionOutput(db, task, w), opts.targetFileSizeBase, opts.maxSubcompactions);
    hide Split;
  }

  // ----- tables and the levels that name them

  ghost predicate Named(v: Version, n: nat) {
    exists level, f :: InLevel(v, level, f) && f.number == n
  }

  /** A table exists exactly if some level names it. */
  ghost predicate TablesNamed(db: Db) {
    forall n :: n in db.files <==> Named(db.version, n)
  }

  lemma NamedExist(db: Db)
    requires Inv(db)
    ensures forall n :: Named(db.version, n) ==> n in db.files
  {
    UnpackInv(db);
    hide Inv;
  }

  lemma FlushNamed(db: Db, size: nat)
    requires Inv(db) && TablesNamed(db)
    ensures TablesNamed(FlushMemtable(db, size))
  {
    var db' := FlushMemtable(db, size);
    hide MetaOf;
    NamedAfterFlush(db, size);
    forall n ensures n in db'.files <==> Named(db'.version, n) {
      assert n in db.files <==> Named(db.version, n);
    }
  }

  lemma NamedAfterFlush(db: Db, size: nat)
    ensures forall n: nat :: Named(FlushMemtable(db, size).version, n) <==>
              Named(db.version, n) || (Flushable(db).map_ != [] && n == db.nextFileNumber)
  {
    var db' := FlushMemtable(db, size);
    var v, v' := db.version, db'.version;
    if Flushable(db).map_ != [] {
      var meta := FlushedMeta(db, size);
      forall level, f ensures InLevel(v', level, f) <==> InLevel(v, level, f) || (level == 0 && f == meta) {
      }
      assert meta.number == db.nextFileNumber;
      hide InLevel, FlushMemtable;
      forall n: nat ensures Named(v', n) <==> Named(v, n) || n == db.nextFileNumber {
        if n == db.nextFileNumber { assert InLevel(v', 0, meta); }
        if Named(v, n) {
          var level, f :| InLevel(v, level, f) && f.number == n;
          assert InLevel(v', level, f);
        }
      }
    }
  }

  /** The numbers named after a compaction: those of the files not selected, and those of the new ones. */
  lemma NamedAfter(v: Version, task: CompactionTask, metas: seq<FileMeta>, n: nat)
    requires TaskShape(v, task) && NumbersUnique(v)
    requires ValidLevel(v, task.inputLevel) && ValidLevel(v, task.outputLevel)
    requires (Named(v, n) && n !in Numbers(task.AllInputFiles())) || n in Numbers(metas)
    ensures Named(NewVersion(v, task, metas), n)
  {
    var v' := NewVersion(v, task, metas);
    hide NewVersion, NumbersUnique, TaskShape, InLevel;
    if n in Numbers(metas) {
      var f :| f in metas && f.number == n;
      NewVersionLevels(v, task, metas, task.outputLevel, f);
    } else {
      var level, f :| InLevel(v, level, f) && f.number == n;
      NewVersionLevels(v, task, metas, level, f);
      assert f !in task.AllInputFiles();
      assert InLevel(v', level, f);
    }
  }

  lemma CompactionNamed(opts: Options, db: Db, task: CompactionTask, numbers: seq<nat>, sizes: seq<nat>)
    requires Inv(db) && TablesNamed(db) && Enabled(opts, db, Compact(task, numbers, sizes))
    ensures TablesNamed(Do(opts, db, Compact(task, numbers, sizes)))
  {
    var db', w := Do(opts, db, Compact(task, numbers, sizes)), GcWatermark(db);
    hide *;
    CompactionKeeps(opts, db, task, numbers, sizes);
    NamedExist(db');
    CompactIsExecute(opts, db, task, numbers, sizes);
    CompactableFresh(opts, db, task, numbers, sizes);
    UnpackInv(db);
    NumbersUniqueOf(db);
    LevelsOf(db.version, task);
    if MovesTrivially(db, task, w) {
      MoveState(opts, db, task, w, numbers, sizes);
      MovedFile(db, task, w);
      forall n | n in db'.files ensures Named(db'.version, n) {
        NamedOf(db, n);
        NothingElse(task, n);
        NamedAfter(db.version, task, task.inputFiles, n);
      }
    } else {
      var metas := RewriteState(opts, db, task, w, numbers, sizes);
      var chunks := Chunks(opts, db, task, w);
      FreshDistinct(db, numbers);
      OutputFilesAt(chunks, numbers);
      forall n | n in db'.files ensures Named(db'.version, n) {
        if n in numbers {
          MetaNumber(chunks, numbers, sizes, n);
        } else {
          assert n in db.files && n !in Numbers(task.AllInputFiles());
          NamedOf(db, n);
        }
        NamedAfter(db.version, task, metas, n);
      }
    }
    PackNamed(db');
  }

  lemma NamedOf(db: Db, n: nat)
    requires TablesNamed(db) && n in db.files
    ensures Named(db.version, n)
  {
  }

  lemma PackNamed(db: Db)
    requires forall n :: n in db.files ==> Named(db.version, n)
    requires forall n :: Named(db.version, n) ==> n in db.files
    ensures TablesNamed(db)
  {
  }

  lemma NothingElse(task: CompactionTask, n: nat)
    requires task.IsTrivialMove()
    ensures n in Numbers(task.AllInputFiles()) ==> n in Numbers(task.inputFiles)
  {
    assert task.AllInputFiles() == task.inputFiles;
  }

  lemma FreshDistinct(db: Db, numbers: seq<nat>)
    requires FreshNumbers(db, numbers)
    ensures forall i, j :: 0 <= i < j < |numbers| ==> numbers[i] != numbers[j]
  {
  }

  lemma MetaNumber(chunks: seq<seq<Entry>>, numbers: seq<nat>, sizes: seq<nat>, n: nat)
    requires |numbers| == |chunks| && |sizes| == |chunks| && forall i :: 0 <= i < |chunks| ==> chunks[i] != []
    requires n in numbers
    ensures n in Numbers(OutputMetas(chunks, numbers, sizes))
  {
    var i :| 0 <= i < |numbers| && numbers[i] == n;
    assert OutputMetas(chunks, numbers, sizes)[i].number == n;
    assert OutputMetas(chunks, numbers, sizes)[i] in OutputMetas(chunks, numbers, sizes);
  }

  lemma StepNamed(opts: Options, db: Db, step: Step)
    requires Inv(db) && TablesNamed(db) && Enabled(opts, db, step)
    ensures TablesNamed(Do(opts, db, step))
  {
    hide Inv, Picked, L0Closed, Compactable, ExecuteCompaction, FlushMemtable, InsertAll, BatchEntries, Named;
    match step {
      case Flush(size) => FlushNamed(db, size);
      case Compact(task, numbers, sizes) => CompactionNamed(opts, db, task, numbers, sizes);
      case _ =>
    }
  }

  lemma {:induction false} RunNamed(opts: Options, states: seq<Db>, steps: seq<Step>, i: nat)
    requires IsRun(opts, states, steps) && Inv(states[0]) && TablesNamed(states[0]) && i <= |steps|
    ensures TablesNamed(states[i])
  {
    hide Enabled, Do, Inv, TablesNamed;
    if i > 0 {
      RunNamed(opts, states, steps, i - 1);
      RunKeepsInv(opts, states, steps, i - 1);
      StepNamed(opts, states[i - 1], steps[i - 1]);
    }
  }

  /** In every reachable state the tables are exactly those the levels name: none is missing, none is left over. */
  lemma ReachableNamed(opts: Options, db: Db)
    requires Reachable(opts, db)
    ensures TablesNamed(db)
  {
    var maxLevels: nat, states, steps :|
      maxLevels >= 2 && IsRun(opts, states, steps) && states[0] == InitDb(maxLevels) && states[|steps|] == db;
    InitInv(maxLevels);
    assert TablesNamed(InitDb(maxLevels));
    RunNamed(opts, states, steps, |steps|);
  }
}
