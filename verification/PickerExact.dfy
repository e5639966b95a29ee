/**
 Exactly which files the picker takes (src/compact/picker.rs:26-48, 68-147), said without its filters.
 */
module PickerExact {
  import opened Keys
  import opened Versions
  import opened Picker

  /** The file's largest key satisfies the lower bound and its smallest the upper one. */
  predicate Reaches(f: FileMeta, lower: Bound, upper: Bound) {
    WithinBounds(f.largest.userKey, lower, Unbounded) && WithinBounds(f.smallest.userKey, Unbounded, upper)
  }

  /** `chosen` are the files at the positions `at`, in their order. */
  ghost predicate Selects(files: seq<FileMeta>, chosen: seq<FileMeta>, at: seq<nat>) {
    && |chosen| == |at|
    && (forall i :: 0 <= i < |at| ==> at[i] < |files| && chosen[i] == files[at[i]])
    && (forall i, j :: 0 <= i < j < |at| ==> at[i] < at[j])
  }

  lemma SelectsCons(files: seq<FileMeta>, chosen: seq<FileMeta>, rest: seq<nat>, head: bool) returns (at: seq<nat>)
    requires files != [] && Selects(files[1..], chosen, rest)
    ensures Selects(files, (if head then [files[0]] else []) + chosen, at)
    ensures forall j: nat :: j < |files| ==> (j in at <==> if j == 0 then head else j - 1 in rest)
  {
    var first: seq<nat> := if head then [0] else [];
    var later := seq(|rest|, i requires 0 <= i < |rest| => rest[i] + 1);
    at := first + later;
    forall j: nat | j < |files| ensures j in at <==> if j == 0 then head else j - 1 in rest {
      if j > 0 && j - 1 in rest {
        var i :| 0 <= i < |rest| && rest[i] == j - 1;
        assert later[i] == j;
      }
      assert j in at <==> j in first || j in later;
    }
  }

  lemma {:induction false} InRangeAt(files: seq<FileMeta>, lower: Bound, upper: Bound) returns (at: seq<nat>)
    ensures Selects(files, InRange(files, lower, upper), at)
    ensures forall j: nat :: j < |files| ==> (j in at <==> Reaches(files[j], lower, upper))
  {
    if files == [] {
      at := [];
    } else {
      var rest := InRangeAt(files[1..], lower, upper);
      at := SelectsCons(files, InRange(files[1..], lower, upper), rest, Reaches(files[0], lower, upper));
      hide Selects, WithinBounds;
      assert FileOverlapsRange(files[0], lower, upper) == Reaches(files[0], lower, upper) by { OverlapsIsReaches(files[0], lower, upper); }
      forall j: nat | 0 < j < |files| ensures j in at <==> Reaches(files[j], lower, upper) {
        assert files[1..][j - 1] == files[j];
      }
    }
  }

  lemma OverlapsIsReaches(f: FileMeta, lower: Bound, upper: Bound)
    ensures FileOverlapsRange(f, lower, upper) <==> Reaches(f, lower, upper)
  {
  }

  lemma {:induction false} OverlappingAt(files: seq<FileMeta>, smallest: Bytes, largest: Bytes) returns (at: seq<nat>)
    ensures Selects(files, Overlapping(files, smallest, largest), at)
    ensures forall j: nat :: j < |files| ==>
              (j in at <==> !Less(files[j].largest.userKey, smallest) && !Less(largest, files[j].smallest.userKey))
  {
    if files == [] {
      at := [];
    } else {
      var rest := OverlappingAt(files[1..], smallest, largest);
      at := SelectsCons(files, Overlapping(files[1..], smallest, largest), rest, UserKeyOverlaps(files[0], smallest, largest));
      forall j: nat | 0 < j < |files|
        ensures j in at <==> !Less(files[j].largest.userKey, smallest) && !Less(largest, files[j].smallest.userKey)
      {
        assert files[1..][j - 1] == files[j];
      }
    }
  }

  // ----- manual picks

  /** No file of the levels from `from` up to, but not including, `to` reaches into the range. */
  ghost predicate NoneReaches(v: Version, from: nat, to: int, lower: Bound, upper: Bound) {
    forall n, f :: from <= n < to && n < |v.levels| && f in v.levels[n] ==> !Reaches(f, lower, upper)
  }

  /** The filter is empty if no file reaches in, and otherwise starts with the first that does. */
  lemma InRangeFirst(files: seq<FileMeta>, lower: Bound, upper: Bound) returns (i: nat)
    ensures InRange(files, lower, upper) == [] <==> forall f :: f in files ==> !Reaches(f, lower, upper)
    ensures InRange(files, lower, upper) != [] ==>
              && i < |files| && InRange(files, lower, upper)[0] == files[i] && Reaches(files[i], lower, upper)
              && forall j :: 0 <= j < i ==> !Reaches(files[j], lower, upper)
  {
    i := 0;
    var at := InRangeAt(files, lower, upper);
    hide Reaches, InRange;
    assert forall k :: 0 <= k < |at| ==> at[k] in at;
    assert forall f :: f in files ==> exists j: nat :: j < |files| && files[j] == f;
    if at != [] {
      i := at[0];
    }
  }

  lemma {:induction false} PickFromNone(v: Version, level: nat, lower: Bound, upper: Bound)
    ensures PickFrom(v, level, lower, upper).None? <==> NoneReaches(v, level, |v.levels| - 1, lower, upper)
    decreases |v.levels| - level
  {
    hide Reaches, TaskForFiles, InRange;
    if level + 1 < |v.levels| {
      var i := InRangeFirst(v.levels[level], lower, upper);
      PickFromNone(v, level + 1, lower, upper);
    }
  }

  lemma {:induction false} PickFromFirst(v: Version, level: nat, lower: Bound, upper: Bound) returns (n: nat, i: nat)
    requires PickFrom(v, level, lower, upper).Some?
    ensures level <= n < |v.levels| - 1 && i < |v.levels[n]|
    ensures PickFrom(v, level, lower, upper) == Some(TaskForFiles(v, n, [v.levels[n][i]]))
    ensures Reaches(v.levels[n][i], lower, upper) && (forall j :: 0 <= j < i ==> !Reaches(v.levels[n][j], lower, upper))
    ensures NoneReaches(v, level, n, lower, upper)
    decreases |v.levels| - level
  {
    hide Reaches, TaskForFiles, InRange;
    i := InRangeFirst(v.levels[level], lower, upper);
    if InRange(v.levels[level], lower, upper) != [] {
      n := level;
    } else {
      n, i := PickFromFirst(v, level + 1, lower, upper);
    }
  }

  /** Nothing is picked exactly when no level-0 file and no file of a level short of the last reaches into the range. */
  lemma PickManualNone(v: Version, lower: Bound, upper: Bound)
    ensures PickManual(v, lower, upper).None? <==>
            (forall f :: f in v.l0Files ==> !Reaches(f, lower, upper)) && NoneReaches(v, 1, |v.levels| - 1, lower, upper)
  {
    var i := InRangeFirst(v.l0Files, lower, upper);
    PickFromNone(v, 1, lower, upper);
    hide Reaches, TaskForFiles, InRange, PickFrom;
  }

  /** If a level-0 file reaches into the range, exactly those that do are picked, in their order. */
  lemma PickManualTop(v: Version, lower: Bound, upper: Bound) returns (at: seq<nat>)
    requires exists f :: f in v.l0Files && Reaches(f, lower, upper)
    ensures PickManual(v, lower, upper).Some? && PickManual(v, lower, upper).value.inputLevel == 0
    ensures Selects(v.l0Files, PickManual(v, lower, upper).value.inputFiles, at)
    ensures forall j: nat :: j < |v.l0Files| ==> (j in at <==> Reaches(v.l0Files[j], lower, upper))
  {
    hide InRange, Reaches;
    at := InRangeAt(v.l0Files, lower, upper);
    var f :| f in v.l0Files && Reaches(f, lower, upper);
    var j: nat :| j < |v.l0Files| && v.l0Files[j] == f;
    assert j in at;
  }

  /** Otherwise it is the first file that does, of the lowest level that has one. */
  lemma PickManualDeep(v: Version, lower: Bound, upper: Bound) returns (n: nat, i: nat)
    requires forall f :: f in v.l0Files ==> !Reaches(f, lower, upper)
    requires PickManual(v, lower, upper).Some?
    ensures 0 < n < |v.levels| - 1 && i < |v.levels[n]|
    ensures PickManual(v, lower, upper).value.inputLevel == n
    ensures PickManual(v, lower, upper).value.inputFiles == [v.levels[n][i]]
    ensures Reaches(v.levels[n][i], lower, upper) && (forall j :: 0 <= j < i ==> !Reaches(v.levels[n][j], lower, upper))
    ensures NoneReaches(v, 1, n, lower, upper)
  {
    var k := InRangeFirst(v.l0Files, lower, upper);
    n, i := PickFromFirst(v, 1, lower, upper);
  }

  // ----- what a picked task takes along

  lemma {:induction false} RangeAttained(files: seq<FileMeta>)
    requires files != []
    ensures exists f :: f in files && f.smallest.userKey == UserKeyRange(files).0
    ensures exists f :: f in files && f.largest.userKey == UserKeyRange(files).1
  {
    var f := files[0];
    if |files| > 1 {
      RangeAttained(files[1..]);
      var lo :| lo in files[1..] && lo.smallest.userKey == UserKeyRange(files[1..]).0;
      var hi :| hi in files[1..] && hi.largest.userKey == UserKeyRange(files[1..]).1;
      assert lo in files && hi in files;
    }
  }

  /**
   A picked task writes one level down.  It takes along every file of that level from level 0, and from a deeper
   level exactly those whose key range meets that of its one input file; its own range is the least around all.
   */
  lemma TaskExact(v: Version, task: CompactionTask) returns (at: seq<nat>)
    requires Picked(v, task)
    ensures task.outputLevel == task.inputLevel + 1 && Selects(v.levels[task.outputLevel], task.overlapFiles, at)
    ensures task.inputLevel == 0 ==> task.overlapFiles == v.levels[1]
    ensures task.inputLevel > 0 ==>
              && |task.inputFiles| == 1
              && forall j: nat :: j < |v.levels[task.outputLevel]| ==>
                   (j in at <==>
                    && !Less(v.levels[task.outputLevel][j].largest.userKey, task.inputFiles[0].smallest.userKey)
                    && !Less(task.inputFiles[0].largest.userKey, v.levels[task.outputLevel][j].smallest.userKey))
    ensures exists f :: f in task.AllInputFiles() && f.smallest.userKey == task.smallestUserKey
    ensures exists f :: f in task.AllInputFiles() && f.largest.userKey == task.largestUserKey
    ensures forall f :: f in task.AllInputFiles() ==>
              !Less(f.smallest.userKey, task.smallestUserKey) && !Less(task.largestUserKey, f.largest.userKey)
  {
    TaskParts(v, task);
    var target, input := v.levels[task.inputLevel + 1], UserKeyRange(task.inputFiles);
    RangeAttained(task.AllInputFiles());
    hide UserKeyRange, Overlapping, Picked, TaskForFiles, Less;
    if task.inputLevel == 0 {
      at := seq(|target|, i => i);
    } else {
      at := OverlappingAt(target, input.0, input.1);
    }
  }

  lemma TaskParts(v: Version, task: CompactionTask)
    requires Picked(v, task)
    ensures task.outputLevel == task.inputLevel + 1 < |v.levels| && task.inputFiles != []
    ensures task.inputLevel == 0 ==> task.overlapFiles == v.levels[1]
    ensures task.inputLevel > 0 ==>
              && |task.inputFiles| == 1
              && UserKeyRange(task.inputFiles) == (task.inputFiles[0].smallest.userKey, task.inputFiles[0].largest.userKey)
              && task.overlapFiles ==
                 Overlapping(v.levels[task.outputLevel], task.inputFiles[0].smallest.userKey, task.inputFiles[0].largest.userKey)
    ensures (task.smallestUserKey, task.largestUserKey) == UserKeyRange(task.AllInputFiles())
  {
    assert task.overlapFiles == [] ==> task.AllInputFiles() == task.inputFiles;
    hide Overlapping;
  }
}
