/** Compaction tasks and the picker (src/compact/task.rs, src/compact/picker.rs). */
module Picker {
  import opened Keys
  import opened Versions

  datatype Bound = Included(bound: Bytes) | Excluded(bound: Bytes) | Unbounded

  datatype CompactionTask = CompactionTask(
    inputLevel: nat, outputLevel: nat, inputFiles: seq<FileMeta>, overlapFiles: seq<FileMeta>,
    smallestUserKey: Bytes, largestUserKey: Bytes)
  {
    predicate IsTrivialMove() {
      inputLevel > 0 && |inputFiles| == 1 && overlapFiles == []
    }

    function AllInputFiles(): seq<FileMeta> { inputFiles + overlapFiles }
  }

  predicate WithinBounds(key: Bytes, lower: Bound, upper: Bound) {
    && (match lower
        case Included(b) => Leq(b, key)
        case Excluded(b) => Less(b, key)
        case Unbounded => true)
    && (match upper
        case Included(b) => Leq(key, b)
        case Excluded(b) => Less(key, b)
        case Unbounded => true)
  }

  predicate FileOverlapsRange(f: FileMeta, lower: Bound, upper: Bound) {
    && (match lower
        case Included(b) => Leq(b, f.largest.userKey)
        case Excluded(b) => Less(b, f.largest.userKey)
        case Unbounded => true)
    && (match upper
        case Included(b) => Leq(f.smallest.userKey, b)
        case Excluded(b) => Less(f.smallest.userKey, b)
        case Unbounded => true)
  }

  predicate UserKeyOverlaps(f: FileMeta, smallest: Bytes, largest: Bytes) {
    Leq(f.smallest.userKey, largest) && Leq(smallest, f.largest.userKey)
  }

  function MinKey(a: Bytes, b: Bytes): Bytes { if Less(b, a) then b else a }
  function MaxKey(a: Bytes, b: Bytes): Bytes { if Less(a, b) then b else a }

  function UserKeyRange(files: seq<FileMeta>): (r: (Bytes, Bytes))
    requires files != []
    ensures forall f :: f in files ==> Leq(r.0, f.smallest.userKey) && Leq(f.largest.userKey, r.1)
  {
    UserKeyOrder();
    var f := files[0];
    if |files| == 1 then (f.smallest.userKey, f.largest.userKey)
    else
      var r := UserKeyRange(files[1..]);
      (MinKey(f.smallest.userKey, r.0), MaxKey(f.largest.userKey, r.1))
  }

  function Overlapping(files: seq<FileMeta>, smallest: Bytes, largest: Bytes): (r: seq<FileMeta>)
    ensures forall f :: f in r <==> f in files && UserKeyOverlaps(f, smallest, largest)
  {
    if files == [] then []
    else (if UserKeyOverlaps(files[0], smallest, largest) then [files[0]] else [])
         + Overlapping(files[1..], smallest, largest)
  }

  function InRange(files: seq<FileMeta>, lower: Bound, upper: Bound): (r: seq<FileMeta>)
    ensures forall f :: f in r <==> f in files && FileOverlapsRange(f, lower, upper)
  {
    if files == [] then []
    else (if FileOverlapsRange(files[0], lower, upper) then [files[0]] else []) + InRange(files[1..], lower, upper)
  }

  function TaskForFiles(v: Version, inputLevel: nat, inputFiles: seq<FileMeta>): CompactionTask
    requires inputFiles != []
  {
    var last := if |v.levels| == 0 then 0 else |v.levels| - 1;
    var outputLevel := if inputLevel + 1 <= last then inputLevel + 1 else last;
    var input := UserKeyRange(inputFiles);
    var overlap :=
      if outputLevel >= |v.levels| then []
      else if inputLevel == 0 then v.levels[outputLevel]
      else Overlapping(v.levels[outputLevel], input.0, input.1);
    var whole := if overlap == [] then input else UserKeyRange(inputFiles + overlap);
    CompactionTask(inputLevel, outputLevel, inputFiles, overlap, whole.0, whole.1)
  }

  /** The first level from `level` on, short of the last, with a file in range; its first such file. */
  function PickFrom(v: Version, level: nat, lower: Bound, upper: Bound): Option<CompactionTask>
    decreases |v.levels| - level
  {
    if level + 1 >= |v.levels| then None
    else if InRange(v.levels[level], lower, upper) != [] then
      Some(TaskForFiles(v, level, [InRange(v.levels[level], lower, upper)[0]]))
    else PickFrom(v, level + 1, lower, upper)
  }

  function PickManual(v: Version, lower: Bound, upper: Bound): Option<CompactionTask> {
    var files := InRange(v.l0Files, lower, upper);
    if files != [] then Some(TaskForFiles(v, 0, files)) else PickFrom(v, 1, lower, upper)
  }

  function PickLevel(v: Version, level: nat): Option<CompactionTask> {
    if level == 0 then
      if v.l0Files == [] then None else Some(TaskForFiles(v, 0, v.l0Files))
    else if level < |v.levels| && v.levels[level] != [] then
      Some(TaskForFiles(v, level, [v.levels[level][0]]))
    else None
  }

  /** What every picked task looks like: existing files of one level, built by `TaskForFiles`. */
  ghost predicate Picked(v: Version, task: CompactionTask) {
    && task.inputLevel + 1 < |v.levels|
    && task.inputFiles != []
    && (forall f :: f in task.inputFiles ==> f in LevelFiles(v, task.inputLevel))
    && (task.inputLevel > 0 ==> |task.inputFiles| == 1)
    && task == TaskForFiles(v, task.inputLevel, task.inputFiles)
  }

  lemma {:induction false} PickFromPicked(v: Version, level: nat, lower: Bound, upper: Bound)
    requires level > 0
    ensures PickFrom(v, level, lower, upper).Some? ==> Picked(v, PickFrom(v, level, lower, upper).value)
    decreases |v.levels| - level
  {
    if level + 1 < |v.levels| {
      if InRange(v.levels[level], lower, upper) != [] {
        assert InRange(v.levels[level], lower, upper)[0] in v.levels[level];
      } else {
        PickFromPicked(v, level + 1, lower, upper);
      }
    }
  }

  /** With at least two levels, manual picks are well formed, and an unbounded one takes every level-0 file. */
  lemma PickManualPicked(v: Version, lower: Bound, upper: Bound)
    requires |v.levels| >= 2
    ensures PickManual(v, lower, upper).Some? ==> Picked(v, PickManual(v, lower, upper).value)
    ensures lower.Unbounded? && upper.Unbounded? && v.l0Files != [] ==>
            PickManual(v, lower, upper) == Some(TaskForFiles(v, 0, v.l0Files))
  {
    PickFromPicked(v, 1, lower, upper);
    if lower.Unbounded? && upper.Unbounded? {
      AllInRange(v.l0Files);
    }
  }

  lemma {:induction false} AllInRange(files: seq<FileMeta>)
    ensures InRange(files, Unbounded, Unbounded) == files
  {
    if files != [] {
      AllInRange(files[1..]);
    }
  }

  lemma PickLevelPicked(v: Version, level: nat)
    requires level + 1 < |v.levels|
    ensures PickLevel(v, level).Some? ==> Picked(v, PickLevel(v, level).value)
  {
  }
}
