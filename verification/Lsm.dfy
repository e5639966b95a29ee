/**
 The store as a state machine (src/db.rs): write, freeze, flush, compact, snapshot.

 The state holds the memtables, the current version, the immutable contents of every table
 file, and the read sequences registered by live snapshots.  Each step is one atomic function
 of the state; `Layers` lists what a point read consults, newest first.
 */
module Lsm {
  import opened Keys
  import opened Visibility
  import opened Executor
  import opened Splitter
  import opened MemTables
  import opened Versions
  import opened Picker

  datatype BatchRecord = PutRecord(key: Bytes, value: Bytes) | DeleteRecord(key: Bytes)

  datatype Options = Options(memtableSize: nat, targetFileSizeBase: nat, maxSubcompactions: nat)

  datatype Db = Db(
    mutable: MemTable, immutables: seq<MemTable>, version: Version, files: map<nat, seq<Entry>>,
    lastSequence: nat, nextFileNumber: nat, live: multiset<nat>)

  // ----- contents

  function TableEntries(files: map<nat, seq<Entry>>, f: FileMeta): seq<Entry> {
    if f.number in files then files[f.number] else []
  }

  function LevelSet(files: map<nat, seq<Entry>>, fs: seq<FileMeta>): set<Entry> {
    set f, e | f in fs && e in TableEntries(files, f) :: e
  }

  /** Immutable memtables are pushed at the end, so the newest is the last. */
  function ImmutableLayers(ms: seq<MemTable>): seq<set<Entry>> {
    seq(|ms|, i requires 0 <= i < |ms| => Elems(ms[|ms| - 1 - i].map_))
  }

  function L0Layers(files: map<nat, seq<Entry>>, l0: seq<FileMeta>): seq<set<Entry>> {
    seq(|l0|, i requires 0 <= i < |l0| => Elems(TableEntries(files, l0[i])))
  }

  function LevelLayers(files: map<nat, seq<Entry>>, levels: seq<seq<FileMeta>>): seq<set<Entry>> {
    seq(|levels|, i requires 0 <= i < |levels| => LevelSet(files, levels[i]))
  }

  function BelowMutable(db: Db): seq<set<Entry>> {
    ImmutableLayers(db.immutables)
    + L0Layers(db.files, db.version.l0Files)
    + LevelLayers(db.files, db.version.levels)
  }

  /** What a point read consults: memtables newest first, level-0 files front to back, then the levels. */
  function Layers(db: Db): seq<set<Entry>> {
    [Elems(db.mutable.map_)] + BelowMutable(db)
  }

  ghost function All(db: Db): set<Entry> { Union(Layers(db)) }

  // ----- writes

  function RecordEntry(r: BatchRecord, sequence: nat): Entry {
    match r
    case PutRecord(k, v) => Entry(InternalKey(k, sequence, PutType), Put(v))
    case DeleteRecord(k) => Entry(InternalKey(k, sequence, DeleteType), Delete)
  }

  function BatchEntries(start: nat, batch: seq<BatchRecord>): seq<Entry> {
    seq(|batch|, i requires 0 <= i < |batch| => RecordEntry(batch[i], start + i))
  }

  function InsertAll(m: MemTable, es: seq<Entry>): MemTable
    decreases |es|
  {
    if es == [] then m else InsertAll(MemInsert(m, es[0]), es[1..])
  }

  function ApplyBatch(db: Db, batch: seq<BatchRecord>): Db {
    db.(mutable := InsertAll(db.mutable, BatchEntries(db.lastSequence + 1, batch)),
        lastSequence := db.lastSequence + |batch|)
  }

  function FreezeMutable(db: Db): Db {
    db.(mutable := EMPTY_MEMTABLE, immutables := db.immutables + [db.mutable])
  }

  // ----- flush

  function MinSeq(s: seq<Entry>): (n: nat)
    requires s != []
    ensures forall e :: e in s ==> n <= e.key.sequence
  {
    if |s| == 1 then s[0].key.sequence
    else if MinSeq(s[1..]) < s[0].key.sequence then MinSeq(s[1..]) else s[0].key.sequence
  }

  function MaxSeq(s: seq<Entry>): (n: nat)
    requires s != []
    ensures forall e :: e in s ==> e.key.sequence <= n
    ensures exists e :: e in s && e.key.sequence == n
  {
    if |s| == 1 then
      assert s[0] in s;
      s[0].key.sequence
    else
      var m := MaxSeq(s[1..]);
      if m > s[0].key.sequence then m else assert s[0] in s; s[0].key.sequence
  }

  /** The sequence range recorded of a table is the range of its entries: both ends occur and all lie between. */
  lemma {:induction false} SequenceRange(number: nat, fileSize: nat, s: seq<Entry>)
    requires s != []
    ensures forall e :: e in s ==> MetaOf(number, fileSize, s).smallestSeq <= e.key.sequence <= MetaOf(number, fileSize, s).largestSeq
    ensures exists e :: e in s && e.key.sequence == MetaOf(number, fileSize, s).smallestSeq
    ensures exists e :: e in s && e.key.sequence == MetaOf(number, fileSize, s).largestSeq
  {
    if |s| == 1 {
      assert s[0] in s;
    } else {
      SequenceRange(number, fileSize, s[1..]);
      var low :| low in s[1..] && low.key.sequence == MinSeq(s[1..]);
      assert low in s && s[0] in s;
    }
  }

  function MetaOf(number: nat, fileSize: nat, s: seq<Entry>): FileMeta
    requires s != []
  {
    FileMeta(number, fileSize, s[0].key, s[|s| - 1].key, MinSeq(s), MaxSeq(s))
  }

  /** The oldest immutable memtable, or the mutable one when there is none (src/db.rs:1089-1103). */
  function Flushable(db: Db): MemTable {
    if db.immutables != [] then db.immutables[0] else db.mutable
  }

  function FlushedMeta(db: Db, fileSize: nat): FileMeta
    requires Flushable(db).map_ != []
  {
    MetaOf(db.nextFileNumber, fileSize, Flushable(db).map_)
  }

  /** Takes two numbers, one for the table and one for the new log. */
  function FlushMemtable(db: Db, fileSize: nat): Db {
    var m := Flushable(db);
    if m.map_ == [] then db
    else
      db.(mutable := if db.immutables == [] then EMPTY_MEMTABLE else db.mutable,
          immutables := if db.immutables == [] then [] else db.immutables[1..],
          version := db.version.(l0Files := [FlushedMeta(db, fileSize)] + db.version.l0Files),
          files := db.files[db.nextFileNumber := m.map_],
          nextFileNumber := db.nextFileNumber + 2)
  }

  // ----- compaction

  ghost predicate IsOldest(live: multiset<nat>, s: nat) {
    s in live && forall x :: x in live ==> s <= x
  }

  lemma {:induction false} OldestExists(live: multiset<nat>)
    requires live != multiset{}
    ensures exists s :: IsOldest(live, s)
    decreases |live|
  {
    var s :| s in live;
    var rest := live - multiset{s};
    assert live == rest + multiset{s};
    if rest == multiset{} {
      assert IsOldest(live, s);
    } else {
      OldestExists(rest);
      var t :| IsOldest(rest, t);
      assert IsOldest(live, if s <= t then s else t);
    }
  }

  /** The oldest live read sequence, or the last sequence when no snapshot is live (src/db.rs:859-863). */
  ghost function GcWatermark(db: Db): (w: nat)
    ensures db.live == multiset{} ==> w == db.lastSequence
    ensures db.live != multiset{} ==> IsOldest(db.live, w)
  {
    if db.live == multiset{} then db.lastSequence
    else
      OldestExists(db.live);
      var s :| IsOldest(db.live, s);
      s
  }

  predicate CanDropTombstones(v: Version, task: CompactionTask) {
    forall n, f :: task.outputLevel < n < |v.levels| && f in v.levels[n] ==>
      !UserKeyOverlaps(f, task.smallestUserKey, task.largestUserKey)
  }

  function Gather(files: map<nat, seq<Entry>>, fs: seq<FileMeta>): seq<Entry> {
    if fs == [] then [] else TableEntries(files, fs[0]) + Gather(files, fs[1..])
  }

  function CompactionOutput(db: Db, task: CompactionTask, w: nat): seq<Entry> {
    Compacted(Gather(db.files, task.AllInputFiles()), w, CanDropTombstones(db.version, task))
  }

  function Chunks(opts: Options, db: Db, task: CompactionTask, w: nat): seq<seq<Entry>> {
    Split(CompactionOutput(db, task, w), opts.targetFileSizeBase, opts.maxSubcompactions)
  }

  /** A single-file move into a level it does not overlap, with nothing to collect (src/db.rs:866-868). */
  predicate MovesTrivially(db: Db, task: CompactionTask, w: nat)
    requires task.inputFiles != []
  {
    && task.IsTrivialMove()
    && var entries := TableEntries(db.files, task.inputFiles[0]);
       |Compacted(entries, w, CanDropTombstones(db.version, task))| == |entries|
  }

  /** Workers allocate output numbers in any order, but always the next ones (src/db.rs:981-1006). */
  predicate FreshNumbers(db: Db, numbers: seq<nat>) {
    && (forall i :: 0 <= i < |numbers| ==> db.nextFileNumber <= numbers[i] < db.nextFileNumber + |numbers|)
    && (forall i, j :: 0 <= i < j < |numbers| ==> numbers[i] != numbers[j])
  }

  function OutputMetas(chunks: seq<seq<Entry>>, numbers: seq<nat>, sizes: seq<nat>): seq<FileMeta>
    requires |numbers| == |chunks| && |sizes| == |chunks|
    requires forall i :: 0 <= i < |chunks| ==> chunks[i] != []
  {
    seq(|chunks|, i requires 0 <= i < |chunks| => MetaOf(numbers[i], sizes[i], chunks[i]))
  }

  function OutputFiles(chunks: seq<seq<Entry>>, numbers: seq<nat>): map<nat, seq<Entry>>
    requires |numbers| == |chunks|
  {
    if chunks == [] then map[] else OutputFiles(chunks[1..], numbers[1..])[numbers[0] := chunks[0]]
  }

  /** Each input is deleted from the level it was picked from (src/db.rs:904-918). */
  function InputDeletions(task: CompactionTask): seq<VersionEdit> {
    var all := task.AllInputFiles();
    seq(|all|, i requires 0 <= i < |all| =>
      DeleteFile(if all[i].number in Numbers(task.inputFiles) then task.inputLevel else task.outputLevel, all[i].number))
  }

  function MoveEdits(task: CompactionTask): seq<VersionEdit>
    requires task.inputFiles != []
  {
    [DeleteFile(task.inputLevel, task.inputFiles[0].number), AddFile(task.outputLevel, task.inputFiles[0])]
  }

  function RewriteEdits(task: CompactionTask, metas: seq<FileMeta>): seq<VersionEdit> {
    InputDeletions(task) + Additions(task.outputLevel, metas)
  }

  function Applied(v: Version, edits: seq<VersionEdit>): Version {
    match ApplyAll(v, edits) case Some(next) => next case None => v
  }

  /** `execute_compaction` on a picked task (src/db.rs:854-930). */
  function ExecuteCompaction(opts: Options, db: Db, task: CompactionTask, w: nat, numbers: seq<nat>, sizes: seq<nat>): Db
    requires task.inputFiles != []
    requires !MovesTrivially(db, task, w) ==> |numbers| == |Chunks(opts, db, task, w)| && |sizes| == |numbers|
  {
    if MovesTrivially(db, task, w) then
      db.(version := Applied(db.version, MoveEdits(task)))
    else
      var chunks := Chunks(opts, db, task, w);
      SplitPartition(CompactionOutput(db, task, w), opts.targetFileSizeBase, opts.maxSubcompactions);
      assert forall i :: 0 <= i < |chunks| ==> chunks[i] in chunks;
      db.(version := Applied(db.version, RewriteEdits(task, OutputMetas(chunks, numbers, sizes))),
          files := (db.files - Numbers(task.AllInputFiles())) + OutputFiles(chunks, numbers),
          nextFileNumber := db.nextFileNumber + |chunks|)
  }

  /** No level-0 file left behind is older than a selected one with which it shares a user key. */
  ghost predicate L0Closed(db: Db, task: CompactionTask) {
    task.inputLevel == 0 ==>
      forall i, j, x, y ::
        0 <= i < j < |db.version.l0Files| &&
        db.version.l0Files[i] in task.inputFiles && db.version.l0Files[j] !in task.inputFiles &&
        x in TableEntries(db.files, db.version.l0Files[i]) && y in TableEntries(db.files, db.version.l0Files[j])
        ==> x.key.userKey != y.key.userKey
  }

  /** The output is not cut between versions of the empty user key; `EmptyKeyCut` makes this exact. */
  predicate SplitSafe(opts: Options, output: seq<Entry>) {
    !(opts.maxSubcompactions > 1 && EmptyRun(output) > 0 &&
      TotalSize(output[..EmptyRun(output) - 1]) >= AtLeastOne(opts.targetFileSizeBase))
  }

  // ----- steps

  datatype Step =
    | Write(batch: seq<BatchRecord>)
    | Freeze
    | Flush(fileSize: nat)
    | Compact(task: CompactionTask, numbers: seq<nat>, sizes: seq<nat>)
    | TakeSnapshot
    | CloneSnapshot(readSeq: nat)
    | ReleaseSnapshot(readSeq: nat)

  /** A picked task with the numbers and sizes of its output files. */
  ghost predicate Compactable(opts: Options, db: Db, task: CompactionTask, numbers: seq<nat>, sizes: seq<nat>) {
    var w := GcWatermark(db);
    && Picked(db.version, task)
    && SplitSafe(opts, CompactionOutput(db, task, w))
    && FreshNumbers(db, numbers)
    && (!MovesTrivially(db, task, w) ==> |numbers| == |Chunks(opts, db, task, w)| && |sizes| == |numbers|)
  }

  ghost predicate Enabled(opts: Options, db: Db, step: Step) {
    match step
    case Freeze => db.mutable.map_ != []
    case CloneSnapshot(s) => s in db.live
    case ReleaseSnapshot(s) => s in db.live
    case Compact(task, numbers, sizes) => Compactable(opts, db, task, numbers, sizes) && L0Closed(db, task)
    case _ => true
  }

  ghost function Do(opts: Options, db: Db, step: Step): Db
    requires Enabled(opts, db, step)
  {
    match step
    case Write(batch) => ApplyBatch(db, batch)
    case Freeze => FreezeMutable(db)
    case Flush(size) => FlushMemtable(db, size)
    case Compact(task, numbers, sizes) => ExecuteCompaction(opts, db, task, GcWatermark(db), numbers, sizes)
    case TakeSnapshot => db.(live := db.live + multiset{db.lastSequence})
    case CloneSnapshot(s) => db.(live := db.live + multiset{s})
    case ReleaseSnapshot(s) => db.(live := db.live - multiset{s})
  }

  // ----- invariant

  ghost predicate MemOk(m: MemTable) {
    StrictlySorted(m.map_) && forall e :: e in m.map_ ==> Consistent(e)
  }

  /** The metadata describes a non-empty, sorted, consistent table. */
  ghost predicate FileOk(files: map<nat, seq<Entry>>, f: FileMeta) {
    && f.number in files
    && var s := files[f.number];
       && s != []
       && Sorted(s)
       && (forall e :: e in s ==> Consistent(e))
       && f == MetaOf(f.number, f.fileSize, s)
  }

  predicate DisjointRanges(f: FileMeta, g: FileMeta) {
    Less(f.largest.userKey, g.smallest.userKey) || Less(g.largest.userKey, f.smallest.userKey)
  }

  ghost predicate LevelDisjoint(fs: seq<FileMeta>) {
    && (forall f, g :: f in fs && g in fs && f != g ==> DisjointRanges(f, g))
    && (forall f :: multiset(fs)[f] <= 1)
  }

  predicate InLevel(v: Version, n: nat, f: FileMeta) {
    ValidLevel(v, n) && f in LevelFiles(v, n)
  }

  ghost predicate FilesOk(v: Version, files: map<nat, seq<Entry>>, next: nat) {
    forall n, f :: InLevel(v, n, f) ==> FileOk(files, f) && f.number < next
  }

  ghost predicate NumbersUnique(v: Version) {
    forall n, m, f, g :: InLevel(v, n, f) && InLevel(v, m, g) && f.number == g.number ==> n == m && f == g
  }

  ghost predicate LevelsDisjoint(v: Version) {
    forall n :: 0 < n < |v.levels| ==> LevelDisjoint(v.levels[n])
  }

  ghost predicate TablesOk(v: Version, files: map<nat, seq<Entry>>, next: nat) {
    && |v.levels| >= 2
    && v.levels[0] == []
    && FilesOk(v, files, next)
    && NumbersUnique(v)
    && LevelsDisjoint(v)
  }

  ghost predicate Bounded(s: set<Entry>, last: nat) {
    forall e :: e in s ==> e.key.sequence <= last
  }

  ghost predicate Inv(db: Db) {
    && MemOk(db.mutable)
    && (forall m :: m in db.immutables ==> MemOk(m) && m.map_ != [])
    && TablesOk(db.version, db.files, db.nextFileNumber)
    && Bounded(All(db), db.lastSequence)
    && Functional(All(db))
    && Recency(Layers(db))
    && (forall s :: s in db.live ==> s <= db.lastSequence)
  }

  ghost function InitDb(maxLevels: nat): Db {
    Db(EMPTY_MEMTABLE, [], EmptyVersion(maxLevels), map[], 0, 2, multiset{})
  }

  lemma InitInv(maxLevels: nat)
    requires maxLevels >= 2
    ensures Inv(InitDb(maxLevels)) && All(InitDb(maxLevels)) == {}
  {
    var db := InitDb(maxLevels);
    assert Elems([]) == {};
    assert forall i :: 0 <= i < |BelowMutable(db)| ==> BelowMutable(db)[i] == {};
    assert forall i :: 0 <= i < |Layers(db)| ==> Layers(db)[i] == {};
  }
}
