/**
 Whole runs over a disk: writes, freezes, flushes, compactions, snapshots, reopenings and crashes within a
 flush.  In every state the disk is enough, and what can be read last is the fold of all batches written.
 */
module RecoveryRuns {
  import opened Keys
  import opened Visibility
  import opened Executor
  import opened Versions
  import opened Picker
  import opened Lsm
  import opened LsmWrites
  import opened LsmCompaction
  import opened LsmRewrite
  import opened LsmSafety
  import opened Manifest
  import opened Recovery
  import opened RecoveryFlush
  import Transactions

  // ----- compaction

  function CompactionEdits(opts: Options, db: Db, task: CompactionTask, w: nat, numbers: seq<nat>, sizes: seq<nat>): seq<VersionEdit>
    requires task.inputFiles != []
    requires !MovesTrivially(db, task, w) ==> |numbers| == |Chunks(opts, db, task, w)| && |sizes| == |numbers|
    requires forall i :: 0 <= i < |Chunks(opts, db, task, w)| ==> Chunks(opts, db, task, w)[i] != []
  {
    if MovesTrivially(db, task, w) then MoveEdits(task)
    else RewriteEdits(task, OutputMetas(Chunks(opts, db, task, w), numbers, sizes))
  }

  predicate TableEdit(e: VersionEdit) { e.AddFile? || e.DeleteFile? }

  /** Edits of tables change the version and nothing else but the next file number. */
  lemma {:induction false} ReplayTables(vs: VersionState, edits: seq<VersionEdit>, bound: nat)
    requires forall e :: e in edits ==> TableEdit(e) && (e.AddFile? ==> e.meta.number < bound)
    requires ApplyAll(vs.current, edits).Some? && vs.nextFileNumber <= bound
    ensures Replay(vs, edits).Some?
    ensures var t := Replay(vs, edits).value;
            && Some(t.current) == ApplyAll(vs.current, edits)
            && t.lastSequence == vs.lastSequence && t.logNumber == vs.logNumber
            && vs.nextFileNumber <= t.nextFileNumber <= bound
    decreases |edits|
  {
    hide ApplyToVersion;
    if edits != [] {
      assert edits[0] in edits;
      ReplayTables(ApplyEdit(vs, edits[0]), edits[1..], bound);
    }
  }

  /** The disk after the edits of a compaction are logged and its inputs deleted. */
  function CompactedDisk(disk: Disk, edits: seq<VersionEdit>, db': Db): Disk {
    disk.(edits := disk.edits + edits, files := db'.files)
  }

  lemma NumberBelow(db: Db, n: nat, f: FileMeta)
    requires TablesOk(db.version, db.files, db.nextFileNumber) && InLevel(db.version, n, f)
    ensures f.number < db.nextFileNumber
  {
  }

  lemma MoveEditsReplay(db: Db, task: CompactionTask)
    requires TablesOk(db.version, db.files, db.nextFileNumber) && TaskShape(db.version, task) && task.IsTrivialMove()
    ensures forall e :: e in MoveEdits(task) ==> TableEdit(e) && (e.AddFile? ==> e.meta.number < db.nextFileNumber)
    ensures ApplyAll(db.version, MoveEdits(task)) == Some(NewVersion(db.version, task, task.inputFiles))
  {
    hide TablesOk, TaskShape, ApplyAll, NewVersion;
    MoveEditsApply(db.version, task);
    LevelsOf(db.version, task);
    NumberBelow(db, task.inputLevel, task.inputFiles[0]);
  }

  lemma RewriteEditsReplay(db: Db, task: CompactionTask, numbers: seq<nat>, metas: seq<FileMeta>)
    requires NumbersUnique(db.version) && TaskShape(db.version, task)
    requires FreshNumbers(db, numbers) && |numbers| == |metas| && forall i :: 0 <= i < |metas| ==> metas[i].number == numbers[i]
    ensures forall e :: e in RewriteEdits(task, metas) ==>
              TableEdit(e) && (e.AddFile? ==> e.meta.number < db.nextFileNumber + |metas|)
    ensures ApplyAll(db.version, RewriteEdits(task, metas)) == Some(NewVersion(db.version, task, metas))
  {
    hide NumbersUnique, TaskShape, ApplyAll, NewVersion, RewriteEdits;
    RewriteEditsApply(db.version, task, metas);
    forall e | e in RewriteEdits(task, metas) ensures TableEdit(e) && (e.AddFile? ==> e.meta.number < db.nextFileNumber + |metas|) {
      RewriteEditIs(task, metas, e);
      if e.AddFile? {
        var i :| 0 <= i < |metas| && e.meta == metas[i];
        assert numbers[i] < db.nextFileNumber + |numbers|;
      }
    }
  }

  lemma RewriteEditIs(task: CompactionTask, metas: seq<FileMeta>, e: VersionEdit)
    requires e in RewriteEdits(task, metas)
    ensures e.DeleteFile? || (e.AddFile? && exists i :: 0 <= i < |metas| && e.meta == metas[i])
  {
    hide Numbers;
    var i :| 0 <= i < |RewriteEdits(task, metas)| && RewriteEdits(task, metas)[i] == e;
  }

  lemma CompactionEditsApply(opts: Options, db: Db, task: CompactionTask, w: nat, numbers: seq<nat>, sizes: seq<nat>)
    returns (edits: seq<VersionEdit>)
    requires Inv(db) && TaskShape(db.version, task) && FreshNumbers(db, numbers)
    requires !MovesTrivially(db, task, w) ==> |numbers| == |Chunks(opts, db, task, w)| && |sizes| == |numbers|
    ensures forall i :: 0 <= i < |Chunks(opts, db, task, w)| ==> Chunks(opts, db, task, w)[i] != []
    ensures edits == CompactionEdits(opts, db, task, w, numbers, sizes)
    ensures var db' := ExecuteCompaction(opts, db, task, w, numbers, sizes);
            && ApplyAll(db.version, edits) == Some(db'.version)
            && db.nextFileNumber <= db'.nextFileNumber
            && SameButTables(db, db')
            && forall e :: e in edits ==> TableEdit(e) && (e.AddFile? ==> e.meta.number < db'.nextFileNumber)
  {
    hide *;
    LevelsOf(db.version, task);
    ChunksFilled(opts, db, task, w);
    edits := CompactionEdits(opts, db, task, w, numbers, sizes);
    UnpackInv(db);
    UniqueOf(db);
    CompactionEditsAre(opts, db, task, w, numbers, sizes);
    if MovesTrivially(db, task, w) {
      MoveState(opts, db, task, w, numbers, sizes);
      MoveEditsReplay(db, task);
    } else {
      var metas := RewriteState(opts, db, task, w, numbers, sizes);
      MetaNumbersAre(Chunks(opts, db, task, w), numbers, sizes);
      RewriteEditsReplay(db, task, numbers, metas);
    }
  }

  lemma UniqueOf(db: Db)
    requires TablesOk(db.version, db.files, db.nextFileNumber)
    ensures NumbersUnique(db.version)
  {
  }

  lemma CompactionEditsAre(opts: Options, db: Db, task: CompactionTask, w: nat, numbers: seq<nat>, sizes: seq<nat>)
    requires task.inputFiles != []
    requires !MovesTrivially(db, task, w) ==> |numbers| == |Chunks(opts, db, task, w)| && |sizes| == |numbers|
    requires forall i :: 0 <= i < |Chunks(opts, db, task, w)| ==> Chunks(opts, db, task, w)[i] != []
    ensures MovesTrivially(db, task, w) ==> task.IsTrivialMove()
    ensures CompactionEdits(opts, db, task, w, numbers, sizes) ==
            if MovesTrivially(db, task, w) then MoveEdits(task)
            else RewriteEdits(task, OutputMetas(Chunks(opts, db, task, w), numbers, sizes))
  {
    hide Chunks, MoveEdits, RewriteEdits, OutputMetas, Compacted;
  }

  lemma MetaNumbersAre(chunks: seq<seq<Entry>>, numbers: seq<nat>, sizes: seq<nat>)
    requires |numbers| == |chunks| && |sizes| == |chunks| && forall i :: 0 <= i < |chunks| ==> chunks[i] != []
    ensures var metas := OutputMetas(chunks, numbers, sizes);
            |metas| == |numbers| && forall i :: 0 <= i < |metas| ==> metas[i].number == numbers[i]
  {
  }

  lemma CompactionKeepsDurable(maxLevels: nat, opts: Options, db: Db, disk: Disk, task: CompactionTask, numbers: seq<nat>, sizes: seq<nat>)
    returns (edits: seq<VersionEdit>)
    requires Durable(maxLevels, db, disk) && Enabled(opts, db, Compact(task, numbers, sizes))
    ensures task.inputFiles != []
    ensures forall i :: 0 <= i < |Chunks(opts, db, task, GcWatermark(db))| ==> Chunks(opts, db, task, GcWatermark(db))[i] != []
    ensures edits == CompactionEdits(opts, db, task, GcWatermark(db), numbers, sizes)
    ensures var db' := Do(opts, db, Compact(task, numbers, sizes));
            Durable(maxLevels, db', CompactedDisk(disk, edits, db'))
  {
    hide Inv, Replay, NumbersPassed, MemContents, LogEntries, ReplayLast, InitialState, ExecuteCompaction, Picked, L0Closed, SplitSafe,
         MovesTrivially, Chunks, GcWatermark, CompactionEdits, ApplyAll, CompactionOutput, Increasing, FreshNumbers;
    var w := GcWatermark(db);
    PickedShape(db.version, task);
    CompactionKeeps(opts, db, task, numbers, sizes);
    edits := CompactionEditsApply(opts, db, task, w, numbers, sizes);
    LevelsOf(db.version, task);
    var db' := ExecuteCompaction(opts, db, task, w, numbers, sizes);
    var init := InitialState(maxLevels);
    var vs := Replay(init, disk.edits).value;
    ReplayAppend(init, disk.edits, edits);
    ReplayTables(vs, edits, db'.nextFileNumber);
    ReplayPasses(vs, edits);
    SameMemLayers(db, db');
  }

  // ----- runs

  datatype World = World(db: Db, disk: Disk)

  datatype Event = Plain(step: Step) | Reopen | CrashWithinFlush(size: nat, stage: nat)

  /** The next table file is there already, an orphan of an earlier crash (src/db.rs:704-712). */
  predicate FlushFails(db: Db) {
    Flushable(db).map_ != [] && db.nextFileNumber in db.files
  }

  /** A flush that fails puts its memtable back where it was; the number it took is gone. */
  function Burned(db: Db): Db { db.(nextFileNumber := db.nextFileNumber + 1) }

  ghost function StepTaken(opts: Options, db: Db, step: Step): Db
    requires Enabled(opts, db, step)
  {
    if step.Flush? && FlushFails(db) then Burned(db) else Do(opts, db, step)
  }

  /** A flush that goes through must find the other memtables empty; a crash may come before its log number is logged. */
  ghost predicate Allowed(opts: Options, world: World, event: Event) {
    match event
    case Plain(step) =>
      && Enabled(opts, world.db, step)
      && (step.Flush? ==> Flushable(world.db).map_ == [] || FlushFails(world.db) || OthersEmpty(world.db))
    case Reopen => true
    case CrashWithinFlush(size, stage) => Flushable(world.db).map_ != [] && !FlushFails(world.db) && stage <= 3
  }

  ghost function Reopened(maxLevels: nat, world: World, disk: Disk): World {
    match OpenDb(maxLevels, disk)
    case Some(db) => World(db, disk)
    case None => world
  }

  /** What a step of the store writes to disk. */
  ghost function DiskAfter(maxLevels: nat, opts: Options, world: World, step: Step): Disk
    requires Enabled(opts, world.db, step)
  {
    var db, disk := world.db, world.disk;
    match step
    case Write(batch) => Appended(disk, LogNumberOf(maxLevels, disk), Logged(db.lastSequence + 1, batch))
    case Flush(size) => if Flushable(db).map_ == [] || FlushFails(db) then disk else FlushDisk(db, disk, size, 4)
    case Compact(task, numbers, sizes) =>
      PickedShape(db.version, task);
      ChunksFilled(opts, db, task, GcWatermark(db));
      CompactedDisk(disk, CompactionEdits(opts, db, task, GcWatermark(db), numbers, sizes), Do(opts, db, step))
    case _ => disk
  }

  ghost function After(maxLevels: nat, opts: Options, world: World, event: Event): World
    requires Allowed(opts, world, event)
  {
    match event
    case Plain(step) => World(StepTaken(opts, world.db, step), DiskAfter(maxLevels, opts, world, step))
    case Reopen => Reopened(maxLevels, world, world.disk)
    case CrashWithinFlush(size, stage) => Reopened(maxLevels, world, FlushDisk(world.db, world.disk, size, stage))
  }

  ghost function LastView(db: Db): map<Bytes, Bytes> { View(All(db), db.lastSequence) }

  function ViewAfter(m: map<Bytes, Bytes>, event: Event): map<Bytes, Bytes> {
    match event
    case Plain(Write(batch)) => Transactions.Overlay(m, batch)
    case _ => m
  }

  lemma NothingToFlush(db: Db, size: nat)
    requires Flushable(db).map_ == []
    ensures FlushMemtable(db, size) == db
  {
  }

  lemma BurnedKeepsInv(db: Db)
    requires Inv(db)
    ensures Inv(Burned(db)) && All(Burned(db)) == All(db)
  {
    assert Layers(Burned(db)) == Layers(db);
    assert TablesOk(db.version, db.files, db.nextFileNumber + 1);
    hide TablesOk, Recency, Functional, Layers, Bounded;
  }

  lemma BurnedDurable(maxLevels: nat, db: Db, disk: Disk)
    requires Durable(maxLevels, db, disk)
    ensures Durable(maxLevels, Burned(db), disk)
  {
    hide Inv, Replay, NumbersPassed, Increasing, LogEntries, InitialState, ReplayLast, MemContents;
    BurnedKeepsInv(db);
    SameMemLayers(db, Burned(db));
  }

  lemma StepDurable(maxLevels: nat, opts: Options, world: World, step: Step)
    requires Durable(maxLevels, world.db, world.disk) && Allowed(opts, world, Plain(step))
    ensures Durable(maxLevels, StepTaken(opts, world.db, step), DiskAfter(maxLevels, opts, world, step))
  {
    hide Durable, OthersEmpty, ApplyBatch, FlushMemtable, FreezeMutable, ExecuteCompaction, Appended, FlushDisk, CompactedDisk, GcWatermark,
         CompactionEdits, Picked, L0Closed, SplitSafe, MovesTrivially, Chunks, FreshNumbers, CompactionOutput;
    var db, disk := world.db, world.disk;
    match step {
      case Write(batch) => WriteKeepsDurable(maxLevels, db, disk, batch);
      case Freeze => FreezeKeepsDurable(maxLevels, db, disk);
      case Flush(size) =>
        if FlushFails(db) {
          BurnedDurable(maxLevels, db, disk);
        } else if Flushable(db).map_ != [] {
          FlushKeepsDurable(maxLevels, db, disk, size);
        } else {
          NothingToFlush(db, size);
        }
      case Compact(task, numbers, sizes) =>
        var edits := CompactionKeepsDurable(maxLevels, opts, db, disk, task, numbers, sizes);
      case TakeSnapshot =>
        SnapshotsKeepDurable(maxLevels, db, disk, db.live + multiset{db.lastSequence});
      case CloneSnapshot(s) =>
        SnapshotsKeepDurable(maxLevels, db, disk, db.live + multiset{s});
      case ReleaseSnapshot(s) =>
        SnapshotsKeepDurable(maxLevels, db, disk, db.live - multiset{s});
    }
  }

  lemma WatermarkAtMost(db: Db)
    requires Inv(db)
    ensures GcWatermark(db) <= db.lastSequence
  {
  }

  lemma WriteView(db: Db, batch: seq<BatchRecord>)
    requires Inv(db)
    ensures LastView(ApplyBatch(db, batch)) == Transactions.Overlay(LastView(db), batch)
  {
    hide Inv, All, View;
    Transactions.CommitView(db, batch);
  }

  lemma SameAllView(db: Db, db': Db)
    requires All(db') == All(db) && db'.lastSequence == db.lastSequence
    ensures LastView(db') == LastView(db)
  {
  }

  lemma CompactionView(opts: Options, db: Db, task: CompactionTask, numbers: seq<nat>, sizes: seq<nat>)
    requires Inv(db) && Enabled(opts, db, Compact(task, numbers, sizes))
    ensures LastView(Do(opts, db, Compact(task, numbers, sizes))) == LastView(db)
  {
    hide Inv, All, View, Get, Picked, L0Closed, SplitSafe, MovesTrivially, Chunks, GcWatermark, FreshNumbers, CompactionOutput;
    var db' := Do(opts, db, Compact(task, numbers, sizes));
    CompactionKeeps(opts, db, task, numbers, sizes);
    WatermarkAtMost(db);
    SameReadsSameView(All(db'), db.lastSequence, All(db), db.lastSequence);
  }

  lemma TakenView(opts: Options, db: Db, step: Step)
    requires Inv(db) && Enabled(opts, db, step)
    ensures LastView(StepTaken(opts, db, step)) == ViewAfter(LastView(db), Plain(step))
  {
    hide Inv, LastView, Do, Enabled;
    if step.Flush? && FlushFails(db) {
      BurnedKeepsInv(db);
      SameAllView(db, Burned(db));
    } else {
      StepView(opts, db, step);
    }
  }

  lemma StepView(opts: Options, db: Db, step: Step)
    requires Inv(db) && Enabled(opts, db, step)
    ensures LastView(Do(opts, db, step)) == ViewAfter(LastView(db), Plain(step))
  {
    hide Inv, All, LastView, ExecuteCompaction, Picked, L0Closed, SplitSafe, MovesTrivially, Chunks, GcWatermark, Transactions.Overlay, FreshNumbers,
         CompactionOutput, ApplyBatch;
    match step {
      case Write(batch) => WriteView(db, batch);
      case Freeze =>
        FreezeKeepsInv(db);
        SameAllView(db, FreezeMutable(db));
      case Flush(size) =>
        FlushKeepsInv(db, size);
        SameAllView(db, FlushMemtable(db, size));
      case Compact(task, numbers, sizes) => CompactionView(opts, db, task, numbers, sizes);
      case TakeSnapshot =>
        SnapshotKeepsInv(db, db.live + multiset{db.lastSequence});
        SameAllView(db, db.(live := db.live + multiset{db.lastSequence}));
      case CloneSnapshot(s) =>
        SnapshotKeepsInv(db, db.live + multiset{s});
        SameAllView(db, db.(live := db.live + multiset{s}));
      case ReleaseSnapshot(s) =>
        SnapshotKeepsInv(db, db.live - multiset{s});
        SameAllView(db, db.(live := db.live - multiset{s}));
    }
  }

  /** Every event leaves the disk enough, and only writes change what is read last. */
  lemma EventKeeps(maxLevels: nat, opts: Options, world: World, event: Event)
    requires Durable(maxLevels, world.db, world.disk) && Allowed(opts, world, event)
    ensures var world' := After(maxLevels, opts, world, event);
            && Durable(maxLevels, world'.db, world'.disk)
            && LastView(world'.db) == ViewAfter(LastView(world.db), event)
  {
    hide All, View, OpenDb, Holds, Do, DiskAfter, Enabled, FlushDisk, Inv;
    match event
    case Plain(step) =>
      StepDurable(maxLevels, opts, world, step);
      TakenView(opts, world.db, step);
    case Reopen => ReopenIsIdentity(maxLevels, world.db, world.disk);
    case CrashWithinFlush(size, stage) => CrashInFlush(maxLevels, world.db, world.disk, size, stage);
  }

  ghost predicate IsHistory(maxLevels: nat, opts: Options, worlds: seq<World>, events: seq<Event>) {
    && |worlds| == |events| + 1
    && worlds[0] == World(InitDb(maxLevels), Disk(InitialEdits, map[], map[1 := []]))
    && forall i :: 0 <= i < |events| ==>
         Allowed(opts, worlds[i], events[i]) && worlds[i + 1] == After(maxLevels, opts, worlds[i], events[i])
  }

  /** The map that the batches of a run add up to. */
  function Folded(events: seq<Event>): map<Bytes, Bytes> {
    if events == [] then map[] else ViewAfter(Folded(events[..|events| - 1]), events[|events| - 1])
  }

  /**
   The store is a map: in every state of every run, across flushes, compactions, reopenings and crashes within
   a flush, what is read at the last sequence is the fold of all batches written, and the disk is enough to
   rebuild it.
   */
  lemma {:induction false} StoreIsFold(maxLevels: nat, opts: Options, worlds: seq<World>, events: seq<Event>, i: nat)
    requires maxLevels >= 2 && IsHistory(maxLevels, opts, worlds, events) && i <= |events|
    ensures Durable(maxLevels, worlds[i].db, worlds[i].disk)
    ensures LastView(worlds[i].db) == Folded(events[..i])
    ensures OpenDb(maxLevels, worlds[i].disk).Some? && LastView(OpenDb(maxLevels, worlds[i].disk).value) == Folded(events[..i])
  {
    hide Durable, LastView, After, Allowed, OpenDb, ViewAfter;
    if i == 0 {
      NewIsDurable(maxLevels);
      assert LastView(InitDb(maxLevels)) == map[] by { EmptyView(maxLevels); }
    } else {
      StoreIsFold(maxLevels, opts, worlds, events, i - 1);
      EventKeeps(maxLevels, opts, worlds[i - 1], events[i - 1]);
      assert events[..i][..i - 1] == events[..i - 1];
    }
    ReopenIsIdentity(maxLevels, worlds[i].db, worlds[i].disk);
    SameAllView(worlds[i].db, OpenDb(maxLevels, worlds[i].disk).value);
  }

  lemma EmptyView(maxLevels: nat)
    requires maxLevels >= 2
    ensures LastView(InitDb(maxLevels)) == map[]
  {
    InitInv(maxLevels);
    assert forall k :: k !in View({}, 0);
  }
}
