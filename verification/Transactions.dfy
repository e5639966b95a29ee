/**
 Optimistic transactions (src/mvcc/transaction.rs, src/db.rs:428-485, 588-693).

 A transaction reads at its snapshot and sees its own writes; at commit it is refused if any later
 version touches what it read or wrote.  `SerialEquivalence` shows that an accepted transaction
 behaves as if it had run alone at its commit point, and `ConflictExact` that it is refused exactly
 when a write since its snapshot touches its footprint.
 */
module Transactions {
  import opened Keys
  import opened Visibility
  import opened Executor
  import opened Picker
  import opened Lsm
  import opened LsmWrites
  import opened LsmSafety
  import opened Iterators
  import opened Databases
  import opened Watermarks

  // ----- a transaction over a fixed base map

  function Overwrite(base: map<Bytes, Bytes>, r: BatchRecord): map<Bytes, Bytes> {
    match r
    case PutRecord(k, v) => base[k := v]
    case DeleteRecord(k) => base - {k}
  }

  function Overlay(base: map<Bytes, Bytes>, writes: seq<BatchRecord>): map<Bytes, Bytes> {
    if writes == [] then base else Overwrite(Overlay(base, writes[..|writes| - 1]), writes[|writes| - 1])
  }

  /** The last write to `key`, if any. */
  function LocalValue(writes: seq<BatchRecord>, key: Bytes): Option<ValueRecord> {
    if writes == [] then None
    else match writes[|writes| - 1]
      case PutRecord(k, v) => if k == key then Some(Put(v)) else LocalValue(writes[..|writes| - 1], key)
      case DeleteRecord(k) => if k == key then Some(Delete) else LocalValue(writes[..|writes| - 1], key)
  }

  function Find(m: map<Bytes, Bytes>, k: Bytes): Option<Bytes> {
    if k in m then Some(m[k]) else None
  }

  /** A key reads as its last write says, and as the base says if it was not written. */
  lemma {:induction false} OverlayFind(base: map<Bytes, Bytes>, writes: seq<BatchRecord>, k: Bytes)
    ensures Find(Overlay(base, writes), k) ==
            if LocalValue(writes, k).Some? then VisibleValue(LocalValue(writes, k)) else Find(base, k)
  {
    if writes != [] {
      OverlayFind(base, writes[..|writes| - 1], k);
    }
  }

  lemma OverlayNone(base: map<Bytes, Bytes>)
    ensures Overlay(base, []) == base
  {
  }

  lemma OverlayNext(base: map<Bytes, Bytes>, writes: seq<BatchRecord>, i: nat)
    requires i < |writes|
    ensures Overlay(base, writes[..i + 1]) == Overwrite(Overlay(base, writes[..i]), writes[i])
  {
    assert writes[..i + 1][..i] == writes[..i];
  }

  datatype Op = GetOp(key: Bytes) | ScanOp(lower: Bound, upper: Bound) | WriteOp(record: BatchRecord)

  datatype Answer = Value(value: Option<Bytes>) | Rows(rows: map<Bytes, Bytes>) | Done

  function Restrict(m: map<Bytes, Bytes>, lower: Bound, upper: Bound): map<Bytes, Bytes> {
    map k | k in m && WithinBounds(k, lower, upper) :: m[k]
  }

  /** What an operation answers on a fixed base, with the writes made so far. */
  function Answered(base: map<Bytes, Bytes>, writes: seq<BatchRecord>, op: Op): Answer {
    match op
    case GetOp(k) => Value(Find(Overlay(base, writes), k))
    case ScanOp(lower, upper) => Rows(Restrict(Overlay(base, writes), lower, upper))
    case WriteOp(_) => Done
  }

  function Writes(ops: seq<Op>): seq<BatchRecord> {
    if ops == [] then []
    else
      var front := Writes(ops[..|ops| - 1]);
      match ops[|ops| - 1]
      case WriteOp(r) => front + [r]
      case _ => front
  }

  /** The keys read from the store: those not answered by an own write. */
  function ReadKeys(ops: seq<Op>): set<Bytes> {
    set i | 0 <= i < |ops| && ops[i].GetOp? && LocalValue(Writes(ops[..i]), ops[i].key).None? :: ops[i].key
  }

  function ReadRanges(ops: seq<Op>): seq<ReadRange> {
    if ops == [] then []
    else
      var front := ReadRanges(ops[..|ops| - 1]);
      match ops[|ops| - 1]
      case ScanOp(lower, upper) => front + [(lower, upper)]
      case _ => front
  }

  lemma {:induction false} ScanRecorded(ops: seq<Op>, i: nat)
    requires i < |ops| && ops[i].ScanOp?
    ensures exists j :: 0 <= j < |ReadRanges(ops)| && ReadRanges(ops)[j] == (ops[i].lower, ops[i].upper)
  {
    var front := ops[..|ops| - 1];
    if i == |ops| - 1 {
      assert ReadRanges(ops)[|ReadRanges(front)|] == (ops[i].lower, ops[i].upper);
    } else {
      assert front[i] == ops[i];
      ScanRecorded(front, i);
      var j :| 0 <= j < |ReadRanges(front)| && ReadRanges(front)[j] == (ops[i].lower, ops[i].upper);
      assert ReadRanges(ops)[j] == ReadRanges(front)[j];
    }
  }

  // ----- the base does not matter where it agrees

  lemma SameAnswerGet(a: map<Bytes, Bytes>, b: map<Bytes, Bytes>, writes: seq<BatchRecord>, k: Bytes)
    requires LocalValue(writes, k).None? ==> Find(a, k) == Find(b, k)
    ensures Find(Overlay(a, writes), k) == Find(Overlay(b, writes), k)
  {
    OverlayFind(a, writes, k);
    OverlayFind(b, writes, k);
  }

  lemma SameAnswerScan(a: map<Bytes, Bytes>, b: map<Bytes, Bytes>, writes: seq<BatchRecord>, lower: Bound, upper: Bound)
    requires forall k :: WithinBounds(k, lower, upper) ==> Find(a, k) == Find(b, k)
    ensures Restrict(Overlay(a, writes), lower, upper) == Restrict(Overlay(b, writes), lower, upper)
  {
    hide Overlay, WithinBounds;
    forall k | WithinBounds(k, lower, upper) ensures Find(Overlay(a, writes), k) == Find(Overlay(b, writes), k) {
      SameAnswerGet(a, b, writes, k);
    }
  }

  lemma UntouchedKey(s: set<Entry>, k: Bytes, r: nat, last: nat)
    requires r <= last && Functional(s) && Bounded(s, last)
    requires forall e :: e in s && e.key.userKey == k ==> e.key.sequence <= r
    ensures Get(s, k, last) == Get(s, k, r)
  {
    if Newest(s, k, r).Some? {
      NewestUnique(s, k, last, Newest(s, k, r).value);
    }
  }

  lemma ViewFind(s: set<Entry>, k: Bytes, r: nat)
    ensures Find(View(s, r), k) == Get(s, k, r)
  {
  }

  /** A key with no later version reads the same at the snapshot, then and now, and at the commit point. */
  lemma StableKey(db: Db, now: Db, r: nat, k: Bytes)
    requires Inv(now) && r <= now.lastSequence && Protects(db, now, r)
    requires forall e :: e in All(now) && e.key.userKey == k ==> e.key.sequence <= r
    ensures Find(View(All(db), r), k) == Find(View(All(now), now.lastSequence), k)
  {
    UnpackInv(now);
    UntouchedKey(All(now), k, r, now.lastSequence);
    ViewFind(All(db), k, r);
    ViewFind(All(now), k, now.lastSequence);
  }

  /**
   Serial equivalence.  A transaction took its snapshot at state `b` with read sequence `r`, ran
   operation `i` at state `at[i]`, and passed conflict detection at state `c`, its snapshot live all
   along.  Then every answer it got is the answer it would get running alone at state `c`.
   */
  lemma SerialEquivalence(opts: Options, states: seq<Db>, steps: seq<Step>, b: nat, c: nat, r: nat, ops: seq<Op>, at: seq<nat>, i: nat)
    requires IsRun(opts, states, steps) && Inv(states[0]) && b <= c <= |steps|
    requires forall m :: b <= m < c ==> r in states[m].live
    requires r <= states[c].lastSequence
    requires |at| == |ops| && (forall j :: 0 <= j < |at| ==> b <= at[j] <= c)
    requires NoConflict(All(states[c]), r, ReadKeys(ops), ReadRanges(ops), BatchWriteKeys(Writes(ops)))
    requires i < |ops|
    ensures Answered(View(All(states[at[i]]), r), Writes(ops[..i]), ops[i]) ==
            Answered(View(All(states[c]), states[c].lastSequence), Writes(ops[..i]), ops[i])
  {
    var db, now := states[at[i]], states[c];
    RunProtects(opts, states, steps, at[i], c, r);
    RunKeepsInv(opts, states, steps, c);
    var before, after, writes := View(All(db), r), View(All(now), now.lastSequence), Writes(ops[..i]);
    hide IsRun, Inv, All, View, Protects, Overlay, Writes, BatchWriteKeys, WithinBounds;
    match ops[i] {
      case GetOp(k) =>
        if LocalValue(writes, k).None? {
          assert k in ReadKeys(ops);
          StableKey(db, now, r, k);
        }
        SameAnswerGet(before, after, writes, k);
      case ScanOp(lower, upper) =>
        ScanRecorded(ops, i);
        var j :| 0 <= j < |ReadRanges(ops)| && ReadRanges(ops)[j] == (lower, upper);
        forall k | WithinBounds(k, lower, upper) ensures Find(before, k) == Find(after, k) {
          StableKey(db, now, r, k);
        }
        SameAnswerScan(before, after, writes, lower, upper);
      case WriteOp(_) =>
    }
  }

  /**
   A transaction's life in a run that ends at the store `now`: its snapshot was taken at state `b` and is live all
   along, operation `i` ran at state `at[i]`.
   */
  ghost predicate Lived(opts: Options, states: seq<Db>, steps: seq<Step>, b: nat, r: nat, ops: seq<Op>, at: seq<nat>, now: Db) {
    && IsRun(opts, states, steps) && Inv(states[0]) && b <= |steps| && states[|steps|] == now
    && (forall m :: b <= m < |steps| ==> r in states[m].live)
    && r <= now.lastSequence
    && |at| == |ops| && (forall j :: 0 <= j < |at| ==> b <= at[j] <= |steps|)
  }

  /** Operation `i` was answered as it would be alone at `now`. */
  ghost predicate AnsweredAlike(states: seq<Db>, r: nat, ops: seq<Op>, at: seq<nat>, now: Db, i: nat) {
    i < |ops| && i < |at| && at[i] < |states| ==>
      Answered(View(All(states[at[i]]), r), Writes(ops[..i]), ops[i]) == Answered(View(All(now), now.lastSequence), Writes(ops[..i]), ops[i])
  }

  /** However the transaction lived, every operation was answered as it would be alone at `now`. */
  ghost predicate Serial(now: Db, r: nat, ops: seq<Op>) {
    forall opts, states, steps, b: nat, at: seq<nat>, i: nat ::
      Lived(opts, states, steps, b, r, ops, at, now) && i < |ops| ==> AnsweredAlike(states, r, ops, at, now, i)
  }

  /** No conflict with the footprint of the operations: the transaction is serial. */
  lemma AcceptedIsSerial(now: Db, r: nat, ops: seq<Op>)
    requires NoConflict(All(now), r, ReadKeys(ops), ReadRanges(ops), BatchWriteKeys(Writes(ops)))
    ensures Serial(now, r, ops)
  {
    hide Inv, IsRun, All, View, NoConflict, Answered, Writes, ReadKeys, ReadRanges, BatchWriteKeys;
    forall opts, states, steps, b: nat, at: seq<nat>, i: nat | Lived(opts, states, steps, b, r, ops, at, now) && i < |ops|
      ensures AnsweredAlike(states, r, ops, at, now, i)
    {
      SerialEquivalence(opts, states, steps, b, |steps|, r, ops, at, i);
    }
  }

  /** What one more operation adds to the footprint. */
  lemma FootprintOf(ops: seq<Op>, op: Op)
    ensures Writes(ops + [op]) == Writes(ops) + (if op.WriteOp? then [op.record] else [])
    ensures ReadRanges(ops + [op]) == ReadRanges(ops) + (if op.ScanOp? then [(op.lower, op.upper)] else [])
    ensures ReadKeys(ops + [op]) ==
            ReadKeys(ops) + (if op.GetOp? && LocalValue(Writes(ops), op.key).None? then {op.key} else {})
  {
    var more, n := ops + [op], |ops|;
    assert more[..n] == ops;
    assert forall i :: 0 <= i < n ==> more[i] == ops[i] && more[..i] == ops[..i];
  }

  // ----- the commit itself

  lemma EmptyBatch(db: Db)
    requires Inv(db)
    ensures All(ApplyBatch(db, [])) == All(db)
  {
    WriteKeepsInv(db, []);
    assert Elems(BatchEntries(db.lastSequence + 1, [])) == {};
  }

  lemma NewestAdded(s: set<Entry>, e: Entry, k: Bytes, last: nat)
    requires Functional(s + {e}) && Bounded(s, last) && e.key.sequence == last + 1
    ensures Get(s + {e}, k, last + 1) == if e.key.userKey == k then Visible(Some(e)) else Get(s, k, last)
  {
    if e.key.userKey == k {
      NewestUnique(s + {e}, k, last + 1, e);
    } else if Newest(s, k, last).Some? {
      NewestUnique(s + {e}, k, last + 1, Newest(s, k, last).value);
    }
  }

  lemma LastEntry(db: Db, batch: seq<BatchRecord>)
    requires Inv(db) && batch != []
    ensures var e := RecordEntry(batch[|batch| - 1], db.lastSequence + |batch|);
            var s := All(ApplyBatch(db, batch[..|batch| - 1]));
            && All(ApplyBatch(db, batch)) == s + {e}
            && Functional(s + {e})
            && Bounded(s, db.lastSequence + |batch| - 1)
  {
    var front := batch[..|batch| - 1];
    var e := RecordEntry(batch[|batch| - 1], db.lastSequence + |batch|);
    assert BatchEntries(db.lastSequence + 1, batch) == BatchEntries(db.lastSequence + 1, front) + [e];
    ElemsConcat(BatchEntries(db.lastSequence + 1, front), [e]);
    assert Elems([e]) == {e};
    assert ApplyBatch(db, front).lastSequence == db.lastSequence + |batch| - 1;
    hide Inv, All, ApplyBatch, BatchEntries;
    WriteKeepsInv(db, batch);
    WriteKeepsInv(db, front);
    UnpackInv(ApplyBatch(db, batch));
    UnpackInv(ApplyBatch(db, front));
  }

  /** Applying a batch changes the visible map by exactly that batch, in order. */
  lemma {:induction false} BatchView(db: Db, batch: seq<BatchRecord>, k: Bytes)
    requires Inv(db)
    ensures Get(All(ApplyBatch(db, batch)), k, db.lastSequence + |batch|) ==
            Find(Overlay(View(All(db), db.lastSequence), batch), k)
    decreases |batch|
  {
    hide Inv, All, View, Get, ApplyBatch, Functional;
    if batch == [] {
      ViewFind(All(db), k, db.lastSequence);
      EmptyBatch(db);
    } else {
      var front, last := batch[..|batch| - 1], batch[|batch| - 1];
      BatchView(db, front, k);
      LastEntry(db, batch);
      NewestAdded(All(ApplyBatch(db, front)), RecordEntry(last, db.lastSequence + |batch|), k, db.lastSequence + |front|);
    }
  }

  /** A commit is atomic: the visible map afterwards is the one before with all its writes applied. */
  lemma CommitView(db: Db, batch: seq<BatchRecord>)
    requires Inv(db)
    ensures View(All(ApplyBatch(db, batch)), db.lastSequence + |batch|) == Overlay(View(All(db), db.lastSequence), batch)
  {
    var a, b := View(All(ApplyBatch(db, batch)), db.lastSequence + |batch|), Overlay(View(All(db), db.lastSequence), batch);
    forall k ensures Find(a, k) == Find(b, k) {
      BatchView(db, batch, k);
      ViewFind(All(ApplyBatch(db, batch)), k, db.lastSequence + |batch|);
    }
    hide *;
    SameFindSameMap(a, b);
  }

  lemma SameFindSameMap(a: map<Bytes, Bytes>, b: map<Bytes, Bytes>)
    requires forall k :: Find(a, k) == Find(b, k)
    ensures a == b
  {
    assert forall k :: k in a <==> Find(a, k).Some?;
    assert forall k :: k in b <==> Find(b, k).Some?;
  }

  // ----- conflicts are exactly the intervening writes

  ghost predicate WroteKey(steps: seq<Step>, b: nat, c: nat, k: Bytes) {
    exists m :: b <= m < c && m < |steps| && steps[m].Write? && k in BatchWriteKeys(steps[m].batch)
  }

  ghost predicate LaterVersion(s: set<Entry>, k: Bytes, r: nat) {
    exists e :: e in s && e.key.userKey == k && e.key.sequence > r
  }

  lemma BatchKeys(start: nat, batch: seq<BatchRecord>, k: Bytes, r: nat)
    requires r < start
    ensures LaterVersion(Elems(BatchEntries(start, batch)), k, r) <==> k in BatchWriteKeys(batch)
  {
    var es := BatchEntries(start, batch);
    if k in BatchWriteKeys(batch) {
      var i :| 0 <= i < |batch| && batch[i].key == k;
      assert es[i] in es && es[i] in Elems(es);
    }
    if e :| e in Elems(es) && e.key.userKey == k {
      var i :| 0 <= i < |es| && es[i] == e;
      assert batch[i] in batch && RecordKey(batch[i]) == k;
    }
  }

  lemma StepKeys(opts: Options, db: Db, step: Step, r: nat, k: Bytes)
    requires Inv(db) && Enabled(opts, db, step) && r in db.live
    ensures LaterVersion(All(Do(opts, db, step)), k, r) <==>
            LaterVersion(All(db), k, r) || (step.Write? && k in BatchWriteKeys(step.batch))
  {
    assert r <= db.lastSequence;
    StepKeeps(opts, db, step, r);
    if step.Write? {
      assert Do(opts, db, step) == ApplyBatch(db, step.batch);
      hide Inv, All, BatchWriteKeys, BatchEntries, Do, ApplyBatch, Enabled, Protects;
      WriteKeepsInv(db, step.batch);
      BatchKeys(db.lastSequence + 1, step.batch, k, r);
    } else {
      hide Inv, All, Do, Enabled;
      StepAddsNothing(opts, db, step);
    }
  }

  lemma StepAddsNothing(opts: Options, db: Db, step: Step)
    requires Inv(db) && Enabled(opts, db, step) && !step.Write?
    ensures All(Do(opts, db, step)) <= All(db)
  {
    match step {
      case Freeze => FreezeKeepsInv(db);
      case Flush(size) => FlushKeepsInv(db, size);
      case Compact(task, numbers, sizes) => CompactionKeeps(opts, db, task, numbers, sizes);
      case TakeSnapshot => SnapshotKeepsInv(db, db.live + multiset{db.lastSequence});
      case CloneSnapshot(s) => SnapshotKeepsInv(db, db.live + multiset{s});
      case ReleaseSnapshot(s) => SnapshotKeepsInv(db, db.live - multiset{s});
    }
  }

  /**
   While the snapshot is live nothing hides an intervening write: a later version of `k` exists at
   state `c` exactly when some batch written between `b` and `c` has `k` among its keys.
   */
  lemma {:induction false} ConflictExact(opts: Options, states: seq<Db>, steps: seq<Step>, b: nat, c: nat, k: Bytes)
    requires IsRun(opts, states, steps) && Inv(states[0]) && b <= c <= |steps|
    requires forall m :: b <= m < c ==> states[b].lastSequence in states[m].live
    ensures LaterVersion(All(states[c]), k, states[b].lastSequence) <==> WroteKey(steps, b, c, k)
    decreases c - b
  {
    hide *;
    RunLength(opts, states, steps);
    if b == c {
      RunKeepsInv(opts, states, steps, b);
      NothingLater(states[b], k);
      NothingWritten(steps, b, k);
    } else {
      ConflictExact(opts, states, steps, b, c - 1, k);
      RunStep(opts, states, steps, c - 1);
      StepKeys(opts, states[c - 1], steps[c - 1], states[b].lastSequence, k);
      WroteKeyStep(steps, b, c, k);
    }
  }

  lemma RunLength(opts: Options, states: seq<Db>, steps: seq<Step>)
    requires IsRun(opts, states, steps)
    ensures |states| == |steps| + 1
  {
  }

  lemma NothingLater(db: Db, k: Bytes)
    requires Inv(db)
    ensures !LaterVersion(All(db), k, db.lastSequence)
  {
    UnpackInv(db);
    hide Inv, All;
  }

  lemma NothingWritten(steps: seq<Step>, b: nat, k: Bytes)
    ensures !WroteKey(steps, b, b, k)
  {
  }

  lemma RunStep(opts: Options, states: seq<Db>, steps: seq<Step>, i: nat)
    requires IsRun(opts, states, steps) && Inv(states[0]) && i < |steps|
    ensures Inv(states[i]) && Enabled(opts, states[i], steps[i]) && states[i + 1] == Do(opts, states[i], steps[i])
  {
    RunKeepsInv(opts, states, steps, i);
  }

  lemma WroteKeyStep(steps: seq<Step>, b: nat, c: nat, k: Bytes)
    requires b < c <= |steps|
    ensures WroteKey(steps, b, c, k) <==>
            WroteKey(steps, b, c - 1, k) || (steps[c - 1].Write? && k in BatchWriteKeys(steps[c - 1].batch))
  {
    hide BatchWriteKeys;
  }

  // ----- the object

  /** `into_iter().collect()` of scanned rows into an ordered map. */
  method RowsToMap(rows: seq<Row>, ghost s: set<Entry>, lower: Bound, upper: Bound, ghost r: nat) returns (m: map<Bytes, Bytes>)
    requires IsScan(rows, s, lower, upper, r)
    ensures m == Restrict(View(s, r), lower, upper)
  {
    m := map[];
    for i := 0 to |rows|
      invariant forall k :: k in m <==> exists j :: 0 <= j < i && rows[j].0 == k
      invariant forall j :: 0 <= j < i ==> rows[j].0 in m && m[rows[j].0] == rows[j].1
    {
      forall j | 0 <= j < i ensures rows[j].0 != rows[i].0 { UserKeyOrder(); }
      m := m[rows[i].0 := rows[i].1];
    }
    forall k ensures Find(m, k) == Find(Restrict(View(s, r), lower, upper), k) {
      ViewFind(s, k, r);
      hide Get;
      if k in m {
        var j :| 0 <= j < |rows| && rows[j].0 == k;
        assert (k, rows[j].1) in rows;
      } else {
        assert forall v :: (k, v) !in rows;
        var g := Get(s, k, r);
        assert g.Some? ==> (k, g.value) !in rows;
      }
    }
    SameFindSameMap(m, Restrict(View(s, r), lower, upper));
  }

  lemma RestrictOverwrite(m: map<Bytes, Bytes>, r: BatchRecord, lower: Bound, upper: Bound)
    ensures Restrict(Overwrite(m, r), lower, upper) ==
            if WithinBounds(r.key, lower, upper) then Overwrite(Restrict(m, lower, upper), r) else Restrict(m, lower, upper)
  {
  }

  class Transaction {
    const db: Database
    const readSeq: nat
    const snapshot: Snapshot
    const readOnly: bool
    var writes: seq<BatchRecord>
    var readKeys: set<Bytes>
    var readRanges: seq<ReadRange>
    var closed: bool

    /** The operations made so far; what the transaction keeps of them is its footprint. */
    ghost var ops: seq<Op>

    ghost predicate Valid()
      reads this
    {
      writes == Writes(ops) && readKeys == ReadKeys(ops) && readRanges == ReadRanges(ops)
    }

    /** The base the transaction reads: the store at its snapshot. */
    ghost function Base(): map<Bytes, Bytes>
      reads db, db.watermark
    {
      View(All(db.Model()), readSeq)
    }

    constructor (db: Database, readOnly: bool)
      requires db.Valid()
      modifies db.watermark
      ensures this.db == db && readSeq == db.lastSequence && this.readOnly == readOnly
      ensures writes == [] && readKeys == {} && readRanges == [] && !closed
      ensures Valid() && ops == []
      ensures db.Valid() && db.watermark.live == old(db.watermark.live) + multiset{readSeq}
    {
      SnapshotKeepsInv(db.Model(), db.watermark.live + multiset{db.lastSequence});
      hide Inv;
      var s := new Snapshot(db.lastSequence, db.watermark);
      this.db := db;
      readSeq := db.lastSequence;
      snapshot := s;
      this.readOnly := readOnly;
      writes, readKeys, readRanges, closed, ops := [], {}, [], false, [];
    }

    /** `local_value`: scanning the writes backwards finds the last one. */
    method FindLocal(key: Bytes) returns (v: Option<ValueRecord>)
      ensures v == LocalValue(writes, key)
    {
      var i := |writes|;
      assert writes[..i] == writes;
      while i > 0
        invariant 0 <= i <= |writes|
        invariant LocalValue(writes[..i], key) == LocalValue(writes, key)
      {
        i := i - 1;
        assert writes[..i + 1][..i] == writes[..i];
        match writes[i] {
          case PutRecord(k, value) => if k == key { return Some(Put(value)); }
          case DeleteRecord(k) => if k == key { return Some(Delete); }
        }
      }
      return None;
    }

    /** Own writes first, then the snapshot; a key read from the store is remembered. */
    method Get(key: Bytes) returns (r: Result<Option<Bytes>>)
      requires db.Valid() && Valid()
      modifies this`readKeys, this`ops
      ensures Valid() && ops == if closed then old(ops) else old(ops) + [GetOp(key)]
      ensures r.Ok? ==> Value(r.value) == Answered(Base(), Writes(old(ops)), GetOp(key))
      ensures closed ==> r == Err(Closed) && readKeys == old(readKeys)
      ensures !closed ==> readKeys == old(readKeys) + if LocalValue(writes, key).None? then {key} else {}
      ensures !closed && (!db.closed || LocalValue(writes, key).Some?) ==> r == Ok(Find(Overlay(Base(), writes), key))
      ensures !closed && db.closed && LocalValue(writes, key).None? ==> r == Err(Closed)
    {
      hide Inv, Overlay, All, View, LocalValue, Writes, ReadKeys, ReadRanges, Watermark.Valid, Visibility.Get, VisibleValue, Find;
      if closed { return Err(Closed); }
      FootprintOf(ops, GetOp(key));
      ops := ops + [GetOp(key)];
      OverlayFind(Base(), writes, key);
      ViewFind(All(db.Model()), key, readSeq);
      var local := FindLocal(key);
      if local.Some? {
        return Ok(VisibleValue(local));
      }
      readKeys := readKeys + {key};
      r := db.GetOpt(key, Some(readSeq));
    }

    /** The snapshot's rows with the own writes in range laid over them; the range is remembered. */
    method Scan(lower: Bound, upper: Bound) returns (r: Result<map<Bytes, Bytes>>)
      requires db.Valid() && db.lastSequence <= U64_MAX && Valid()
      modifies this`readRanges, this`ops
      ensures Valid() && ops == if closed then old(ops) else old(ops) + [ScanOp(lower, upper)]
      ensures r.Ok? ==> Rows(r.value) == Answered(Base(), Writes(old(ops)), ScanOp(lower, upper))
      ensures closed ==> r == Err(Closed) && readRanges == old(readRanges)
      ensures !closed ==> readRanges == old(readRanges) + [(lower, upper)]
      ensures !closed && db.closed ==> r == Err(Closed)
      ensures !closed && !db.closed ==> r == Ok(Restrict(Overlay(Base(), writes), lower, upper))
    {
      if closed { return Err(Closed); }
      hide Inv, All, View, IsScan, WithinBounds, Restrict, Writes, ReadKeys, ReadRanges, Overlay, Watermark.Valid;
      FootprintOf(ops, ScanOp(lower, upper));
      readRanges, ops := readRanges + [(lower, upper)], ops + [ScanOp(lower, upper)];
      var scanned := db.ScanOpt(lower, upper, Some(readSeq));
      if scanned.Err? { return Err(scanned.error); }
      var rows := RowsToMap(scanned.value, All(db.Model()), lower, upper, readSeq);
      OverlayNone(Base());
      assert writes[..0] == [];
      for i := 0 to |writes|
        invariant rows == Restrict(Overlay(Base(), writes[..i]), lower, upper)
        invariant readRanges == old(readRanges) + [(lower, upper)] && ops == old(ops) + [ScanOp(lower, upper)]
      {
        OverlayNext(Base(), writes, i);
        RestrictOverwrite(Overlay(Base(), writes[..i]), writes[i], lower, upper);
        match writes[i] {
          case PutRecord(key, value) => if WithinBounds(key, lower, upper) { rows := rows[key := value]; }
          case DeleteRecord(key) => if WithinBounds(key, lower, upper) { rows := rows - {key}; }
        }
      }
      assert writes[..|writes|] == writes;
      return Ok(rows);
    }

    method Write(record: BatchRecord) returns (r: Result<()>)
      requires Valid()
      modifies this`writes, this`ops
      ensures Valid() && ops == if r.Ok? then old(ops) + [WriteOp(record)] else old(ops)
      ensures r == if closed then Err(Closed) else if readOnly then Err(InvalidArgument) else Ok(())
      ensures writes == if r.Ok? then old(writes) + [record] else old(writes)
    {
      if closed { return Err(Closed); }
      if readOnly { return Err(InvalidArgument); }
      FootprintOf(ops, WriteOp(record));
      writes, ops := writes + [record], ops + [WriteOp(record)];
      return Ok(());
    }

    method Rollback() returns (r: Result<()>)
      modifies this`closed
      ensures r == if old(closed) then Err(Closed) else Ok(())
      ensures closed
    {
      if closed { return Err(Closed); }
      closed := true;
      return Ok(());
    }

    /**
     Accepted exactly when nothing it read or wrote has a later version; refused commits change nothing.  An
     accepted transaction is serial: its answers are those of running it alone where it commits.
     */
    method Commit(fileSize: nat) returns (r: Result<()>)
      requires db.Valid() && Valid()
      ensures r.Ok? ==> Serial(old(db.Model()), readSeq, ops)
      modifies this`closed, db
      ensures closed && db.Valid() && db.closed == old(db.closed)
      ensures old(closed) || old(db.closed) ==> r == Err(Closed)
      ensures !old(closed) && !old(db.closed) ==>
                (r == Ok(()) <==> NoConflict(All(old(db.Model())), readSeq, readKeys, readRanges, BatchWriteKeys(writes)))
      ensures r.Err? ==> db.Model() == old(db.Model())
      ensures r.Ok? ==> db.Model() == if writes == [] then old(db.Model()) else Committed(db.opts, old(db.Model()), writes, fileSize)
    {
      hide Inv, All, NoConflict, Committed, Serial, Writes, ReadKeys, ReadRanges;
      if closed { return Err(Closed); }
      closed := true;
      ghost var now := db.Model();
      r := db.CommitTransaction(readSeq, writes, readKeys, readRanges, fileSize);
      if r.Ok? { AcceptedIsSerial(now, readSeq, ops); }
    }
  }
}
