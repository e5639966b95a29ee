/**
 Which transactions are refused (src/mvcc/transaction.rs, src/db.rs:428-452), said of the operations they made and
 of the batches written meanwhile.
 */
module Conflicts {
  import opened Keys
  import opened Picker
  import opened Lsm
  import opened LsmSafety
  import opened Databases
  import opened Transactions

  /** The transaction wrote the key, scanned a range that holds it, or read it before writing it. */
  ghost predicate Touches(ops: seq<Op>, k: Bytes) {
    exists i :: 0 <= i < |ops| && TouchedBy(ops, i, k)
  }

  ghost predicate TouchedBy(ops: seq<Op>, i: nat, k: Bytes)
    requires i < |ops|
  {
    match ops[i]
    case GetOp(key) => key == k && forall j :: 0 <= j < i && ops[j].WriteOp? ==> ops[j].record.key != k
    case ScanOp(lower, upper) => WithinBounds(k, lower, upper)
    case WriteOp(record) => record.key == k
  }

  /** Some batch written between states `b` and `c` has a record for a key the transaction touched. */
  ghost predicate WrittenMeanwhile(steps: seq<Step>, b: nat, c: nat, ops: seq<Op>) {
    exists m, record :: b <= m < c && m < |steps| && steps[m].Write? && record in steps[m].batch && Touches(ops, record.key)
  }

  lemma {:induction false} WritesHold(ops: seq<Op>, r: BatchRecord)
    ensures r in Writes(ops) <==> exists i :: 0 <= i < |ops| && ops[i] == WriteOp(r)
  {
    if ops != [] {
      var n := |ops| - 1;
      WritesHold(ops[..n], r);
      assert forall i :: 0 <= i < n ==> ops[..n][i] == ops[i];
    }
  }

  lemma {:induction false} LocalNone(writes: seq<BatchRecord>, k: Bytes)
    ensures LocalValue(writes, k).None? <==> forall r :: r in writes ==> r.key != k
  {
    if writes != [] {
      var n := |writes| - 1;
      LocalNone(writes[..n], k);
      assert writes == writes[..n] + [writes[n]];
    }
  }

  lemma {:induction false} RangesHold(ops: seq<Op>, range: ReadRange)
    ensures range in ReadRanges(ops) <==> exists i :: 0 <= i < |ops| && ops[i] == ScanOp(range.0, range.1)
  {
    if ops != [] {
      var n := |ops| - 1;
      RangesHold(ops[..n], range);
      assert forall i :: 0 <= i < n ==> ops[..n][i] == ops[i];
      assert ops[n].ScanOp? ==>
          (range in ReadRanges(ops[..n]) + [(ops[n].lower, ops[n].upper)] <==>
           range in ReadRanges(ops[..n]) || range == (ops[n].lower, ops[n].upper));
    }
  }

  lemma NotWrittenBefore(ops: seq<Op>, i: nat, k: Bytes)
    requires i <= |ops|
    ensures LocalValue(Writes(ops[..i]), k).None? <==> forall j :: 0 <= j < i && ops[j].WriteOp? ==> ops[j].record.key != k
  {
    LocalNone(Writes(ops[..i]), k);
    forall r ensures r in Writes(ops[..i]) <==> exists j :: 0 <= j < i && ops[j] == WriteOp(r) {
      WritesHold(ops[..i], r);
      assert forall j :: 0 <= j < i ==> ops[..i][j] == ops[j];
    }
    if j :| 0 <= j < i && ops[j].WriteOp? && ops[j].record.key == k {
      assert ops[j].record in Writes(ops[..i]);
    }
  }

  lemma ReadsHold(ops: seq<Op>, k: Bytes)
    ensures k in ReadKeys(ops) <==> exists i :: 0 <= i < |ops| && ops[i].GetOp? && TouchedBy(ops, i, k)
  {
    hide Writes, LocalValue;
    forall i: nat | i < |ops|
      ensures LocalValue(Writes(ops[..i]), k).None? <==> forall j :: 0 <= j < i && ops[j].WriteOp? ==> ops[j].record.key != k
    {
      NotWrittenBefore(ops, i, k);
    }
  }

  /** The sets a transaction keeps are its footprint: the keys it touched. */
  lemma FootprintIs(ops: seq<Op>, k: Bytes)
    ensures Touches(ops, k) <==>
            || k in ReadKeys(ops)
            || k in BatchWriteKeys(Writes(ops))
            || exists j :: 0 <= j < |ReadRanges(ops)| && WithinBounds(k, ReadRanges(ops)[j].0, ReadRanges(ops)[j].1)
  {
    ReadsHold(ops, k);
    WriteKeysHold(ops, k);
    ScansHold(ops, k);
    hide ReadKeys, BatchWriteKeys, Writes, ReadRanges, WithinBounds;
  }

  lemma WriteKeysHold(ops: seq<Op>, k: Bytes)
    ensures k in BatchWriteKeys(Writes(ops)) <==> exists i :: 0 <= i < |ops| && ops[i].WriteOp? && TouchedBy(ops, i, k)
  {
    hide Writes;
    if i :| 0 <= i < |ops| && ops[i].WriteOp? && TouchedBy(ops, i, k) {
      WritesHold(ops, ops[i].record);
      assert ops[i] == WriteOp(ops[i].record);
      assert RecordKey(ops[i].record) == k;
    }
    if r :| r in Writes(ops) && RecordKey(r) == k {
      WritesHold(ops, r);
      var i :| 0 <= i < |ops| && ops[i] == WriteOp(r);
      assert TouchedBy(ops, i, k);
    }
  }

  lemma ScansHold(ops: seq<Op>, k: Bytes)
    ensures (exists i :: 0 <= i < |ops| && ops[i].ScanOp? && TouchedBy(ops, i, k)) <==>
            exists j :: 0 <= j < |ReadRanges(ops)| && WithinBounds(k, ReadRanges(ops)[j].0, ReadRanges(ops)[j].1)
  {
    hide ReadRanges, WithinBounds;
    var ranges := ReadRanges(ops);
    if i :| 0 <= i < |ops| && ops[i].ScanOp? && TouchedBy(ops, i, k) {
      RangesHold(ops, (ops[i].lower, ops[i].upper));
      var j :| 0 <= j < |ranges| && ranges[j] == (ops[i].lower, ops[i].upper);
      assert WithinBounds(k, ranges[j].0, ranges[j].1);
    }
    if j :| 0 <= j < |ranges| && WithinBounds(k, ranges[j].0, ranges[j].1) {
      RangesHold(ops, ranges[j]);
      var i :| 0 <= i < |ops| && ops[i] == ScanOp(ranges[j].0, ranges[j].1);
      assert TouchedBy(ops, i, k);
    }
  }

  lemma ConflictIs(s: set<Entry>, r: nat, ops: seq<Op>)
    ensures NoConflict(s, r, ReadKeys(ops), ReadRanges(ops), BatchWriteKeys(Writes(ops))) <==>
            forall k :: LaterVersion(s, k, r) ==> !Touches(ops, k)
  {
    forall k
      ensures Touches(ops, k) <==>
              || k in ReadKeys(ops)
              || k in BatchWriteKeys(Writes(ops))
              || exists j :: 0 <= j < |ReadRanges(ops)| && WithinBounds(k, ReadRanges(ops)[j].0, ReadRanges(ops)[j].1)
    {
      FootprintIs(ops, k);
    }
    hide Touches, ReadKeys, BatchWriteKeys, Writes, ReadRanges, WithinBounds;
    var readKeys, readRanges, writeKeys := ReadKeys(ops), ReadRanges(ops), BatchWriteKeys(Writes(ops));
    forall e | e in s && e.key.sequence > r ensures LaterVersion(s, e.key.userKey, r) {
    }
    if NoConflict(s, r, readKeys, readRanges, writeKeys) {
      forall k | LaterVersion(s, k, r) ensures !Touches(ops, k) {
        var e :| e in s && e.key.userKey == k && e.key.sequence > r;
      }
    }
  }

  /**
   A transaction whose snapshot was taken at state `b` and lived until state `c` is refused at `c` if and only if
   some batch written in between has a record for a key it touched: none is missed, and none is refused without cause.
   */
  lemma RefusedExactly(opts: Options, states: seq<Db>, steps: seq<Step>, b: nat, c: nat, ops: seq<Op>)
    requires IsRun(opts, states, steps) && Inv(states[0]) && b <= c <= |steps|
    requires forall m :: b <= m < c ==> states[b].lastSequence in states[m].live
    ensures !NoConflict(All(states[c]), states[b].lastSequence, ReadKeys(ops), ReadRanges(ops), BatchWriteKeys(Writes(ops))) <==>
            WrittenMeanwhile(steps, b, c, ops)
  {
    var s, r := All(states[c]), states[b].lastSequence;
    forall k ensures LaterVersion(s, k, r) <==> WroteKey(steps, b, c, k) {
      ConflictExact(opts, states, steps, b, c, k);
    }
    hide IsRun, Inv, All, NoConflict, Touches, ReadKeys, ReadRanges, Writes, LaterVersion;
    ConflictIs(s, r, ops);
    if k :| WroteKey(steps, b, c, k) && Touches(ops, k) {
      var m :| b <= m < c && m < |steps| && steps[m].Write? && k in BatchWriteKeys(steps[m].batch);
      var record :| record in steps[m].batch && RecordKey(record) == k;
    }
    if WrittenMeanwhile(steps, b, c, ops) {
      var m, record :| b <= m < c && m < |steps| && steps[m].Write? && record in steps[m].batch && Touches(ops, record.key);
      assert RecordKey(record) in BatchWriteKeys(steps[m].batch);
      assert WroteKey(steps, b, c, record.key);
    }
  }
}
