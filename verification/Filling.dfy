/**
 When a memtable is full (src/memtable/btree.rs:24-38, src/db.rs:1075-1087): sizes counted from the records written.
 */
module Filling {
  import opened Keys
  import opened Visibility
  import opened Executor
  import opened Splitter
  import opened MemTables
  import opened Picker
  import opened Lsm
  import opened LsmWrites
  import opened LsmSafety
  import opened Databases
  import opened Recovery

  /** What a record adds to the size of the memtable: its key, its value, and 40 bytes of key structure. */
  function RecordSize(r: BatchRecord): nat {
    |r.key| + 40 + (match r case PutRecord(_, value) => |value| case DeleteRecord(_) => 0)
  }

  function BatchSize(batch: seq<BatchRecord>): nat {
    if batch == [] then 0 else RecordSize(batch[0]) + BatchSize(batch[1..])
  }

  lemma {:induction false} BatchGrows(m: MemTable, start: nat, batch: seq<BatchRecord>)
    ensures InsertAll(m, BatchEntries(start, batch)).approximateSize == m.approximateSize + BatchSize(batch)
    ensures InsertAll(m, BatchEntries(start, batch)).map_ == [] <==> m.map_ == [] && batch == []
    decreases |batch|
  {
    hide Insert, RecordSize, InsertAll;
    InsertFrom(m, start, batch, 0);
    assert batch[0..] == batch;
    if batch == [] {
      InsertNone(m, start);
    } else {
      var e := RecordEntry(batch[0], start);
      BatchGrows(MemInsert(m, e), start + 1, batch[1..]);
      InsertedSize(m, batch[0], start);
    }
  }

  lemma InsertedSize(m: MemTable, r: BatchRecord, sequence: nat)
    ensures var after := MemInsert(m, RecordEntry(r, sequence));
            after.approximateSize == m.approximateSize + RecordSize(r) && after.map_ != []
  {
  }

  /** The records written since the memtable was empty, these included, reach the limit. */
  predicate Reaches(opts: Options, db: Db, batch: seq<BatchRecord>) {
    (db.mutable.map_ != [] || batch != []) && db.mutable.approximateSize + BatchSize(batch) >= opts.memtableSize
  }

  /** A batch freezes the memtable exactly when it makes it reach the limit. */
  lemma FreezesIff(opts: Options, db: Db, batch: seq<BatchRecord>)
    ensures var after := AppliedAndFrozen(opts, db, batch);
            if Reaches(opts, db, batch) then
              && after.mutable == EMPTY_MEMTABLE
              && |after.immutables| == |db.immutables| + 1 && after.immutables[..|db.immutables|] == db.immutables
              && after.immutables[|db.immutables|].approximateSize == db.mutable.approximateSize + BatchSize(batch)
            else
              after.immutables == db.immutables && after.mutable.approximateSize == db.mutable.approximateSize + BatchSize(batch)
  {
    hide InsertAll, BatchEntries, BatchSize;
    BatchGrows(db.mutable, db.lastSequence + 1, batch);
  }

  /**
   A commit that fills the memtable adds one level-0 table, in front and under the next number: the oldest memtable
   that was waiting, or with none waiting the memtable with the batch itself.  Any other commit leaves the tables alone.
   */
  lemma FillingCommitFlushes(opts: Options, db: Db, batch: seq<BatchRecord>, fileSize: nat)
    requires Inv(db)
    ensures var after := Committed(opts, db, batch, fileSize);
            if Reaches(opts, db, batch) then
              && |after.version.l0Files| == |db.version.l0Files| + 1 && after.version.l0Files[1..] == db.version.l0Files
              && after.version.l0Files[0].number == db.nextFileNumber && db.nextFileNumber in after.files
              && after.mutable == EMPTY_MEMTABLE && |after.immutables| == |db.immutables|
              && (if db.immutables != [] then after.files[db.nextFileNumber] == db.immutables[0].map_
                  else Elems(after.files[db.nextFileNumber]) == Elems(db.mutable.map_) + Elems(BatchEntries(db.lastSequence + 1, batch)))
            else
              after.version == db.version && after.files == db.files && after.immutables == db.immutables
  {
    FrozenIs(opts, db, batch);
    MutableGrows(db, batch);
    WaitingNonEmpty(db);
    hide Inv, ApplyBatch, Elems, FlushMemtable, Full, Reaches, AppliedAndFrozen, BatchEntries;
    if Reaches(opts, db, batch) {
      FlushAdds(AppliedAndFrozen(opts, db, batch), fileSize);
    }
  }

  lemma FrozenIs(opts: Options, db: Db, batch: seq<BatchRecord>)
    ensures var m := ApplyBatch(db, batch).mutable;
            && (Full(opts, m) <==> Reaches(opts, db, batch))
            && (Reaches(opts, db, batch) ==> m.map_ != [])
            && AppliedAndFrozen(opts, db, batch) ==
               (if Reaches(opts, db, batch)
                then db.(mutable := EMPTY_MEMTABLE, immutables := db.immutables + [m], lastSequence := db.lastSequence + |batch|)
                else db.(mutable := m, lastSequence := db.lastSequence + |batch|))
  {
    hide InsertAll, BatchEntries, BatchSize;
    BatchGrows(db.mutable, db.lastSequence + 1, batch);
  }

  lemma FlushAdds(db: Db, size: nat)
    requires Flushable(db).map_ != []
    ensures var after := FlushMemtable(db, size);
            && |after.version.l0Files| == |db.version.l0Files| + 1 && after.version.l0Files[1..] == db.version.l0Files
            && after.version.l0Files[0].number == db.nextFileNumber
            && after.files == db.files[db.nextFileNumber := Flushable(db).map_]
            && (db.immutables != [] ==> after.mutable == db.mutable && after.immutables == db.immutables[1..])
  {
  }

  lemma WaitingNonEmpty(db: Db)
    requires Inv(db)
    ensures db.immutables != [] ==> db.immutables[0].map_ != []
  {
    hide MemOk, TablesOk, All, Functional, Recency, Layers;
  }

  lemma MutableGrows(db: Db, batch: seq<BatchRecord>)
    requires Inv(db)
    ensures Elems(ApplyBatch(db, batch).mutable.map_) == Elems(db.mutable.map_) + Elems(BatchEntries(db.lastSequence + 1, batch))
  {
    UnpackInv(db);
    MutableOk(db);
    MemtableWithin(db, db.mutable);
    hide Inv, All, MemOk, InsertAll, BatchEntries, Recency, Layers, Functional, TablesOk;
    WriteMutable(db, batch);
  }

  lemma MutableOk(db: Db)
    requires Inv(db)
    ensures MemOk(db.mutable)
  {
    hide MemOk, TablesOk, All, Functional, Recency, Layers;
  }

  // ----- a write group

  function GroupSize(items: seq<seq<BatchRecord>>): nat {
    if items == [] then 0 else BatchSize(items[0]) + GroupSize(items[1..])
  }

  /** A group that leaves the memtable below the limit is not followed by a flush. */
  lemma {:induction false} SmallGroup(opts: Options, db: Db, items: seq<seq<BatchRecord>>)
    requires db.mutable.approximateSize + GroupSize(items) < opts.memtableSize
    ensures !GroupFills(opts, db, items)
    ensures GroupApplied(opts, db, items).mutable.approximateSize == db.mutable.approximateSize + GroupSize(items)
    decreases |items|
  {
    hide BatchSize, InsertAll, BatchEntries;
    if items != [] {
      BatchGrows(db.mutable, db.lastSequence + 1, items[0]);
      SmallGroup(opts, AppliedAndFrozen(opts, db, items[0]), items[1..]);
    }
  }

  /** One batch at least as large as the limit is enough for a flush. */
  lemma {:induction false} LargeBatch(opts: Options, db: Db, items: seq<seq<BatchRecord>>, i: nat)
    requires i < |items| && items[i] != [] && BatchSize(items[i]) >= opts.memtableSize
    ensures GroupFills(opts, db, items)
    decreases |items|
  {
    hide BatchSize, InsertAll, BatchEntries;
    BatchGrows(db.mutable, db.lastSequence + 1, items[0]);
    if i > 0 {
      LargeBatch(opts, AppliedAndFrozen(opts, db, items[0]), items[1..], i - 1);
    }
  }

  // ----- the recorded size is the size of the contents

  ghost predicate Sized(m: MemTable) {
    m.approximateSize == TotalSize(m.map_)
  }

  ghost predicate AllSized(db: Db) {
    Sized(db.mutable) && forall i :: 0 <= i < |db.immutables| ==> Sized(db.immutables[i])
  }

  lemma {:induction false} TotalSizeConcat(a: seq<Entry>, b: seq<Entry>)
    ensures TotalSize(a + b) == TotalSize(a) + TotalSize(b)
  {
    if a == [] {
      assert a + b == b;
    } else {
      assert (a + b)[1..] == a[1..] + b;
      TotalSizeConcat(a[1..], b);
    }
  }

  lemma InsertSized(m: MemTable, e: Entry)
    requires Sized(m) && forall x :: x in m.map_ ==> x.key != e.key
    ensures Sized(MemInsert(m, e))
  {
    var n := LowerBound(m.map_, e.key);
    assert n < |m.map_| ==> m.map_[n] in m.map_;
    hide LowerBound, EstimateEntrySize;
    TotalSizeConcat(m.map_[..n], [e]);
    TotalSizeConcat(m.map_[..n] + [e], m.map_[n..]);
    TotalSizeConcat(m.map_[..n], m.map_[n..]);
    assert m.map_[..n] + m.map_[n..] == m.map_;
    assert [e][1..] == [];
  }

  lemma {:induction false} InsertAllSized(m: MemTable, es: seq<Entry>)
    requires Sized(m) && StrictlySorted(m.map_)
    requires forall e, x :: e in es && x in m.map_ ==> x.key != e.key
    requires forall i, j :: 0 <= i < j < |es| ==> es[i].key != es[j].key
    ensures Sized(InsertAll(m, es))
    decreases |es|
  {
    hide StrictlySorted, MemInsert, Sized;
    if es != [] {
      var first, rest := es[0], es[1..];
      InsertOneElems(m, first);
      InsertSized(m, first);
      forall e, x | e in rest && x in MemInsert(m, first).map_ ensures x.key != e.key {
        var i :| 0 <= i < |rest| && rest[i] == e;
        assert es[i + 1] == e;
      }
      InsertAllSized(MemInsert(m, first), rest);
    }
  }

  lemma WriteSized(db: Db, batch: seq<BatchRecord>)
    requires Inv(db) && Sized(db.mutable)
    ensures Sized(ApplyBatch(db, batch).mutable)
  {
    MemtableWithin(db, db.mutable);
    BatchEntriesFresh(db.lastSequence + 1, batch);
    var es := BatchEntries(db.lastSequence + 1, batch);
    assert forall x :: x in db.mutable.map_ ==> x in All(db) && x.key.sequence <= db.lastSequence;
    hide All, Recency, Layers, Functional, TablesOk, BatchEntries;
    InsertAllSized(db.mutable, es);
  }

  lemma StepSized(opts: Options, db: Db, step: Step)
    requires Inv(db) && AllSized(db) && Enabled(opts, db, step)
    ensures AllSized(Do(opts, db, step))
  {
    hide Inv, Picked, L0Closed, SplitSafe, Chunks, CompactionOutput, MovesTrivially, GcWatermark, InsertAll, BatchEntries, Applied,
         RewriteEdits, OutputMetas, OutputFiles, MoveEdits, MetaOf;
    if step.Write? {
      hide ApplyBatch, Sized;
      WriteSized(db, step.batch);
      KeepsWaiting(db, step.batch);
    }
  }

  lemma KeepsWaiting(db: Db, batch: seq<BatchRecord>)
    ensures ApplyBatch(db, batch).immutables == db.immutables
  {
  }

  /** In every state of every run from an empty store, the size recorded of each memtable is the size of its entries. */
  lemma {:induction false} RunSized(opts: Options, states: seq<Db>, steps: seq<Step>, i: nat, maxLevels: nat)
    requires IsRun(opts, states, steps) && maxLevels >= 2 && states[0] == InitDb(maxLevels) && i <= |steps|
    ensures AllSized(states[i])
  {
    if i > 0 {
      RunSized(opts, states, steps, i - 1, maxLevels);
      InitInv(maxLevels);
      RunKeepsInv(opts, states, steps, i - 1);
      StepSized(opts, states[i - 1], steps[i - 1]);
    }
  }

  /** A memtable rebuilt from a log has grown by every record of it. */
  lemma {:induction false} ReplaySize(wal: seq<Logged>)
    ensures ReplayMemtable(wal).approximateSize == LoggedSize(wal)
  {
    hide BatchSize, InsertAll, BatchEntries;
    if wal != [] {
      var n := |wal| - 1;
      ReplaySize(wal[..n]);
      BatchGrows(ReplayMemtable(wal[..n]), wal[n].start, wal[n].batch);
    }
  }

  function LoggedSize(wal: seq<Logged>): nat {
    if wal == [] then 0 else LoggedSize(wal[..|wal| - 1]) + BatchSize(wal[|wal| - 1].batch)
  }
}
