/**
 A group of the write queue on the store (src/db.rs:809-852): the sequence ranges of the protocol are the
 sequences under which the store applies the batches.
 */
module GroupWrites {
  import opened Keys
  import opened Executor
  import opened Lsm
  import opened LsmWrites
  import opened GroupCommit
  import opened Databases

  /** The batches of the requests of a group, in queue order. */
  function BatchesOf(group: seq<Id>, batches: map<Id, seq<BatchRecord>>): seq<seq<BatchRecord>>
    requires forall g :: g in group ==> g in batches
  {
    if group == [] then [] else [batches[group[0]]] + BatchesOf(group[1..], batches)
  }

  function Sizes(batches: map<Id, seq<BatchRecord>>): map<Id, nat> {
    map g | g in batches :: |batches[g]|
  }

  /** The versions of ranges that belong to requests: each batch from the start of its range on. */
  function RangeEntries(ranges: seq<Range>, batches: map<Id, seq<BatchRecord>>): set<Entry>
    requires forall r :: r in ranges ==> r.owner.Some? && r.owner.value in batches
  {
    if ranges == [] then {}
    else Elems(BatchEntries(ranges[0].start, batches[ranges[0].owner.value])) + RangeEntries(ranges[1..], batches)
  }

  lemma {:induction false} RangesOwned(group: seq<Id>, size: map<Id, nat>, last: nat)
    requires forall g :: g in group ==> g in size
    ensures forall r :: r in RangesOf(group, size, last) ==> r.owner.Some? && r.owner.value in group
    decreases |group|
  {
    if group != [] { RangesOwned(group[1..], size, last + size[group[0]]); }
  }

  lemma AppliedContents(opts: Options, db: Db, batch: seq<BatchRecord>)
    requires Lsm.Inv(db)
    ensures var db' := AppliedAndFrozen(opts, db, batch);
            && Lsm.Inv(db') && db'.lastSequence == db.lastSequence + |batch|
            && All(db') == All(db) + Elems(BatchEntries(db.lastSequence + 1, batch))
  {
    hide Lsm.Inv, All, InsertAll, BatchEntries;
    WriteKeepsInv(db, batch);
    if Full(opts, ApplyBatch(db, batch).mutable) {
      FreezeKeepsInv(ApplyBatch(db, batch));
    }
  }

  /**
   Applying a drained group adds exactly the versions of its ranges, each batch under the sequences of its own,
   and ends at the protocol's last sequence.
   */
  lemma {:induction false} GroupFillsRanges(opts: Options, db: Db, group: seq<Id>, batches: map<Id, seq<BatchRecord>>)
    requires Lsm.Inv(db) && forall g :: g in group ==> g in batches
    ensures var ranges := RangesOf(group, Sizes(batches), db.lastSequence);
            && (forall r :: r in ranges ==> r.owner.Some? && r.owner.value in batches)
            && All(GroupApplied(opts, db, BatchesOf(group, batches))) == All(db) + RangeEntries(ranges, batches)
    ensures GroupApplied(opts, db, BatchesOf(group, batches)).lastSequence == EndOf(group, Sizes(batches), db.lastSequence)
    decreases |group|
  {
    hide Lsm.Inv, All, AppliedAndFrozen, BatchEntries;
    RangesOwned(group, Sizes(batches), db.lastSequence);
    if group != [] {
      var batch, items := batches[group[0]], BatchesOf(group, batches);
      var next := AppliedAndFrozen(opts, db, batch);
      AppliedContents(opts, db, batch);
      GroupFillsRanges(opts, next, group[1..], batches);
      assert items[1..] == BatchesOf(group[1..], batches);
      var ranges := RangesOf(group, Sizes(batches), db.lastSequence);
      assert ranges[1..] == RangesOf(group[1..], Sizes(batches), next.lastSequence);
    }
  }
}
