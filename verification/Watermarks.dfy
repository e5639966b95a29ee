/** The registry of live read sequences (src/mvcc/watermark.rs) and the snapshots that use it (src/mvcc/snapshot.rs). */
module Watermarks {
  import opened Keys
  import opened Lsm

  class Watermark {
    var active: map<nat, nat>
    ghost var live: multiset<nat>

    /** The counts are those of the registered sequences, and no count is zero. */
    ghost predicate Valid()
      reads this
    {
      forall s: nat :: live[s] == (if s in active then active[s] else 0) && (s in active ==> active[s] > 0)
    }

    constructor ()
      ensures Valid() && live == multiset{}
    {
      active := map[];
      live := multiset{};
    }

    method Add(sequence: nat)
      requires Valid()
      modifies this
      ensures Valid() && live == old(live) + multiset{sequence}
    {
      active := active[sequence := (if sequence in active then active[sequence] else 0) + 1];
      live := live + multiset{sequence};
    }

    /** Removing a sequence that is not registered does nothing. */
    method Remove(sequence: nat)
      requires Valid()
      modifies this
      ensures Valid() && live == old(live) - multiset{sequence}
    {
      if sequence in active {
        active := active[sequence := active[sequence] - 1];
        if active[sequence] == 0 {
          active := active - {sequence};
        }
      }
      live := live - multiset{sequence};
    }

    method Oldest() returns (s: Option<nat>)
      requires Valid()
      ensures s.None? <==> live == multiset{}
      ensures s.Some? ==> IsOldest(live, s.value)
    {
      if active == map[] {
        assert forall x: nat :: live[x] == 0;
        return None;
      }
      assert exists x :: x in active && x in live by {
        var x :| x in active;
        assert live[x] == active[x];
      }
      OldestExists(live);
      assert forall x: nat :: x in live <==> x in active;
      assert exists x :: x in active.Keys && forall y :: y in active.Keys ==> x <= y by {
        var x :| IsOldest(live, x);
        assert x in active.Keys;
      }
      var oldest :| oldest in active.Keys && forall y :: y in active.Keys ==> oldest <= y;
      return Some(oldest);
    }
  }

  /** A snapshot registers its read sequence when it is made, cloned included, and releases it when dropped. */
  class Snapshot {
    const readSeq: nat
    const watermark: Watermark

    constructor (readSeq: nat, watermark: Watermark)
      requires watermark.Valid()
      modifies watermark
      ensures this.readSeq == readSeq && this.watermark == watermark
      ensures watermark.Valid() && watermark.live == old(watermark.live) + multiset{readSeq}
    {
      this.readSeq := readSeq;
      this.watermark := watermark;
      new;
      watermark.Add(readSeq);
    }

    method Clone() returns (s: Snapshot)
      requires watermark.Valid()
      modifies watermark
      ensures s.readSeq == readSeq && s.watermark == watermark
      ensures watermark.Valid() && watermark.live == old(watermark.live) + multiset{readSeq}
    {
      s := new Snapshot(readSeq, watermark);
    }

    method Drop()
      requires watermark.Valid()
      modifies watermark
      ensures watermark.Valid() && watermark.live == old(watermark.live) - multiset{readSeq}
    {
      watermark.Remove(readSeq);
    }
  }
}
