/**
 What bounds mean (src/iterator/db_iterator.rs:127-138, src/db.rs:1219-1230), for single keys, for scans and
 for the ranges a transaction has read.
 */
module Ranges {
  import opened Keys
  import opened Visibility
  import opened Picker
  import opened Iterators
  import opened Databases

  /**
   A two-sided range is the conjunction of its sides, an open side excludes nothing, each one-sided range is the
   complement of another, and the range from a key to itself holds that key alone.
   */
  lemma BoundLaws(key: Bytes, b: Bytes, lower: Bound, upper: Bound)
    ensures WithinBounds(key, lower, upper) <==> WithinBounds(key, lower, Unbounded) && WithinBounds(key, Unbounded, upper)
    ensures WithinBounds(key, Unbounded, Unbounded)
    ensures WithinBounds(key, Unbounded, Included(b)) <==> !WithinBounds(key, Excluded(b), Unbounded)
    ensures WithinBounds(key, Unbounded, Excluded(b)) <==> !WithinBounds(key, Included(b), Unbounded)
    ensures WithinBounds(key, Included(b), Included(b)) <==> key == b
  {
    UserKeyOrder();
  }

  /** Lower bounds are closed upwards and upper bounds downwards in the order of keys. */
  lemma BoundsFollowOrder(a: Bytes, b: Bytes, bound: Bound)
    requires Less(a, b)
    ensures WithinBounds(a, bound, Unbounded) ==> WithinBounds(b, bound, Unbounded)
    ensures WithinBounds(b, Unbounded, bound) ==> WithinBounds(a, Unbounded, bound)
  {
    UserKeyOrder();
  }

  /**
   Seeking to a lower bound skips every version outside it, and only those; but for a deletion of the excluded key
   under sequence 0, where the seek stops and the bound itself decides.
   */
  lemma SeekSkipsExactly(lower: Bound, e: Entry)
    requires e.key.sequence <= U64_MAX && LowerBoundSeekKey(lower).Some?
    ensures KeyLess(e.key, LowerBoundSeekKey(lower).value) <==>
            !WithinBounds(e.key.userKey, lower, Unbounded) && !(lower.Excluded? && e.key == InternalKey(lower.bound, 0, DeleteType))
  {
    UserKeyOrder();
  }

  // ----- scans

  /** The scan of the range from a key to itself is the row of that key, if it is visible. */
  lemma PointScan(rows: seq<Row>, s: set<Entry>, key: Bytes, r: nat)
    requires IsScan(rows, s, Included(key), Included(key), r)
    ensures rows == match Get(s, key, r) case Some(v) => [(key, v)] case None => []
  {
    hide Get;
    forall k, v | (k, v) in rows ensures k == key && Get(s, key, r) == Some(v) {
      BoundLaws(k, key, Unbounded, Unbounded);
    }
    BoundLaws(key, key, Unbounded, Unbounded);
    var one := match Get(s, key, r) case Some(v) => [(key, v)] case None => [];
    forall x: Row ensures x in rows <==> x in one {
      assert x == (x.0, x.1);
    }
    ScanUnique(rows, one);
  }

  lemma AscendingConcat(a: seq<Row>, b: seq<Row>)
    requires Ascending(a) && Ascending(b)
    requires forall x, y :: x in a && y in b ==> Less(x.0, y.0)
    ensures Ascending(a + b)
  {
  }

  /** Where `below` and `above` split a range, with every key of the first under every key of the second. */
  ghost predicate SplitsAt(lower: Bound, below: Bound, above: Bound, upper: Bound) {
    && (forall k :: WithinBounds(k, lower, upper) <==> WithinBounds(k, lower, below) || WithinBounds(k, above, upper))
    && (forall k, l :: WithinBounds(k, lower, below) && WithinBounds(l, above, upper) ==> Less(k, l))
  }

  lemma BoundsSplit(lower: Bound, key: Bytes, upper: Bound)
    requires WithinBounds(key, lower, upper)
    ensures SplitsAt(lower, Excluded(key), Included(key), upper) && SplitsAt(lower, Included(key), Excluded(key), upper)
  {
    UserKeyOrder();
  }

  lemma SplitScan(a: seq<Row>, b: seq<Row>, whole: seq<Row>, s: set<Entry>, lower: Bound, below: Bound, above: Bound, upper: Bound, r: nat)
    requires SplitsAt(lower, below, above, upper)
    requires IsScan(a, s, lower, below, r) && IsScan(b, s, above, upper, r) && IsScan(whole, s, lower, upper, r)
    ensures a + b == whole
  {
    hide Get, WithinBounds;
    forall x, y | x in a && y in b ensures Less(x.0, y.0) {
      assert (x.0, x.1) in a && (y.0, y.1) in b;
    }
    AscendingConcat(a, b);
    forall x: Row ensures x in a + b <==> x in whole {
      assert x == (x.0, x.1);
    }
    ScanUnique(a + b, whole);
  }

  /** A scan split at a key within its range is the two scans one after the other, on whichever side the key is. */
  lemma ScanSplits(a: seq<Row>, b: seq<Row>, c: seq<Row>, d: seq<Row>, whole: seq<Row>, s: set<Entry>, lower: Bound, key: Bytes, upper: Bound, r: nat)
    requires WithinBounds(key, lower, upper) && IsScan(whole, s, lower, upper, r)
    requires IsScan(a, s, lower, Excluded(key), r) && IsScan(b, s, Included(key), upper, r)
    requires IsScan(c, s, lower, Included(key), r) && IsScan(d, s, Excluded(key), upper, r)
    ensures a + b == whole && c + d == whole
  {
    BoundsSplit(lower, key, upper);
    SplitScan(a, b, whole, s, lower, Excluded(key), Included(key), upper, r);
    SplitScan(c, d, whole, s, lower, Included(key), Excluded(key), upper, r);
  }

  // ----- ranges read by a transaction

  /** Having scanned the range of one key conflicts exactly as having read the key. */
  lemma PointRangeConflict(s: set<Entry>, q: nat, key: Bytes, writeKeys: set<Bytes>)
    ensures NoConflict(s, q, {}, [(Included(key), Included(key))], writeKeys) <==> NoConflict(s, q, {key}, [], writeKeys)
  {
    forall k ensures WithinBounds(k, Included(key), Included(key)) <==> k == key {
      BoundLaws(k, key, Unbounded, Unbounded);
    }
    hide WithinBounds;
    var ranges: seq<ReadRange> := [(Included(key), Included(key))];
    assert ranges[0] == (Included(key), Included(key));
  }

  /** Having scanned a range conflicts exactly as having scanned both its parts. */
  lemma SplitRangeConflict(s: set<Entry>, q: nat, lower: Bound, key: Bytes, upper: Bound)
    requires WithinBounds(key, lower, upper)
    ensures NoConflict(s, q, {}, [(lower, upper)], {}) <==>
            NoConflict(s, q, {}, [(lower, Included(key)), (Excluded(key), upper)], {})
  {
    BoundsSplit(lower, key, upper);
    hide WithinBounds;
    var one: seq<ReadRange>, two: seq<ReadRange> := [(lower, upper)], [(lower, Included(key)), (Excluded(key), upper)];
    assert one[0] == (lower, upper) && two[0] == (lower, Included(key)) && two[1] == (Excluded(key), upper);
  }
}
