/**
 `compact_entries` (src/compact/executor.rs): sort, keep everything above the watermark, and
 of the rest the first version of each key unless it is a tombstone that may be dropped.
 */
module Executor {
  import opened Keys
  import opened Visibility
  import opened LayerCompaction
  import opened Sorting

  function EntryKey(e: Entry): InternalKey { e.key }

  ghost predicate Sorted(s: seq<Entry>) {
    SortedBy(s, EntryKey)
  }

  function Elems(s: seq<Entry>): set<Entry> {
    set e | e in s
  }

  /** The pass over the sorted entries, `seen` being the keys already met at or below the watermark. */
  function Collect(s: seq<Entry>, w: nat, drop: bool, seen: set<Bytes>): (r: seq<Entry>)
    ensures forall e :: e in r ==> e in s
  {
    if s == [] then []
    else
      var e := s[0];
      if e.key.sequence > w then [e] + Collect(s[1..], w, drop, seen)
      else if e.key.userKey in seen then Collect(s[1..], w, drop, seen)
      else
        (if e.value.Put? || !drop then [e] else []) + Collect(s[1..], w, drop, seen + {e.key.userKey})
  }

  function Compacted(s: seq<Entry>, w: nat, drop: bool): seq<Entry> {
    Collect(SortBy(s, EntryKey), w, drop, {})
  }

  lemma CollectStep(e: Entry, rest: seq<Entry>, w: nat, drop: bool, seen: set<Bytes>, keep: seq<Entry>, seen': set<Bytes>, output: seq<Entry>)
    requires seen' == if e.key.sequence > w || e.key.userKey in seen then seen else seen + {e.key.userKey}
    requires keep == if e.key.sequence > w || (e.key.userKey !in seen && (e.value.Put? || !drop)) then [e] else []
    ensures output + keep + Collect(rest, w, drop, seen') == output + Collect([e] + rest, w, drop, seen)
  {
    assert ([e] + rest)[1..] == rest;
  }

  method CompactEntries(entries: seq<Entry>, gcWatermark: nat, dropTombstones: bool) returns (output: seq<Entry>)
    ensures output == Compacted(entries, gcWatermark, dropTombstones)
  {
    var sorted := SortBy(entries, EntryKey);
    var seenBelowWatermark: set<Bytes> := {};
    output := [];
    var i := 0;
    while i < |sorted|
      invariant 0 <= i <= |sorted|
      invariant output + Collect(sorted[i..], gcWatermark, dropTombstones, seenBelowWatermark)
             == Collect(sorted, gcWatermark, dropTombstones, {})
    {
      var e, rest := sorted[i], sorted[i + 1..];
      assert sorted[i..] == [e] + rest;
      ghost var seen := seenBelowWatermark;
      var keep: seq<Entry> := [];
      if e.key.sequence > gcWatermark {
        keep := [e];
      } else if e.key.userKey !in seenBelowWatermark {
        seenBelowWatermark := seenBelowWatermark + {e.key.userKey};
        match e.value {
          case Put(_) => keep := [e];
          case Delete => keep := if dropTombstones then [] else [e];
        }
      }
      CollectStep(e, rest, gcWatermark, dropTombstones, seen, keep, seenBelowWatermark, output);
      output := output + keep;
      i := i + 1;
    }
  }

  lemma SortedTail(s: seq<Entry>)
    requires Sorted(s) && s != []
    ensures Sorted(s[1..])
    ensures forall e :: e in s[1..] ==> KeyLeq(s[0].key, e.key)
  {
    forall i, j | 0 <= i < j < |s[1..]| ensures KeyLeq(EntryKey(s[1..][i]), EntryKey(s[1..][j])) {
      assert KeyLeq(EntryKey(s[i + 1]), EntryKey(s[j + 1]));
    }
    forall e | e in s[1..] ensures KeyLeq(s[0].key, e.key) {
      var i :| 0 <= i < |s[1..]| && s[1..][i] == e;
      assert KeyLeq(EntryKey(s[0]), EntryKey(s[i + 1]));
    }
  }

  lemma SortedCons(e: Entry, s: seq<Entry>)
    requires Sorted(s) && forall f :: f in s ==> KeyLeq(e.key, f.key)
    ensures Sorted([e] + s)
  {
    var t := [e] + s;
    forall i, j | 0 <= i < j < |t| ensures KeyLeq(EntryKey(t[i]), EntryKey(t[j])) {
      if i == 0 {
        assert t[j] in s;
      } else {
        assert KeyLeq(EntryKey(s[i - 1]), EntryKey(s[j - 1]));
      }
    }
  }

  lemma {:induction false} CollectSorted(s: seq<Entry>, w: nat, drop: bool, seen: set<Bytes>)
    requires Sorted(s)
    ensures Sorted(Collect(s, w, drop, seen))
    ensures |Collect(s, w, drop, seen)| <= |s|
    ensures |Collect(s, w, drop, seen)| == |s| ==> Collect(s, w, drop, seen) == s
  {
    if s != [] {
      SortedTail(s);
      CollectSorted(s[1..], w, drop, seen);
      CollectSorted(s[1..], w, drop, seen + {s[0].key.userKey});
      SortedCons(s[0], Collect(s[1..], w, drop, seen));
      SortedCons(s[0], Collect(s[1..], w, drop, seen + {s[0].key.userKey}));
    }
  }

  // ----- what the pass computes

  /** On sorted, functional input the pass keeps exactly what `Gc` keeps of the unseen keys. */
  lemma {:induction false} CollectKeeps(s: seq<Entry>, w: nat, drop: bool, seen: set<Bytes>)
    requires Sorted(s) && Functional(Elems(s))
    ensures forall e ::
              e in Collect(s, w, drop, seen) <==>
              e in s && (e.key.sequence > w ||
                         (e.key.userKey !in seen && IsNewest(Elems(s), e.key.userKey, w, e) && (e.value.Put? || !drop)))
  {
    if s != [] {
      var h, rest := s[0], s[1..];
      assert s == [h] + rest;
      SortedTail(s);
      InternalKeyOrder();
      UserKeyOrder();
      assert Elems(s) == {h} + Elems(rest);
      var seen' := if h.key.sequence <= w then seen + {h.key.userKey} else seen;
      CollectKeeps(rest, w, drop, seen');
      CollectKeeps(rest, w, drop, seen);
      forall e | e in s && e.key.sequence <= w
        ensures IsNewest(Elems(s), e.key.userKey, w, e) <==>
                if h.key.sequence <= w && h.key.userKey == e.key.userKey then e == h
                else IsNewest(Elems(rest), e.key.userKey, w, e)
      {
        if h.key.sequence <= w && h.key.userKey == e.key.userKey {
          assert forall f :: f in rest && f.key.userKey == h.key.userKey ==> f.key.sequence <= h.key.sequence;
        }
      }
    }
  }

  /** `compact_entries` computes `Gc`. */
  lemma CompactedIsGc(s: seq<Entry>, w: nat, drop: bool)
    requires Functional(Elems(s))
    ensures Elems(Compacted(s, w, drop)) == Gc(Elems(s), w, drop)
    ensures Sorted(Compacted(s, w, drop))
  {
    var t := SortBy(s, EntryKey);
    SortBySorted(s, EntryKey);
    SortByElements(s, EntryKey);
    assert Elems(t) == Elems(s);
    CollectKeeps(t, w, drop, {});
    CollectSorted(t, w, drop, {});
  }

  // ----- algebra

  /** Running the pass twice, with a later watermark the second time, equals the second pass alone. */
  lemma {:induction false} CollectTwice(s: seq<Entry>, w1: nat, d1: bool, w2: nat, d2: bool,
                                        seen1: set<Bytes>, seen2: set<Bytes>, seen: set<Bytes>)
    requires Sorted(s) && w1 <= w2 && (d1 ==> d2)
    requires seen1 <= seen && seen2 <= seen && seen - seen2 <= seen1
    requires forall e :: e in s && e.key.userKey in seen1 ==> e.key.sequence <= w1
    ensures Collect(Collect(s, w1, d1, seen1), w2, d2, seen2) == Collect(s, w2, d2, seen)
  {
    if s != [] {
      var h, rest := s[0], s[1..];
      var k := h.key.userKey;
      SortedTail(s);
      UserKeyOrder();
      if h.key.sequence > w1 {
        assert Collect(s, w1, d1, seen1) == [h] + Collect(rest, w1, d1, seen1);
        assert ([h] + Collect(rest, w1, d1, seen1))[1..] == Collect(rest, w1, d1, seen1);
        if h.key.sequence > w2 || k in seen2 {
          CollectTwice(rest, w1, d1, w2, d2, seen1, seen2, seen);
        } else {
          CollectTwice(rest, w1, d1, w2, d2, seen1, seen2 + {k}, seen + {k});
        }
      } else if k in seen1 {
        CollectTwice(rest, w1, d1, w2, d2, seen1, seen2, seen);
      } else if h.value.Put? || !d1 {
        var tail := Collect(rest, w1, d1, seen1 + {k});
        assert Collect(s, w1, d1, seen1) == [h] + tail;
        assert ([h] + tail)[1..] == tail;
        if k in seen2 {
          CollectTwice(rest, w1, d1, w2, d2, seen1 + {k}, seen2, seen);
        } else {
          CollectTwice(rest, w1, d1, w2, d2, seen1 + {k}, seen2 + {k}, seen + {k});
        }
      } else {
        CollectTwice(rest, w1, d1, w2, d2, seen1 + {k}, seen2, seen + {k});
        var tail := Collect(rest, w1, d1, seen1 + {k});
        assert Collect(s, w1, d1, seen1) == [] + tail == tail;
        if k in seen {
          assert seen + {k} == seen;
        } else {
          assert [] + Collect(rest, w2, d2, seen + {k}) == Collect(rest, w2, d2, seen + {k});
        }
      }
    }
  }

  /** Compacting early never changes what a later compaction produces; with equal arguments, idempotence. */
  lemma CompactionAbsorbs(s: seq<Entry>, w1: nat, d1: bool, w2: nat, d2: bool)
    requires w1 <= w2 && (d1 ==> d2)
    ensures Compacted(Compacted(s, w1, d1), w2, d2) == Compacted(s, w2, d2)
  {
    var t := SortBy(s, EntryKey);
    SortBySorted(s, EntryKey);
    CollectSorted(t, w1, d1, {});
    SortBySorted(Collect(t, w1, d1, {}), EntryKey);
    CollectTwice(t, w1, d1, w2, d2, {}, {}, {});
  }

  /** On a table's entries, an unchanged length means an unchanged list: the trivial-move test is exact. */
  lemma LengthTestExact(s: seq<Entry>, w: nat, drop: bool)
    requires Sorted(s)
    ensures |Compacted(s, w, drop)| == |s| <==> Compacted(s, w, drop) == s
  {
    SortBySorted(s, EntryKey);
    CollectSorted(s, w, drop, {});
  }

  /** In a sorted sequence the first version met is the newest. */
  lemma FirstVersion(s: seq<Entry>, p: nat, key: Bytes, readSeq: nat)
    requires Sorted(s) && Functional(Elems(s)) && p < |s| && VersionOf(s[p], key, readSeq)
    requires forall q :: 0 <= q < p ==> !VersionOf(s[q], key, readSeq)
    ensures Newest(Elems(s), key, readSeq) == Some(s[p])
  {
    forall f | f in Elems(s) && VersionOf(f, key, readSeq) ensures f.key.sequence <= s[p].key.sequence {
      UserKeyOrder();
      var q :| 0 <= q < |s| && s[q] == f;
      assert p < q ==> KeyLeq(EntryKey(s[p]), EntryKey(s[q]));
    }
    NewestUnique(Elems(s), key, readSeq, s[p]);
  }
}
