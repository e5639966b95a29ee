/**
 What compaction does to a stack of version sets.

 Versions `moved[i]` leave layer `i`; what garbage collection keeps of them joins the
 target layer `t`.  The module proves, for every such move, that reads at or above the
 watermark do not change and that the stack stays readable first-hit.
 */
module LayerCompaction {
  import opened Keys
  import opened Visibility

  /**
   Version and tombstone collection as a set: everything above the watermark, and per key
   the newest version at or below it unless it is a tombstone that may be dropped
   (src/compact/executor.rs:15-29).
   */
  ghost function Gc(s: set<Entry>, w: nat, drop: bool): set<Entry> {
    set e | e in s &&
            (e.key.sequence > w || (IsNewest(s, e.key.userKey, w, e) && (e.value.Put? || !drop)))
  }

  lemma GcWithin(s: set<Entry>, w: nat, drop: bool)
    ensures Gc(s, w, drop) <= s
  {
  }

  /** The stack after moving `moved` into layer `t` and keeping `kept` of it. */
  ghost function After(ls: seq<set<Entry>>, moved: seq<set<Entry>>, t: nat, kept: set<Entry>): (r: seq<set<Entry>>)
    requires |moved| == |ls| && t < |ls|
    ensures |r| == |ls|
  {
    seq(|ls|, i requires 0 <= i < |ls| => if i == t then ls[i] - moved[i] + kept else ls[i] - moved[i])
  }

  /**
   The move is well formed: only layers down to the target lose versions, and a version left
   behind at or above the target shares its user key only with moved versions of deeper layers.
   */
  ghost predicate MoveOk(ls: seq<set<Entry>>, moved: seq<set<Entry>>, t: nat) {
    && |moved| == |ls|
    && t < |ls|
    && (forall i :: 0 <= i < |ls| ==> moved[i] <= ls[i] && (i > t ==> moved[i] == {}))
    && (forall i, m, x, y ::
          0 <= i <= t && 0 <= m < |ls| && x in moved[m] && y in ls[i] - moved[i] && x.key.userKey == y.key.userKey
          ==> i < m)
  }

  /** No layer below the target holds a version of a moved key. */
  ghost predicate DropSafe(ls: seq<set<Entry>>, moved: seq<set<Entry>>, t: nat) {
    forall j, x, y :: t < j < |ls| && x in Union(moved) && y in ls[j] ==> x.key.userKey != y.key.userKey
  }

  lemma MovedLayer(moved: seq<set<Entry>>, e: Entry) returns (m: nat)
    requires e in Union(moved)
    ensures m < |moved| && e in moved[m]
  {
    var l :| l in moved && e in l;
    m :| m < |moved| && moved[m] == l;
  }

  /** Nothing appears from nowhere, and nothing above the watermark disappears. */
  lemma AfterContents(ls: seq<set<Entry>>, moved: seq<set<Entry>>, t: nat, w: nat, drop: bool)
    requires MoveOk(ls, moved, t)
    ensures var after := Union(After(ls, moved, t, Gc(Union(moved), w, drop)));
            && after <= Union(ls)
            && forall e :: e in Union(ls) && e.key.sequence > w ==> e in after
  {
    var kept := Gc(Union(moved), w, drop);
    var ls' := After(ls, moved, t, kept);
    forall e | e in Union(ls') ensures e in Union(ls) {
      var i := MovedLayer(ls', e);
      if e in kept {
        var m := MovedLayer(moved, e);
        assert e in ls[m] && ls[m] in ls;
      } else {
        assert e in ls[i] && ls[i] in ls;
      }
    }
    forall e | e in Union(ls) && e.key.sequence > w ensures e in Union(ls') {
      var i := MovedLayer(ls, e);
      if e in moved[i] {
        assert e in Union(moved) && e in kept;
        assert e in ls'[t] && ls'[t] in ls';
      } else {
        assert e in ls'[i] && ls'[i] in ls';
      }
    }
  }

  /** A version left behind in layer `i` that does not precede `e` means `e` was left behind there too. */
  lemma LeftBehind(ls: seq<set<Entry>>, moved: seq<set<Entry>>, t: nat, i: nat, m: nat, e: Entry, f: Entry)
    requires Recency(ls) && MoveOk(ls, moved, t)
    requires i <= t && i < m < |ls| && e in ls[m] && f in ls[i] - moved[i]
    requires f.key.userKey == e.key.userKey && f.key.sequence <= e.key.sequence
    ensures e in ls[i] - moved[i]
  {
    assert Shadows(ls[i], ls[m]);
  }

  /** Compaction keeps the stack readable first-hit. */
  lemma CompactionKeepsRecency(ls: seq<set<Entry>>, moved: seq<set<Entry>>, t: nat, w: nat, drop: bool)
    requires Recency(ls) && Functional(Union(ls)) && MoveOk(ls, moved, t)
    ensures Recency(After(ls, moved, t, Gc(Union(moved), w, drop)))
  {
    var kept := Gc(Union(moved), w, drop);
    GcWithin(Union(moved), w, drop);
    hide Gc, Union, Functional;
    var ls' := After(ls, moved, t, kept);
    forall i: nat, j: nat | i < j < |ls| ensures Shadows(ls'[i], ls'[j]) {
      forall e: Entry, f: Entry | e in ls'[j] && f in ls'[i] && f.key.userKey == e.key.userKey && f.key.sequence <= e.key.sequence
        ensures e in ls'[i]
      {
        if f in ls[i] - moved[i] {
          LeftBehindShadows(ls, moved, t, kept, i, j, e, f);
        } else {
          assert j > t && e in ls[j];
          KeptShadows(ls, moved, t, w, drop, j, e, f);
        }
      }
    }
  }

  lemma LeftBehindShadows(ls: seq<set<Entry>>, moved: seq<set<Entry>>, t: nat, kept: set<Entry>, i: nat, j: nat, e: Entry, f: Entry)
    requires Recency(ls) && MoveOk(ls, moved, t) && kept <= Union(moved)
    requires i < j < |ls| && e in After(ls, moved, t, kept)[j] && f in ls[i] - moved[i]
    requires f.key.userKey == e.key.userKey && f.key.sequence <= e.key.sequence
    ensures e in ls[i] - moved[i]
  {
    if i > t {
      assert Shadows(ls[i], ls[j]);
    } else if e in ls[j] - moved[j] {
      LeftBehind(ls, moved, t, i, j, e, f);
    } else {
      var m := MovedLayer(moved, e);
      LeftBehind(ls, moved, t, i, m, e, f);
    }
  }

  lemma KeptShadows(ls: seq<set<Entry>>, moved: seq<set<Entry>>, t: nat, w: nat, drop: bool, j: nat, e: Entry, f: Entry)
    requires Recency(ls) && Functional(Union(ls)) && MoveOk(ls, moved, t)
    requires t < j < |ls| && e in ls[j] && f in Gc(Union(moved), w, drop)
    requires f.key.userKey == e.key.userKey && f.key.sequence <= e.key.sequence
    ensures e in Gc(Union(moved), w, drop)
  {
    var m := MovedLayer(moved, f);
    assert Shadows(ls[m], ls[j]);
    assert e in moved[m] && moved[m] in moved;
    if e.key.sequence <= w {
      assert e.key.sequence == f.key.sequence;
      assert e in Union(ls) by { assert ls[j] in ls; }
      assert f in Union(ls) by { assert f in ls[m] && ls[m] in ls; }
    }
  }

  lemma MovedWithin(ls: seq<set<Entry>>, moved: seq<set<Entry>>, t: nat)
    requires MoveOk(ls, moved, t)
    ensures Union(moved) <= Union(ls)
  {
    forall e | e in Union(moved) ensures e in Union(ls) {
      var m := MovedLayer(moved, e);
      assert e in ls[m] && ls[m] in ls;
    }
  }

  /** With the newest version at the watermark dropped, no older version of its key is kept. */
  lemma OlderNotKept(s: set<Entry>, w: nat, drop: bool, k: Bytes, e: Entry, y: Entry)
    requires Functional(s) && IsNewest(s, k, w, e) && e !in Gc(s, w, drop)
    requires y.key.userKey == k && y.key.sequence <= e.key.sequence
    ensures y !in Gc(s, w, drop)
  {
  }

  /**
   The newest version survives, unless it is a tombstone that may be dropped and then no other
   version of its key at or below the read sequence survives either: nothing resurfaces.
   */
  lemma NewestSurvives(ls: seq<set<Entry>>, moved: seq<set<Entry>>, t: nat, w: nat, drop: bool, k: Bytes, r: nat, e: Entry, y: Entry)
    requires Recency(ls) && Functional(Union(ls)) && MoveOk(ls, moved, t)
    requires drop ==> DropSafe(ls, moved, t)
    requires w <= r && IsNewest(Union(ls), k, r, e)
    requires var after := Union(After(ls, moved, t, Gc(Union(moved), w, drop)));
             e.value.Put? || !drop || (y in after && VersionOf(y, k, r))
    ensures e in Union(After(ls, moved, t, Gc(Union(moved), w, drop)))
  {
    var kept := Gc(Union(moved), w, drop);
    var ls' := After(ls, moved, t, kept);
    var m := MovedLayer(ls, e);
    if e in ls[m] - moved[m] {
      InAfter(ls, moved, t, kept, m, e);
    } else {
      InUnion(moved, m, e);
      MovedWithin(ls, moved, t);
      if e in kept {
        InUnion(ls', t, e);
      } else {
        assert IsNewest(Union(moved), k, w, e);
        AfterContents(ls, moved, t, w, drop);
        assert y.key.sequence <= e.key.sequence;
        OlderNotKept(Union(moved), w, drop, k, e, y);
        hide Functional, Gc, Recency, Union;
        var i := MovedLayer(ls', y);
        assert y in ls[i] - moved[i] && i <= t;
        LeftBehind(ls, moved, t, i, m, e, y);
        InAfter(ls, moved, t, kept, i, e);
      }
    }
  }

  lemma InUnion(ls: seq<set<Entry>>, i: nat, e: Entry)
    requires i < |ls| && e in ls[i]
    ensures e in Union(ls)
  {
  }

  lemma InAfter(ls: seq<set<Entry>>, moved: seq<set<Entry>>, t: nat, kept: set<Entry>, i: nat, e: Entry)
    requires |moved| == |ls| && t < |ls| && i < |ls| && e in ls[i] - moved[i]
    ensures e in Union(After(ls, moved, t, kept))
  {
    InUnion(After(ls, moved, t, kept), i, e);
  }

  /** No read at or above the watermark changes. */
  lemma CompactionKeepsReads(ls: seq<set<Entry>>, moved: seq<set<Entry>>, t: nat, w: nat, drop: bool, k: Bytes, r: nat)
    requires Recency(ls) && Functional(Union(ls)) && MoveOk(ls, moved, t)
    requires drop ==> DropSafe(ls, moved, t)
    requires w <= r
    ensures Get(Union(After(ls, moved, t, Gc(Union(moved), w, drop))), k, r) == Get(Union(ls), k, r)
  {
    var before, after := Union(ls), Union(After(ls, moved, t, Gc(Union(moved), w, drop)));
    AfterContents(ls, moved, t, w, drop);
    var n, n' := Newest(before, k, r), Newest(after, k, r);
    if n.Some? {
      if n.value.value.Put? || !drop || n'.Some? {
        NewestSurvives(ls, moved, t, w, drop, k, r, n.value, if n'.Some? then n'.value else n.value);
        NewestUnique(after, k, r, n.value);
      }
    }
  }
}
