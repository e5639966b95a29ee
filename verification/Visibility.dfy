/**
 The reference meaning of the store: a set of versions, read at a sequence number.

 Everything the store does is compared with `Get`: the value of the newest version of a
 user key whose sequence number does not exceed the read sequence.  The second half of the
 module is about stacks of such sets, read from the top and stopping at the first layer
 that answers, as `DB::get_opt` does (src/db.rs:271-331).
 */
module Visibility {
  import opened Keys

  // ----- one set of versions

  predicate VersionOf(e: Entry, k: Bytes, r: nat) {
    e.key.userKey == k && e.key.sequence <= r
  }

  ghost predicate IsNewest(s: set<Entry>, k: Bytes, r: nat, e: Entry) {
    && e in s
    && VersionOf(e, k, r)
    && forall f :: f in s && VersionOf(f, k, r) ==> f.key.sequence <= e.key.sequence
  }

  /** A user key and a sequence number determine the entry. */
  ghost predicate Functional(s: set<Entry>) {
    forall e, f :: e in s && f in s && e.key.userKey == f.key.userKey && e.key.sequence == f.key.sequence ==> e == f
  }

  lemma {:induction false} NewestExists(s: set<Entry>, k: Bytes, r: nat)
    requires exists e :: e in s && VersionOf(e, k, r)
    ensures exists e :: IsNewest(s, k, r, e)
  {
    var e :| e in s && VersionOf(e, k, r);
    if !IsNewest(s, k, r, e) {
      var f :| f in s && VersionOf(f, k, r) && f.key.sequence > e.key.sequence;
      NewestExists(s - {e}, k, r);
      var g :| IsNewest(s - {e}, k, r, g);
      assert IsNewest(s, k, r, g);
    }
  }

  ghost function Newest(s: set<Entry>, k: Bytes, r: nat): (n: Option<Entry>)
    ensures n.None? <==> forall e :: e in s ==> !VersionOf(e, k, r)
    ensures n.Some? ==> IsNewest(s, k, r, n.value)
  {
    if exists e :: e in s && VersionOf(e, k, r) then
      NewestExists(s, k, r);
      var e :| IsNewest(s, k, r, e);
      Some(e)
    else
      None
  }

  /** A tombstone reads as absence (src/db.rs:1066-1073). */
  function Visible(n: Option<Entry>): Option<Bytes> {
    match n
    case Some(e) => (match e.value case Put(v) => Some(v) case Delete => None)
    case None => None
  }

  ghost function Get(s: set<Entry>, k: Bytes, r: nat): Option<Bytes> {
    Visible(Newest(s, k, r))
  }

  lemma NewestUnique(s: set<Entry>, k: Bytes, r: nat, e: Entry)
    requires Functional(s) && IsNewest(s, k, r, e)
    ensures Newest(s, k, r) == Some(e)
  {
  }

  /** The visible map at read sequence `r`. */
  ghost function View(s: set<Entry>, r: nat): (m: map<Bytes, Bytes>)
    ensures forall k :: k in m <==> Get(s, k, r).Some?
    ensures forall k :: k in m ==> Get(s, k, r) == Some(m[k])
  {
    var keys := set e | e in s :: e.key.userKey;
    assert forall k :: Get(s, k, r).Some? ==> Newest(s, k, r).value in s && k in keys;
    map k | k in keys && Get(s, k, r).Some? :: Get(s, k, r).value
  }

  lemma SameReadsSameView(s: set<Entry>, q: nat, t: set<Entry>, r: nat)
    requires forall k :: Get(s, k, q) == Get(t, k, r)
    ensures View(s, q) == View(t, r)
  {
    assert forall k :: k in View(s, q) <==> k in View(t, r);
  }

  lemma FunctionalSubset(s: set<Entry>, t: set<Entry>)
    requires Functional(s) && t <= s
    ensures Functional(t)
  {
  }

  // ----- a stack of sets, newest first

  ghost function Union(ls: seq<set<Entry>>): set<Entry> {
    set l, e | l in ls && e in l :: e
  }

  /** The first layer holding a version of `k` at or below `r` answers. */
  ghost function FirstHit(ls: seq<set<Entry>>, k: Bytes, r: nat): Option<Entry> {
    if ls == [] then None
    else if Newest(ls[0], k, r).Some? then Newest(ls[0], k, r)
    else FirstHit(ls[1..], k, r)
  }

  /** `up` may answer before `down`: a version of `down` at or above one of `up` is in `up` too. */
  ghost predicate Shadows(up: set<Entry>, down: set<Entry>) {
    forall e, f :: e in down && f in up && f.key.userKey == e.key.userKey && f.key.sequence <= e.key.sequence ==> e in up
  }

  ghost predicate Recency(ls: seq<set<Entry>>) {
    forall i, j :: 0 <= i < j < |ls| ==> Shadows(ls[i], ls[j])
  }

  /** Stopping at the first hit finds the newest version over all layers. */
  lemma {:induction false} FirstHitIsNewest(ls: seq<set<Entry>>, k: Bytes, r: nat)
    requires Recency(ls) && Functional(Union(ls))
    ensures FirstHit(ls, k, r) == Newest(Union(ls), k, r)
  {
    if ls == [] {
    } else {
      var rest := ls[1..];
      assert Union(ls) == ls[0] + Union(rest);
      assert forall i :: 0 <= i < |rest| ==> rest[i] == ls[i + 1];
      FirstHitIsNewest(rest, k, r);
      if Newest(ls[0], k, r).Some? {
        var e := Newest(ls[0], k, r).value;
        forall f | f in Union(ls) && VersionOf(f, k, r)
          ensures f.key.sequence <= e.key.sequence
        {
          if f !in ls[0] {
            var j :| 0 <= j < |rest| && f in rest[j];
            assert Shadows(ls[0], ls[j + 1]);
          }
        }
        NewestUnique(Union(ls), k, r, e);
      } else if Newest(Union(rest), k, r).Some? {
        NewestUnique(Union(ls), k, r, Newest(Union(rest), k, r).value);
      }
    }
  }

  lemma {:induction false} FirstHitConcat(a: seq<set<Entry>>, b: seq<set<Entry>>, k: Bytes, r: nat)
    ensures FirstHit(a + b, k, r) == if FirstHit(a, k, r).Some? then FirstHit(a, k, r) else FirstHit(b, k, r)
  {
    if a == [] {
      assert a + b == b;
    } else {
      assert (a + b)[0] == a[0] && (a + b)[1..] == a[1..] + b;
      FirstHitConcat(a[1..], b, k, r);
    }
  }

  lemma RecencyConcat(a: seq<set<Entry>>, b: seq<set<Entry>>)
    ensures Recency(a + b) <==>
            Recency(a) && Recency(b) && forall x, y :: x in a && y in b ==> Shadows(x, y)
  {
    var c := a + b;
    assert forall i :: 0 <= i < |a| ==> c[i] == a[i];
    assert forall i :: 0 <= i < |b| ==> c[|a| + i] == b[i];
    if Recency(c) {
      forall i, j | 0 <= i < j < |b| ensures Shadows(b[i], b[j]) {
        assert Shadows(c[|a| + i], c[|a| + j]);
      }
      forall x, y | x in a && y in b ensures Shadows(x, y) {
        var i :| 0 <= i < |a| && a[i] == x;
        var j :| 0 <= j < |b| && b[j] == y;
        assert Shadows(c[i], c[|a| + j]);
      }
    }
    if Recency(a) && Recency(b) && forall x, y :: x in a && y in b ==> Shadows(x, y) {
      forall i, j | 0 <= i < j < |c| ensures Shadows(c[i], c[j]) {
        if i < |a| && |a| <= j {
          assert a[i] in a && b[j - |a|] in b;
        } else if |a| <= i {
          assert Shadows(b[i - |a|], b[j - |a|]);
        }
      }
    }
  }

  lemma UnionConcat(a: seq<set<Entry>>, b: seq<set<Entry>>)
    ensures Union(a + b) == Union(a) + Union(b)
  {
  }

  lemma UnionTop(top: set<Entry>, rest: seq<set<Entry>>)
    ensures Union([top] + rest) == top + Union(rest)
  {
    UnionConcat([top], rest);
    assert Union([top]) == top;
  }

  /** Empty layers matter neither to reads nor to recency. */
  ghost function NonEmpty(ls: seq<set<Entry>>): (ns: seq<set<Entry>>)
    ensures forall l :: l in ns <==> l in ls && l != {}
  {
    if ls == [] then [] else (if ls[0] == {} then [] else [ls[0]]) + NonEmpty(ls[1..])
  }

  lemma {:induction false} NonEmptyConcat(a: seq<set<Entry>>, b: seq<set<Entry>>)
    ensures NonEmpty(a + b) == NonEmpty(a) + NonEmpty(b)
  {
    if a == [] {
      assert a + b == b;
    } else {
      assert (a + b)[0] == a[0] && (a + b)[1..] == a[1..] + b;
      NonEmptyConcat(a[1..], b);
    }
  }

  lemma EmptyTop(ls: seq<set<Entry>>)
    ensures Union([{}] + ls) == Union(ls)
    ensures Recency([{}] + ls) <==> Recency(ls)
  {
    UnionConcat([{}], ls);
    RecencyConcat([{}], ls);
  }

  lemma RecencySingleton(l: set<Entry>)
    ensures Recency([l])
  {
  }

  lemma {:induction false} NonEmptyRecency(ls: seq<set<Entry>>)
    ensures Recency(NonEmpty(ls)) <==> Recency(ls)
    ensures Union(NonEmpty(ls)) == Union(ls)
  {
    hide Recency, Union;
    if ls != [] {
      var head, rest := ls[0], ls[1..];
      assert ls == [head] + rest;
      NonEmptyRecency(rest);
      if head == {} {
        EmptyTop(rest);
        assert NonEmpty(ls) == NonEmpty(rest);
      } else {
        assert NonEmpty(ls) == [head] + NonEmpty(rest);
        RecencySingleton(head);
        RecencyConcat([head], rest);
        RecencyConcat([head], NonEmpty(rest));
        UnionConcat([head], rest);
        UnionConcat([head], NonEmpty(rest));
      }
    }
  }
}
