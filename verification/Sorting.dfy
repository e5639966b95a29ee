/** The stable sort by internal key that `Vec::sort_by` performs in the store. */
module Sorting {
  import opened Keys

  ghost predicate SortedBy<T>(s: seq<T>, key: T -> InternalKey) {
    forall i, j :: 0 <= i < j < |s| ==> KeyLeq(key(s[i]), key(s[j]))
  }

  /** Inserts `x` after every element not above it. */
  function InsertBy<T>(s: seq<T>, x: T, key: T -> InternalKey): (r: seq<T>)
    ensures |r| == |s| + 1
    ensures multiset(r) == multiset(s) + multiset{x}
  {
    if s == [] || !KeyLess(key(x), key(s[|s| - 1])) then
      s + [x]
    else
      var front, last := s[..|s| - 1], s[|s| - 1];
      assert s == front + [last];
      InsertBy(front, x, key) + [last]
  }

  function SortBy<T>(s: seq<T>, key: T -> InternalKey): (r: seq<T>)
    ensures |r| == |s|
    ensures multiset(r) == multiset(s)
  {
    if s == [] then []
    else
      var front, last := s[..|s| - 1], s[|s| - 1];
      assert s == front + [last];
      InsertBy(SortBy(front, key), last, key)
  }

  lemma {:induction false} InsertBySorted<T>(s: seq<T>, x: T, key: T -> InternalKey)
    requires SortedBy(s, key)
    ensures SortedBy(InsertBy(s, x, key), key)
  {
    InternalKeyOrder();
    if s == [] || !KeyLess(key(x), key(s[|s| - 1])) {
    } else {
      var front, last := s[..|s| - 1], s[|s| - 1];
      var r := InsertBy(front, x, key);
      InsertBySorted(front, x, key);
      forall i | 0 <= i < |r| ensures KeyLeq(key(r[i]), key(last)) {
        assert r[i] in multiset(r);
        assert r[i] in front || r[i] == x;
      }
    }
  }

  /** Sorting sorts, permutes, and leaves a sorted sequence alone. */
  lemma {:induction false} SortBySorted<T>(s: seq<T>, key: T -> InternalKey)
    ensures SortedBy(SortBy(s, key), key)
    ensures SortedBy(s, key) ==> SortBy(s, key) == s
  {
    if s != [] {
      var front, last := s[..|s| - 1], s[|s| - 1];
      assert s == front + [last];
      SortBySorted(front, key);
      InsertBySorted(SortBy(front, key), last, key);
    }
  }

  lemma SortByElements<T>(s: seq<T>, key: T -> InternalKey)
    ensures forall x :: x in SortBy(s, key) <==> x in s
  {
    assert forall x :: x in SortBy(s, key) <==> x in multiset(SortBy(s, key));
    assert forall x :: x in s <==> x in multiset(s);
  }
}
