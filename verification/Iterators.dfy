/**
 Cursors (src/iterator): the flat cursor, the k-way merge and the visible-row iterator.

 A child of the merge is a flat cursor; `TableCursors` shows that the two-level table cursor is one.
 */
module Iterators {
  import opened Keys
  import opened Visibility
  import opened Sorting
  import opened Executor
  import opened MemTables
  import opened Picker

  // ----- the flat cursor

  datatype Cursor = Cursor(entries: seq<Entry>, index: nat) {
    predicate IsValid() { index < |entries| }

    function Rest(): seq<Entry> { if index <= |entries| then entries[index..] else [] }

    function Next(): Cursor { if index < |entries| then this.(index := index + 1) else this }

    function Seek(key: InternalKey): Cursor { this.(index := LowerBound(entries, key)) }
  }

  class EntryIterator {
    var entries: seq<Entry>
    var index: nat

    ghost function Model(): Cursor
      reads this
    {
      Cursor(entries, index)
    }

    constructor (entries: seq<Entry>)
      ensures Model() == Cursor(SortBy(entries, EntryKey), 0)
    {
      this.entries := SortBy(entries, EntryKey);
      index := 0;
    }

    method Next()
      modifies this`index
      ensures Model() == old(Model()).Next()
    {
      if index < |entries| { index := index + 1; }
    }

    method Seek(key: InternalKey)
      modifies this`index
      ensures Model() == old(Model()).Seek(key)
    {
      index := LowerBound(entries, key);
    }
  }

  // ----- the merge

  /** The lowest child among the first `n` by current key, the earliest child on a tie. */
  function Lowest(rests: seq<seq<Entry>>, n: nat): (m: Option<nat>)
    requires n <= |rests|
    ensures m.None? <==> forall i :: 0 <= i < n ==> rests[i] == []
    ensures m.Some? ==> m.value < n && rests[m.value] != []
    ensures m.Some? ==> forall i :: 0 <= i < n && rests[i] != [] ==> KeyLeq(rests[m.value][0].key, rests[i][0].key)
  {
    InternalKeyOrder();
    if n == 0 then None
    else
      var m := Lowest(rests, n - 1);
      var head := rests[n - 1];
      if head != [] && (m.None? || KeyLess(head[0].key, rests[m.value][0].key)) then Some(n - 1) else m
  }

  /** On a tie of keys the earliest child is taken: every earlier one has a greater key. */
  lemma {:induction false} LowestIsEarliest(rests: seq<seq<Entry>>, n: nat, i: nat)
    requires n <= |rests| && Lowest(rests, n).Some? && i < Lowest(rests, n).value && rests[i] != []
    ensures KeyLess(rests[Lowest(rests, n).value][0].key, rests[i][0].key)
  {
    LowestStep(rests, n - 1);
    hide KeyLess, KeyLeq;
    var m := Lowest(rests, n - 1);
    if Lowest(rests, n) == Some(n - 1) {
      KeyLessTrans(rests[n - 1][0].key, rests[m.value][0].key, rests[i][0].key);
    } else {
      LowestIsEarliest(rests, n - 1, i);
    }
  }

  lemma KeyLessTrans(a: InternalKey, b: InternalKey, c: InternalKey)
    ensures KeyLess(a, b) && KeyLeq(b, c) ==> KeyLess(a, c)
  {
    InternalKeyOrder();
  }

  lemma LowestStep(rests: seq<seq<Entry>>, i: nat)
    requires i < |rests|
    ensures Lowest(rests, i).Some? ==> Lowest(rests, i).value < i
    ensures var m := Lowest(rests, i);
            Lowest(rests, i + 1) ==
            if rests[i] != [] && (m.None? || KeyLess(rests[i][0].key, rests[m.value][0].key)) then Some(i) else m
  {
  }

  lemma LowestOfNone(rests: seq<seq<Entry>>)
    ensures Lowest(rests, 0) == None
  {
  }

  function Total(rests: seq<seq<Entry>>): nat {
    if rests == [] then 0 else |rests[0]| + Total(rests[1..])
  }

  lemma {:induction false} TotalDrops(rests: seq<seq<Entry>>, i: nat)
    requires i < |rests| && rests[i] != []
    ensures Total(rests[i := rests[i][1..]]) == Total(rests) - 1
  {
    var after := rests[i := rests[i][1..]];
    if i == 0 {
      assert after[1..] == rests[1..];
    } else {
      assert after[1..] == rests[1..][i - 1 := rests[1..][i - 1][1..]];
      TotalDrops(rests[1..], i - 1);
    }
  }

  /** The sequence a merge yields: the lowest head, then the merge of what is left. */
  function Merged(rests: seq<seq<Entry>>): seq<Entry>
    decreases Total(rests)
  {
    var m := Lowest(rests, |rests|);
    if m.None? then []
    else
      TotalDrops(rests, m.value);
      [rests[m.value][0]] + Merged(rests[m.value := rests[m.value][1..]])
  }

  function Pool(rests: seq<seq<Entry>>): set<Entry> {
    set s, e | s in rests && e in s :: e
  }

  lemma PoolSplit(rests: seq<seq<Entry>>, i: nat)
    requires i < |rests| && rests[i] != []
    ensures Pool(rests) == {rests[i][0]} + Pool(rests[i := rests[i][1..]])
  {
    var after := rests[i := rests[i][1..]];
    forall e | e in Pool(rests) ensures e == rests[i][0] || e in Pool(after) {
      var j :| 0 <= j < |rests| && e in rests[j];
      if j == i {
        assert e == rests[i][0] || e in after[i];
        assert after[i] in after;
      } else {
        assert after[j] == rests[j] && after[j] in after;
      }
    }
    forall e | e in Pool(after) ensures e in Pool(rests) {
      var j :| 0 <= j < |after| && e in after[j];
      assert e in rests[j] && rests[j] in rests;
    }
    assert rests[i][0] in rests[i] && rests[i] in rests;
    assert rests[i][0] in Pool(rests);
  }

  ghost predicate AllSorted(rests: seq<seq<Entry>>) {
    forall i :: 0 <= i < |rests| ==> Sorted(rests[i])
  }

  /** Merging sorted children yields a sorted sequence of exactly their entries. */
  lemma {:induction false} MergedSorted(rests: seq<seq<Entry>>)
    requires AllSorted(rests)
    ensures Sorted(Merged(rests)) && Elems(Merged(rests)) == Pool(rests)
    decreases Total(rests)
  {
    var m := Lowest(rests, |rests|);
    if m.None? {
      assert Pool(rests) == {};
    } else {
      var i := m.value;
      var after := rests[i := rests[i][1..]];
      TotalDrops(rests, i);
      SortedTail(rests[i]);
      assert AllSorted(after);
      MergedSorted(after);
      PoolSplit(rests, i);
      LowestIsLeast(rests, i);
      hide Merged, Lowest, Pool;
      SortedCons(rests[i][0], Merged(after));
      MergedStep(rests, i);
    }
  }

  lemma MergedStep(rests: seq<seq<Entry>>, i: nat)
    requires Lowest(rests, |rests|) == Some(i)
    ensures Merged(rests) == [rests[i][0]] + Merged(rests[i := rests[i][1..]])
    ensures Elems(Merged(rests)) == {rests[i][0]} + Elems(Merged(rests[i := rests[i][1..]]))
  {
  }

  lemma LowestIsLeast(rests: seq<seq<Entry>>, i: nat)
    requires AllSorted(rests) && Lowest(rests, |rests|) == Some(i)
    ensures forall e :: e in Pool(rests) ==> KeyLeq(rests[i][0].key, e.key)
  {
    InternalKeyOrder();
    forall e | e in Pool(rests) ensures KeyLeq(rests[i][0].key, e.key) {
      var j :| 0 <= j < |rests| && e in rests[j];
      var p :| 0 <= p < |rests[j]| && rests[j][p] == e;
      assert p > 0 ==> KeyLeq(EntryKey(rests[j][0]), EntryKey(rests[j][p]));
    }
  }

  function Rests(children: seq<Cursor>): seq<seq<Entry>> {
    seq(|children|, i requires 0 <= i < |children| => children[i].Rest())
  }

  function SeekAll(children: seq<Cursor>, key: InternalKey): seq<Cursor> {
    seq(|children|, i requires 0 <= i < |children| => children[i].Seek(key))
  }

  lemma RestHead(children: seq<Cursor>, i: nat)
    requires i < |children| && children[i].index <= |children[i].entries|
    ensures children[i].IsValid() <==> Rests(children)[i] != []
    ensures children[i].IsValid() ==> Rests(children)[i][0] == children[i].entries[children[i].index]
  {
  }

  /** The child with the lowest current key, found by one pass over the children. */
  method LowestChild(children: seq<Cursor>) returns (m: Option<nat>)
    requires forall i :: 0 <= i < |children| ==> children[i].index <= |children[i].entries|
    ensures m == Lowest(Rests(children), |children|)
  {
    ghost var rests := Rests(children);
    m := None;
    assert |rests| == |children|;
    hide Lowest, KeyLess, Rests;
    LowestOfNone(rests);
    for i := 0 to |children|
      invariant m == Lowest(rests, i) && (m.Some? ==> m.value < i && children[m.value].IsValid())
    {
      LowestStep(rests, i);
      RestHead(children, i);
      if m.Some? { RestHead(children, m.value); }
      var child := children[i];
      if child.IsValid() {
        if m.None? {
          m := Some(i);
        } else {
          var best := children[m.value];
          if KeyLess(child.entries[child.index].key, best.entries[best.index].key) { m := Some(i); }
        }
      }
    }
  }

  class MergeIterator {
    var children: seq<Cursor>
    var current: Option<nat>

    ghost predicate Valid()
      reads this
    {
      && (forall i :: 0 <= i < |children| ==> children[i].index <= |children[i].entries|)
      && current == Lowest(Rests(children), |children|)
    }

    /** What is still to come. */
    ghost function Rest(): seq<Entry>
      reads this
    {
      Merged(Rests(children))
    }

    constructor (children: seq<Cursor>)
      requires forall i :: 0 <= i < |children| ==> children[i].index <= |children[i].entries|
      ensures Valid() && this.children == children
    {
      this.children := children;
      current := None;
      new;
      PickCurrent();
    }

    method PickCurrent()
      requires forall i :: 0 <= i < |children| ==> children[i].index <= |children[i].entries|
      modifies this`current
      ensures Valid()
    {
      current := LowestChild(children);
    }

    method IsValid() returns (b: bool)
      requires Valid()
      ensures b <==> Rest() != []
    {
      b := current.Some?;
    }

    method Current() returns (e: Entry)
      requires Valid() && Rest() != []
      ensures e == Rest()[0]
    {
      var child := children[current.value];
      assert Rests(children)[current.value] == child.Rest();
      e := child.entries[child.index];
    }

    method Next()
      requires Valid()
      modifies this
      ensures Valid()
      ensures Rest() == if old(Rest()) == [] then [] else old(Rest())[1..]
    {
      if current.Some? {
        var i := current.value;
        ghost var rests := Rests(children);
        assert rests[i] == children[i].Rest();
        MergedStep(rests, i);
        children := children[i := children[i].Next()];
        assert Rests(children) == rests[i := rests[i][1..]];
      }
      hide Merged, Lowest;
      PickCurrent();
    }

    method Seek(key: InternalKey)
      requires Valid()
      modifies this
      ensures Valid() && children == SeekAll(old(children), key)
    {
      for i := 0 to |children|
        invariant |children| == |old(children)|
        invariant forall j :: 0 <= j < |children| ==> children[j] == if j < i then old(children)[j].Seek(key) else old(children)[j]
        invariant forall j :: 0 <= j < |children| ==> children[j].index <= |children[j].entries|
      {
        children := children[i := children[i].Seek(key)];
      }
      PickCurrent();
    }
  }

  // ----- visible rows

  type Row = (Bytes, Bytes)

  /** The rows still to come when `s` is what the merge still yields. */
  function VisibleRows(s: seq<Entry>, seen: set<Bytes>, lower: Bound, upper: Bound, r: nat): seq<Row> {
    if s == [] then []
    else
      var k := s[0].key.userKey;
      if s[0].key.sequence > r || !WithinBounds(k, lower, upper) || k in seen then
        VisibleRows(s[1..], seen, lower, upper, r)
      else
        (match s[0].value case Put(v) => [(k, v)] case Delete => [])
        + VisibleRows(s[1..], seen + {k}, lower, upper, r)
  }

  /** `rows` is the range scan of `s` at `r`: the visible in-bounds keys with their values, strictly ascending. */
  ghost predicate IsScan(rows: seq<Row>, s: set<Entry>, lower: Bound, upper: Bound, r: nat) {
    && Ascending(rows)
    && (forall k, v :: (k, v) in rows <==> WithinBounds(k, lower, upper) && Get(s, k, r) == Some(v))
  }

  lemma HasElement(rows: seq<Row>)
    ensures rows == [] || exists x :: x in rows
  {
    if rows != [] { assert rows[0] in rows; }
  }

  /** A scan is determined by the visible map. */
  lemma {:induction false} ScanUnique(a: seq<Row>, b: seq<Row>)
    requires Ascending(a) && Ascending(b)
    requires forall x :: x in a <==> x in b
    ensures a == b
    decreases |a|
  {
    UserKeyOrder();
    if a == [] {
      HasElement(b);
    } else {
      assert a[0] in a;
      assert b != [];
      assert b[0] in b;
      var i :| 0 <= i < |a| && a[i] == b[0];
      var j :| 0 <= j < |b| && b[j] == a[0];
      assert i == 0 && j == 0;
      forall x ensures x in a[1..] <==> x in b[1..] {
        assert x in a[1..] ==> x in a && x != a[0];
        assert x in b[1..] ==> x in b && x != b[0];
        assert a == [a[0]] + a[1..] && b == [b[0]] + b[1..];
      }
      ScanUnique(a[1..], b[1..]);
    }
  }

  lemma SameViewSameScan(a: seq<Row>, b: seq<Row>, s: set<Entry>, q: nat, t: set<Entry>, r: nat, lower: Bound, upper: Bound)
    requires IsScan(a, s, lower, upper, q) && IsScan(b, t, lower, upper, r)
    requires forall k :: WithinBounds(k, lower, upper) ==> Get(s, k, q) == Get(t, k, r)
    ensures a == b
  {
    hide Get;
    forall x: Row ensures x in a <==> x in b {
      assert x == (x.0, x.1);
    }
    ScanUnique(a, b);
  }

  lemma NewestOfCons(h: Entry, rest: seq<Entry>, k: Bytes, r: nat)
    requires Sorted([h] + rest) && Functional(Elems([h] + rest))
    ensures Newest(Elems([h] + rest), k, r) == if VersionOf(h, k, r) then Some(h) else Newest(Elems(rest), k, r)
  {
    var s := [h] + rest;
    SortedTail(s);
    assert s[1..] == rest;
    assert Elems(s) == {h} + Elems(rest);
    UserKeyOrder();
    if VersionOf(h, k, r) {
      assert IsNewest(Elems(s), k, r, h);
      NewestUnique(Elems(s), k, r, h);
    } else if Newest(Elems(rest), k, r).Some? {
      NewestUnique(Elems(s), k, r, Newest(Elems(rest), k, r).value);
    }
  }

  ghost predicate Ascending(rows: seq<Row>) {
    forall i, j :: 0 <= i < j < |rows| ==> Less(rows[i].0, rows[j].0)
  }

  /** `rows` holds exactly the visible in-bounds keys outside `seen`. */
  ghost predicate HoldsVisible(rows: seq<Row>, s: set<Entry>, seen: set<Bytes>, lower: Bound, upper: Bound, r: nat) {
    forall k, v :: (k, v) in rows <==> k !in seen && WithinBounds(k, lower, upper) && Get(s, k, r) == Some(v)
  }

  lemma GetOfCons(h: Entry, rest: seq<Entry>, k: Bytes, r: nat)
    requires Sorted([h] + rest) && Functional(Elems([h] + rest))
    ensures Get(Elems([h] + rest), k, r) == if VersionOf(h, k, r) then Visible(Some(h)) else Get(Elems(rest), k, r)
  {
    NewestOfCons(h, rest, k, r);
  }

  lemma VisibleStep(h: Entry, rest: seq<Entry>, seen: set<Bytes>, lower: Bound, upper: Bound, r: nat, skip: bool, seen': set<Bytes>, tail: seq<Row>)
    requires Sorted([h] + rest) && Functional(Elems([h] + rest))
    requires skip <==> h.key.sequence > r || !WithinBounds(h.key.userKey, lower, upper) || h.key.userKey in seen
    requires seen' == if skip then seen else seen + {h.key.userKey}
    requires HoldsVisible(tail, Elems(rest), seen', lower, upper, r)
    ensures HoldsVisible((if skip || h.value.Delete? then [] else [(h.key.userKey, h.value.value)]) + tail,
                         Elems([h] + rest), seen, lower, upper, r)
  {
    forall k ensures Get(Elems([h] + rest), k, r) == if VersionOf(h, k, r) then Visible(Some(h)) else Get(Elems(rest), k, r) {
      GetOfCons(h, rest, k, r);
    }
    hide Get, WithinBounds, Functional, Elems;
  }

  /** On sorted input the rows are the visible in-bounds keys not seen before, in ascending order. */
  lemma {:induction false} VisibleRowsCorrect(s: seq<Entry>, seen: set<Bytes>, lower: Bound, upper: Bound, r: nat)
    requires Sorted(s) && Functional(Elems(s))
    ensures Ascending(VisibleRows(s, seen, lower, upper, r))
    ensures HoldsVisible(VisibleRows(s, seen, lower, upper, r), Elems(s), seen, lower, upper, r)
  {
    if s == [] {
      assert Elems(s) == {};
    } else {
      var h, rest := s[0], s[1..];
      assert s == [h] + rest;
      SortedTail(s);
      FunctionalTail(h, rest);
      var k0 := h.key.userKey;
      var skip := h.key.sequence > r || !WithinBounds(k0, lower, upper) || k0 in seen;
      var seen' := if skip then seen else seen + {k0};
      VisibleRowsCorrect(rest, seen', lower, upper, r);
      var rows, tail := VisibleRows(s, seen, lower, upper, r), VisibleRows(rest, seen', lower, upper, r);
      assert rows == (if skip || h.value.Delete? then [] else [(k0, h.value.value)]) + tail;
      hide *;
      VisibleStep(h, rest, seen, lower, upper, r, skip, seen', tail);
      VisibleStepAscends(h, rest, seen', lower, upper, r, tail, skip || h.value.Delete?);
    }
    hide *;
  }

  lemma VisibleStepAscends(h: Entry, rest: seq<Entry>, seen: set<Bytes>, lower: Bound, upper: Bound, r: nat, tail: seq<Row>, none: bool)
    requires Sorted([h] + rest) && Ascending(tail) && HoldsVisible(tail, Elems(rest), seen, lower, upper, r)
    requires !none ==> h.value.Put? && h.key.userKey in seen
    ensures Ascending((if none then [] else [(h.key.userKey, h.value.value)]) + tail)
  {
    hide WithinBounds, Get;
    forall j | 0 <= j < |tail| && !none ensures Less(h.key.userKey, tail[j].0) {
      assert (tail[j].0, tail[j].1) in tail;
      RowKeyAbove(h, rest, tail[j].0, r);
    }
  }

  lemma FunctionalTail(h: Entry, rest: seq<Entry>)
    requires Functional(Elems([h] + rest))
    ensures Functional(Elems(rest))
  {
    assert Elems([h] + rest) == {h} + Elems(rest);
  }

  lemma RowKeyAbove(h: Entry, rest: seq<Entry>, k: Bytes, r: nat)
    requires Sorted([h] + rest) && k != h.key.userKey && Get(Elems(rest), k, r).Some?
    ensures Less(h.key.userKey, k)
  {
    var e := Newest(Elems(rest), k, r).value;
    SortedTail([h] + rest);
    assert e in ([h] + rest)[1..];
    UserKeyOrder();
  }

  /** The internal key a scan seeks to; an unbounded scan does not seek (src/iterator/db_iterator.rs:115-125). */
  function LowerBoundSeekKey(lower: Bound): Option<InternalKey> {
    match lower
    case Included(k) => Some(InternalKey(k, U64_MAX, PutType))
    case Excluded(k) => Some(InternalKey(k, 0, DeleteType))
    case Unbounded => None
  }

  /** Seeking skips only entries below the lower bound. */
  lemma SeekSkipsBelow(lower: Bound, upper: Bound, e: Entry)
    requires e.key.sequence <= U64_MAX && LowerBoundSeekKey(lower).Some?
    requires KeyLess(e.key, LowerBoundSeekKey(lower).value)
    ensures !WithinBounds(e.key.userKey, lower, upper)
  {
    UserKeyOrder();
  }

  function Seeked(children: seq<Cursor>, lower: Bound): seq<Cursor> {
    match LowerBoundSeekKey(lower)
    case Some(key) => SeekAll(children, key)
    case None => children
  }

  /** Children as a scan makes them: at the start of sorted entries. */
  ghost predicate FreshChildren(children: seq<Cursor>) {
    forall i :: 0 <= i < |children| ==> children[i].index == 0 && Sorted(children[i].entries)
  }

  function ChildEntries(children: seq<Cursor>): seq<seq<Entry>> {
    seq(|children|, i requires 0 <= i < |children| => children[i].entries)
  }

  lemma SuffixSorted(s: seq<Entry>, n: nat)
    requires Sorted(s) && n <= |s|
    ensures Sorted(s[n..])
  {
    forall i, j | 0 <= i < j < |s[n..]| ensures KeyLeq(EntryKey(s[n..][i]), EntryKey(s[n..][j])) {
      assert KeyLeq(EntryKey(s[n + i]), EntryKey(s[n + j]));
    }
  }

  lemma SeekOne(c: Cursor, lower: Bound, upper: Bound)
    requires c.index == 0 && Sorted(c.entries)
    ensures var rest := Seeked([c], lower)[0].Rest();
            && Sorted(rest)
            && (forall e :: e in rest ==> e in c.entries)
            && (forall e :: e in c.entries && e.key.sequence <= U64_MAX && WithinBounds(e.key.userKey, lower, upper) ==> e in rest)
  {
    var n := Seeked([c], lower)[0].index;
    SuffixSorted(c.entries, n);
    forall e | e in c.entries && e.key.sequence <= U64_MAX && WithinBounds(e.key.userKey, lower, upper) ensures e in c.entries[n..] {
      var p :| 0 <= p < |c.entries| && c.entries[p] == e;
      if p < n {
        SeekSkipsBelow(lower, upper, e);
      } else {
        assert c.entries[n..][p - n] == e;
      }
    }
  }

  /** After the seek every child is still sorted, holds nothing new, and has kept everything in bounds. */
  lemma SeekKeepsInBounds(children: seq<Cursor>, lower: Bound, upper: Bound)
    requires FreshChildren(children)
    requires forall e :: e in Pool(ChildEntries(children)) ==> e.key.sequence <= U64_MAX
    ensures var rests := Rests(Seeked(children, lower));
            && AllSorted(rests)
            && Pool(rests) <= Pool(ChildEntries(children))
            && forall e :: e in Pool(ChildEntries(children)) && WithinBounds(e.key.userKey, lower, upper) ==> e in Pool(rests)
  {
    var rests, all := Rests(Seeked(children, lower)), ChildEntries(children);
    forall i | 0 <= i < |children|
      ensures Sorted(rests[i]) && (forall e :: e in rests[i] ==> e in all[i])
      ensures forall e: Entry :: e in all[i] && e.key.sequence <= U64_MAX && WithinBounds(e.key.userKey, lower, upper) ==> e in rests[i]
    {
      SeekOne(children[i], lower, upper);
      assert rests[i] == Seeked([children[i]], lower)[0].Rest();
    }
    hide WithinBounds, Seeked, Rests, ChildEntries;
    forall e | e in Pool(rests) ensures e in Pool(all) {
      var i :| 0 <= i < |rests| && e in rests[i];
      assert e in all[i] && all[i] in all;
    }
    forall e | e in Pool(all) && WithinBounds(e.key.userKey, lower, upper) ensures e in Pool(rests) {
      var i :| 0 <= i < |all| && e in all[i];
      assert e in rests[i] && rests[i] in rests;
    }
  }

  /** Draining the rows of the sought merge is the range scan of everything the children hold. */
  lemma ScanCorrect(children: seq<Cursor>, lower: Bound, upper: Bound, r: nat)
    requires FreshChildren(children) && Functional(Pool(ChildEntries(children)))
    requires forall e :: e in Pool(ChildEntries(children)) ==> e.key.sequence <= U64_MAX
    ensures IsScan(VisibleRows(Merged(Rests(Seeked(children, lower))), {}, lower, upper, r), Pool(ChildEntries(children)), lower, upper, r)
  {
    var all, rests := Pool(ChildEntries(children)), Rests(Seeked(children, lower));
    var s := Merged(rests);
    SeekKeepsInBounds(children, lower, upper);
    MergedSorted(rests);
    assert Functional(Elems(s));
    hide Merged, Rests, Seeked, Pool, ChildEntries, WithinBounds, VisibleRows, Functional;
    VisibleRowsCorrect(s, {}, lower, upper, r);
    forall k | WithinBounds(k, lower, upper) ensures Get(Elems(s), k, r) == Get(all, k, r) {
      if Newest(Elems(s), k, r).Some? {
        NewestUnique(all, k, r, Newest(Elems(s), k, r).value);
      }
    }
    hide Get;
  }

  lemma OneRowOn(rows: seq<Row>, row: Row, pending: seq<Row>)
    ensures rows + ([row] + pending) == (rows + [row]) + pending
  {
  }

  class DBIterator {
    const inner: MergeIterator
    const lower: Bound
    const upper: Bound
    const readSeq: nat
    var seen: set<Bytes>
    var current: Option<Row>

    /** The rows after the current one. */
    ghost function Pending(): seq<Row>
      reads this, inner
    {
      VisibleRows(inner.Rest(), seen, lower, upper, readSeq)
    }

    /** The rows from the current one on. */
    ghost function Remaining(): seq<Row>
      reads this, inner
    {
      (if current.Some? then [current.value] else []) + Pending()
    }

    ghost predicate Valid()
      reads this, inner
    {
      inner.Valid() && (current.None? ==> Pending() == [])
    }

    constructor (inner: MergeIterator, lower: Bound, upper: Bound, readSeq: nat)
      requires inner.Valid()
      modifies inner
      ensures Valid()
      ensures this.inner == inner && this.lower == lower && this.upper == upper && this.readSeq == readSeq
      ensures Remaining() == VisibleRows(Merged(Rests(Seeked(old(inner.children), lower))), {}, lower, upper, readSeq)
    {
      this.inner := inner;
      this.lower := lower;
      this.upper := upper;
      this.readSeq := readSeq;
      seen := {};
      current := None;
      new;
      var target := LowerBoundSeekKey(lower);
      if target.Some? {
        inner.Seek(target.value);
      }
      AdvanceToNextVisible();
    }

    /** Moves to the next row, consuming the merge; terminates because every turn takes one entry. */
    method AdvanceToNextVisible()
      requires inner.Valid()
      modifies this, inner
      ensures Valid() && Remaining() == old(Pending())
    {
      current := None;
      hide Merged, Lowest, WithinBounds;
      var more := inner.IsValid();
      while more
        invariant inner.Valid() && more == (inner.Rest() != [])
        invariant current == None && Pending() == old(Pending())
        decreases |inner.Rest()|
      {
        var e := inner.Current();
        inner.Next();
        more := inner.IsValid();
        if e.key.sequence > readSeq {
          continue;
        }
        var userKey := e.key.userKey;
        if !WithinBounds(userKey, lower, upper) {
          continue;
        }
        if userKey in seen {
          continue;
        }
        seen := seen + {userKey};
        if e.value.Put? {
          current := Some((userKey, e.value.value));
          return;
        }
        assert [] + Pending() == Pending();
      }
      assert [] + Pending() == Pending();
    }

    method Next()
      requires Valid()
      modifies this, inner
      ensures Valid() && Remaining() == if old(current).None? then [] else old(Pending())
    {
      if current.Some? {
        AdvanceToNextVisible();
      }
    }

    method Collect() returns (rows: seq<Row>)
      requires Valid()
      modifies this, inner
      ensures rows == old(Remaining())
    {
      rows := [];
      hide Merged, Lowest, VisibleRows, MergeIterator.Valid, MergeIterator.Rest, WithinBounds;
      while current.Some?
        invariant Valid() && rows + Remaining() == old(Remaining())
        decreases |Remaining()|
      {
        ghost var row, pending := current.value, Pending();
        OneRowOn(rows, row, pending);
        rows := rows + [current.value];
        Next();
      }
      assert Remaining() == [] && rows + [] == rows;
    }
  }

  /** The body of `scan_opt`: merge the children, seek, and drain. */
  method ScanChildren(children: seq<Cursor>, lower: Bound, upper: Bound, readSeq: nat) returns (rows: seq<Row>)
    requires FreshChildren(children) && Functional(Pool(ChildEntries(children)))
    requires forall e :: e in Pool(ChildEntries(children)) ==> e.key.sequence <= U64_MAX
    ensures IsScan(rows, Pool(ChildEntries(children)), lower, upper, readSeq)
  {
    ScanCorrect(children, lower, upper, readSeq);
    var merge := new MergeIterator(children);
    hide Merged, Pool, IsScan, VisibleRows, Seeked, Rests;
    var iter := new DBIterator(merge, lower, upper, readSeq);
    rows := iter.Collect();
  }
}
