/** The ordered-map memtable (src/memtable/btree.rs): entries strictly ascending by internal key. */
module MemTables {
  import opened Keys
  import opened Visibility
  import opened Executor
  import opened Splitter

  datatype MemTable = MemTable(map_: seq<Entry>, approximateSize: nat)

  const EMPTY_MEMTABLE := MemTable([], 0)

  ghost predicate StrictlySorted(s: seq<Entry>) {
    forall i, j :: 0 <= i < j < |s| ==> KeyLess(s[i].key, s[j].key)
  }

  /** `partition_point(|e| e.key < key)` on a sorted sequence. */
  function LowerBound(s: seq<Entry>, key: InternalKey): (n: nat)
    ensures n <= |s|
    ensures forall i :: 0 <= i < n ==> KeyLess(s[i].key, key)
    ensures n < |s| ==> KeyLeq(key, s[n].key)
  {
    if s == [] || !KeyLess(s[0].key, key) then 0 else 1 + LowerBound(s[1..], key)
  }

  lemma LowerBoundSorted(s: seq<Entry>, key: InternalKey)
    requires Sorted(s)
    ensures forall i :: LowerBound(s, key) <= i < |s| ==> KeyLeq(key, s[i].key)
  {
    InternalKeyOrder();
    var n := LowerBound(s, key);
    forall i | n <= i < |s| ensures KeyLeq(key, s[i].key) {
      assert n < i ==> KeyLeq(EntryKey(s[n]), EntryKey(s[i]));
    }
  }

  lemma StrictlySortedSorted(s: seq<Entry>)
    requires StrictlySorted(s)
    ensures Sorted(s)
  {
    InternalKeyOrder();
  }

  /** `BTreeMap::insert` */
  function Insert(s: seq<Entry>, e: Entry): seq<Entry> {
    var n := LowerBound(s, e.key);
    if n < |s| && s[n].key == e.key then s[n := e] else s[..n] + [e] + s[n..]
  }

  lemma InsertElements(s: seq<Entry>, e: Entry, n: nat, t: seq<Entry>, x: Entry)
    requires n == LowerBound(s, e.key) && t == Insert(s, e) && StrictlySorted(s)
    ensures x in t <==> x == e || (x in s && x.key != e.key)
  {
    OneAtMost(s, e.key, n);
    hide KeyLess, LowerBound, StrictlySorted;
    if n < |s| && s[n].key == e.key {
      InsertReplaces(s, n, e, x);
    } else {
      InsertAdds(s, n, e, x);
    }
  }

  /** In a strictly sorted sequence only the lower bound can hold the key. */
  lemma OneAtMost(s: seq<Entry>, key: InternalKey, n: nat)
    requires n == LowerBound(s, key) && StrictlySorted(s)
    ensures forall i :: 0 <= i < |s| && s[i].key == key ==> i == n
  {
    InternalKeyOrder();
    hide LowerBound;
  }

  lemma InsertReplaces(s: seq<Entry>, n: nat, e: Entry, x: Entry)
    requires n < |s| && s[n].key == e.key && forall i :: 0 <= i < |s| && s[i].key == e.key ==> i == n
    ensures x in s[n := e] <==> x == e || (x in s && x.key != e.key)
  {
    var t := s[n := e];
    assert t[n] == e;
    if i :| 0 <= i < |s| && s[i] == x { assert i != n ==> t[i] == x; }
    if i :| 0 <= i < |t| && t[i] == x { assert i != n ==> s[i] == x; }
  }

  lemma InsertAdds(s: seq<Entry>, n: nat, e: Entry, x: Entry)
    requires n <= |s| && forall i :: 0 <= i < |s| ==> s[i].key != e.key
    ensures x in s[..n] + [e] + s[n..] <==> x == e || (x in s && x.key != e.key)
  {
    assert s == s[..n] + s[n..];
  }

  lemma InsertKeeps(s: seq<Entry>, e: Entry)
    requires StrictlySorted(s)
    ensures StrictlySorted(Insert(s, e))
    ensures forall x :: x in Insert(s, e) <==> x == e || (x in s && x.key != e.key)
  {
    forall x ensures x in Insert(s, e) <==> x == e || (x in s && x.key != e.key) {
      InsertElements(s, e, LowerBound(s, e.key), Insert(s, e), x);
    }
    InsertSorted(s, e);
    hide *;
  }

  lemma InsertSorted(s: seq<Entry>, e: Entry)
    requires StrictlySorted(s)
    ensures StrictlySorted(Insert(s, e))
  {
    InternalKeyOrder();
    StrictlySortedSorted(s);
    LowerBoundSorted(s, e.key);
    var n, t := LowerBound(s, e.key), Insert(s, e);
    if n < |s| && s[n].key == e.key {
      assert forall i :: 0 <= i < |t| ==> t[i].key == s[i].key;
    } else {
      assert forall i :: 0 <= i < |t| ==> t[i] == if i < n then s[i] else if i == n then e else s[i - 1];
      hide LowerBound, KeyLess;
    }
  }

  function MemInsert(m: MemTable, e: Entry): MemTable {
    MemTable(Insert(m.map_, e), m.approximateSize + EstimateEntrySize(e))
  }

  /**
   The first entry at or after `(key, readSeq, Put)` decides: if it is for `key` it is the newest
   version, otherwise there is none, so the range loop of the source never takes a second turn.
   */
  method MemGet(m: seq<Entry>, key: Bytes, readSeq: nat) returns (r: Option<ValueRecord>)
    requires StrictlySorted(m) && Functional(Elems(m))
    ensures r == (match Newest(Elems(m), key, readSeq) case Some(e) => Some(e.value) case None => None)
  {
    InternalKeyOrder();
    UserKeyOrder();
    StrictlySortedSorted(m);
    var seek := InternalKey(key, readSeq, PutType);
    LowerBoundSorted(m, seek);
    var i := LowerBound(m, seek);
    if i < |m| && m[i].key.userKey == key {
      assert IsNewest(Elems(m), key, readSeq, m[i]);
      NewestUnique(Elems(m), key, readSeq, m[i]);
      return Some(m[i].value);
    }
    assert forall j :: i < j < |m| ==> KeyLess(m[i].key, m[j].key);
    assert forall j :: 0 <= j < |m| ==> !VersionOf(m[j], key, readSeq);
    return None;
  }
}
