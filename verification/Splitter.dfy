/**
 `split_compaction_entries` (src/db.rs:1282-1316): cut the sorted compaction output into at most
 `max` chunks of at least `target` estimated bytes, at changes of user key.

 The code lets an empty previous user key stand for "no previous entry", so it does cut between
 two versions of the empty user key.  `SplitSeparatesKeys` says that this is the only key ever
 cut, and `EmptyKeyCut` says exactly when.
 */
module Splitter {
  import opened Keys
  import opened Executor

  /** `size_of::<InternalKey>()` on a 64-bit target: a vector, a u64 and a tag. */
  const INTERNAL_KEY_SIZE: nat := 40

  function EstimateEntrySize(e: Entry): (n: nat)
    ensures n > 0
  {
    |e.key.userKey| + INTERNAL_KEY_SIZE + (match e.value case Put(v) => |v| case Delete => 0)
  }

  function AtLeastOne(n: nat): nat { if n == 0 then 1 else n }

  /** The chunks still to come, given the open chunk, its size, the last key seen and the chunks done. */
  function SplitFrom(rest: seq<Entry>, current: seq<Entry>, size: nat, prev: Bytes, done: nat, target: nat, max: nat): seq<seq<Entry>>
  {
    if rest == [] then
      if current == [] then [] else [current]
    else
      var e := rest[0];
      var changed := prev == [] || prev != e.key.userKey;
      if current != [] && changed && size >= target && done + 1 < max then
        [current] + SplitFrom(rest[1..], [e], EstimateEntrySize(e), e.key.userKey, done + 1, target, max)
      else
        SplitFrom(rest[1..], current + [e], size + EstimateEntrySize(e), e.key.userKey, done, target, max)
  }

  function Split(entries: seq<Entry>, target: nat, max: nat): seq<seq<Entry>> {
    SplitFrom(entries, [], 0, [], 0, AtLeastOne(target), AtLeastOne(max))
  }

  method SplitCompactionEntries(entries: seq<Entry>, targetFileSize: nat, maxOutputs: nat) returns (chunks: seq<seq<Entry>>)
    ensures chunks == Split(entries, targetFileSize, maxOutputs)
  {
    var max, target := AtLeastOne(maxOutputs), AtLeastOne(targetFileSize);
    chunks := [];
    var current: seq<Entry> := [];
    var currentSize: nat := 0;
    var previousUserKey: Bytes := [];
    for i := 0 to |entries|
      invariant chunks + SplitFrom(entries[i..], current, currentSize, previousUserKey, |chunks|, target, max)
             == Split(entries, targetFileSize, maxOutputs)
    {
      var entry := entries[i];
      assert entries[i..][0] == entry && entries[i..][1..] == entries[i + 1..];
      var userKeyChanged := previousUserKey == [] || previousUserKey != entry.key.userKey;
      if current != [] && userKeyChanged && currentSize >= target && |chunks| + 1 < max {
        ghost var later := SplitFrom(entries[i + 1..], [entry], EstimateEntrySize(entry), entry.key.userKey, |chunks| + 1, target, max);
        assert chunks + ([current] + later) == chunks + [current] + later;
        chunks := chunks + [current];
        current := [];
        currentSize := 0;
        assert [] + [entry] == [entry];
      }
      previousUserKey := entry.key.userKey;
      currentSize := currentSize + EstimateEntrySize(entry);
      current := current + [entry];
    }
    assert entries[|entries|..] == [];
    if current != [] {
      chunks := chunks + [current];
    }
  }

  function Flatten(chunks: seq<seq<Entry>>): seq<Entry> {
    if chunks == [] then [] else chunks[0] + Flatten(chunks[1..])
  }

  /** Chunks are non-empty, at most `max` in number, and concatenate to the input. */
  lemma {:induction false} SplitFromPartition(rest: seq<Entry>, current: seq<Entry>, size: nat, prev: Bytes, done: nat, target: nat, max: nat)
    requires done < max
    ensures var cs := SplitFrom(rest, current, size, prev, done, target, max);
            && Flatten(cs) == current + rest
            && (forall c :: c in cs ==> c != [])
            && done + |cs| <= max
    decreases |rest|
  {
    if rest == [] {
      assert current + rest == current;
      assert Flatten([current]) == current + Flatten([]);
    } else {
      var e := rest[0];
      assert rest == [e] + rest[1..];
      if current != [] && (prev == [] || prev != e.key.userKey) && size >= target && done + 1 < max {
        SplitFromPartition(rest[1..], [e], EstimateEntrySize(e), e.key.userKey, done + 1, target, max);
        var tail := SplitFrom(rest[1..], [e], EstimateEntrySize(e), e.key.userKey, done + 1, target, max);
        assert ([current] + tail)[1..] == tail;
      } else {
        SplitFromPartition(rest[1..], current + [e], size + EstimateEntrySize(e), e.key.userKey, done, target, max);
        assert current + [e] + rest[1..] == current + rest;
      }
    }
  }

  lemma SplitPartition(entries: seq<Entry>, target: nat, max: nat)
    ensures Flatten(Split(entries, target, max)) == entries
    ensures forall c :: c in Split(entries, target, max) ==> c != []
    ensures |Split(entries, target, max)| <= AtLeastOne(max)
  {
    SplitFromPartition(entries, [], 0, [], 0, AtLeastOne(target), AtLeastOne(max));
    assert [] + entries == entries;
  }

  /** All user keys of `a` are below all user keys of `b`, except that both may hold the empty key. */
  ghost predicate Before(a: seq<Entry>, b: seq<Entry>) {
    forall x, y :: x in a && y in b ==>
      Less(x.key.userKey, y.key.userKey) || (x.key.userKey == [] && y.key.userKey == [])
  }

  ghost predicate Separated(cs: seq<seq<Entry>>) {
    forall i, j :: 0 <= i < j < |cs| ==> Before(cs[i], cs[j])
  }

  lemma {:induction false} InFlatten(chunks: seq<seq<Entry>>, j: nat, e: Entry)
    requires j < |chunks| && e in chunks[j]
    ensures e in Flatten(chunks)
  {
    if j > 0 {
      InFlatten(chunks[1..], j - 1, e);
    }
  }

  lemma {:induction false} SplitFromSeparates(rest: seq<Entry>, current: seq<Entry>, size: nat, prev: Bytes, done: nat, target: nat, max: nat)
    requires Sorted(current + rest)
    requires current != [] ==> prev == current[|current| - 1].key.userKey
    requires done < max
    ensures Separated(SplitFrom(rest, current, size, prev, done, target, max))
    decreases |rest|
  {
    if rest != [] {
      var e := rest[0];
      var all := current + rest;
      if current != [] && (prev == [] || prev != e.key.userKey) && size >= target && done + 1 < max {
        var cs := SplitFrom(rest, current, size, prev, done, target, max);
        var tail := SplitFrom(rest[1..], [e], EstimateEntrySize(e), e.key.userKey, done + 1, target, max);
        assert [e] + rest[1..] == rest;
        assert Sorted(rest) by {
          forall i, j | 0 <= i < j < |rest| ensures KeyLeq(EntryKey(rest[i]), EntryKey(rest[j])) {
            assert KeyLeq(EntryKey(all[|current| + i]), EntryKey(all[|current| + j]));
          }
        }
        CutIsBetweenKeys(current, rest);
        assert cs == [current] + tail;
        hide SplitFrom, Sorted, EstimateEntrySize;
        SplitFromSeparates(rest[1..], [e], EstimateEntrySize(e), e.key.userKey, done + 1, target, max);
        SplitFromPartition(rest[1..], [e], EstimateEntrySize(e), e.key.userKey, done + 1, target, max);
        forall i, j | 0 <= i < j < |cs| ensures Before(cs[i], cs[j]) {
          assert cs[j] == tail[j - 1];
          if i == 0 {
            forall y | y in cs[j] ensures y in rest { InFlatten(tail, j - 1, y); }
          } else {
            assert Before(tail[i - 1], tail[j - 1]);
          }
        }
      } else {
        assert current + [e] + rest[1..] == all;
        SplitFromSeparates(rest[1..], current + [e], size + EstimateEntrySize(e), e.key.userKey, done, target, max);
      }
    }
  }

  lemma CutIsBetweenKeys(current: seq<Entry>, rest: seq<Entry>)
    requires current != [] && rest != [] && Sorted(current + rest)
    requires var prev := current[|current| - 1].key.userKey; prev == [] || prev != rest[0].key.userKey
    ensures Before(current, rest)
  {
    var all, c := current + rest, |current|;
    UserKeyOrder();
    forall x, y | x in current && y in rest
      ensures Less(x.key.userKey, y.key.userKey) || (x.key.userKey == [] && y.key.userKey == [])
    {
      var i :| 0 <= i < |current| && current[i] == x;
      var j :| 0 <= j < |rest| && rest[j] == y;
      assert all[i] == x && all[c + j] == y && all[c - 1] == current[c - 1] && all[c] == rest[0];
      assert i < c - 1 ==> KeyLeq(EntryKey(all[i]), EntryKey(all[c - 1]));
      assert KeyLeq(EntryKey(all[c - 1]), EntryKey(all[c]));
      assert j > 0 ==> KeyLeq(EntryKey(all[c]), EntryKey(all[c + j]));
    }
  }

  /** No user key but the empty one is ever cut. */
  lemma SplitSeparatesKeys(entries: seq<Entry>, target: nat, max: nat)
    requires Sorted(entries)
    ensures Separated(Split(entries, target, max))
  {
    assert [] + entries == entries;
    SplitFromSeparates(entries, [], 0, [], 0, AtLeastOne(target), AtLeastOne(max));
  }

  // ----- chunks are filled, and not beyond the first cut that is due

  function TotalSize(s: seq<Entry>): nat {
    if s == [] then 0 else EstimateEntrySize(s[0]) + TotalSize(s[1..])
  }

  /** A change of key, an empty key counting as one, after enough bytes for a chunk of their own. */
  predicate CutDue(chunk: seq<Entry>, p: nat, target: nat)
    requires 0 < p < |chunk|
  {
    && TotalSize(chunk[..p]) >= target
    && (chunk[p - 1].key.userKey == [] || chunk[p - 1].key.userKey != chunk[p].key.userKey)
  }

  ghost predicate NoCutMissed(chunk: seq<Entry>, target: nat) {
    forall p :: 0 < p < |chunk| ==> !CutDue(chunk, p, target)
  }

  lemma {:induction false} TotalSizeSnoc(s: seq<Entry>, e: Entry)
    ensures TotalSize(s + [e]) == TotalSize(s) + EstimateEntrySize(e)
  {
    if s != [] {
      assert (s + [e])[1..] == s[1..] + [e];
      TotalSizeSnoc(s[1..], e);
    } else {
      assert (s + [e])[1..] == [];
    }
  }

  lemma CutDueSnoc(current: seq<Entry>, e: Entry, p: nat, target: nat)
    requires 0 < p <= |current|
    ensures CutDue(current + [e], p, target) <==>
            if p < |current| then CutDue(current, p, target)
            else TotalSize(current) >= target && (current[p - 1].key.userKey == [] || current[p - 1].key.userKey != e.key.userKey)
  {
    hide TotalSize;
    assert (current + [e])[..p] == current[..p];
    if p == |current| { assert current[..p] == current; }
  }

  lemma NoCutMissedSnoc(current: seq<Entry>, e: Entry, target: nat)
    requires NoCutMissed(current, target)
    requires current != [] && TotalSize(current) >= target ==>
               var last := current[|current| - 1].key.userKey; last != [] && last == e.key.userKey
    ensures NoCutMissed(current + [e], target)
  {
    hide CutDue, TotalSize;
    var after := current + [e];
    forall p | 0 < p < |after| ensures !CutDue(after, p, target) {
      CutDueSnoc(current, e, p, target);
      if p < |current| { assert !CutDue(current, p, target); }
    }
  }

  /** Chunks with `done` others before them. */
  ghost predicate Filled(cs: seq<seq<Entry>>, done: nat, target: nat, max: nat) {
    && (forall c :: 0 <= c < |cs| - 1 ==> TotalSize(cs[c]) >= target)
    && (forall c :: 0 <= c < |cs| && done + c + 1 < max ==> NoCutMissed(cs[c], target))
  }

  lemma FilledCons(first: seq<Entry>, cs: seq<seq<Entry>>, done: nat, target: nat, max: nat)
    requires TotalSize(first) >= target && NoCutMissed(first, target) && Filled(cs, done + 1, target, max)
    ensures Filled([first] + cs, done, target, max)
  {
    hide TotalSize, NoCutMissed;
    var all := [first] + cs;
    assert forall c :: 0 < c < |all| ==> all[c] == cs[c - 1];
  }

  lemma {:induction false} SplitFromFills(rest: seq<Entry>, current: seq<Entry>, size: nat, prev: Bytes, done: nat, target: nat, max: nat)
    requires size == TotalSize(current) && (current != [] ==> prev == current[|current| - 1].key.userKey)
    requires done + 1 < max ==> NoCutMissed(current, target)
    ensures Filled(SplitFrom(rest, current, size, prev, done, target, max), done, target, max)
    decreases |rest|
  {
    if rest != [] { hide Filled; }
    hide TotalSize, NoCutMissed, EstimateEntrySize;
    if rest != [] {
      var e := rest[0];
      TotalSizeSnoc(current, e);
      if current != [] && (prev == [] || prev != e.key.userKey) && size >= target && done + 1 < max {
        TotalSizeSnoc([], e);
        assert [] + [e] == [e] && TotalSize([]) == 0 by { EmptySize(); }
        OneUncut(e, target);
        SplitFromFills(rest[1..], [e], EstimateEntrySize(e), e.key.userKey, done + 1, target, max);
        FilledCons(current, SplitFrom(rest[1..], [e], EstimateEntrySize(e), e.key.userKey, done + 1, target, max), done, target, max);
      } else {
        if done + 1 < max { NoCutMissedSnoc(current, e, target); }
        SplitFromFills(rest[1..], current + [e], size + EstimateEntrySize(e), e.key.userKey, done, target, max);
      }
    }
  }

  lemma EmptySize()
    ensures TotalSize([]) == 0
  {
  }

  lemma EmptyUncut(target: nat)
    ensures NoCutMissed([], target)
  {
  }

  lemma OneUncut(e: Entry, target: nat)
    ensures NoCutMissed([e], target)
  {
  }

  /** Every chunk but the last reaches the target, and while another chunk was allowed no earlier cut was due in any. */
  lemma SplitFillsChunks(entries: seq<Entry>, target: nat, max: nat)
    ensures forall c :: 0 <= c < |Split(entries, target, max)| - 1 ==> TotalSize(Split(entries, target, max)[c]) >= AtLeastOne(target)
    ensures forall c :: 0 <= c < |Split(entries, target, max)| && c + 1 < AtLeastOne(max) ==>
              NoCutMissed(Split(entries, target, max)[c], AtLeastOne(target))
  {
    hide TotalSize, NoCutMissed;
    EmptySize();
    EmptyUncut(AtLeastOne(target));
    SplitFromFills(entries, [], 0, [], 0, AtLeastOne(target), AtLeastOne(max));
  }

  // ----- exactly when the empty key is cut

  /** The number of leading entries with the empty user key; in sorted input, all of them. */
  function EmptyRun(s: seq<Entry>): (n: nat)
    ensures n <= |s|
  {
    if s == [] || s[0].key.userKey != [] then 0 else 1 + EmptyRun(s[1..])
  }

  ghost predicate StrictlyBefore(a: seq<Entry>, b: seq<Entry>) {
    forall x, y :: x in a && y in b ==> Less(x.key.userKey, y.key.userKey)
  }

  ghost predicate KeyDisjoint(cs: seq<seq<Entry>>) {
    forall i, j :: 0 <= i < j < |cs| ==> StrictlyBefore(cs[i], cs[j])
  }

  lemma {:induction false} FirstChunk(rest: seq<Entry>, current: seq<Entry>, size: nat, prev: Bytes, done: nat, target: nat, max: nat)
    requires current != [] && done < max
    ensures var cs := SplitFrom(rest, current, size, prev, done, target, max);
            |cs| > 0 && current <= cs[0]
    decreases |rest|
  {
    if rest != [] {
      var e := rest[0];
      if !((prev == [] || prev != e.key.userKey) && size >= target && done + 1 < max) {
        FirstChunk(rest[1..], current + [e], size + EstimateEntrySize(e), e.key.userKey, done, target, max);
      }
    }
  }

  /** Once past the empty keys, no later chunk holds one. */
  lemma NoEmptyKeyLeft(rest: seq<Entry>, current: seq<Entry>, size: nat, prev: Bytes, target: nat, max: nat)
    requires Sorted(current + rest) && 0 < max && EmptyRun(rest) == 0
    requires current != [] ==> prev == current[|current| - 1].key.userKey
    ensures KeyDisjoint(SplitFrom(rest, current, size, prev, 0, target, max))
  {
    var cs := SplitFrom(rest, current, size, prev, 0, target, max);
    SplitFromSeparates(rest, current, size, prev, 0, target, max);
    SplitFromPartition(rest, current, size, prev, 0, target, max);
    UserKeyOrder();
    forall y | y in rest ensures y.key.userKey != [] {
      var i :| 0 <= i < |rest| && rest[i] == y;
      assert i > 0 ==> KeyLeq(EntryKey((current + rest)[|current|]), EntryKey((current + rest)[|current| + i]));
    }
    forall i: nat, j: nat, x: Entry, y: Entry | i < j < |cs| && x in cs[i] && y in cs[j] ensures Less(x.key.userKey, y.key.userKey) {
      assert Before(cs[i], cs[j]);
      LaterChunkInRest(rest, current, size, prev, target, max, j, y);
    }
  }

  lemma LaterChunkInRest(rest: seq<Entry>, current: seq<Entry>, size: nat, prev: Bytes, target: nat, max: nat, j: nat, y: Entry)
    requires 0 < max
    requires var cs := SplitFrom(rest, current, size, prev, 0, target, max); 0 < j < |cs| && y in cs[j]
    ensures y in rest
  {
    var cs := SplitFrom(rest, current, size, prev, 0, target, max);
    SplitFromPartition(rest, current, size, prev, 0, target, max);
    hide SplitFrom;
    if current == [] {
      assert current + rest == rest;
      InFlatten(cs, j, y);
    } else {
      FirstChunk(rest, current, size, prev, 0, target, max);
      var more := cs[0][|current|..];
      var tail := more + Flatten(cs[1..]);
      assert current + tail == Flatten(cs);
      assert rest == (current + rest)[|current|..] == (current + tail)[|current|..] == tail;
      InFlatten(cs[1..], j - 1, y);
    }
  }

  lemma {:induction false} CutInRun(rest: seq<Entry>, current: seq<Entry>, size: nat, target: nat, max: nat)
    requires Sorted(current + rest) && 0 < max && 0 < target
    requires (forall e :: e in current ==> e.key.userKey == []) && (size > 0 ==> current != [])
    ensures KeyDisjoint(SplitFrom(rest, current, size, [], 0, target, max)) <==>
            !(max > 1 && EmptyRun(rest) > 0 && size + TotalSize(rest[..EmptyRun(rest) - 1]) >= target)
    decreases |rest|
  {
    var run := EmptyRun(rest);
    if run == 0 {
      NoEmptyKeyLeft(rest, current, size, [], target, max);
    } else {
      var e := rest[0];
      if current != [] && size >= target && 1 < max {
        var cs := SplitFrom(rest, current, size, [], 0, target, max);
        var tail := SplitFrom(rest[1..], [e], EstimateEntrySize(e), [], 1, target, max);
        assert cs == [current] + tail;
        FirstChunk(rest[1..], [e], EstimateEntrySize(e), [], 1, target, max);
        assert current[0] in cs[0] && tail[0][0] == e && e in cs[1];
        assert !StrictlyBefore(cs[0], cs[1]);
      } else {
        assert current + [e] + rest[1..] == current + rest;
        CutInRun(rest[1..], current + [e], size + EstimateEntrySize(e), target, max);
        if run > 1 {
          assert rest[..run - 1][0] == e && rest[..run - 1][1..] == rest[1..][..run - 2];
        } else {
          assert rest[..0] == [];
        }
      }
    }
  }

  /**
   The chunks have pairwise disjoint user keys unless more than one chunk is allowed and the
   versions of the empty key but the last already fill a chunk.
   */
  lemma EmptyKeyCut(entries: seq<Entry>, target: nat, max: nat)
    requires Sorted(entries)
    ensures KeyDisjoint(Split(entries, target, max)) <==>
            !(max > 1 && EmptyRun(entries) > 0 && TotalSize(entries[..EmptyRun(entries) - 1]) >= AtLeastOne(target))
  {
    assert [] + entries == entries;
    CutInRun(entries, [], 0, AtLeastOne(target), AtLeastOne(max));
  }

  /** Two versions of the empty key are cut apart, though no version of any other key ever is. */
  lemma EmptyKeyIsCut()
    ensures var newer, older := Entry(InternalKey([], 2, DeleteType), Delete), Entry(InternalKey([], 1, DeleteType), Delete);
            Sorted([newer, older]) && Split([newer, older], 1, 2) == [[newer], [older]]
  {
    var newer, older := Entry(InternalKey([], 2, DeleteType), Delete), Entry(InternalKey([], 1, DeleteType), Delete);
    var n := EstimateEntrySize(newer);
    assert [newer, older][1..] == [older] && [older][1..] == [];
    assert [] + [newer] == [newer];
    assert SplitFrom([], [older], n, [], 1, 1, 2) == [[older]];
    assert SplitFrom([older], [newer], n, [], 0, 1, 2) == [[newer]] + [[older]];
  }
}
