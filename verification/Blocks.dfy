/**
 Prefix-compressed blocks (src/table/block_builder.rs, src/table/block.rs).

 Every entry stores how many bytes its user key shares with the key before it, except at restarts, where
 the whole key is stored.  The entries are followed by the restart offsets and their number.
 */
module Blocks {
  import opened Keys
  import opened Coding

  function SharedPrefixLen(left: Bytes, right: Bytes): (n: nat)
    ensures n <= |left| && n <= |right| && left[..n] == right[..n]
    ensures n < |left| && n < |right| ==> left[n] != right[n]
  {
    if left == [] || right == [] || left[0] != right[0] then 0
    else
      var n := SharedPrefixLen(left[1..], right[1..]);
      assert left[..n + 1] == [left[0]] + left[1..][..n];
      assert right[..n + 1] == [right[0]] + right[1..][..n];
      n + 1
  }

  function ValueBytes(v: ValueRecord): Bytes {
    match v
    case Put(value) => value
    case Delete => []
  }

  /** How much of its predecessor's key the `n`-th entry of a block reuses. */
  function SharedLen(interval: nat, n: nat, last: Bytes, key: Bytes): (shared: nat)
    requires interval > 0
    ensures shared <= |last| && shared <= |key| && last[..shared] == key[..shared]
  {
    if n % interval == 0 then 0 else SharedPrefixLen(last, key)
  }

  function EntryBytes(shared: nat, e: Entry): Bytes
    requires shared <= |e.key.userKey|
  {
    var unshared, value := e.key.userKey[shared..], ValueBytes(e.value);
    VarintBytes(AsU32(shared)) + (VarintBytes(AsU32(|unshared|)) + (VarintBytes(AsU32(|value|)) +
      ([TypeCode(TypeOf(e.value))] + (VarintBytes(e.key.sequence) + (unshared + value)))))
  }

  /** The entries `adds` of a block as the `n`-th and following ones, after a key `last`. */
  function EntriesBytes(interval: nat, n: nat, last: Bytes, adds: seq<Entry>): Bytes
    requires interval > 0
    decreases |adds|
  {
    if adds == [] then []
    else
      var key := adds[0].key.userKey;
      EntryBytes(SharedLen(interval, n, last, key), adds[0]) + EntriesBytes(interval, n + 1, key, adds[1..])
  }

  function BlockData(interval: nat, adds: seq<Entry>): Bytes
    requires interval > 0
  {
    EntriesBytes(interval, 0, [], adds)
  }

  function LastUserKey(first: Bytes, adds: seq<Entry>): Bytes {
    if adds == [] then first else adds[|adds| - 1].key.userKey
  }

  /** One offset for every `interval` entries. */
  function RestartOffsets(interval: nat, adds: seq<Entry>): (r: seq<nat>)
    requires interval > 0
    ensures |r| <= |adds| && (r == [] <==> adds == [])
  {
    if adds == [] then []
    else
      var n := |adds| - 1;
      RestartOffsets(interval, adds[..n]) + (if n % interval == 0 then [AsU32(|BlockData(interval, adds[..n])|)] else [])
  }

  function OffsetBytes(offsets: seq<nat>): (b: Bytes)
    ensures |b| == 4 * |offsets|
  {
    if offsets == [] then [] else LeBytes(offsets[0], 4) + OffsetBytes(offsets[1..])
  }

  function BlockBytes(interval: nat, adds: seq<Entry>): Bytes
    requires interval > 0
  {
    var restarts := if adds == [] then [0] else RestartOffsets(interval, adds);
    BlockData(interval, adds) + OffsetBytes(restarts) + LeBytes(AsU32(|restarts|), 4)
  }

  // ----- decoding

  function GetBlockEntry(src: Bytes, last: Bytes): (r: Parsed<Entry>)
    ensures r.Done? ==> |r.rest| < |src|
  {
    var shared := GetVarU32(src);
    if shared.Corrupt? then Corrupt else
    var unshared := GetVarU32(shared.rest);
    if unshared.Corrupt? then Corrupt else
    var value := GetVarU32(unshared.rest);
    if value.Corrupt? then Corrupt else
    var tag := TakeBytes(value.rest, 1);
    if tag.Corrupt? then Corrupt else
    var valueType := DecodeValueType(tag.value[0]);
    if valueType.None? then Corrupt else
    var sequence := GetVarU64(tag.rest);
    if sequence.Corrupt? || shared.value > |last| then Corrupt else
    var keyPart := TakeBytes(sequence.rest, unshared.value);
    if keyPart.Corrupt? then Corrupt else
    var valuePart := TakeBytes(keyPart.rest, value.value);
    if valuePart.Corrupt? then Corrupt else
    var key := InternalKey(last[..shared.value] + keyPart.value, sequence.value, valueType.value);
    if key.valueType.PutType? then Done(Entry(key, Put(valuePart.value)), valuePart.rest)
    else if valuePart.value != [] then Corrupt
    else Done(Entry(key, Delete), valuePart.rest)
  }

  function DecodeEntries(src: Bytes, last: Bytes): Option<seq<Entry>>
    decreases |src|
  {
    if src == [] then Some([])
    else
      match GetBlockEntry(src, last)
      case Corrupt => None
      case Done(e, rest) => Prefixed([e], DecodeEntries(rest, e.key.userKey))
  }

  /** The part of a block before its restart trailer. */
  function DataPart(bytes: Bytes): Option<Bytes> {
    if |bytes| < 4 then None
    else
      var pos := |bytes| - 4;
      var restartBytes := LeValue(bytes[pos..]) * 4;
      if pos < restartBytes then None else Some(bytes[..pos - restartBytes])
  }

  function DecodeBlock(bytes: Bytes): Option<seq<Entry>> {
    match DataPart(bytes)
    case None => None
    case Some(data) => DecodeEntries(data, [])
  }

  // ----- round trip

  /** An entry under the tag its value calls for, which is the one that is written. */
  function Tagged(e: Entry): Entry {
    e.(key := e.key.(valueType := TypeOf(e.value)))
  }

  function TaggedAll(es: seq<Entry>): seq<Entry> {
    seq(|es|, i requires 0 <= i < |es| => Tagged(es[i]))
  }

  predicate EntryFits(e: Entry) {
    KeyFits(e.key) && |ValueBytes(e.value)| <= U32_MAX
  }

  predicate AllFit(es: seq<Entry>) {
    forall e :: e in es ==> EntryFits(e)
  }

  lemma EntryHeader(shared: nat, e: Entry, rest: Bytes)
    requires shared <= |e.key.userKey| && EntryFits(e)
    ensures var unshared, value := e.key.userKey[shared..], ValueBytes(e.value);
            var t5 := unshared + (value + rest);
            var t4 := VarintBytes(e.key.sequence) + t5;
            var t3 := [TypeCode(TypeOf(e.value))] + t4;
            var t2 := VarintBytes(AsU32(|value|)) + t3;
            var t1 := VarintBytes(AsU32(|unshared|)) + t2;
            && EntryBytes(shared, e) + rest == VarintBytes(AsU32(shared)) + t1
            && GetVarU32(EntryBytes(shared, e) + rest) == Done(shared, t1)
            && GetVarU32(t1) == Done(|unshared|, t2)
            && GetVarU32(t2) == Done(|value|, t3)
            && GetVarU64(t4) == Done(e.key.sequence, t5)
  {
    hide VarintBytes, GetVarU32, GetVarU64, AsU32;
    var unshared, value := e.key.userKey[shared..], ValueBytes(e.value);
    var t5 := unshared + (value + rest);
    var t4 := VarintBytes(e.key.sequence) + t5;
    var t3 := [TypeCode(TypeOf(e.value))] + t4;
    var t2 := VarintBytes(AsU32(|value|)) + t3;
    var t1 := VarintBytes(AsU32(|unshared|)) + t2;
    assert EntryBytes(shared, e) + rest == VarintBytes(AsU32(shared)) + t1;
    VarU32RoundTrip(shared, t1);
    VarU32RoundTrip(|unshared|, t2);
    VarU32RoundTrip(|value|, t3);
    VarU64RoundTrip(e.key.sequence, t5);
  }

  lemma EntryRoundTrip(shared: nat, last: Bytes, e: Entry, rest: Bytes)
    requires EntryFits(e)
    requires shared <= |last| && shared <= |e.key.userKey| && last[..shared] == e.key.userKey[..shared]
    ensures GetBlockEntry(EntryBytes(shared, e) + rest, last) == Done(Tagged(e), rest)
  {
    hide VarintBytes, GetVarU32, GetVarU64, AsU32, EntryBytes;
    EntryHeader(shared, e, rest);
    var unshared, value := e.key.userKey[shared..], ValueBytes(e.value);
    var t4 := VarintBytes(e.key.sequence) + (unshared + (value + rest));
    assert ([TypeCode(TypeOf(e.value))] + t4)[1..] == t4;
    TakeBytesBack(unshared, value + rest);
    TakeBytesBack(value, rest);
    assert last[..shared] + unshared == e.key.userKey;
  }

  lemma EntryBytesNonEmpty(shared: nat, e: Entry)
    requires shared <= |e.key.userKey|
    ensures EntryBytes(shared, e) != []
  {
  }

  /** Decoding follows encoding entry by entry, whatever the order of the keys. */
  lemma {:induction false} EntriesRoundTrip(interval: nat, n: nat, last: Bytes, adds: seq<Entry>)
    requires interval > 0 && AllFit(adds)
    ensures DecodeEntries(EntriesBytes(interval, n, last, adds), last) == Some(TaggedAll(adds))
    decreases |adds|
  {
    hide GetBlockEntry, EntryBytes;
    if adds == [] {
      assert TaggedAll(adds) == [];
    } else {
      var e, key := adds[0], adds[0].key.userKey;
      var shared := SharedLen(interval, n, last, key);
      var tail := EntriesBytes(interval, n + 1, key, adds[1..]);
      EntryRoundTrip(shared, last, e, tail);
      EntryBytesNonEmpty(shared, e);
      EntriesRoundTrip(interval, n + 1, key, adds[1..]);
      assert [Tagged(e)] + TaggedAll(adds[1..]) == TaggedAll(adds);
    }
  }

  lemma TrailerAt(data: Bytes, offsets: Bytes, count: Bytes)
    requires |count| == 4 && |offsets| == 4 * LeValue(count)
    ensures DataPart(data + offsets + count) == Some(data)
  {
    hide LeValue;
    var bytes := data + offsets + count;
    assert bytes[|bytes| - 4..] == count;
    assert bytes[..|data|] == data;
  }

  lemma TrailerSkipped(data: Bytes, restarts: seq<nat>)
    requires |restarts| <= U32_MAX
    ensures DataPart(data + OffsetBytes(restarts) + LeBytes(AsU32(|restarts|), 4)) == Some(data)
  {
    hide LeBytes, LeValue, Pow256, OffsetBytes, DataPart;
    var n := |restarts|;
    assert AsU32(n) == n;
    Pow256Values();
    LeRoundTrip(n, 4);
    TrailerAt(data, OffsetBytes(restarts), LeBytes(n, 4));
  }

  /**
   A block gives back the entries added to it, under any restart interval and in any order, each under the
   tag of its value; the restart trailer is never read as an entry.
   */
  lemma BlockRoundTrip(interval: nat, adds: seq<Entry>)
    requires interval > 0 && AllFit(adds) && |RestartOffsets(interval, adds)| <= U32_MAX
    ensures DataPart(BlockBytes(interval, adds)) == Some(BlockData(interval, adds))
    ensures DecodeBlock(BlockBytes(interval, adds)) == Some(TaggedAll(adds))
  {
    hide DataPart, EntriesBytes, DecodeEntries, TaggedAll, OffsetBytes, LeBytes;
    var restarts := if adds == [] then [0] else RestartOffsets(interval, adds);
    TrailerSkipped(BlockData(interval, adds), restarts);
    EntriesRoundTrip(interval, 0, [], adds);
  }

  /** The entries come back unchanged exactly when every key was tagged as its value is. */
  lemma TaggedAllIdentity(adds: seq<Entry>)
    ensures TaggedAll(adds) == adds <==> forall e :: e in adds ==> Consistent(e)
  {
    if forall e :: e in adds ==> Consistent(e) {
      forall i | 0 <= i < |adds| ensures TaggedAll(adds)[i] == adds[i] {
        assert Consistent(adds[i]);
      }
    }
    if TaggedAll(adds) == adds {
      forall e | e in adds ensures Consistent(e) {
        var i :| 0 <= i < |adds| && adds[i] == e;
        assert TaggedAll(adds)[i] == Tagged(e);
      }
    }
  }

  // ----- restarts

  lemma {:induction false} EntriesBytesSplit(interval: nat, n: nat, last: Bytes, a: seq<Entry>, b: seq<Entry>)
    requires interval > 0
    ensures EntriesBytes(interval, n, last, a + b) ==
            EntriesBytes(interval, n, last, a) + EntriesBytes(interval, n + |a|, LastUserKey(last, a), b)
    decreases |a|
  {
    hide EntryBytes;
    if a == [] {
      assert a + b == b;
    } else {
      EntriesBytesSplit(interval, n + 1, a[0].key.userKey, a[1..], b);
      assert (a + b)[1..] == a[1..] + b;
      assert LastUserKey(a[0].key.userKey, a[1..]) == LastUserKey(last, a);
    }
  }

  lemma BlockDataSnoc(interval: nat, adds: seq<Entry>, e: Entry)
    requires interval > 0
    ensures BlockData(interval, adds + [e]) ==
            BlockData(interval, adds) + EntryBytes(SharedLen(interval, |adds|, LastUserKey([], adds), e.key.userKey), e)
  {
    hide EntryBytes;
    EntriesBytesSplit(interval, 0, [], adds, [e]);
    assert [e][1..] == [];
  }

  /** At a restart the data can be read on without what came before. */
  lemma RestartIsSelfContained(interval: nat, adds: seq<Entry>, k: nat)
    requires interval > 0 && AllFit(adds) && k <= |adds| && k % interval == 0
    ensures |BlockData(interval, adds[..k])| <= |BlockData(interval, adds)|
    ensures DecodeEntries(BlockData(interval, adds)[|BlockData(interval, adds[..k])|..], []) == Some(TaggedAll(adds[k..]))
  {
    hide EntryBytes, DecodeEntries, TaggedAll;
    var a, b := adds[..k], adds[k..];
    assert a + b == adds;
    EntriesBytesSplit(interval, 0, [], a, b);
    assert EntriesBytes(interval, k, LastUserKey([], a), b) == EntriesBytes(interval, k, [], b);
    assert BlockData(interval, adds)[|BlockData(interval, a)|..] == EntriesBytes(interval, k, [], b);
    EntriesRoundTrip(interval, k, [], b);
  }

  /** The `j`-th restart offset is where entry `j * interval` starts. */
  lemma {:induction false} RestartOffsetAt(interval: nat, adds: seq<Entry>, j: nat)
    requires interval > 0 && j * interval < |adds|
    ensures j < |RestartOffsets(interval, adds)|
    ensures RestartOffsets(interval, adds)[j] == AsU32(|BlockData(interval, adds[..j * interval])|)
    decreases |adds|
  {
    hide BlockData, AsU32;
    var n := |adds| - 1;
    if j * interval < n {
      RestartOffsetAt(interval, adds[..n], j);
      assert adds[..n][..j * interval] == adds[..j * interval];
    } else {
      RestartCount(interval, adds[..n], j);
      DivideUnique(j, 0, interval);
    }
  }

  lemma MulMonotone(a: nat, b: nat, d: nat)
    ensures a < b ==> a * d + d <= b * d
  {
    if a + 1 < b {
      MulMonotone(a, b - 1, d);
      assert b * d == (b - 1) * d + d;
    } else if a + 1 == b {
      assert b * d == a * d + d;
    }
  }

  /** Quotient and remainder are determined. */
  lemma DivideUnique(q: nat, r: nat, d: nat)
    requires r < d
    ensures (q * d + r) / d == q && (q * d + r) % d == r
  {
    var n := q * d + r;
    var q', r' := n / d, n % d;
    assert n == q' * d + r';
    MulMonotone(q, q', d);
    MulMonotone(q', q, d);
  }

  lemma {:induction false} RestartCount(interval: nat, adds: seq<Entry>, j: nat)
    requires interval > 0 && (if j == 0 then adds == [] else (j - 1) * interval < |adds| <= j * interval)
    ensures |RestartOffsets(interval, adds)| == j
    decreases |adds|
  {
    hide BlockData, AsU32;
    if adds != [] {
      var n := |adds| - 1;
      if (j - 1) * interval == n {
        DivideUnique(j - 1, 0, interval);
        if j > 1 { assert (j - 2) * interval == (j - 1) * interval - interval; }
        RestartCount(interval, adds[..n], j - 1);
      } else {
        RestartCount(interval, adds[..n], j);
        DivideUnique(j - 1, n - (j - 1) * interval, interval);
      }
    }
  }

  // ----- the builder and the decoder

  method PutEntry(data: Bytes, shared: nat, key: InternalKey, value: ValueRecord) returns (out: Bytes)
    requires shared <= |key.userKey|
    ensures out == data + EntryBytes(shared, Entry(key, value))
  {
    hide VarintBytes, AsU32;
    var unshared, valueBytes := key.userKey[shared..], ValueBytes(value);
    out := PutVarU64(data, AsU32(shared));
    out := PutVarU64(out, AsU32(|unshared|));
    out := PutVarU64(out, AsU32(|valueBytes|));
    out := out + [TypeCode(TypeOf(value))];
    out := PutVarU64(out, key.sequence);
    out := out + unshared;
    out := out + valueBytes;
  }

  class BlockBuilder {
    var data: Bytes
    var restarts: seq<nat>
    var lastUserKey: Bytes
    var entryCount: nat
    var restartInterval: nat
    ghost var added: seq<Entry>

    ghost predicate Valid()
      reads this
    {
      && restartInterval > 0
      && entryCount == |added|
      && lastUserKey == LastUserKey([], added)
      && data == BlockData(restartInterval, added)
      && restarts == RestartOffsets(restartInterval, added)
    }

    constructor (interval: nat)
      ensures Valid() && added == [] && restartInterval == if interval == 0 then 1 else interval
    {
      data, restarts, lastUserKey, entryCount := [], [], [], 0;
      restartInterval := if interval == 0 then 1 else interval;
      added := [];
    }

    method Add(key: InternalKey, value: ValueRecord)
      requires Valid()
      modifies this
      ensures Valid() && restartInterval == old(restartInterval)
      ensures added == old(added) + [Entry(key, value)]
    {
      hide EntryBytes, AsU32, RestartOffsets, BlockData;
      ghost var e := Entry(key, value);
      BlockDataSnoc(restartInterval, added, e);
      RestartOffsetsSnoc(restartInterval, added, e);
      var shared := 0;
      if entryCount % restartInterval == 0 {
        restarts := restarts + [AsU32(|data|)];
      } else {
        shared := SharedPrefixLen(lastUserKey, key.userKey);
      }
      data := PutEntry(data, shared, key, value);
      lastUserKey := key.userKey;
      entryCount := entryCount + 1;
      added := added + [e];
    }

    function ApproximateSize(): nat
      reads this
    {
      |data| + |restarts| * 4 + 4
    }

    method Finish() returns (bytes: Bytes)
      requires Valid()
      ensures bytes == BlockBytes(restartInterval, added)
    {
      hide RestartOffsets, BlockData;
      var offsets := if restarts == [] then [0] else restarts;
      bytes := data;
      for i := 0 to |offsets|
        invariant bytes == data + OffsetBytes(offsets[..i])
      {
        OffsetBytesSnoc(offsets[..i], offsets[i]);
        assert offsets[..i] + [offsets[i]] == offsets[..i + 1];
        bytes := bytes + LeBytes(offsets[i], 4);
      }
      assert offsets[..|offsets|] == offsets;
      bytes := bytes + LeBytes(AsU32(|offsets|), 4);
    }
  }

  lemma RestartOffsetsSnoc(interval: nat, adds: seq<Entry>, e: Entry)
    requires interval > 0
    ensures RestartOffsets(interval, adds + [e]) ==
            RestartOffsets(interval, adds) + (if |adds| % interval == 0 then [AsU32(|BlockData(interval, adds)|)] else [])
  {
    hide BlockData;
    assert (adds + [e])[..|adds|] == adds;
  }

  lemma {:induction false} OffsetBytesSnoc(offsets: seq<nat>, o: nat)
    ensures OffsetBytes(offsets + [o]) == OffsetBytes(offsets) + LeBytes(o, 4)
  {
    hide LeBytes;
    if offsets == [] {
      assert [] + [o] == [o] && [o][1..] == [];
    } else {
      OffsetBytesSnoc(offsets[1..], o);
      assert (offsets + [o])[1..] == offsets[1..] + [o];
    }
  }

  method Decode(bytes: Bytes) returns (r: Option<seq<Entry>>)
    ensures r == DecodeBlock(bytes)
  {
    hide GetBlockEntry;
    if |bytes| < 4 { return None; }
    var pos := |bytes| - 4;
    var restartBytes := LeValue(bytes[pos..]) * 4;
    if pos < restartBytes { return None; }
    var src, lastUserKey, entries := bytes[..pos - restartBytes], [], [];
    ghost var all := src;
    PrefixedNothing(DecodeEntries(src, []));
    while src != []
      invariant Prefixed(entries, DecodeEntries(src, lastUserKey)) == DecodeEntries(all, [])
      decreases |src|
    {
      var e := GetBlockEntry(src, lastUserKey);
      if e.Corrupt? { return None; }
      PrefixedTwice(entries, e.value, DecodeEntries(e.rest, e.value.key.userKey));
      lastUserKey := e.value.key.userKey;
      entries := entries + [e.value];
      src := e.rest;
    }
    assert entries + [] == entries;
    r := Some(entries);
  }
}
