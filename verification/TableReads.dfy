/**
 Reading an open table: the block cache (src/cache/block_cache.rs) and the point lookup through filter,
 index and cache (src/table/reader.rs:66-180).
 */
module TableReads {
  import opened Keys
  import opened Visibility
  import opened Executor
  import opened Splitter
  import opened Coding
  import opened Blocks
  import opened Bloom
  import opened Tables

  /** The bytes of a table with the index and filter read when it was opened. */
  datatype TableFile = TableFile(file: Bytes, index: seq<IndexEntry>, filter: Bytes)

  /** Every block of the table has an offset of its own. */
  ghost predicate UniqueOffsets(t: TableFile) {
    forall i, j :: 0 <= i < j < |t.index| ==> t.index[i].handle.offset != t.index[j].handle.offset
  }

  // ----- the block cache

  class BlockCache {
    var blocks: map<(nat, nat), seq<Entry>>
    const maxEntries: nat

    /** Every cached block is the one its table holds at that offset. */
    ghost predicate Coherent(c: Codec, tables: map<nat, TableFile>)
      reads this
    {
      && 0 < maxEntries && |blocks| <= maxEntries
      && (forall n :: n in tables ==> UniqueOffsets(tables[n]))
      && forall k :: k in blocks ==>
           && k.0 in tables
           && forall i :: 0 <= i < |tables[k.0].index| && tables[k.0].index[i].handle.offset == k.1 ==>
                ReadDataBlock(c, tables[k.0].file, tables[k.0].index[i].handle) == Some(blocks[k])
    }

    constructor (capacityBytes: nat)
      ensures blocks == map[] && maxEntries == if capacityBytes < 8192 then 1 else capacityBytes / 4096
    {
      blocks := map[];
      maxEntries := if capacityBytes / 4096 > 1 then capacityBytes / 4096 else 1;
    }

    /** Under a coherent cache a hit is the block its table holds at that offset. */
    method Get(tableNumber: nat, offset: nat, ghost c: Codec, ghost tables: map<nat, TableFile>) returns (block: Option<seq<Entry>>)
      requires Coherent(c, tables)
      ensures block.Some? ==> tableNumber in tables
      ensures block.Some? ==> forall i ::
                0 <= i < |tables[tableNumber].index| && tables[tableNumber].index[i].handle.offset == offset ==>
                  block == ReadDataBlock(c, tables[tableNumber].file, tables[tableNumber].index[i].handle)
      ensures block == if (tableNumber, offset) in blocks then Some(blocks[(tableNumber, offset)]) else None
    {
      block := if (tableNumber, offset) in blocks then Some(blocks[(tableNumber, offset)]) else None;
    }

    /** Which block goes when the cache is full is left open. */
    method Insert(tableNumber: nat, offset: nat, block: seq<Entry>)
      requires 0 < maxEntries && |blocks| <= maxEntries
      modifies this`blocks
      ensures |blocks| <= maxEntries
      ensures (tableNumber, offset) in blocks && blocks[(tableNumber, offset)] == block
      ensures forall k :: k in blocks && k != (tableNumber, offset) ==> k in old(blocks) && blocks[k] == old(blocks)[k]
      ensures forall k, l :: k in old(blocks) && l in old(blocks) && k != l ==> k in blocks || l in blocks
    {
      if |blocks| >= maxEntries {
        SomeKey(blocks);
        var victim :| victim in blocks;
        blocks := blocks - {victim};
      }
      blocks := blocks[(tableNumber, offset) := block];
    }
  }

  lemma SomeKey<K, V>(m: map<K, V>)
    requires |m| > 0
    ensures exists k :: k in m
  {
    if m.Keys == {} { assert |m| == |m.Keys|; }
    var k :| k in m.Keys;
  }

  /** Opening another table under a new number leaves the cache coherent. */
  lemma CoherentWithMore(cache: BlockCache, c: Codec, tables: map<nat, TableFile>, n: nat, t: TableFile)
    requires cache.Coherent(c, tables) && n !in tables && UniqueOffsets(t)
    ensures cache.Coherent(c, tables[n := t])
  {
  }

  /** A block by its index entry, from the cache when it is used and has it. */
  method ReadDecodedBlock(c: Codec, t: TableFile, i: nat, number: nat, cache: BlockCache, useCache: bool, ghost tables: map<nat, TableFile>)
    returns (block: Option<seq<Entry>>)
    requires i < |t.index| && number in tables && tables[number] == t && cache.Coherent(c, tables)
    modifies cache`blocks
    ensures cache.Coherent(c, tables)
    ensures block == ReadDataBlock(c, t.file, t.index[i].handle)
  {
    hide ReadDataBlock;
    var h := t.index[i].handle;
    if useCache {
      block := cache.Get(number, h.offset, c, tables);
      if block.Some? {
        return;
      }
    }
    block := ReadDataBlock(c, t.file, h);
    if block.Some? && useCache {
      assert UniqueOffsets(t);
      cache.Insert(number, h.offset, block.value);
    }
  }

  // ----- what an index says of the blocks

  /** The index entries give readable blocks and bounds for their keys; blocks follow one another in key order. */
  ghost predicate Indexed(c: Codec, t: TableFile, blocks: seq<seq<Entry>>) {
    && |t.index| == |blocks|
    && (forall i :: 0 <= i < |blocks| ==> ReadDataBlock(c, t.file, t.index[i].handle) == Some(blocks[i]))
    && (forall i, e :: 0 <= i < |blocks| && e in blocks[i] ==>
          Leq(t.index[i].firstKey.userKey, e.key.userKey) && KeyLeq(e.key, t.index[i].lastKey))
    && (forall i, j, e :: 0 <= i < j < |blocks| && e in blocks[j] ==> KeyLeq(t.index[i].lastKey, e.key))
    && (forall i, j :: 0 <= i < j < |blocks| ==> KeyLeq(t.index[i].lastKey, t.index[j].lastKey))
  }

  lemma {:induction false} FlattenConcat(a: seq<seq<Entry>>, b: seq<seq<Entry>>)
    ensures Flatten(a + b) == Flatten(a) + Flatten(b)
    decreases |a|
  {
    if a == [] {
      assert a + b == b;
    } else {
      FlattenConcat(a[1..], b);
      assert (a + b)[1..] == a[1..] + b;
    }
  }

  lemma OneBlock(block: seq<Entry>)
    ensures Flatten([block]) == block
  {
    assert [block][1..] == [];
  }

  lemma ThreeRuns(a: seq<Entry>, b: seq<Entry>, c: seq<Entry>)
    ensures a + (b + c) == a + b + c
  {
  }

  lemma FlattenFrom(blocks: seq<seq<Entry>>, i: nat)
    requires i < |blocks|
    ensures Flatten(blocks[i..]) == blocks[i] + Flatten(blocks[i + 1..])
  {
    assert blocks[i..][1..] == blocks[i + 1..];
  }

  lemma FlattenUpTo(blocks: seq<seq<Entry>>, i: nat)
    requires i < |blocks|
    ensures Flatten(blocks[..i + 1]) == Flatten(blocks[..i]) + blocks[i]
  {
    hide Flatten;
    assert blocks[..i + 1] == blocks[..i] + [blocks[i]];
    FlattenConcat(blocks[..i], [blocks[i]]);
    OneBlock(blocks[i]);
  }

  lemma FlattenSplit(blocks: seq<seq<Entry>>, i: nat)
    requires i <= |blocks|
    ensures Flatten(blocks) == Flatten(blocks[..i]) + Flatten(blocks[i..])
    ensures i < |blocks| ==> Flatten(blocks) == Flatten(blocks[..i]) + blocks[i] + Flatten(blocks[i + 1..])
    ensures i < |blocks| ==> Flatten(blocks[..i + 1]) == Flatten(blocks[..i]) + blocks[i]
  {
    hide Flatten;
    assert blocks == blocks[..i] + blocks[i..];
    FlattenConcat(blocks[..i], blocks[i..]);
    if i < |blocks| {
      FlattenFrom(blocks, i);
      FlattenUpTo(blocks, i);
      ThreeRuns(Flatten(blocks[..i]), blocks[i], Flatten(blocks[i + 1..]));
    }
  }

  lemma NoBlocks()
    ensures Flatten([]) == []
  {
  }

  lemma FlattenPrefix(blocks: seq<seq<Entry>>, i: nat, j: nat, p: nat)
    requires i < |blocks| && p < |blocks[i]|
    ensures |Flatten(blocks[..i])| + p < |Flatten(blocks)|
    ensures Flatten(blocks)[|Flatten(blocks[..i])| + p] == blocks[i][p]
    ensures i <= j <= |blocks| ==> |Flatten(blocks[..i])| <= |Flatten(blocks[..j])|
  {
    FlattenSplit(blocks, i);
    if i <= j <= |blocks| {
      FlattenSplit(blocks[..j], i);
      assert blocks[..j][..i] == blocks[..i];
    }
  }

  lemma KeyLeqSelf(k: InternalKey)
    ensures KeyLeq(k, k)
  {
    InternalKeyOrder();
  }

  /** Entries of an earlier block are not above entries of a later one. */
  lemma {:induction false} BlocksInOrder(blocks: seq<seq<Entry>>, i: nat, j: nat, p: nat, q: nat)
    requires Sorted(Flatten(blocks)) && i <= j < |blocks| && p < |blocks[i]| && q < |blocks[j]| && (i == j ==> p <= q)
    ensures KeyLeq(blocks[i][p].key, blocks[j][q].key)
  {
    hide Flatten, KeyLess;
    var all := Flatten(blocks);
    var a, b := |Flatten(blocks[..i])| + p, |Flatten(blocks[..j])| + q;
    FlattenPrefix(blocks, i, j, p);
    FlattenPrefix(blocks, j, j, q);
    if i < j {
      FlattenSplit(blocks, i);
      FlattenPrefixNext(blocks, i, j);
      assert a < b;
    }
    if a < b {
      assert KeyLeq(EntryKey(all[a]), EntryKey(all[b]));
    } else {
      KeyLeqSelf(all[a].key);
    }
  }

  lemma FlattenPrefixNext(blocks: seq<seq<Entry>>, i: nat, j: nat)
    requires i < j <= |blocks|
    ensures |Flatten(blocks[..i])| + |blocks[i]| <= |Flatten(blocks[..j])|
  {
    FlattenSplit(blocks[..j], i);
    assert blocks[..j][..i] == blocks[..i];
  }

  lemma IndexOffsets(c: Codec, blocks: seq<seq<Entry>>, i: nat, j: nat)
    requires NoneEmpty(blocks) && i < j < |blocks|
    ensures IndexOf(c, blocks)[i].handle.offset < IndexOf(c, blocks)[j].handle.offset
  {
    hide DataBytes, Frame, Stored, DataBlock, IndexOf;
    IndexAt(c, blocks, i);
    IndexAt(c, blocks, j);
    IndexAt(c, blocks[..j], i);
    assert blocks[..j][..i] == blocks[..i];
  }

  /** A table as the builder writes it. */
  function Built(c: Codec, blocks: seq<seq<Entry>>): TableFile
    requires NoneEmpty(blocks)
  {
    TableFile(TableBytes(c, blocks), IndexOf(c, blocks), FilterBytes(UserKeys(Flatten(blocks))))
  }

  /** A table written from sorted, consistent entries is indexed, block by block. */
  lemma BuiltIsIndexed(c: Codec, blocks: seq<seq<Entry>>)
    requires Lawful(c) && TableFits(c, blocks)
    requires Sorted(Flatten(blocks)) && forall e :: e in Flatten(blocks) ==> Consistent(e)
    ensures NoneEmpty(blocks) && Indexed(c, Built(c, blocks), blocks) && UniqueOffsets(Built(c, blocks))
  {
    hide TableBytes, IndexOf, ReadDataBlock, Flatten, TableFits, FilterBytes, KeyLess, LessFrom;
    FittingTable(c, blocks);
    var t := Built(c, blocks);
    forall i | 0 <= i < |blocks| ensures ReadDataBlock(c, t.file, t.index[i].handle) == Some(blocks[i]) {
      ReadsBlock(c, blocks, i);
      BlockWithin(blocks, i);
      TaggedAllIdentity(blocks[i]);
    }
    forall i, j | 0 <= i < j < |blocks| ensures t.index[i].handle.offset != t.index[j].handle.offset {
      IndexOffsets(c, blocks, i, j);
    }
    BuiltBounds(c, blocks);
  }

  lemma UserKeyLeq(a: InternalKey, b: InternalKey)
    requires KeyLeq(a, b)
    ensures Leq(a.userKey, b.userKey)
  {
  }

  lemma NoneEmptyAt(blocks: seq<seq<Entry>>)
    requires NoneEmpty(blocks)
    ensures forall i :: 0 <= i < |blocks| ==> blocks[i] != []
  {
  }

  lemma BuiltBounds(c: Codec, blocks: seq<seq<Entry>>)
    requires NoneEmpty(blocks) && Sorted(Flatten(blocks))
    ensures forall i, e :: 0 <= i < |blocks| && e in blocks[i] ==>
              Leq(IndexOf(c, blocks)[i].firstKey.userKey, e.key.userKey) && KeyLeq(e.key, IndexOf(c, blocks)[i].lastKey)
    ensures forall i, j, e :: 0 <= i < j < |blocks| && e in blocks[j] ==> KeyLeq(IndexOf(c, blocks)[i].lastKey, e.key)
    ensures forall i, j :: 0 <= i < j < |blocks| ==> KeyLeq(IndexOf(c, blocks)[i].lastKey, IndexOf(c, blocks)[j].lastKey)
  {
    hide *;
    NoneEmptyAt(blocks);
    var index := IndexOf(c, blocks);
    forall i | 0 <= i < |blocks|
      ensures index[i].firstKey == blocks[i][0].key && index[i].lastKey == blocks[i][|blocks[i]| - 1].key
    {
      IndexAt(c, blocks, i);
    }
    forall i, e | 0 <= i < |blocks| && e in blocks[i]
      ensures Leq(index[i].firstKey.userKey, e.key.userKey) && KeyLeq(e.key, index[i].lastKey)
    {
      var p :| 0 <= p < |blocks[i]| && blocks[i][p] == e;
      BlocksInOrder(blocks, i, i, 0, p);
      UserKeyLeq(index[i].firstKey, e.key);
      BlocksInOrder(blocks, i, i, p, |blocks[i]| - 1);
    }
    forall i, j, e | 0 <= i < j < |blocks| && e in blocks[j] ensures KeyLeq(index[i].lastKey, e.key) {
      var q :| 0 <= q < |blocks[j]| && blocks[j][q] == e;
      BlocksInOrder(blocks, i, j, |blocks[i]| - 1, q);
    }
    forall i, j | 0 <= i < j < |blocks| ensures KeyLeq(index[i].lastKey, index[j].lastKey) {
      BlocksInOrder(blocks, i, j, |blocks[i]| - 1, |blocks[j]| - 1);
    }
  }

  // ----- the point lookup

  datatype Lookup = Hit(value: ValueRecord) | Miss | Failed

  ghost function Answer(n: Option<Entry>): Lookup {
    match n
    case Some(e) => Hit(e.value)
    case None => Miss
  }

  /** A table the lookup can rely on: indexed, sorted, one value a version, and the filter of its keys. */
  ghost predicate Searchable(c: Codec, t: TableFile, blocks: seq<seq<Entry>>) {
    && Indexed(c, t, blocks)
    && Sorted(Flatten(blocks)) && Functional(Elems(Flatten(blocks)))
    && |Flatten(blocks)| * BITS_PER_KEY <= U32_MAX
    && t.filter == FilterBytes(UserKeys(Flatten(blocks)))
  }

  lemma BuiltIsSearchable(c: Codec, blocks: seq<seq<Entry>>)
    requires Lawful(c) && TableFits(c, blocks)
    requires Sorted(Flatten(blocks)) && Functional(Elems(Flatten(blocks))) && forall e :: e in Flatten(blocks) ==> Consistent(e)
    ensures NoneEmpty(blocks) && Searchable(c, Built(c, blocks), blocks)
    ensures FromBytes(Built(c, blocks).filter).Some? ==> Sound(FromBytes(Built(c, blocks).filter).value)
  {
    hide Indexed, TableBytes, IndexOf, Flatten, FilterBytes, FromBytes, Sound, Lawful, Functional, Sorted;
    BuiltIsIndexed(c, blocks);
    NotAdmitted(Flatten(blocks), [], 0);
  }

  predicate IndexMayContain(e: IndexEntry, key: Bytes) {
    Leq(e.firstKey.userKey, key) && Leq(key, e.lastKey.userKey)
  }

  lemma FoundIn(blocks: seq<seq<Entry>>, i: nat, p: nat, key: Bytes, readSeq: nat)
    requires Sorted(Flatten(blocks)) && Functional(Elems(Flatten(blocks)))
    requires i < |blocks| && p < |blocks[i]| && VersionOf(blocks[i][p], key, readSeq)
    requires forall e :: e in Flatten(blocks[..i]) ==> !VersionOf(e, key, readSeq)
    requires forall q :: 0 <= q < p ==> !VersionOf(blocks[i][q], key, readSeq)
    ensures Newest(Elems(Flatten(blocks)), key, readSeq) == Some(blocks[i][p])
  {
    hide Flatten, Sorted, Functional, VersionOf;
    var before := Flatten(blocks[..i]);
    FlattenSplit(blocks, i);
    var all := Flatten(blocks);
    assert all[|before| + p] == blocks[i][p];
    forall q | 0 <= q < |before| + p ensures !VersionOf(all[q], key, readSeq) {
      if q < |before| {
        assert all[q] == before[q];
      } else {
        assert all[q] == blocks[i][q - |before|];
      }
    }
    FirstVersion(all, |before| + p, key, readSeq);
  }

  lemma NotAdmitted(es: seq<Entry>, key: Bytes, readSeq: nat)
    requires |es| * BITS_PER_KEY <= U32_MAX
    ensures var filter := FilterBytes(UserKeys(es));
            && (FromBytes(filter).Some? ==> Sound(FromBytes(filter).value))
            && (!Admits(filter, key) ==> Newest(Elems(es), key, readSeq) == None)
  {
    assert FromBytes(FilterBytes([])).None?;
    hide FilterBytes, FromBytes, MayContainKey;
    var keys := UserKeys(es);
    if es != [] {
      FilterReadsBack(keys);
    } else {
      assert keys == [];
    }
    forall e | e in Elems(es) && e.key.userKey == key ensures Admits(FilterBytes(keys), key) {
      var i :| 0 <= i < |es| && es[i] == e;
      assert keys[i] == key;
      NoFalseNegatives(keys, key);
    }
  }

  /** A skipped block holds no version of the key. */
  lemma SkippedBlock(c: Codec, t: TableFile, blocks: seq<seq<Entry>>, i: nat, key: Bytes, readSeq: nat)
    requires Indexed(c, t, blocks) && i < |blocks| && !IndexMayContain(t.index[i], key)
    ensures forall e :: e in blocks[i] ==> !VersionOf(e, key, readSeq)
  {
    hide ReadDataBlock, KeyLess, LessFrom;
    forall e | e in blocks[i] ensures e.key.userKey != key {
      UserKeyLeq(e.key, t.index[i].lastKey);
    }
  }

  method FilterAdmits(filter: Bytes, key: Bytes) returns (r: bool)
    requires FromBytes(filter).Some? ==> Sound(FromBytes(filter).value)
    ensures r == Admits(filter, key)
  {
    hide FromBytes, MayContainKey;
    var f := FromBytes(filter);
    if f.None? { return true; }
    r := MayContain(f.value, key);
  }

  method SearchBlock(block: seq<Entry>, key: Bytes, readSeq: nat) returns (p: nat)
    ensures p <= |block|
    ensures forall q :: 0 <= q < p ==> !VersionOf(block[q], key, readSeq)
    ensures p < |block| ==> VersionOf(block[p], key, readSeq)
  {
    p := 0;
    while p < |block|
      invariant p <= |block|
      invariant forall q :: 0 <= q < p ==> !VersionOf(block[q], key, readSeq)
    {
      if block[p].key.userKey == key && block[p].key.sequence <= readSeq {
        return;
      }
      p := p + 1;
    }
  }

  /**
   On a searchable table the lookup through filter, index and cache finds the newest version at or below the
   read sequence among all entries of the table; whatever the cache evicted before.
   */
  method GetWithCache(c: Codec, t: TableFile, key: Bytes, readSeq: nat, number: nat, cache: BlockCache, useCache: bool,
                      ghost tables: map<nat, TableFile>, ghost blocks: seq<seq<Entry>>)
    returns (r: Lookup)
    requires FromBytes(t.filter).Some? ==> Sound(FromBytes(t.filter).value)
    requires number in tables && tables[number] == t && cache.Coherent(c, tables)
    modifies cache`blocks
    ensures cache.Coherent(c, tables)
    ensures Searchable(c, t, blocks) ==> r == Answer(Newest(Elems(Flatten(blocks)), key, readSeq))
  {
    hide FromBytes, Admits, FilterBytes, Sound, Flatten, ReadDataBlock, Functional, IndexMayContain, BlockCache.Coherent, VersionOf,
         Newest, UserKeys, Sorted, KeyLess, LessFrom;
    ghost var good := Searchable(c, t, blocks);
    ghost var all := Flatten(blocks);
    var admitted := FilterAdmits(t.filter, key);
    if !admitted {
      if good { NotAdmitted(all, key, readSeq); }
      return Miss;
    }
    NoBlocks();
    assert blocks[..0] == [];
    for i := 0 to |t.index|
      invariant cache.Coherent(c, tables)
      invariant good ==> forall e :: e in Flatten(blocks[..i]) ==> !VersionOf(e, key, readSeq)
    {
      if good { FlattenSplit(blocks, i); }
      if IndexMayContain(t.index[i], key) {
        var block := ReadDecodedBlock(c, t, i, number, cache, useCache, tables);
        if block.None? {
          return Failed;
        }
        var p := SearchBlock(block.value, key, readSeq);
        if p < |block.value| {
          if good { FoundIn(blocks, i, p, key, readSeq); }
          return Hit(block.value[p].value);
        }
      } else if good {
        SkippedBlock(c, t, blocks, i, key, readSeq);
      }
    }
    if good {
      assert blocks[..|blocks|] == blocks;
      NothingFound(all, key, readSeq);
    }
    r := Miss;
  }

  lemma NothingFound(s: seq<Entry>, key: Bytes, readSeq: nat)
    requires forall e :: e in s ==> !VersionOf(e, key, readSeq)
    ensures Newest(Elems(s), key, readSeq) == None
  {
  }

  /** All entries of a table in order, through the cache. */
  method EntriesWithCache(c: Codec, t: TableFile, number: nat, cache: BlockCache, useCache: bool, ghost tables: map<nat, TableFile>)
    returns (r: Option<seq<Entry>>)
    requires number in tables && tables[number] == t && cache.Coherent(c, tables)
    modifies cache`blocks
    ensures cache.Coherent(c, tables)
    ensures r == ReadAll(c, t.file, t.index)
  {
    hide ReadDataBlock, BlockCache.Coherent;
    var entries := [];
    assert t.index[0..] == t.index;
    PrefixedNothing(ReadAll(c, t.file, t.index));
    for i := 0 to |t.index|
      invariant cache.Coherent(c, tables)
      invariant Prefixed(entries, ReadAll(c, t.file, t.index[i..])) == ReadAll(c, t.file, t.index)
    {
      assert t.index[i..][1..] == t.index[i + 1..];
      var block := ReadDecodedBlock(c, t, i, number, cache, useCache, tables);
      if block.None? {
        return None;
      }
      PrefixedAppend(entries, block.value, ReadAll(c, t.file, t.index[i + 1..]));
      entries := entries + block.value;
    }
    assert entries + [] == entries;
    r := Some(entries);
  }

  /** What a table records of itself is true: its number of entries, the least and the greatest key, and its keys. */
  lemma PropertiesDescribe(es: seq<Entry>)
    requires es != [] && Sorted(es) && |es| * BITS_PER_KEY <= U32_MAX
    ensures PropertiesOf(es).numEntries == |es|
    ensures PropertiesOf(es).smallest.Some? && PropertiesOf(es).largest.Some?
    ensures exists e :: e in es && e.key == PropertiesOf(es).smallest.value
    ensures exists e :: e in es && e.key == PropertiesOf(es).largest.value
    ensures forall e :: e in es ==> KeyLeq(PropertiesOf(es).smallest.value, e.key) && KeyLeq(e.key, PropertiesOf(es).largest.value)
    ensures FromBytes(PropertiesOf(es).filter).Some? ==> Sound(FromBytes(PropertiesOf(es).filter).value)
    ensures forall e :: e in es ==> Admits(PropertiesOf(es).filter, e.key.userKey)
  {
    var keys := UserKeys(es);
    InternalKeyOrder();
    hide FilterBytes, FromBytes, Sound, Admits;
    assert es[0] in es && es[|es| - 1] in es && keys[0] in keys;
    NoFalseNegatives(keys, keys[0]);
    forall e | e in es
      ensures KeyLeq(es[0].key, e.key) && KeyLeq(e.key, es[|es| - 1].key) && Admits(FilterBytes(keys), e.key.userKey)
    {
      var i :| 0 <= i < |es| && es[i] == e;
      assert i > 0 ==> KeyLeq(EntryKey(es[0]), EntryKey(es[i]));
      assert i < |es| - 1 ==> KeyLeq(EntryKey(es[i]), EntryKey(es[|es| - 1]));
      assert keys[i] == e.key.userKey && keys[i] in keys;
      NoFalseNegatives(keys, e.key.userKey);
    }
  }
}
