/**
 The two-level table cursor (src/table/reader.rs:183-298) refines the flat cursor over the concatenation of
 the blocks.
 */
module TableCursors {
  import opened Keys
  import opened MemTables
  import opened Splitter
  import opened Tables
  import opened TableReads
  import opened Iterators

  /** `partition_point` over the last keys of the index. */
  function PartitionPoint(index: seq<IndexEntry>, key: InternalKey): (n: nat)
    ensures n <= |index|
    ensures forall i :: 0 <= i < n ==> KeyLess(index[i].lastKey, key)
    ensures n < |index| ==> KeyLeq(key, index[n].lastKey)
  {
    if index == [] || !KeyLess(index[0].lastKey, key) then 0 else 1 + PartitionPoint(index[1..], key)
  }

  lemma {:induction false} LowerBoundIs(s: seq<Entry>, n: nat, key: InternalKey)
    requires n <= |s| && (forall i :: 0 <= i < n ==> KeyLess(s[i].key, key)) && (n < |s| ==> KeyLeq(key, s[n].key))
    ensures LowerBound(s, key) == n
  {
    if n > 0 {
      LowerBoundIs(s[1..], n - 1, key);
    }
  }

  /** The flat position of an entry of a block, or of the end. */
  ghost function FlatIndex(blocks: seq<seq<Entry>>, blockIndex: nat, entryIndex: nat): nat
    requires blockIndex <= |blocks|
  {
    |Flatten(blocks[..blockIndex])| + entryIndex
  }

  /** Everything before the position is below the key and what is there is not: it is the lower bound. */
  lemma SeekPosition(blocks: seq<seq<Entry>>, b: nat, p: nat, key: InternalKey)
    requires b <= |blocks|
    requires if b == |blocks| then p == 0 else p < |blocks[b]| && KeyLeq(key, blocks[b][p].key)
    requires forall e :: e in Flatten(blocks[..b]) ==> KeyLess(e.key, key)
    requires b < |blocks| ==> forall q :: 0 <= q < p ==> KeyLess(blocks[b][q].key, key)
    ensures LowerBound(Flatten(blocks), key) == FlatIndex(blocks, b, p)
  {
    hide Flatten, KeyLess, LowerBound;
    var all, before := Flatten(blocks), Flatten(blocks[..b]);
    FlattenSplit(blocks, b);
    if b == |blocks| {
      assert blocks[..b] == blocks;
    } else {
      assert all[|before| + p] == blocks[b][p];
    }
    forall q | 0 <= q < |before| + p ensures KeyLess(all[q].key, key) {
      if q < |before| {
        assert all[q] == before[q];
      } else {
        assert all[q] == blocks[b][q - |before|];
      }
    }
    LowerBoundIs(all, |before| + p, key);
  }

  lemma IndexedCount(c: Codec, t: TableFile, blocks: seq<seq<Entry>>)
    ensures Indexed(c, t, blocks) ==> |t.index| == |blocks|
  {
    hide ReadDataBlock, KeyLess;
  }

  /** Blocks that hold nothing take no room. */
  lemma {:induction false} EmptyBlocks(blocks: seq<seq<Entry>>, i: nat, j: nat)
    requires i <= j <= |blocks| && forall k :: i <= k < j ==> blocks[k] == []
    ensures Flatten(blocks[..j]) == Flatten(blocks[..i])
    decreases j
  {
    if i < j {
      EmptyBlocks(blocks, i, j - 1);
      FlattenSplit(blocks, j - 1);
    }
  }

  /** Blocks whose last key is below the sought key hold only entries below it. */
  lemma {:induction false} BelowPartition(c: Codec, t: TableFile, blocks: seq<seq<Entry>>, n: nat, key: InternalKey)
    requires Indexed(c, t, blocks) && n <= |blocks| && forall i :: 0 <= i < n ==> KeyLess(t.index[i].lastKey, key)
    ensures forall e :: e in Flatten(blocks[..n]) ==> KeyLess(e.key, key)
  {
    hide KeyLess, ReadDataBlock;
    if n == 0 {
      assert blocks[..0] == [];
    } else {
      BelowPartition(c, t, blocks, n - 1, key);
      hide Flatten;
      FlattenSplit(blocks, n - 1);
      forall e | e in blocks[n - 1] ensures KeyLess(e.key, key) {
        KeyLeqLess(e.key, t.index[n - 1].lastKey, key);
      }
    }
  }

  lemma KeyLeqLess(a: InternalKey, b: InternalKey, c: InternalKey)
    requires KeyLeq(a, b) && KeyLess(b, c)
    ensures KeyLess(a, c)
  {
    InternalKeyOrder();
  }

  lemma KeyLeqTrans(a: InternalKey, b: InternalKey, c: InternalKey)
    requires KeyLeq(a, b) && KeyLeq(b, c)
    ensures KeyLeq(a, c)
  {
    InternalKeyOrder();
  }

  /** Entries after the block whose last key is not below the sought key are not below it either. */
  lemma AbovePartition(c: Codec, t: TableFile, blocks: seq<seq<Entry>>, n: nat, j: nat, key: InternalKey)
    requires Indexed(c, t, blocks) && n < j < |blocks| && KeyLeq(key, t.index[n].lastKey)
    ensures forall e :: e in blocks[j] ==> KeyLeq(key, e.key)
  {
    hide KeyLess, ReadDataBlock;
    forall e | e in blocks[j] ensures KeyLeq(key, e.key) {
      KeyLeqTrans(key, t.index[n].lastKey, e.key);
    }
  }

  class SSTableStorageIterator {
    const codec: Codec
    const table: TableFile
    const tableNumber: nat
    const cache: BlockCache
    const useCache: bool
    var blockIndex: nat
    var currentBlock: Option<seq<Entry>>
    var entryIndex: nat
    ghost const tables: map<nat, TableFile>
    ghost const blocks: seq<seq<Entry>>

    /** The table is what its index says; the promises of the cursor are for such tables. */
    ghost predicate Good()
    {
      Indexed(codec, table, blocks)
    }

    ghost predicate Valid()
      reads this, cache
    {
      && tableNumber in tables && tables[tableNumber] == table && cache.Coherent(codec, tables)
      && (Good() ==> AtBlock())
    }

    /** On an entry of a block, or past the last block. */
    ghost predicate AtBlock()
      reads this
    {
      match currentBlock
      case Some(block) => blockIndex < |blocks| && block == blocks[blockIndex] && entryIndex < |block|
      case None => blockIndex == |blocks| && entryIndex == 0
    }

    ghost function Model(): Cursor
      reads this
    {
      Cursor(Flatten(blocks), if blockIndex <= |blocks| then FlatIndex(blocks, blockIndex, entryIndex) else 0)
    }

    /** Starts on the first entry, like a new flat cursor. */
    constructor (codec: Codec, table: TableFile, tableNumber: nat, cache: BlockCache, useCache: bool,
                 ghost tables: map<nat, TableFile>, ghost blocks: seq<seq<Entry>>)
      requires tableNumber in tables && tables[tableNumber] == table && cache.Coherent(codec, tables)
      modifies cache`blocks
      ensures Valid() && this.cache == cache && this.blocks == blocks && this.table == table && this.codec == codec
      ensures Good() ==> Model() == Cursor(Flatten(blocks), 0)
    {
      this.codec, this.table, this.tableNumber, this.cache, this.useCache := codec, table, tableNumber, cache, useCache;
      this.tables, this.blocks := tables, blocks;
      blockIndex, currentBlock, entryIndex := 0, None, 0;
      new;
      hide Indexed, Flatten, BlockCache.Coherent;
      var ok := LoadBlockAt(0);
      if Good() {
        EmptyBlocks(blocks, 0, blockIndex);
        NoBlocks();
        assert blocks[..0] == [];
      }
    }

    predicate IsValid()
      reads this
    {
      currentBlock.Some? && entryIndex < |currentBlock.value|
    }

    /** The first block at or after `index` that holds an entry. */
    method LoadBlockAt(index: nat) returns (ok: bool)
      requires tableNumber in tables && tables[tableNumber] == table && cache.Coherent(codec, tables)
      requires Good() ==> index <= |blocks|
      modifies this, cache`blocks
      ensures Valid()
      ensures Good() ==>
                && ok && AtBlock() && entryIndex == 0 && index <= blockIndex
                && forall k :: index <= k < blockIndex ==> blocks[k] == []
    {
      hide BlockCache.Coherent, ReadDataBlock, KeyLess, LessFrom;
      blockIndex, currentBlock, entryIndex := index, None, 0;
      while blockIndex < |table.index|
        invariant cache.Coherent(codec, tables)
        invariant currentBlock == None && entryIndex == 0 && index <= blockIndex
        invariant Good() ==> blockIndex <= |blocks| && forall k :: index <= k < blockIndex ==> blocks[k] == []
      {
        var block := ReadDecodedBlock(codec, table, blockIndex, tableNumber, cache, useCache, tables);
        if block.None? {
          ok := false;
          return;
        }
        if block.value != [] {
          currentBlock := block;
          ok := true;
          return;
        }
        blockIndex := blockIndex + 1;
      }
      ok := true;
    }

    method AdvanceToNextBlock() returns (ok: bool)
      requires tableNumber in tables && tables[tableNumber] == table && cache.Coherent(codec, tables)
      requires Good() ==> blockIndex < |blocks|
      modifies this, cache`blocks
      ensures Valid()
      ensures Good() ==>
                && ok && AtBlock() && entryIndex == 0 && old(blockIndex) < blockIndex
                && forall k :: old(blockIndex) < k < blockIndex ==> blocks[k] == []
    {
      ok := LoadBlockAt(blockIndex + 1);
    }

    method Next() returns (ok: bool)
      requires Valid()
      modifies this, cache`blocks
      ensures Valid()
      ensures Good() ==> ok && Model() == old(Model()).Next()
    {
      hide Indexed, Flatten, BlockCache.Coherent;
      ghost var b, p := blockIndex, entryIndex;
      if Good() {
        PositionBounds(blocks, b, p);
      }
      if !IsValid() {
        return true;
      }
      entryIndex := entryIndex + 1;
      ok := true;
      if !IsValid() {
        ok := AdvanceToNextBlock();
        if Good() {
          EmptyBlocks(blocks, b + 1, blockIndex);
          FlattenSplit(blocks, b);
        }
      }
    }

    /** On the first entry not below the key, or at the end. */
    ghost predicate AtLowerBound(key: InternalKey)
      reads this
    {
      && AtBlock()
      && (forall e :: e in Flatten(blocks[..blockIndex]) ==> KeyLess(e.key, key))
      && (blockIndex < |blocks| ==>
            && KeyLeq(key, blocks[blockIndex][entryIndex].key)
            && forall q :: 0 <= q < entryIndex ==> KeyLess(blocks[blockIndex][q].key, key))
    }

    /** The search within the loaded block, and on to the next one when all of it is below the key. */
    method SeekInCurrent(key: InternalKey, n: nat) returns (ok: bool)
      requires Valid() && currentBlock.Some? && n == PartitionPoint(table.index, key)
      requires Good() ==> n <= blockIndex && forall e :: e in Flatten(blocks[..blockIndex]) ==> KeyLess(e.key, key)
      modifies this, cache`blocks
      ensures Valid()
      ensures Good() ==> ok && AtLowerBound(key)
    {
      hide Indexed, Flatten, BlockCache.Coherent, KeyLess, LowerBound, PartitionPoint;
      ghost var b := blockIndex;
      entryIndex := LowerBound(currentBlock.value, key);
      ok := true;
      if Good() {
        SeekInBlock(codec, table, blocks, n, b, key);
      }
      if entryIndex >= |currentBlock.value| {
        ok := AdvanceToNextBlock();
        if Good() {
          SeekInNext(codec, table, blocks, n, b, blockIndex, key);
        }
      }
    }

    method Seek(key: InternalKey) returns (ok: bool)
      requires Valid()
      modifies this, cache`blocks
      ensures Valid()
      ensures Good() ==> ok && Model() == old(Model()).Seek(key)
    {
      hide Indexed, Flatten, BlockCache.Coherent, KeyLess, LowerBound, PartitionPoint;
      var n := PartitionPoint(table.index, key);
      IndexedCount(codec, table, blocks);
      ok := LoadBlockAt(n);
      if !ok {
        return;
      }
      if Good() {
        BelowPartition(codec, table, blocks, n, key);
        EmptyBlocks(blocks, n, blockIndex);
      }
      if currentBlock.Some? {
        ok := SeekInCurrent(key, n);
      }
      if Good() {
        SeekPosition(blocks, blockIndex, entryIndex, key);
      }
    }
  }

  lemma PositionBounds(blocks: seq<seq<Entry>>, b: nat, p: nat)
    requires b <= |blocks| && (if b == |blocks| then p == 0 else p < |blocks[b]|)
    ensures FlatIndex(blocks, b, p) < |Flatten(blocks)| <==> b < |blocks|
    ensures FlatIndex(blocks, b, p) <= |Flatten(blocks)|
  {
    hide Flatten;
    FlattenSplit(blocks, b);
    if b == |blocks| { assert blocks[..b] == blocks; }
  }

  /** When all of the loaded block is below the key, the next entry is not. */
  lemma SeekInNext(c: Codec, t: TableFile, blocks: seq<seq<Entry>>, n: nat, b: nat, next: nat, key: InternalKey)
    requires Indexed(c, t, blocks) && n == b < next <= |blocks| && n == PartitionPoint(t.index, key)
    requires forall k :: b < k < next ==> blocks[k] == []
    requires forall e :: e in Flatten(blocks[..b + 1]) ==> KeyLess(e.key, key)
    ensures forall e :: e in Flatten(blocks[..next]) ==> KeyLess(e.key, key)
    ensures next < |blocks| && blocks[next] != [] ==> KeyLeq(key, blocks[next][0].key)
  {
    hide Flatten, KeyLess, PartitionPoint, ReadDataBlock;
    EmptyBlocks(blocks, b + 1, next);
    if next < |blocks| {
      AbovePartition(c, t, blocks, n, next, key);
    }
  }

  /** The search within the block that was loaded for a sought key. */
  lemma SeekInBlock(c: Codec, t: TableFile, blocks: seq<seq<Entry>>, n: nat, b: nat, key: InternalKey)
    requires Indexed(c, t, blocks) && n <= b < |blocks| && n == PartitionPoint(t.index, key)
    requires forall e :: e in Flatten(blocks[..b]) ==> KeyLess(e.key, key)
    ensures LowerBound(blocks[b], key) == |blocks[b]| ==>
              && (forall e :: e in Flatten(blocks[..b + 1]) ==> KeyLess(e.key, key))
              && (blocks[b] != [] ==> n == b)
  {
    hide Flatten, KeyLess, LowerBound, PartitionPoint, ReadDataBlock;
    FlattenSplit(blocks, b);
    if LowerBound(blocks[b], key) == |blocks[b]| {
      forall e | e in blocks[b] ensures KeyLess(e.key, key) {
        var q :| 0 <= q < |blocks[b]| && blocks[b][q] == e;
      }
    }
    if n < b && blocks[b] != [] {
      AbovePartition(c, t, blocks, n, b, key);
      LowerBoundIs(blocks[b], 0, key);
    }
  }
}
