/**
 The bytes themselves: how integers are laid out, and one example of every record, so that readers and writers
 agree with files written before and not only with each other (src/util/coding.rs, src/batch.rs,
 src/version/edit.rs, src/table/format.rs, src/table/block_builder.rs, src/table/properties.rs).
 */
module Formats {
  import opened Keys
  import opened Coding
  import opened Payloads
  import opened Versions
  import opened Lsm
  import opened Blocks
  import opened Tables
  import opened Wal

  /** Byte `i` of a varint is its `i`-th group of seven bits, with the top bit on all bytes but the last; none is superfluous. */
  lemma {:induction false} VarintLayout(value: nat, i: nat)
    requires i < |VarintBytes(value)|
    ensures VarintBytes(value)[i] == (value / Pow128(i)) % 128 + (if i < |VarintBytes(value)| - 1 then 128 else 0)
    ensures |VarintBytes(value)| > 1 ==> VarintBytes(value)[|VarintBytes(value)| - 1] != 0
    decreases value
  {
    assert Pow128(0) == 1;
    if value >= 128 {
      VarintLayout(value / 128, if i == 0 then 0 else i - 1);
      if i > 0 {
        assert Pow128(i) == 128 * Pow128(i - 1);
        DivTwice(value, 128, Pow128(i - 1));
      }
    }
  }

  lemma DivTwice(value: nat, a: nat, b: nat)
    requires a > 0 && b > 0
    ensures a * b > 0 && value / (a * b) == value / a / b
  {
    DivParts(value, a, b, value / a, value % a, value / a / b, value / a % b);
  }

  lemma DivParts(value: nat, a: nat, b: nat, x: nat, s: nat, q: nat, r: nat)
    requires value == a * x + s && x == b * q + r && s < a && r < b
    ensures a * b > 0 && value / (a * b) == q
  {
    Distribute(a, b, q, r, x);
    Remainder(a, b, r, s);
    QuotientIs(value, a * b, q, a * r + s);
  }

  lemma Distribute(a: nat, b: nat, q: nat, r: nat, x: nat)
    requires x == b * q + r
    ensures a * x == (a * b) * q + a * r
  {
    assert a * (b * q) == (a * b) * q;
  }

  lemma Remainder(a: nat, b: nat, r: nat, s: nat)
    requires r < b && s < a
    ensures a * r + s < a * b
  {
    MulUp(a, r + 1, b);
    assert a * (r + 1) == a * r + a;
  }

  lemma QuotientIs(value: nat, d: nat, q: nat, r: nat)
    requires value == d * q + r && r < d
    ensures value / d == q
  {
    var p := value / d;
    assert value == d * p + value % d;
    MulUp(d, p + 1, q);
    MulUp(d, q + 1, p);
    assert d * (p + 1) == d * p + d && d * (q + 1) == d * q + d;
  }

  lemma MulUp(d: nat, x: nat, y: nat)
    ensures x <= y ==> d * x <= d * y
  {
  }

  /** Fixed-width integers are little-endian. */
  lemma {:induction false} LeLayout(value: nat, n: nat, i: nat)
    requires i < n
    ensures LeBytes(value, n)[i] == (value / Pow256(i)) % 256
  {
    assert Pow256(0) == 1;
    if i > 0 {
      LeLayout(value / 256, n - 1, i - 1);
      assert Pow256(i) == 256 * Pow256(i - 1);
      DivTwice(value, 256, Pow256(i - 1));
    }
  }

  lemma SmallVarint(value: Byte)
    requires value < 128
    ensures VarintBytes(value) == [value]
  {
  }

  lemma ThreeHundred()
    ensures VarintBytes(300) == [0xAC, 0x02]
  {
  }

  lemma ShortSlice(b: Bytes)
    requires |b| < 128
    ensures SliceBytes(b) == [|b|] + b
  {
  }

  /** Casting a length to 32 bits keeps its low 32 bits. */
  lemma CastKeepsLowBits(n: nat, high: nat)
    requires n <= U32_MAX
    ensures AsU32(n + high * 0x1_0000_0000) == n
  {
  }

  // ----- logs

  lemma TwoRecords(a: BatchRecord, b: BatchRecord)
    ensures RecordsBytes([a, b]) == RecordBytes(a) + RecordBytes(b)
  {
    hide RecordBytes;
    assert [a, b][1..] == [b] && [b][1..] == [];
    assert RecordsBytes([b]) == RecordBytes(b) + [] == RecordBytes(b);
  }

  /** Count and start sequence, then type, key and value of each record; a deletion carries an empty value. */
  lemma BatchExample()
    ensures BatchBytes(300, [PutRecord([7], [8, 9]), DeleteRecord([])]) == [2, 0xAC, 0x02, 1, 1, 7, 2, 8, 9, 2, 0, 0]
  {
    hide VarintBytes, SliceBytes;
    TwoRecords(PutRecord([7], [8, 9]), DeleteRecord([]));
    ThreeHundred();
    SmallVarint(2);
    SmallVarint(0);
    ShortSlice([7]);
    ShortSlice([8, 9]);
    ShortSlice([]);
    assert AsU32(2) == 2;
  }

  /** A deletion with a value, and a record of an unknown type, are refused. */
  lemma RefusedRecords()
    ensures DecodeBatch([1, 7] + [2, 1, 9, 1, 5]) == None
    ensures DecodeBatch([1, 7] + [3, 1, 9, 0]) == None
  {
    RefusedDeletion();
    RefusedType();
    hide DecodeBatch, GetRecord;
    OneRecord([2, 1, 9, 1, 5]);
    OneRecord([3, 1, 9, 0]);
  }

  lemma RefusedDeletion()
    ensures GetRecord([2, 1, 9, 1, 5]) == Corrupt
  {
    hide GetRecord;
    var key: Bytes, value: Bytes, rest: Bytes := [9], [5], [];
    assert [2] + ([|key|] + key + ([|value|] + value + rest)) == [2, 1, 9, 1, 5];
    RefusedRecord([2, 1, 9, 1, 5], 2, key, value, rest);
  }

  lemma RefusedType()
    ensures GetRecord([3, 1, 9, 0]) == Corrupt
  {
    hide GetRecord;
    var key: Bytes, value: Bytes, rest: Bytes := [9], [], [];
    assert [3] + ([|key|] + key + ([|value|] + value + rest)) == [3, 1, 9, 0];
    RefusedRecord([3, 1, 9, 0], 3, key, value, rest);
  }

  lemma OneRecord(record: Bytes)
    requires GetRecord(record) == Corrupt
    ensures DecodeBatch([1, 7] + record) == None
  {
    hide GetRecord, VarintBytes, GetVarU32, GetVarU64;
    SmallVarint(1);
    SmallVarint(7);
    assert [1, 7] + record == VarintBytes(AsU32(1)) + (VarintBytes(7) + record);
    VarU32RoundTrip(1, VarintBytes(7) + record);
    VarU64RoundTrip(7, record);
  }

  lemma RefusedRecord(src: Bytes, tag: Byte, key: Bytes, value: Bytes, rest: Bytes)
    requires |key| < 128 && |value| < 128 && src == [tag] + ([|key|] + key + ([|value|] + value + rest))
    requires tag != 1 && (tag == 2 ==> value != [])
    ensures GetRecord(src) == Corrupt
  {
    hide GetSlice, SliceBytes;
    ShortSlice(key);
    ShortSlice(value);
    SliceRoundTrip(key, [|value|] + value + rest);
    SliceRoundTrip(value, rest);
    assert src[1..] == SliceBytes(key) + ([|value|] + value + rest);
  }

  /** Every version edit starts with its tag. */
  lemma EditExamples()
    ensures EditBytes(NextFileNumber(2)) == [1, 2] && EditBytes(LastSequence(0)) == [2, 0] && EditBytes(LogNumber(1)) == [3, 1]
    ensures EditBytes(DeleteFile(1, 9)) == [5, 1, 9]
  {
    hide VarintBytes;
    SmallVarint(1);
    SmallVarint(2);
    SmallVarint(0);
    SmallVarint(3);
    SmallVarint(5);
    SmallVarint(9);
    assert AsU32(1) == 1;
  }

  lemma AddFileExample()
    ensures EditBytes(AddFile(1, FileMeta(9, 300, InternalKey([97], 5, PutType), InternalKey([98], 4, DeleteType), 4, 5))) ==
            [4, 1, 9, 0xAC, 0x02, 1, 97, 5, 1, 1, 98, 4, 2, 4, 5]
  {
    var meta := FileMeta(9, 300, InternalKey([97], 5, PutType), InternalKey([98], 4, DeleteType), 4, 5);
    hide *;
    AddFileBytes(meta);
    SmallVarint(1);
    SmallVarint(4);
    MetaExample(meta);
    Concatenated(EditBytes(AddFile(1, meta)), MetaBytes(meta));
  }

  lemma Concatenated(bytes: Bytes, meta: Bytes)
    requires meta == [9, 0xAC, 0x02, 1, 97, 5, 1, 1, 98, 4, 2, 4, 5] && bytes == [4] + ([1] + meta)
    ensures bytes == [4, 1, 9, 0xAC, 0x02, 1, 97, 5, 1, 1, 98, 4, 2, 4, 5]
  {
  }

  lemma AddFileBytes(meta: FileMeta)
    ensures EditBytes(AddFile(1, meta)) == VarintBytes(4) + (VarintBytes(1) + MetaBytes(meta))
  {
    assert AsU32(1) == 1;
    hide VarintBytes, MetaBytes;
  }

  lemma MetaExample(meta: FileMeta)
    requires meta == FileMeta(9, 300, InternalKey([97], 5, PutType), InternalKey([98], 4, DeleteType), 4, 5)
    ensures MetaBytes(meta) == [9, 0xAC, 0x02, 1, 97, 5, 1, 1, 98, 4, 2, 4, 5]
  {
    hide VarintBytes, KeyBytes;
    SmallVarint(4);
    SmallVarint(5);
    SmallVarint(9);
    ThreeHundred();
    ShortKeyBytes(meta.smallest);
    ShortKeyBytes(meta.largest);
    var low: Bytes, high: Bytes := [1, 97, 5, 1], [1, 98, 4, 2];
    assert KeyBytes(meta.smallest) == low && KeyBytes(meta.largest) == high;
    assert MetaBytes(meta) == [9] + ([0xAC, 0x02] + (low + (high + ([4] + [5]))));
  }

  /** A log record's header: checksum and length, little-endian, then the type; its payload follows. */
  lemma FrameLayout(crc: Crc, payload: Bytes)
    requires Is32Bit(crc) && |payload| <= U32_MAX
    ensures |RecordFrame(crc, payload)| == 9 + |payload| && RecordFrame(crc, payload)[8..] == [1] + payload
    ensures forall i: nat :: i < 4 ==>
              && RecordFrame(crc, payload)[i] == (crc([1] + payload) / Pow256(i)) % 256
              && RecordFrame(crc, payload)[4 + i] == (|payload| / Pow256(i)) % 256
  {
    hide LeBytes, Pow256;
    assert AsU32(|payload|) == |payload|;
    forall i: nat | i < 4
      ensures RecordFrame(crc, payload)[i] == (crc([1] + payload) / Pow256(i)) % 256
      ensures RecordFrame(crc, payload)[4 + i] == (|payload| / Pow256(i)) % 256
    {
      LeLayout(crc([1] + payload), 4, i);
      LeLayout(|payload|, 4, i);
    }
  }

  // ----- tables

  lemma ShortKeyBytes(key: InternalKey)
    requires |key.userKey| < 128 && key.sequence < 128
    ensures KeyBytes(key) == [|key.userKey|] + key.userKey + [key.sequence] + [if key.valueType.PutType? then 1 else 2]
  {
    ShortSlice(key.userKey);
    SmallVarint(key.sequence);
  }

  lemma FourBytes(value: Byte)
    ensures LeBytes(value, 4) == [value, 0, 0, 0]
  {
    assert LeBytes(value, 1) == [value];
    assert LeBytes(0, 2) == [0] + LeBytes(0, 1);
    assert LeBytes(0, 3) == [0] + LeBytes(0, 2);
  }

  /** The entry of a short key and value. */
  lemma ShortEntry(shared: nat, e: Entry)
    requires shared <= |e.key.userKey| < 128 && |ValueBytes(e.value)| < 128 && e.key.sequence < 128
    ensures EntryBytes(shared, e) ==
            [shared, |e.key.userKey| - shared, |ValueBytes(e.value)|, if e.value.Put? then 1 else 2, e.key.sequence]
            + e.key.userKey[shared..] + ValueBytes(e.value)
  {
    hide VarintBytes, ValueBytes;
    SmallVarint(shared);
    SmallVarint(|e.key.userKey| - shared);
    SmallVarint(|ValueBytes(e.value)|);
    SmallVarint(e.key.sequence);
    assert AsU32(shared) == shared && AsU32(|e.key.userKey| - shared) == |e.key.userKey| - shared;
    assert AsU32(|ValueBytes(e.value)|) == |ValueBytes(e.value)|;
  }

  lemma EntryExample()
    ensures EntryBytes(0, Entry(InternalKey([97, 98], 7, PutType), Put([1]))) == [0, 2, 1, 1, 7, 97, 98, 1]
    ensures EntryBytes(1, Entry(InternalKey([97, 99], 6, DeleteType), Delete)) == [1, 1, 0, 2, 6, 99]
  {
    ShortEntry(0, Entry(InternalKey([97, 98], 7, PutType), Put([1])));
    ShortEntry(1, Entry(InternalKey([97, 99], 6, DeleteType), Delete));
    hide EntryBytes;
    var first: Bytes, second: Bytes := [97, 98], [97, 99];
    assert first[0..] == first && second[1..] == [99];
  }

  lemma SharedExample()
    ensures SharedPrefixLen([97, 98], [97, 99]) == 1
  {
    var a: Bytes, b: Bytes := [97, 98], [97, 99];
    assert a[1..] == [98] && b[1..] == [99];
  }

  /**
   Each entry: shared, unshared and value length, type, sequence, the rest of the key, the value.  Then the restart
   offsets and their number.
   */
  lemma BlockExample()
    ensures var first, second := Entry(InternalKey([97, 98], 7, PutType), Put([1])), Entry(InternalKey([97, 99], 6, DeleteType), Delete);
            BlockBytes(16, [first, second]) ==
            [0, 2, 1, 1, 7, 97, 98, 1] + [1, 1, 0, 2, 6, 99] + [0, 0, 0, 0] + [1, 0, 0, 0]
  {
    var first, second := Entry(InternalKey([97, 98], 7, PutType), Put([1])), Entry(InternalKey([97, 99], 6, DeleteType), Delete);
    var adds := [first, second];
    EntryExample();
    SharedExample();
    DataOfTwo(16, first, second);
    OneRestart(first, second);
    FourBytes(0);
    FourBytes(1);
    assert AsU32(1) == 1;
    hide BlockData, RestartOffsets, EntryBytes, LeBytes;
    assert OffsetBytes([0]) == LeBytes(0, 4) + OffsetBytes([]);
  }

  lemma DataOfTwo(interval: nat, a: Entry, b: Entry)
    requires interval > 1
    ensures BlockData(interval, [a, b]) ==
            EntryBytes(0, a) + EntryBytes(SharedPrefixLen(a.key.userKey, b.key.userKey), b)
  {
    hide EntryBytes, SharedPrefixLen;
    assert [a, b][1..] == [b] && [b][1..] == [];
    assert 1 % interval == 1;
    var rest := EntryBytes(SharedLen(interval, 1, a.key.userKey, b.key.userKey), b);
    assert EntriesBytes(interval, 1, a.key.userKey, [b]) == rest + [] == rest;
  }

  lemma OneRestart(a: Entry, b: Entry)
    ensures RestartOffsets(16, [a, b]) == [0]
  {
    hide EntryBytes;
    assert [a, b][..1] == [a] && [a][..0] == [];
    assert BlockData(16, []) == [];
    assert RestartOffsets(16, [a]) == [0];
  }

  lemma {:induction false} SixteenEach(adds: seq<Entry>)
    ensures |RestartOffsets(16, adds)| == (|adds| + 15) / 16
    decreases |adds|
  {
    hide BlockData, AsU32;
    if adds != [] { SixteenEach(adds[..|adds| - 1]); }
  }

  /** A data block ends with the number of its restarts, one for every sixteen entries. */
  lemma DataBlockRestarts(block: seq<Entry>)
    requires 0 < |block| <= U32_MAX
    ensures |DataBlock(block)| >= 4 && LeValue(DataBlock(block)[|DataBlock(block)| - 4..]) == (|block| + 15) / 16
  {
    hide LeBytes, LeValue, BlockData, RestartOffsets, OffsetBytes;
    SixteenEach(block);
    var count := |RestartOffsets(16, block)|;
    Pow256Values();
    LeRoundTrip(count, 4);
    assert AsU32(count) == count;
    assert DataBlock(block)[|DataBlock(block)| - 4..] == LeBytes(count, 4);
  }

  lemma PropertiesExample()
    ensures PropertiesBytes(TableProperties(3, Some(InternalKey([97], 5, PutType)), None, [6, 7])) == [3, 1, 1, 97, 5, 1, 0, 2, 6, 7]
  {
    hide VarintBytes, SliceBytes, KeyBytes;
    SmallVarint(3);
    ShortKeyBytes(InternalKey([97], 5, PutType));
    ShortSlice([6, 7]);
  }

  lemma IndexExample()
    ensures IndexBytes([IndexEntry(InternalKey([97], 5, PutType), InternalKey([98], 4, DeleteType), BlockHandle(300, 8))]) ==
            [1, 1, 97, 5, 1, 1, 98, 4, 2, 0xAC, 0x02, 8]
  {
    hide VarintBytes, KeyBytes;
    var e := IndexEntry(InternalKey([97], 5, PutType), InternalKey([98], 4, DeleteType), BlockHandle(300, 8));
    SmallVarint(1);
    SmallVarint(8);
    ThreeHundred();
    ShortKeyBytes(e.firstKey);
    ShortKeyBytes(e.lastKey);
    assert AsU32(1) == 1;
    assert [e][1..] == [];
  }

  /** A footer: the properties' place and the index's place as 8-byte offset and size, then the magic number. */
  lemma FooterLayout(properties: BlockHandle, index: BlockHandle)
    ensures var b := FooterBytes(properties, index);
            && b[0..8] == LeBytes(properties.offset, 8) && b[8..16] == LeBytes(properties.size, 8)
            && b[16..24] == LeBytes(index.offset, 8) && b[24..32] == LeBytes(index.size, 8)
            && b[32..40] == [0x01, 0x42, 0x44, 0x4D, 0x53, 0x4C, 0x59, 0x54]
  {
    MagicBytes();
    hide LeBytes;
  }

  lemma MagicBytes()
    ensures LeBytes(TABLE_MAGIC, 8) == [0x01, 0x42, 0x44, 0x4D, 0x53, 0x4C, 0x59, 0x54]
  {
    assert LeBytes(0, 0) == [];
    hide LeBytes;
    LeStep(0, 0x54, 0);
    LeStep(0x54, 0x59, 1);
    LeStep(0x5459, 0x4C, 2);
    LeStep(0x5459_4C, 0x53, 3);
    LeStep(0x5459_4C53, 0x4D, 4);
    LeStep(0x5459_4C53_4D, 0x44, 5);
    LeStep(0x5459_4C53_4D44, 0x42, 6);
    LeStep(0x5459_4C53_4D44_42, 0x01, 7);
  }

  lemma LeStep(high: nat, low: Byte, n: nat)
    ensures LeBytes(256 * high + low, n + 1) == [low] + LeBytes(high, n)
  {
    assert (256 * high + low) % 256 == low && (256 * high + low) / 256 == high;
  }

  /** A block on disk: what was stored, the tag of its compression, and the checksum of both. */
  lemma TrailerLayout(c: Codec, block: Bytes)
    requires Lawful(c)
    ensures var f, stored := Frame(c, block), if c.zstd then c.compress(block) else block;
            && |f| == |stored| + 5 && f[..|stored|] == stored
            && f[|stored|] == (if c.zstd then 1 else 0)
            && forall i: nat :: i < 4 ==> f[|stored| + 1 + i] == (c.crc([f[|stored|]] + stored) / Pow256(i)) % 256
  {
    hide LeBytes, Pow256;
    forall i: nat | i < 4 {
      LeLayout(c.crc([CompressionTag(c)] + Stored(c, block)), 4, i);
    }
  }
}
