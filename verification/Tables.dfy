/**
 Table files (src/table/builder.rs, src/table/reader.rs): framed blocks, their index, the properties and
 the footer.  A file is the bytes written to it; the checksum and the compressor are parameters.
 */
module Tables {
  import opened Keys
  import opened Coding
  import opened Blocks
  import opened Bloom
  import opened Payloads
  import opened Splitter

  const BLOCK_TRAILER_SIZE: nat := 5
  const RESTART_INTERVAL: nat := 16

  /** The CRC-32C and zstd crates, and whether blocks are compressed. */
  datatype Codec = Codec(crc: Bytes -> nat, zstd: bool, compress: Bytes -> Bytes, decompress: Bytes -> Option<Bytes>)

  /** Checksums have 32 bits and decompression inverts compression. */
  ghost predicate Lawful(c: Codec) {
    && (forall b :: c.crc(b) <= U32_MAX)
    && (forall b :: c.decompress(c.compress(b)) == Some(b))
  }

  datatype IndexEntry = IndexEntry(firstKey: InternalKey, lastKey: InternalKey, handle: BlockHandle)

  datatype Reader = Reader(index: seq<IndexEntry>, properties: TableProperties)

  // ----- framed blocks

  function CompressionTag(c: Codec): Byte { if c.zstd then 1 else 0 }

  function Stored(c: Codec, block: Bytes): Bytes { if c.zstd then c.compress(block) else block }

  function Frame(c: Codec, block: Bytes): (b: Bytes)
    ensures |b| == |Stored(c, block)| + BLOCK_TRAILER_SIZE
  {
    Stored(c, block) + ([CompressionTag(c)] + LeBytes(c.crc([CompressionTag(c)] + Stored(c, block)), 4))
  }

  function ReadBlock(c: Codec, file: Bytes, h: BlockHandle): Option<Bytes> {
    var end := h.offset + h.size;
    if end + BLOCK_TRAILER_SIZE > |file| then None
    else
      var stored, tag := file[h.offset..end], file[end];
      if tag > 1 || LeValue(file[end + 1..end + 5]) != c.crc([tag] + stored) then None
      else if tag == 0 then Some(stored)
      else c.decompress(stored)
  }

  lemma ReadFrame(c: Codec, before: Bytes, block: Bytes, after: Bytes)
    requires Lawful(c)
    ensures ReadBlock(c, before + Frame(c, block) + after, BlockHandle(|before|, |Stored(c, block)|)) == Some(block)
  {
    hide LeBytes, LeValue;
    var stored, tag := Stored(c, block), CompressionTag(c);
    var sum := c.crc([tag] + stored);
    var file := before + Frame(c, block) + after;
    var end := |before| + |stored|;
    assert file[|before|..end] == stored;
    assert file[end] == tag;
    assert file[end + 1..end + 5] == LeBytes(sum, 4);
    Pow256Values();
    LeRoundTrip(sum, 4);
  }

  // ----- data blocks and their index

  function DataBlock(block: seq<Entry>): Bytes { BlockBytes(RESTART_INTERVAL, block) }

  /** The file after these blocks were flushed. */
  function DataBytes(c: Codec, blocks: seq<seq<Entry>>): Bytes {
    if blocks == [] then []
    else
      var n := |blocks| - 1;
      DataBytes(c, blocks[..n]) + Frame(c, DataBlock(blocks[n]))
  }

  ghost predicate NoneEmpty(blocks: seq<seq<Entry>>) {
    forall i :: 0 <= i < |blocks| ==> blocks[i] != []
  }

  function IndexOf(c: Codec, blocks: seq<seq<Entry>>): (index: seq<IndexEntry>)
    requires NoneEmpty(blocks)
    ensures |index| == |blocks|
  {
    if blocks == [] then []
    else
      var n := |blocks| - 1;
      var block := blocks[n];
      IndexOf(c, blocks[..n]) +
      [IndexEntry(block[0].key, block[|block| - 1].key,
                  BlockHandle(|DataBytes(c, blocks[..n])|, |Stored(c, DataBlock(block))|))]
  }

  /** The handle of each block gives its place: right after the blocks before it, and as long as what was stored. */
  lemma {:induction false} IndexAt(c: Codec, blocks: seq<seq<Entry>>, i: nat)
    requires NoneEmpty(blocks) && i < |blocks|
    ensures IndexOf(c, blocks)[i] ==
            IndexEntry(blocks[i][0].key, blocks[i][|blocks[i]| - 1].key,
                       BlockHandle(|DataBytes(c, blocks[..i])|, |Stored(c, DataBlock(blocks[i]))|))
    ensures DataBytes(c, blocks[..i]) + Frame(c, DataBlock(blocks[i])) <= DataBytes(c, blocks)
    decreases |blocks|
  {
    hide DataBlock, Frame, Stored;
    var n := |blocks| - 1;
    if i < n {
      IndexAt(c, blocks[..n], i);
      assert blocks[..n][..i] == blocks[..i];
    }
  }

  function IndexEntryBytes(e: IndexEntry): Bytes {
    KeyBytes(e.firstKey) + (KeyBytes(e.lastKey) + (VarintBytes(e.handle.offset) + VarintBytes(e.handle.size)))
  }

  function IndexEntriesBytes(es: seq<IndexEntry>): Bytes {
    if es == [] then [] else IndexEntryBytes(es[0]) + IndexEntriesBytes(es[1..])
  }

  function IndexBytes(es: seq<IndexEntry>): Bytes {
    VarintBytes(AsU32(|es|)) + IndexEntriesBytes(es)
  }

  function GetIndexEntry(src: Bytes): Parsed<IndexEntry> {
    var firstKey := GetKey(src);
    if firstKey.Corrupt? then Corrupt else
    var lastKey := GetKey(firstKey.rest);
    if lastKey.Corrupt? then Corrupt else
    var offset := GetVarU64(lastKey.rest);
    if offset.Corrupt? then Corrupt else
    var size := GetVarU64(offset.rest);
    if size.Corrupt? then Corrupt else
    Done(IndexEntry(firstKey.value, lastKey.value, BlockHandle(offset.value, size.value)), size.rest)
  }

  function GetIndexEntries(src: Bytes, count: nat): Parsed<seq<IndexEntry>>
    decreases count
  {
    if count == 0 then Done([], src)
    else
      match GetIndexEntry(src)
      case Corrupt => Corrupt
      case Done(e, rest) => Prepended([e], GetIndexEntries(rest, count - 1))
  }

  function DecodeIndex(bytes: Bytes): Option<seq<IndexEntry>> {
    match GetVarU32(bytes)
    case Corrupt => None
    case Done(count, src) =>
      match GetIndexEntries(src, count)
      case Corrupt => None
      case Done(es, rest) => if rest == [] then Some(es) else None
  }

  predicate IndexEntryFits(e: IndexEntry) {
    KeyFits(e.firstKey) && KeyFits(e.lastKey) && HandleFits(e.handle)
  }

  lemma IndexEntryRoundTrip(e: IndexEntry, rest: Bytes)
    requires IndexEntryFits(e)
    ensures GetIndexEntry(IndexEntryBytes(e) + rest) == Done(e, rest)
  {
    hide KeyBytes, GetKey, VarintBytes, GetVarU64;
    var t3 := VarintBytes(e.handle.size) + rest;
    var t2 := VarintBytes(e.handle.offset) + t3;
    var t1 := KeyBytes(e.lastKey) + t2;
    assert IndexEntryBytes(e) + rest == KeyBytes(e.firstKey) + t1;
    KeyRoundTrip(e.firstKey, t1);
    KeyRoundTrip(e.lastKey, t2);
    VarU64RoundTrip(e.handle.offset, t3);
    VarU64RoundTrip(e.handle.size, rest);
  }

  lemma {:induction false} IndexEntriesRoundTrip(es: seq<IndexEntry>, rest: Bytes)
    requires forall e :: e in es ==> IndexEntryFits(e)
    ensures GetIndexEntries(IndexEntriesBytes(es) + rest, |es|) == Done(es, rest)
  {
    hide GetIndexEntry, IndexEntryBytes, IndexEntryFits;
    if es == [] {
      assert [] + rest == rest;
    } else {
      var tail := IndexEntriesBytes(es[1..]) + rest;
      assert IndexEntriesBytes(es) + rest == IndexEntryBytes(es[0]) + tail;
      IndexEntryRoundTrip(es[0], tail);
      IndexEntriesRoundTrip(es[1..], rest);
      assert [es[0]] + es[1..] == es;
    }
  }

  lemma IndexRoundTrip(es: seq<IndexEntry>)
    requires |es| <= U32_MAX && forall e :: e in es ==> IndexEntryFits(e)
    ensures DecodeIndex(IndexBytes(es)) == Some(es)
  {
    hide GetIndexEntries, IndexEntriesBytes, VarintBytes, GetVarU32, IndexEntryFits;
    VarU32RoundTrip(|es|, IndexEntriesBytes(es));
    IndexEntriesRoundTrip(es, []);
    NothingLeft(IndexEntriesBytes(es));
  }

  // ----- the whole file

  function UserKeys(es: seq<Entry>): seq<Bytes> {
    seq(|es|, i requires 0 <= i < |es| => es[i].key.userKey)
  }

  function PropertiesOf(es: seq<Entry>): TableProperties {
    TableProperties(
      |es|,
      if es == [] then None else Some(es[0].key),
      if es == [] then None else Some(es[|es| - 1].key),
      FilterBytes(UserKeys(es)))
  }

  function TableBytes(c: Codec, blocks: seq<seq<Entry>>): Bytes
    requires NoneEmpty(blocks)
  {
    var data := DataBytes(c, blocks);
    var properties, index := PropertiesBytes(PropertiesOf(Flatten(blocks))), IndexBytes(IndexOf(c, blocks));
    data + Frame(c, properties) + Frame(c, index) +
    FooterBytes(BlockHandle(|data|, |Stored(c, properties)|),
                BlockHandle(|data| + |Frame(c, properties)|, |Stored(c, index)|))
  }

  function Open(c: Codec, file: Bytes): Option<Reader> {
    if |file| < FOOTER_SIZE then None
    else
      var handles := DecodeFooter(file[|file| - FOOTER_SIZE..]);
      if handles.None? then None else
      var propertiesBlock := ReadBlock(c, file, handles.value.0);
      if propertiesBlock.None? then None else
      var properties := DecodeProperties(propertiesBlock.value);
      if properties.None? then None else
      var indexBlock := ReadBlock(c, file, handles.value.1);
      if indexBlock.None? then None else
      var index := DecodeIndex(indexBlock.value);
      if index.None? then None else Some(Reader(index.value, properties.value))
  }

  function ReadDataBlock(c: Codec, file: Bytes, h: BlockHandle): Option<seq<Entry>> {
    match ReadBlock(c, file, h)
    case None => None
    case Some(bytes) => DecodeBlock(bytes)
  }

  function ReadAll(c: Codec, file: Bytes, index: seq<IndexEntry>): Option<seq<Entry>> {
    if index == [] then Some([])
    else
      match ReadDataBlock(c, file, index[0].handle)
      case None => None
      case Some(block) => Prefixed(block, ReadAll(c, file, index[1..]))
  }

  /** Lengths, counts, sequences and offsets stay within the integers they are written in. */
  ghost predicate TableFits(c: Codec, blocks: seq<seq<Entry>>) {
    && NoneEmpty(blocks)
    && AllFit(Flatten(blocks))
    && |Flatten(blocks)| * BITS_PER_KEY <= U32_MAX
    && |TableBytes(c, blocks)| <= U64_MAX
  }

  lemma FittingTable(c: Codec, blocks: seq<seq<Entry>>)
    requires TableFits(c, blocks)
    ensures NoneEmpty(blocks)
  {
  }

  lemma {:induction false} BlockWithin(blocks: seq<seq<Entry>>, i: nat)
    requires i < |blocks|
    ensures |blocks[i]| <= |Flatten(blocks)| && forall e :: e in blocks[i] ==> e in Flatten(blocks)
  {
    if i > 0 { BlockWithin(blocks[1..], i - 1); }
  }

  lemma {:induction false} CountWithin(blocks: seq<seq<Entry>>)
    requires NoneEmpty(blocks)
    ensures |blocks| <= |Flatten(blocks)|
  {
    if blocks != [] { CountWithin(blocks[1..]); }
  }

  /** Every data block of the file is found by its handle. */
  lemma HandleAddressesBlock(c: Codec, blocks: seq<seq<Entry>>, i: nat)
    requires Lawful(c) && NoneEmpty(blocks) && i < |blocks|
    ensures ReadBlock(c, TableBytes(c, blocks), IndexOf(c, blocks)[i].handle) == Some(DataBlock(blocks[i]))
  {
    hide Frame, Stored, DataBytes, DataBlock, ReadBlock, FooterBytes, PropertiesBytes, IndexBytes;
    IndexAt(c, blocks, i);
    var file := TableBytes(c, blocks);
    var before, frame := DataBytes(c, blocks[..i]), Frame(c, DataBlock(blocks[i]));
    assert DataBytes(c, blocks) <= file;
    assert before + frame <= file;
    var after := file[|before + frame|..];
    assert file == before + frame + after;
    ReadFrame(c, before, DataBlock(blocks[i]), after);
  }

  lemma ReadsBlock(c: Codec, blocks: seq<seq<Entry>>, i: nat)
    requires Lawful(c) && TableFits(c, blocks) && i < |blocks|
    ensures ReadDataBlock(c, TableBytes(c, blocks), IndexOf(c, blocks)[i].handle) == Some(TaggedAll(blocks[i]))
  {
    hide ReadBlock, TableBytes, IndexOf, BlockBytes, DecodeBlock, TaggedAll;
    HandleAddressesBlock(c, blocks, i);
    BlockWithin(blocks, i);
    BlockRoundTrip(RESTART_INTERVAL, blocks[i]);
  }

  lemma VarintShort(v: nat)
    requires v <= U64_MAX
    ensures |VarintBytes(v)| <= 10
  {
    hide VarintBytes, GetVarU64;
    VarU64RoundTrip(v, []);
    VarintReads(VarintBytes(v) + []);
  }

  lemma FilterShort(keys: seq<Bytes>)
    requires |keys| * BITS_PER_KEY <= U32_MAX
    ensures |FilterBytes(keys)| <= U32_MAX
  {
    hide VarintBytes, FilterBits, Positions;
    if keys != [] {
      VarintShort(AsU32(BitLen(|keys|)));
    }
  }

  lemma PropertiesOfFit(es: seq<Entry>)
    requires AllFit(es) && |es| * BITS_PER_KEY <= U32_MAX
    ensures PropertiesFit(PropertiesOf(es))
  {
    hide FilterBytes;
    FilterShort(UserKeys(es));
    if es != [] {
      assert EntryFits(es[0]) && EntryFits(es[|es| - 1]);
    }
  }

  lemma KeyOfEntryFits(e: Entry)
    requires EntryFits(e)
    ensures KeyFits(e.key)
  {
  }

  lemma IndexFits(c: Codec, blocks: seq<seq<Entry>>)
    requires TableFits(c, blocks)
    ensures forall e :: e in IndexOf(c, blocks) ==> IndexEntryFits(e)
    ensures |IndexOf(c, blocks)| <= U32_MAX
  {
    hide Frame, Stored, DataBytes, DataBlock, IndexOf, FooterBytes, PropertiesBytes, IndexBytes, EntryFits;
    CountWithin(blocks);
    assert |DataBytes(c, blocks)| <= |TableBytes(c, blocks)|;
    forall i | 0 <= i < |blocks| ensures IndexEntryFits(IndexOf(c, blocks)[i]) {
      IndexAt(c, blocks, i);
      BlockWithin(blocks, i);
      KeyOfEntryFits(blocks[i][0]);
      KeyOfEntryFits(blocks[i][|blocks[i]| - 1]);
      var before := DataBytes(c, blocks[..i]);
      assert |before| + |Frame(c, DataBlock(blocks[i]))| <= |DataBytes(c, blocks)|;
    }
  }

  /** A table opens with exactly the index and the properties it was written with. */
  lemma OpensBack(c: Codec, blocks: seq<seq<Entry>>)
    requires Lawful(c) && TableFits(c, blocks)
    ensures Open(c, TableBytes(c, blocks)) == Some(Reader(IndexOf(c, blocks), PropertiesOf(Flatten(blocks))))
  {
    hide Frame, Stored, DataBytes, DataBlock, IndexOf, PropertiesBytes, IndexBytes, ReadBlock, FooterBytes, DecodeFooter,
         DecodeProperties, DecodeIndex, PropertiesOf, EntryFits;
    var data := DataBytes(c, blocks);
    var properties, index := PropertiesBytes(PropertiesOf(Flatten(blocks))), IndexBytes(IndexOf(c, blocks));
    var ph := BlockHandle(|data|, |Stored(c, properties)|);
    var ih := BlockHandle(|data| + |Frame(c, properties)|, |Stored(c, index)|);
    var footer := FooterBytes(ph, ih);
    var file := TableBytes(c, blocks);
    assert file == data + Frame(c, properties) + Frame(c, index) + footer;
    assert file[|file| - FOOTER_SIZE..] == footer;
    FooterRoundTrip(ph, ih);
    assert file == data + Frame(c, properties) + (Frame(c, index) + footer);
    ReadFrame(c, data, properties, Frame(c, index) + footer);
    ReadFrame(c, data + Frame(c, properties), index, footer);
    PropertiesOfFit(Flatten(blocks));
    PropertiesRoundTrip(PropertiesOf(Flatten(blocks)));
    IndexFits(c, blocks);
    IndexRoundTrip(IndexOf(c, blocks));
  }

  lemma TaggedNone()
    ensures TaggedAll([]) == []
  {
  }

  lemma TaggedAllConcat(a: seq<Entry>, b: seq<Entry>)
    ensures TaggedAll(a + b) == TaggedAll(a) + TaggedAll(b)
  {
  }

  lemma {:induction false} ReadsFrom(c: Codec, blocks: seq<seq<Entry>>, i: nat)
    requires Lawful(c) && TableFits(c, blocks) && i <= |blocks|
    ensures ReadAll(c, TableBytes(c, blocks), IndexOf(c, blocks)[i..]) == Some(TaggedAll(Flatten(blocks[i..])))
    decreases |blocks| - i
  {
    hide TableFits, TableBytes, IndexOf, ReadDataBlock, TaggedAll;
    FittingTable(c, blocks);
    TaggedNone();
    var index := IndexOf(c, blocks);
    if i < |blocks| {
      ReadsBlock(c, blocks, i);
      ReadsFrom(c, blocks, i + 1);
      assert index[i..][1..] == index[i + 1..] && index[i..][0] == index[i];
      assert blocks[i..][1..] == blocks[i + 1..] && blocks[i..][0] == blocks[i];
      TaggedAllConcat(blocks[i], Flatten(blocks[i + 1..]));
    }
  }

  /**
   Opening the file of a table and reading it through its index gives back every entry that was added, in
   order; unchanged when each key was tagged as its value is.
   */
  lemma TableRoundTrip(c: Codec, blocks: seq<seq<Entry>>)
    requires Lawful(c) && TableFits(c, blocks)
    ensures Open(c, TableBytes(c, blocks)).Some?
    ensures ReadAll(c, TableBytes(c, blocks), Open(c, TableBytes(c, blocks)).value.index) == Some(TaggedAll(Flatten(blocks)))
    ensures TaggedAll(Flatten(blocks)) == Flatten(blocks) <==> forall e :: e in Flatten(blocks) ==> Consistent(e)
  {
    hide TableFits, TableBytes, IndexOf, ReadAll, TaggedAll, Flatten, Open, PropertiesOf;
    FittingTable(c, blocks);
    OpensBack(c, blocks);
    ReadsFrom(c, blocks, 0);
    assert blocks[0..] == blocks && IndexOf(c, blocks)[0..] == IndexOf(c, blocks);
    TaggedAllIdentity(Flatten(blocks));
  }

  // ----- the builder

  function BlockSize(block: seq<Entry>): nat {
    |BlockData(RESTART_INTERVAL, block)| + |RestartOffsets(RESTART_INTERVAL, block)| * 4 + 4
  }

  /** The size by which a block is cut is the length of its bytes. */
  lemma {:induction false} BlockSizeIsLength(block: seq<Entry>)
    requires block != []
    ensures BlockSize(block) == |DataBlock(block)|
  {
    hide BlockData, OffsetBytes, LeBytes;
  }

  /** No non-empty beginning of the block that leaves out at least `spare` entries has reached the block size. */
  ghost predicate Unfinished(blockSize: nat, block: seq<Entry>, spare: nat) {
    forall k :: 0 < k <= |block| - spare ==> BlockSize(block[..k]) < blockSize
  }

  /** A block is cut as soon as it reaches the block size. */
  ghost predicate CutAt(blockSize: nat, blocks: seq<seq<Entry>>) {
    forall i :: 0 <= i < |blocks| ==> BlockSize(blocks[i]) >= blockSize && Unfinished(blockSize, blocks[i], 1)
  }

  function FirstKey(es: seq<Entry>): Option<InternalKey> { if es == [] then None else Some(es[0].key) }

  function LastKey(es: seq<Entry>): Option<InternalKey> { if es == [] then None else Some(es[|es| - 1].key) }

  lemma {:induction false} FlattenSnoc(blocks: seq<seq<Entry>>, block: seq<Entry>)
    ensures Flatten(blocks + [block]) == Flatten(blocks) + block
  {
    if blocks == [] {
      assert [] + [block] == [block] && [block][1..] == [];
      assert Flatten([block]) == block + Flatten([]);
    } else {
      FlattenSnoc(blocks[1..], block);
      assert (blocks + [block])[1..] == blocks[1..] + [block];
    }
  }

  lemma FlushedSnoc(c: Codec, blocks: seq<seq<Entry>>, block: seq<Entry>)
    requires NoneEmpty(blocks) && block != []
    ensures NoneEmpty(blocks + [block])
    ensures DataBytes(c, blocks + [block]) == DataBytes(c, blocks) + Frame(c, DataBlock(block))
    ensures IndexOf(c, blocks + [block]) ==
            IndexOf(c, blocks) +
            [IndexEntry(block[0].key, block[|block| - 1].key,
                        BlockHandle(|DataBytes(c, blocks)|, |Stored(c, DataBlock(block))|))]
  {
    hide *;
    var all := blocks + [block];
    NoneEmptySnoc(blocks, block);
    assert all[|all| - 1] == block && all[..|all| - 1] == blocks;
    DataLast(c, all);
    IndexLast(c, all);
  }

  lemma NoneEmptySnoc(blocks: seq<seq<Entry>>, block: seq<Entry>)
    requires NoneEmpty(blocks) && block != []
    ensures NoneEmpty(blocks + [block])
  {
  }

  lemma DataLast(c: Codec, blocks: seq<seq<Entry>>)
    requires blocks != []
    ensures DataBytes(c, blocks) == DataBytes(c, blocks[..|blocks| - 1]) + Frame(c, DataBlock(blocks[|blocks| - 1]))
  {
    hide Frame, DataBlock;
  }

  lemma IndexLast(c: Codec, blocks: seq<seq<Entry>>)
    requires NoneEmpty(blocks) && blocks != []
    ensures var n := |blocks| - 1;
            IndexOf(c, blocks) ==
            IndexOf(c, blocks[..n]) +
            [IndexEntry(blocks[n][0].key, blocks[n][|blocks[n]| - 1].key,
                        BlockHandle(|DataBytes(c, blocks[..n])|, |Stored(c, DataBlock(blocks[n]))|))]
  {
    hide DataBytes, Stored, DataBlock;
  }

  class SSTableBuilder {
    const codec: Codec
    const blockSize: nat
    var file: Bytes
    var offset: nat
    var currentBlock: BlockBuilder
    var currentBlockFirstKey: Option<InternalKey>
    var indexEntries: seq<IndexEntry>
    var smallestKey: Option<InternalKey>
    var largestKey: Option<InternalKey>
    var filterKeys: seq<Bytes>
    var numEntries: nat
    ghost var blocks: seq<seq<Entry>>

    ghost function Added(): seq<Entry>
      reads this, currentBlock
    {
      Flatten(blocks) + currentBlock.added
    }

    /** What was written so far is the data part of the table. */
    ghost predicate Written()
      reads this
    {
      && NoneEmpty(blocks)
      && file == DataBytes(codec, blocks)
      && offset == |file|
      && indexEntries == IndexOf(codec, blocks)
    }

    ghost predicate Counted()
      reads this, currentBlock
    {
      && smallestKey == FirstKey(Added())
      && largestKey == LastKey(Added())
      && filterKeys == UserKeys(Added())
      && numEntries == |Added()|
    }

    ghost predicate Valid()
      reads this, currentBlock
    {
      && currentBlock.Valid() && currentBlock.restartInterval == RESTART_INTERVAL
      && currentBlockFirstKey == FirstKey(currentBlock.added)
      && Written()
      && Counted()
      && CutAt(blockSize, blocks)
      && Unfinished(blockSize, currentBlock.added, 0)
    }

    constructor (codec: Codec, blockSize: nat)
      ensures Valid() && Added() == [] && fresh(currentBlock)
      ensures this.codec == codec && this.blockSize == if blockSize == 0 then 1 else blockSize
    {
      this.codec := codec;
      this.blockSize := if blockSize == 0 then 1 else blockSize;
      file, offset := [], 0;
      currentBlock := new BlockBuilder(RESTART_INTERVAL);
      currentBlockFirstKey, smallestKey, largestKey := None, None, None;
      indexEntries, filterKeys, numEntries := [], [], 0;
      blocks := [];
    }

    method WriteBlock(block: Bytes) returns (handle: BlockHandle)
      requires offset == |file|
      modifies this`file, this`offset
      ensures file == old(file) + Frame(codec, block) && offset == |file|
      ensures handle == BlockHandle(|old(file)|, |Stored(codec, block)|)
    {
      hide LeBytes;
      var stored := Stored(codec, block);
      handle := BlockHandle(offset, |stored|);
      file := file + stored;
      var checksum := codec.crc([CompressionTag(codec)] + stored);
      file := file + [CompressionTag(codec)];
      file := file + LeBytes(checksum, 4);
      offset := offset + |stored| + BLOCK_TRAILER_SIZE;
    }

    method FlushCurrentBlock()
      requires currentBlock.Valid() && currentBlock.restartInterval == RESTART_INTERVAL
      requires currentBlockFirstKey == FirstKey(currentBlock.added)
      requires Written() && Counted()
      modifies this
      ensures Written() && Counted() && Added() == old(Added())
      ensures currentBlock.Valid() && currentBlock.restartInterval == RESTART_INTERVAL && currentBlock.added == []
      ensures currentBlockFirstKey == None
      ensures blocks == if old(currentBlock.added) == [] then old(blocks) else old(blocks) + [old(currentBlock.added)]
      ensures currentBlock == old(currentBlock) || fresh(currentBlock)
    {
      hide DataBytes, IndexOf, Frame, Stored, BlockBytes, Flatten, BlockData, RestartOffsets;
      if currentBlock.entryCount == 0 {
        return;
      }
      ghost var block := currentBlock.added;
      var firstKey, lastKey := currentBlockFirstKey.value, largestKey.value;
      assert firstKey == block[0].key && lastKey == block[|block| - 1].key;
      hide FirstKey, LastKey, UserKeys;
      currentBlockFirstKey := None;
      var bytes := currentBlock.Finish();
      currentBlock := new BlockBuilder(RESTART_INTERVAL);
      FlushedSnoc(codec, blocks, block);
      FlattenSnoc(blocks, block);
      var handle := WriteBlock(bytes);
      indexEntries := indexEntries + [IndexEntry(firstKey, lastKey, handle)];
      blocks := blocks + [block];
      assert Added() == Flatten(blocks);
    }

    /** The part of `Add` before the size test. */
    method Append(key: InternalKey, value: ValueRecord)
      requires Valid()
      modifies this, currentBlock
      ensures currentBlock == old(currentBlock) && blocks == old(blocks)
      ensures currentBlock.Valid() && currentBlock.restartInterval == RESTART_INTERVAL
      ensures currentBlock.added == old(currentBlock.added) + [Entry(key, value)]
      ensures currentBlockFirstKey == FirstKey(currentBlock.added)
      ensures Written() && Counted() && Added() == old(Added()) + [Entry(key, value)]
    {
      hide DataBytes, IndexOf, Flatten, BlockData, RestartOffsets, CutAt, Unfinished;
      ghost var all := Added();
      if currentBlockFirstKey.None? {
        currentBlockFirstKey := Some(key);
      }
      if smallestKey.None? {
        smallestKey := Some(key);
      }
      largestKey := Some(key);
      filterKeys := filterKeys + [key.userKey];
      currentBlock.Add(key, value);
      numEntries := numEntries + 1;
      assert Added() == all + [Entry(key, value)];
      assert UserKeys(Added()) == filterKeys;
    }

    method Add(key: InternalKey, value: ValueRecord)
      requires Valid()
      modifies this, currentBlock
      ensures Valid() && Added() == old(Added()) + [Entry(key, value)]
      ensures currentBlock == old(currentBlock) || fresh(currentBlock)
    {
      hide DataBytes, IndexOf, Flatten, BlockData, RestartOffsets, Unfinished, UserKeys, FirstKey, LastKey;
      Append(key, value);
      UnfinishedSnoc(blockSize, old(currentBlock.added), Entry(key, value));
      if currentBlock.ApproximateSize() >= blockSize {
        FlushCurrentBlock();
        NothingYet(blockSize);
      }
    }

    /** The finished file is a table of the entries added, cut into blocks of the block size. */
    method Finish() returns (bytes: Bytes)
      requires Valid()
      modifies this, currentBlock
      ensures NoneEmpty(blocks) && Flatten(blocks) == old(Added())
      ensures bytes == TableBytes(codec, blocks)
      ensures blocks == old(blocks) || (|blocks| > 0 && blocks[..|blocks| - 1] == old(blocks) && Unfinished(blockSize, blocks[|blocks| - 1], 0))
      ensures Lawful(codec) && TableFits(codec, blocks) ==>
                && Open(codec, bytes).Some?
                && ReadAll(codec, bytes, Open(codec, bytes).value.index) == Some(TaggedAll(old(Added())))
    {
      hide DataBytes, IndexOf, Frame, Stored, BlockBytes, Flatten, TableFits, Open, ReadAll, TaggedAll, FilterBytes, FooterBytes,
           PropertiesBytes, IndexBytes, Unfinished, FirstKey, LastKey, UserKeys, PropertiesOf, BlockData, RestartOffsets;
      FlushCurrentBlock();
      assert Added() == Flatten(blocks);
      var filter := BuildBloomFilter(filterKeys);
      var properties := TableProperties(numEntries, smallestKey, largestKey, filter);
      PropertiesAre(Flatten(blocks));
      var propertiesHandle := WriteBlock(PropertiesBytes(properties));
      var indexBytes := EncodeIndexEntries(indexEntries);
      var indexHandle := WriteBlock(indexBytes);
      file := file + FooterBytes(propertiesHandle, indexHandle);
      offset := offset + FOOTER_SIZE;
      bytes := file;
      TableBytesAre(codec, blocks);
      hide TableBytes, Lawful;
      if Lawful(codec) && TableFits(codec, blocks) {
        TableRoundTrip(codec, blocks);
      }
    }
  }

  lemma TableBytesAre(c: Codec, blocks: seq<seq<Entry>>)
    requires NoneEmpty(blocks)
    ensures var data := DataBytes(c, blocks);
            var properties, index := PropertiesBytes(PropertiesOf(Flatten(blocks))), IndexBytes(IndexOf(c, blocks));
            TableBytes(c, blocks) ==
            data + Frame(c, properties) + Frame(c, index) +
            FooterBytes(BlockHandle(|data|, |Stored(c, properties)|),
                        BlockHandle(|data + Frame(c, properties)|, |Stored(c, index)|))
  {
    hide DataBytes, PropertiesBytes, PropertiesOf, IndexBytes, IndexOf, Frame, Stored, FooterBytes;
  }

  lemma PropertiesAre(es: seq<Entry>)
    ensures PropertiesOf(es) == TableProperties(|es|, FirstKey(es), LastKey(es), FilterBytes(UserKeys(es)))
  {
  }

  lemma NothingYet(blockSize: nat)
    ensures Unfinished(blockSize, [], 0) && FirstKey([]) == None
  {
  }

  lemma UnfinishedSnoc(blockSize: nat, block: seq<Entry>, e: Entry)
    requires Unfinished(blockSize, block, 0)
    ensures Unfinished(blockSize, block + [e], 1)
    ensures BlockSize(block + [e]) < blockSize ==> Unfinished(blockSize, block + [e], 0)
  {
    hide BlockSize;
    assert forall k :: 0 < k <= |block| ==> (block + [e])[..k] == block[..k];
    assert (block + [e])[..|block| + 1] == block + [e];
  }

  lemma {:induction false} IndexEntriesBytesSnoc(es: seq<IndexEntry>, e: IndexEntry)
    ensures IndexEntriesBytes(es + [e]) == IndexEntriesBytes(es) + IndexEntryBytes(e)
  {
    hide IndexEntryBytes;
    if es == [] {
      assert [] + [e] == [e] && [e][1..] == [];
    } else {
      IndexEntriesBytesSnoc(es[1..], e);
      assert (es + [e])[1..] == es[1..] + [e];
    }
  }

  method EncodeIndexEntries(es: seq<IndexEntry>) returns (dst: Bytes)
    ensures dst == IndexBytes(es)
  {
    hide VarintBytes, KeyBytes;
    dst := PutVarU64([], AsU32(|es|));
    ghost var head := dst;
    for i := 0 to |es|
      invariant dst == head + IndexEntriesBytes(es[..i])
    {
      IndexEntriesBytesSnoc(es[..i], es[i]);
      assert es[..i] + [es[i]] == es[..i + 1];
      dst := dst + KeyBytes(es[i].firstKey);
      dst := dst + KeyBytes(es[i].lastKey);
      dst := PutVarU64(dst, es[i].handle.offset);
      dst := PutVarU64(dst, es[i].handle.size);
    }
    assert es[..|es|] == es;
  }

  method DecodeIndexEntries(bytes: Bytes) returns (r: Option<seq<IndexEntry>>)
    ensures r == DecodeIndex(bytes)
  {
    hide GetIndexEntry, GetVarU32;
    var count := GetVarU32(bytes);
    if count.Corrupt? { return None; }
    var src, entries := count.rest, [];
    PrependNothing(GetIndexEntries(src, count.value));
    for i := 0 to count.value
      invariant Prepended(entries, GetIndexEntries(src, count.value - i)) == GetIndexEntries(count.rest, count.value)
    {
      var e := GetIndexEntry(src);
      if e.Corrupt? { return None; }
      PrependTwice(entries, e.value, GetIndexEntries(e.rest, count.value - i - 1));
      entries := entries + [e.value];
      src := e.rest;
    }
    assert entries + [] == entries;
    if src != [] { return None; }
    r := Some(entries);
  }
}
