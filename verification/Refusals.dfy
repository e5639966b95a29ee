/**
 What decoders refuse (src/batch.rs:66-102, src/version/edit.rs:51-74, src/table/reader.rs:366-385,
 src/wal/reader.rs:25-49, src/table/reader.rs:341-364): anything cut short or followed by more, and damaged bytes.
 */
module Refusals {
  import opened Keys
  import opened Coding
  import opened Payloads
  import opened Versions
  import opened Lsm
  import opened Blocks
  import opened Tables
  import opened Wal

  // ----- what a reader has read does not depend on what follows

  /** `q` is `p` with `more` left unread as well. */
  predicate Further<T(==)>(p: Parsed<T>, q: Parsed<T>, more: Bytes) {
    p.Done? ==> q == Done(p.value, p.rest + more)
  }

  lemma {:induction false} VarintFurther(src: Bytes, k: nat, more: Bytes)
    ensures Further(VarintFrom(src, k), VarintFrom(src + more, k), more)
    decreases |src|
  {
    hide Piece;
    if src != [] {
      assert (src + more)[1..] == src[1..] + more;
      VarintFurther(src[1..], k + 1, more);
    }
  }

  lemma U64Further(src: Bytes, more: Bytes)
    ensures Further(GetVarU64(src), GetVarU64(src + more), more)
  {
    hide VarintFrom;
    VarintFurther(src, 0, more);
  }

  lemma U32Further(src: Bytes, more: Bytes)
    ensures Further(GetVarU32(src), GetVarU32(src + more), more)
  {
    hide GetVarU64;
    U64Further(src, more);
  }

  lemma TakeFurther(src: Bytes, len: nat, more: Bytes)
    ensures Further(TakeBytes(src, len), TakeBytes(src + more, len), more)
  {
    if len <= |src| {
      assert (src + more)[..len] == src[..len] && (src + more)[len..] == src[len..] + more;
    }
  }

  lemma SliceFurther(src: Bytes, more: Bytes)
    ensures Further(GetSlice(src), GetSlice(src + more), more)
  {
    hide GetVarU32, TakeBytes;
    U32Further(src, more);
    if GetVarU32(src).Done? {
      TakeFurther(GetVarU32(src).rest, GetVarU32(src).value, more);
    }
  }

  lemma RecordFurther(src: Bytes, more: Bytes)
    ensures Further(GetRecord(src), GetRecord(src + more), more)
  {
    hide GetSlice;
    TakeFurther(src, 1, more);
    if src != [] {
      SliceFurther(src[1..], more);
      if GetSlice(src[1..]).Done? {
        SliceFurther(GetSlice(src[1..]).rest, more);
      }
    }
  }

  lemma {:induction false} RecordsFurther(src: Bytes, count: nat, more: Bytes)
    ensures Further(GetRecords(src, count), GetRecords(src + more, count), more)
    decreases count
  {
    hide GetRecord;
    if count > 0 {
      RecordFurther(src, more);
      if GetRecord(src).Done? {
        RecordsFurther(GetRecord(src).rest, count - 1, more);
      }
    }
  }

  /** No payload that reads as a batch is the beginning of another one. */
  lemma BatchPrefixFree(payload: Bytes, more: Bytes)
    requires DecodeBatch(payload).Some? && more != []
    ensures DecodeBatch(payload + more) == None
  {
    hide GetVarU32, GetVarU64, GetRecords;
    U32Further(payload, more);
    var src1 := GetVarU32(payload).rest;
    U64Further(src1, more);
    RecordsFurther(GetVarU64(src1).rest, GetVarU32(payload).value, more);
  }

  /** A batch payload that is cut short anywhere is refused. */
  lemma TruncatedBatchRefused(start: nat, batch: seq<BatchRecord>, n: nat)
    requires BatchFits(start, batch) && n < |BatchBytes(start, batch)|
    ensures DecodeBatch(BatchBytes(start, batch)[..n]) == None
  {
    hide DecodeBatch, BatchFits;
    var bytes := BatchBytes(start, batch);
    BatchRoundTrip(start, batch);
    assert bytes == bytes[..n] + bytes[n..];
    if DecodeBatch(bytes[..n]).Some? {
      BatchPrefixFree(bytes[..n], bytes[n..]);
    }
  }

  // ----- version edits

  lemma KeyFurther(src: Bytes, more: Bytes)
    ensures Further(GetKey(src), GetKey(src + more), more)
  {
    hide GetSlice, GetVarU64;
    SliceFurther(src, more);
    if GetSlice(src).Done? {
      var src1 := GetSlice(src).rest;
      U64Further(src1, more);
      if GetVarU64(src1).Done? {
        TakeFurther(GetVarU64(src1).rest, 1, more);
      }
    }
  }

  lemma MetaFurther(src: Bytes, more: Bytes)
    ensures Further(GetMeta(src), GetMeta(src + more), more)
  {
    hide GetVarU64, GetKey;
    U64Further(src, more);
    if GetMeta(src).Done? {
      var src1 := GetVarU64(src).rest;
      var src2 := GetVarU64(src1).rest;
      var src3 := GetKey(src2).rest;
      var src4 := GetKey(src3).rest;
      U64Further(src1, more);
      KeyFurther(src2, more);
      KeyFurther(src3, more);
      U64Further(src4, more);
      U64Further(GetVarU64(src4).rest, more);
    }
  }

  lemma EditFurther(tag: nat, src: Bytes, more: Bytes)
    ensures Further(GetEdit(tag, src), GetEdit(tag, src + more), more)
  {
    hide GetVarU64, GetVarU32, GetMeta;
    U64Further(src, more);
    U32Further(src, more);
    if GetVarU32(src).Done? {
      MetaFurther(GetVarU32(src).rest, more);
      U64Further(GetVarU32(src).rest, more);
    }
  }

  /** No bytes that read as an edit are the beginning of another one. */
  lemma EditPrefixFree(bytes: Bytes, more: Bytes)
    requires DecodeEdit(bytes).Some? && more != []
    ensures DecodeEdit(bytes + more) == None
  {
    hide GetVarU32, GetEdit;
    U32Further(bytes, more);
    EditFurther(GetVarU32(bytes).value, GetVarU32(bytes).rest, more);
  }

  lemma TruncatedEditRefused(e: VersionEdit, n: nat)
    requires EditFits(e) && n < |EditBytes(e)|
    ensures DecodeEdit(EditBytes(e)[..n]) == None
  {
    hide DecodeEdit, EditFits, EditBytes;
    var bytes := EditBytes(e);
    EditRoundTrip(e);
    assert bytes == bytes[..n] + bytes[n..];
    if DecodeEdit(bytes[..n]).Some? {
      EditPrefixFree(bytes[..n], bytes[n..]);
    }
  }

  // ----- the index of a table

  lemma IndexEntryFurther(src: Bytes, more: Bytes)
    ensures Further(GetIndexEntry(src), GetIndexEntry(src + more), more)
  {
    hide GetVarU64, GetKey;
    if GetIndexEntry(src).Done? {
      var src1 := GetKey(src).rest;
      var src2 := GetKey(src1).rest;
      KeyFurther(src, more);
      KeyFurther(src1, more);
      U64Further(src2, more);
      U64Further(GetVarU64(src2).rest, more);
    }
  }

  lemma {:induction false} IndexEntriesFurther(src: Bytes, count: nat, more: Bytes)
    ensures Further(GetIndexEntries(src, count), GetIndexEntries(src + more, count), more)
    decreases count
  {
    hide GetIndexEntry;
    if count > 0 {
      IndexEntryFurther(src, more);
      if GetIndexEntry(src).Done? {
        IndexEntriesFurther(GetIndexEntry(src).rest, count - 1, more);
      }
    }
  }

  /** No bytes that read as an index are the beginning of another one. */
  lemma IndexPrefixFree(bytes: Bytes, more: Bytes)
    requires DecodeIndex(bytes).Some? && more != []
    ensures DecodeIndex(bytes + more) == None
  {
    hide GetVarU32, GetIndexEntries;
    U32Further(bytes, more);
    IndexEntriesFurther(GetVarU32(bytes).rest, GetVarU32(bytes).value, more);
  }

  // ----- values no writer writes

  /** A number too large for 32 bits is refused where one of 32 bits is read. */
  lemma LargeNumberRefused(value: nat, rest: Bytes)
    requires U32_MAX < value <= U64_MAX
    ensures GetVarU32(VarintBytes(value) + rest) == Corrupt
  {
    hide VarintBytes, GetVarU64;
    VarU64RoundTrip(value, rest);
  }

  /** An internal key is read exactly if its type is that of a put or a deletion. */
  lemma UnknownTypeRefused(userKey: Bytes, sequence: nat, tag: Byte, rest: Bytes)
    requires |userKey| <= U32_MAX && sequence <= U64_MAX
    ensures GetKey(SliceBytes(userKey) + (VarintBytes(sequence) + ([tag] + rest))).Done? <==> tag == 1 || tag == 2
  {
    hide SliceBytes, GetSlice, VarintBytes, GetVarU64;
    SliceRoundTrip(userKey, VarintBytes(sequence) + ([tag] + rest));
    VarU64RoundTrip(sequence, [tag] + rest);
    assert ([tag] + rest)[..1] == [tag];
  }

  lemma UnknownEditRefused(tag: nat, rest: Bytes)
    requires tag <= U32_MAX && (tag == 0 || tag > 5)
    ensures DecodeEdit(VarintBytes(tag) + rest) == None
  {
    hide VarintBytes, GetVarU32, GetVarU64, GetMeta;
    VarU32RoundTrip(tag, rest);
  }

  /** A block entry cannot share more than there is of the key before it. */
  lemma SharedTooLongRefused(shared: nat, e: Entry, last: Bytes, rest: Bytes)
    requires EntryFits(e) && |last| < shared <= |e.key.userKey|
    ensures GetBlockEntry(EntryBytes(shared, e) + rest, last) == Corrupt
  {
    var unshared, value := e.key.userKey[shared..], ValueBytes(e.value);
    hide VarintBytes, GetVarU32, GetVarU64, ValueBytes;
    var t5 := unshared + value + rest;
    var t4 := VarintBytes(e.key.sequence) + t5;
    var t3 := [TypeCode(TypeOf(e.value))] + t4;
    var t2 := VarintBytes(AsU32(|value|)) + t3;
    var t1 := VarintBytes(AsU32(|unshared|)) + t2;
    assert EntryBytes(shared, e) + rest == VarintBytes(AsU32(shared)) + t1;
    VarU32RoundTrip(shared, t1);
    VarU32RoundTrip(|unshared|, t2);
    VarU32RoundTrip(|value|, t3);
    assert t3[..1] == [TypeCode(TypeOf(e.value))] && t3[1..] == t4;
    VarU64RoundTrip(e.key.sequence, t5);
  }

  lemma {:induction false} LeBack(b: Bytes)
    ensures LeBytes(LeValue(b), |b|) == b
  {
    if b != [] {
      var low, rest := b[0], LeValue(b[1..]);
      LeBack(b[1..]);
      LowByte(low, rest);
      assert LeValue(b) == low + 256 * rest;
      hide LeValue;
      assert b == [low] + b[1..];
    }
  }

  lemma LowByte(low: Byte, rest: nat)
    ensures (low + 256 * rest) % 256 == low && (low + 256 * rest) / 256 == rest
  {
  }

  /** Forty bytes are a footer exactly if they end with the magic number. */
  lemma FooterReads(src: Bytes)
    ensures DecodeFooter(src).Some? <==> |src| == 40 && src[32..] == LeBytes(TABLE_MAGIC, 8)
  {
    if |src| == 40 {
      hide LeBytes, LeValue;
      assert src[32..40] == src[32..];
      LeBack(src[32..]);
      Pow256Values();
      LeRoundTrip(TABLE_MAGIC, 8);
    }
  }

  // ----- damage

  /** A whole record at `src` whose type is unknown or whose checksum is wrong. */
  predicate Damaged(crc: Crc, src: Bytes) {
    && |src| >= HEADER_SIZE
    && (src[8] != 1 ||
        var len := LeValue(src[4..8]);
        0 < len <= |src| - HEADER_SIZE && LeValue(src[0..4]) != crc([1] + src[HEADER_SIZE..HEADER_SIZE + len]))
  }

  lemma DamagedRead(crc: Crc, src: Bytes)
    requires Damaged(crc, src)
    ensures ReadLog(crc, src) == None
  {
  }

  /** A log with a damaged record in it cannot be read, whatever precedes it. */
  lemma {:induction false} DamagedLogFails(crc: Crc, payloads: seq<Bytes>, bad: Bytes)
    requires Is32Bit(crc) && AllShort(payloads) && [] !in payloads && Damaged(crc, bad)
    ensures ReadLog(crc, LogBytes(crc, payloads) + bad) == None
    decreases |payloads|
  {
    DamagedRead(crc, bad);
    hide RecordFrame, ReadRecord, Damaged;
    if payloads == [] {
      assert LogBytes(crc, payloads) + bad == bad;
    } else {
      var rest := LogBytes(crc, payloads[1..]) + bad;
      assert LogBytes(crc, payloads) + bad == RecordFrame(crc, payloads[0]) + rest;
      FrameReads(crc, payloads[0], rest);
      DamagedLogFails(crc, payloads[1..], bad);
    }
  }

  /** So is a payload changed on disk, if the checksum tells the two apart. */
  lemma ChangedPayloadFails(crc: Crc, before: seq<Bytes>, payload: Bytes, changed: Bytes, after: Bytes)
    requires Is32Bit(crc) && AllShort(before) && [] !in before
    requires 0 < |payload| == |changed| <= U32_MAX && crc([1] + payload) != crc([1] + changed)
    ensures ReadLog(crc, LogBytes(crc, before) + (RecordFrame(crc, payload)[..HEADER_SIZE] + changed + after)) == None
  {
    var bad := RecordFrame(crc, payload)[..HEADER_SIZE] + changed + after;
    HeaderReads(crc, payload, changed + after);
    assert bad == RecordFrame(crc, payload)[..HEADER_SIZE] + (changed + after);
    assert bad[HEADER_SIZE..HEADER_SIZE + |changed|] == changed;
    hide LeValue, RecordFrame;
    DamagedLogFails(crc, before, bad);
  }

  /** The header of a record says its checksum, its length and its type, whatever bytes follow it. */
  lemma HeaderReads(crc: Crc, payload: Bytes, after: Bytes)
    requires Is32Bit(crc) && |payload| <= U32_MAX
    ensures var src := RecordFrame(crc, payload)[..HEADER_SIZE] + after;
            LeValue(src[0..4]) == crc([1] + payload) && LeValue(src[4..8]) == |payload| && src[8] == 1
  {
    hide LeBytes, LeValue;
    var src, sum := RecordFrame(crc, payload)[..HEADER_SIZE] + after, crc([1] + payload);
    Pow256Values();
    LeRoundTrip(sum, 4);
    LeRoundTrip(|payload|, 4);
    assert AsU32(|payload|) == |payload|;
    var frame := RecordFrame(crc, payload);
    assert forall i :: 0 <= i < HEADER_SIZE ==> src[i] == frame[i];
    assert frame[0..4] == LeBytes(sum, 4) && frame[4..8] == LeBytes(AsU32(|payload|), 4) && frame[8] == 1;
    assert src[0..4] == frame[0..4] && src[4..8] == frame[4..8];
  }

  /** A block of a table changed on disk is refused, if the checksum tells the two apart. */
  lemma ChangedBlockFails(c: Codec, before: Bytes, block: Bytes, changed: Bytes, after: Bytes)
    requires Lawful(c) && |changed| == |Stored(c, block)|
    requires c.crc([CompressionTag(c)] + Stored(c, block)) != c.crc([CompressionTag(c)] + changed)
    ensures ReadBlock(c, before + changed + Frame(c, block)[|changed|..] + after, BlockHandle(|before|, |changed|)) == None
  {
    hide LeBytes, LeValue;
    var stored, tag := Stored(c, block), CompressionTag(c);
    var sum := c.crc([tag] + stored);
    var file := before + changed + Frame(c, block)[|changed|..] + after;
    var end := |before| + |changed|;
    assert file[|before|..end] == changed;
    assert file[end] == tag;
    assert file[end + 1..end + 5] == LeBytes(sum, 4);
    Pow256Values();
    LeRoundTrip(sum, 4);
  }
}
