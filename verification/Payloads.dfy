/**
 The payloads of log records: write batches, version edits and table properties
 (src/batch.rs, src/version/edit.rs, src/table/properties.rs).
 */
module Payloads {
  import opened Keys
  import opened Coding
  import opened Versions
  import opened Lsm

  // ----- write batches

  function RecordBytes(r: BatchRecord): Bytes {
    match r
    case PutRecord(key, value) => [1] + (SliceBytes(key) + SliceBytes(value))
    case DeleteRecord(key) => [2] + (SliceBytes(key) + VarintBytes(0))
  }

  function RecordsBytes(batch: seq<BatchRecord>): Bytes {
    if batch == [] then [] else RecordBytes(batch[0]) + RecordsBytes(batch[1..])
  }

  function BatchBytes(start: nat, batch: seq<BatchRecord>): Bytes {
    VarintBytes(AsU32(|batch|)) + (VarintBytes(start) + RecordsBytes(batch))
  }

  function GetRecord(src: Bytes): Parsed<BatchRecord> {
    match TakeBytes(src, 1)
    case Corrupt => Corrupt
    case Done(tag, src1) =>
      match GetSlice(src1)
      case Corrupt => Corrupt
      case Done(key, src2) =>
        match GetSlice(src2)
        case Corrupt => Corrupt
        case Done(value, src3) =>
          if tag[0] == 1 then Done(PutRecord(key, value), src3)
          else if tag[0] == 2 && value == [] then Done(DeleteRecord(key), src3)
          else Corrupt
  }

  function GetRecords(src: Bytes, count: nat): Parsed<seq<BatchRecord>>
    decreases count
  {
    if count == 0 then Done([], src)
    else
      match GetRecord(src)
      case Corrupt => Corrupt
      case Done(r, rest) => Prepended([r], GetRecords(rest, count - 1))
  }

  function Prepended<T>(head: seq<T>, p: Parsed<seq<T>>): Parsed<seq<T>> {
    match p
    case Done(tail, rest) => Done(head + tail, rest)
    case Corrupt => Corrupt
  }

  function DecodeBatch(payload: Bytes): Option<(nat, seq<BatchRecord>)> {
    match GetVarU32(payload)
    case Corrupt => None
    case Done(count, src1) =>
      match GetVarU64(src1)
      case Corrupt => None
      case Done(start, src2) =>
        match GetRecords(src2, count)
        case Corrupt => None
        case Done(batch, rest) => if rest == [] then Some((start, batch)) else None
  }

  predicate RecordFits(r: BatchRecord) {
    |r.key| <= U32_MAX && (r.PutRecord? ==> |r.value| <= U32_MAX)
  }

  predicate BatchFits(start: nat, batch: seq<BatchRecord>) {
    start <= U64_MAX && |batch| <= U32_MAX && forall r :: r in batch ==> RecordFits(r)
  }

  lemma RecordRoundTrip(r: BatchRecord, rest: Bytes)
    requires RecordFits(r)
    ensures GetRecord(RecordBytes(r) + rest) == Done(r, rest)
  {
    assert AsU32(0) == 0 && VarintBytes(0) + [] == VarintBytes(0);
    assert SliceBytes([]) == VarintBytes(0);
    hide GetSlice, VarintBytes, SliceBytes;
    var value := match r case PutRecord(_, v) => v case DeleteRecord(_) => [];
    var tail := SliceBytes(r.key) + (SliceBytes(value) + rest);
    assert RecordBytes(r) + rest == [if r.PutRecord? then 1 else 2] + tail;
    assert TakeBytes(RecordBytes(r) + rest, 1).rest == tail;
    SliceRoundTrip(r.key, SliceBytes(value) + rest);
    SliceRoundTrip(value, rest);
  }

  lemma {:induction false} RecordsRoundTrip(batch: seq<BatchRecord>, rest: Bytes)
    requires forall r :: r in batch ==> RecordFits(r)
    ensures GetRecords(RecordsBytes(batch) + rest, |batch|) == Done(batch, rest)
  {
    hide GetRecord, RecordBytes;
    if batch == [] {
      assert [] + rest == rest;
    } else {
      var tail := RecordsBytes(batch[1..]) + rest;
      assert RecordsBytes(batch) + rest == RecordBytes(batch[0]) + tail;
      RecordRoundTrip(batch[0], tail);
      RecordsRoundTrip(batch[1..], rest);
      assert [batch[0]] + batch[1..] == batch;
    }
  }

  /** A batch payload reads back whole, with its start sequence, and leaves no byte. */
  lemma BatchRoundTrip(start: nat, batch: seq<BatchRecord>)
    requires BatchFits(start, batch)
    ensures DecodeBatch(BatchBytes(start, batch)) == Some((start, batch))
  {
    hide GetRecords, RecordsBytes, VarintBytes, GetVarU32, GetVarU64;
    VarU32RoundTrip(|batch|, VarintBytes(start) + RecordsBytes(batch));
    VarU64RoundTrip(start, RecordsBytes(batch));
    RecordsRoundTrip(batch, []);
    assert RecordsBytes(batch) + [] == RecordsBytes(batch);
  }

  /** A batch is never framed as an empty payload. */
  lemma BatchBytesNonEmpty(start: nat, batch: seq<BatchRecord>)
    ensures BatchBytes(start, batch) != []
  {
  }

  /** Bytes after the last record are an error. */
  lemma TrailingBytesRefused(start: nat, batch: seq<BatchRecord>, extra: Bytes)
    requires BatchFits(start, batch) && extra != []
    ensures DecodeBatch(BatchBytes(start, batch) + extra) == None
  {
    hide GetRecords, RecordsBytes, VarintBytes, GetVarU32, GetVarU64;
    var body := RecordsBytes(batch) + extra;
    assert BatchBytes(start, batch) + extra == VarintBytes(AsU32(|batch|)) + (VarintBytes(start) + body);
    VarU32RoundTrip(|batch|, VarintBytes(start) + body);
    VarU64RoundTrip(start, body);
    RecordsRoundTrip(batch, extra);
  }

  method PutSlice(dst: Bytes, b: Bytes) returns (out: Bytes)
    ensures out == dst + SliceBytes(b)
  {
    out := PutVarU64(dst, AsU32(|b|));
    out := out + b;
  }

  lemma {:induction false} RecordsBytesSnoc(batch: seq<BatchRecord>, r: BatchRecord)
    ensures RecordsBytes(batch + [r]) == RecordsBytes(batch) + RecordBytes(r)
  {
    hide RecordBytes;
    if batch == [] {
      assert [r] == [] + [r] && RecordsBytes([]) == [];
      assert [r][1..] == [];
    } else {
      RecordsBytesSnoc(batch[1..], r);
      assert (batch + [r])[1..] == batch[1..] + [r];
    }
  }

  method PutRecordBytes(dst: Bytes, record: BatchRecord) returns (out: Bytes)
    ensures out == dst + RecordBytes(record)
  {
    hide VarintBytes, SliceBytes;
    match record
    case PutRecord(key, value) =>
      out := PutSlice(dst + [1], key);
      out := PutSlice(out, value);
    case DeleteRecord(key) =>
      out := PutSlice(dst + [2], key);
      out := PutVarU64(out, 0);
  }

  method EncodeWithSequence(start: nat, records: seq<BatchRecord>) returns (dst: Bytes)
    ensures dst == BatchBytes(start, records)
  {
    hide VarintBytes, RecordBytes;
    dst := PutVarU64([], AsU32(|records|));
    dst := PutVarU64(dst, start);
    ghost var head := dst;
    for i := 0 to |records|
      invariant dst == head + RecordsBytes(records[..i])
    {
      RecordsBytesSnoc(records[..i], records[i]);
      assert records[..i] + [records[i]] == records[..i + 1];
      dst := PutRecordBytes(dst, records[i]);
    }
    assert records[..|records|] == records;
  }

  method DecodePayload(payload: Bytes) returns (r: Option<(nat, seq<BatchRecord>)>)
    ensures r == DecodeBatch(payload)
  {
    hide GetSlice, GetVarU32, GetVarU64;
    var count := GetVarU32(payload);
    if count.Corrupt? { return None; }
    var start := GetVarU64(count.rest);
    if start.Corrupt? { return None; }
    var src, batch := start.rest, [];
    PrependNothing(GetRecords(src, count.value));
    for i := 0 to count.value
      invariant Prepended(batch, GetRecords(src, count.value - i)) == GetRecords(start.rest, count.value)
    {
      ghost var before := batch;
      var tag := TakeBytes(src, 1);
      if tag.Corrupt? { return None; }
      var key := GetSlice(tag.rest);
      if key.Corrupt? { return None; }
      var value := GetSlice(key.rest);
      if value.Corrupt? { return None; }
      src := value.rest;
      match tag.value[0] {
        case 1 => batch := batch + [PutRecord(key.value, value.value)];
        case 2 =>
          if value.value != [] { return None; }
          batch := batch + [DeleteRecord(key.value)];
        case _ => return None;
      }
      PrependTwice(before, batch[|before|], GetRecords(src, count.value - i - 1));
    }
    assert batch + [] == batch;
    if src != [] { return None; }
    r := Some((start.value, batch));
  }

  lemma PrependNothing<T>(p: Parsed<seq<T>>)
    ensures Prepended([], p) == p
  {
    if p.Done? { assert [] + p.value == p.value; }
  }

  lemma PrependTwice<T>(a: seq<T>, x: T, p: Parsed<seq<T>>)
    ensures Prepended(a, Prepended([x], p)) == Prepended(a + [x], p)
  {
    if p.Done? { assert a + ([x] + p.value) == (a + [x]) + p.value; }
  }

  // ----- version edits

  function MetaBytes(m: FileMeta): Bytes {
    VarintBytes(m.number) + (VarintBytes(m.fileSize) + (KeyBytes(m.smallest) + (KeyBytes(m.largest) +
                                                                                (VarintBytes(m.smallestSeq) + VarintBytes(m.largestSeq)))))
  }

  function EditBytes(e: VersionEdit): Bytes {
    match e
    case NextFileNumber(number) => VarintBytes(1) + VarintBytes(number)
    case LastSequence(sequence) => VarintBytes(2) + VarintBytes(sequence)
    case LogNumber(log) => VarintBytes(3) + VarintBytes(log)
    case AddFile(level, meta) => VarintBytes(4) + (VarintBytes(AsU32(level)) + MetaBytes(meta))
    case DeleteFile(level, number) => VarintBytes(5) + (VarintBytes(AsU32(level)) + VarintBytes(number))
  }

  function GetMeta(src: Bytes): Parsed<FileMeta> {
    match GetVarU64(src)
    case Corrupt => Corrupt
    case Done(number, src1) =>
      match GetVarU64(src1)
      case Corrupt => Corrupt
      case Done(fileSize, src2) =>
        match GetKey(src2)
        case Corrupt => Corrupt
        case Done(smallest, src3) =>
          match GetKey(src3)
          case Corrupt => Corrupt
          case Done(largest, src4) =>
            match GetVarU64(src4)
            case Corrupt => Corrupt
            case Done(smallestSeq, src5) =>
              match GetVarU64(src5)
              case Corrupt => Corrupt
              case Done(largestSeq, src6) =>
                Done(FileMeta(number, fileSize, smallest, largest, smallestSeq, largestSeq), src6)
  }

  function GetEdit(tag: nat, src: Bytes): Parsed<VersionEdit> {
    if 1 <= tag <= 3 then
      match GetVarU64(src)
      case Corrupt => Corrupt
      case Done(v, rest) =>
        Done(if tag == 1 then NextFileNumber(v) else if tag == 2 then LastSequence(v) else LogNumber(v), rest)
    else if tag == 4 || tag == 5 then
      match GetVarU32(src)
      case Corrupt => Corrupt
      case Done(level, src1) =>
        if tag == 4 then
          match GetMeta(src1)
          case Corrupt => Corrupt
          case Done(meta, rest) => Done(AddFile(level, meta), rest)
        else
          match GetVarU64(src1)
          case Corrupt => Corrupt
          case Done(number, rest) => Done(DeleteFile(level, number), rest)
    else Corrupt
  }

  function DecodeEdit(bytes: Bytes): Option<VersionEdit> {
    match GetVarU32(bytes)
    case Corrupt => None
    case Done(tag, src) =>
      match GetEdit(tag, src)
      case Corrupt => None
      case Done(edit, rest) => if rest == [] then Some(edit) else None
  }

  predicate MetaFits(m: FileMeta) {
    && m.number <= U64_MAX && m.fileSize <= U64_MAX && KeyFits(m.smallest) && KeyFits(m.largest)
    && m.smallestSeq <= U64_MAX && m.largestSeq <= U64_MAX
  }

  predicate EditFits(e: VersionEdit) {
    match e
    case NextFileNumber(number) => number <= U64_MAX
    case LastSequence(sequence) => sequence <= U64_MAX
    case LogNumber(log) => log <= U64_MAX
    case AddFile(level, meta) => level <= U32_MAX && MetaFits(meta)
    case DeleteFile(level, number) => level <= U32_MAX && number <= U64_MAX
  }

  lemma MetaRoundTrip(m: FileMeta, rest: Bytes)
    requires MetaFits(m)
    ensures GetMeta(MetaBytes(m) + rest) == Done(m, rest)
  {
    hide VarintBytes, GetVarU64, KeyBytes, GetKey;
    var t6 := VarintBytes(m.largestSeq) + rest;
    var t5 := VarintBytes(m.smallestSeq) + t6;
    var t4 := KeyBytes(m.largest) + t5;
    var t3 := KeyBytes(m.smallest) + t4;
    var t2 := VarintBytes(m.fileSize) + t3;
    assert MetaBytes(m) + rest == VarintBytes(m.number) + t2;
    VarU64RoundTrip(m.number, t2);
    VarU64RoundTrip(m.fileSize, t3);
    KeyRoundTrip(m.smallest, t4);
    KeyRoundTrip(m.largest, t5);
    VarU64RoundTrip(m.smallestSeq, t6);
    VarU64RoundTrip(m.largestSeq, rest);
  }

  lemma NothingLeft(b: Bytes)
    ensures b + [] == b
  {
  }

  /** A version edit reads back whole and leaves no byte. */
  lemma EditRoundTrip(e: VersionEdit)
    requires EditFits(e)
    ensures DecodeEdit(EditBytes(e)) == Some(e)
  {
    hide VarintBytes, GetVarU64, GetVarU32, MetaBytes, GetMeta;
    assert AsU32(1) == 1 && AsU32(2) == 2 && AsU32(3) == 3 && AsU32(4) == 4 && AsU32(5) == 5;
    match e
    case NextFileNumber(number) =>
      VarU32RoundTrip(1, VarintBytes(number));
      VarU64RoundTrip(number, []);
      NothingLeft(VarintBytes(number));
    case LastSequence(sequence) =>
      VarU32RoundTrip(2, VarintBytes(sequence));
      VarU64RoundTrip(sequence, []);
      NothingLeft(VarintBytes(sequence));
    case LogNumber(log) =>
      VarU32RoundTrip(3, VarintBytes(log));
      VarU64RoundTrip(log, []);
      NothingLeft(VarintBytes(log));
    case AddFile(level, meta) =>
      VarU32RoundTrip(4, VarintBytes(AsU32(level)) + MetaBytes(meta));
      VarU32RoundTrip(level, MetaBytes(meta));
      MetaRoundTrip(meta, []);
      NothingLeft(MetaBytes(meta));
    case DeleteFile(level, number) =>
      VarU32RoundTrip(5, VarintBytes(AsU32(level)) + VarintBytes(number));
      VarU32RoundTrip(level, VarintBytes(number));
      VarU64RoundTrip(number, []);
      NothingLeft(VarintBytes(number));
  }

  lemma EditBytesNonEmpty(e: VersionEdit)
    ensures EditBytes(e) != []
  {
  }

  // ----- table properties

  datatype TableProperties = TableProperties(
    numEntries: nat, smallest: Option<InternalKey>, largest: Option<InternalKey>, filter: Bytes)

  function OptionalKeyBytes(key: Option<InternalKey>): Bytes {
    match key
    case Some(k) => [1] + KeyBytes(k)
    case None => [0]
  }

  /** An input that ends here reads as no key. */
  function GetOptionalKey(src: Bytes): Parsed<Option<InternalKey>> {
    if src == [] then Done(None, src)
    else if src[0] == 0 then Done(None, src[1..])
    else
      match GetKey(src[1..])
      case Corrupt => Corrupt
      case Done(k, rest) => Done(Some(k), rest)
  }

  function PropertiesBytes(p: TableProperties): Bytes {
    VarintBytes(p.numEntries) + (OptionalKeyBytes(p.smallest) + (OptionalKeyBytes(p.largest) + SliceBytes(p.filter)))
  }

  function DecodeProperties(bytes: Bytes): Option<TableProperties> {
    match GetVarU64(bytes)
    case Corrupt => None
    case Done(numEntries, src1) =>
      match GetOptionalKey(src1)
      case Corrupt => None
      case Done(smallest, src2) =>
        match GetOptionalKey(src2)
        case Corrupt => None
        case Done(largest, src3) =>
          if src3 == [] then Some(TableProperties(numEntries, smallest, largest, []))
          else
            match GetSlice(src3)
            case Corrupt => None
            case Done(filter, _) => Some(TableProperties(numEntries, smallest, largest, filter))
  }

  predicate PropertiesFit(p: TableProperties) {
    && p.numEntries <= U64_MAX && |p.filter| <= U32_MAX
    && (p.smallest.Some? ==> KeyFits(p.smallest.value))
    && (p.largest.Some? ==> KeyFits(p.largest.value))
  }

  lemma OptionalKeyRoundTrip(key: Option<InternalKey>, rest: Bytes)
    requires key.Some? ==> KeyFits(key.value)
    ensures GetOptionalKey(OptionalKeyBytes(key) + rest) == Done(key, rest)
  {
    hide KeyBytes, GetKey;
    match key
    case Some(k) =>
      KeyRoundTrip(k, rest);
      assert (OptionalKeyBytes(key) + rest)[1..] == KeyBytes(k) + rest;
    case None =>
      assert (OptionalKeyBytes(key) + rest)[1..] == rest;
  }

  lemma PropertiesRoundTrip(p: TableProperties)
    requires PropertiesFit(p)
    ensures DecodeProperties(PropertiesBytes(p)) == Some(p)
  {
    var t3 := SliceBytes(p.filter);
    assert t3 != [];
    hide VarintBytes, GetVarU64, OptionalKeyBytes, GetOptionalKey, GetSlice, SliceBytes;
    var t2 := OptionalKeyBytes(p.largest) + t3;
    var t1 := OptionalKeyBytes(p.smallest) + t2;
    VarU64RoundTrip(p.numEntries, t1);
    OptionalKeyRoundTrip(p.smallest, t2);
    OptionalKeyRoundTrip(p.largest, t3);
    SliceRoundTrip(p.filter, []);
    NothingLeft(t3);
  }
}
