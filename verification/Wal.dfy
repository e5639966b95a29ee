/**
 Framed logs (src/wal/writer.rs, src/wal/reader.rs, src/version/manifest.rs): a record is a checksum, a length,
 a type and a payload.  The write-ahead log and the MANIFEST share the framing and the reader.
 */
module Wal {
  import opened Keys
  import opened Coding
  import opened Payloads
  import opened Versions

  const HEADER_SIZE: nat := 9

  /** The CRC-32C crate; a checksum has 32 bits. */
  type Crc = Bytes -> nat

  ghost predicate Is32Bit(crc: Crc) {
    forall b :: crc(b) <= U32_MAX
  }

  function RecordFrame(crc: Crc, payload: Bytes): (b: Bytes)
    ensures |b| == HEADER_SIZE + |payload|
  {
    LeBytes(crc([1] + payload), 4) + (LeBytes(AsU32(|payload|), 4) + ([1] + payload))
  }

  function LogBytes(crc: Crc, payloads: seq<Bytes>): Bytes {
    if payloads == [] then [] else RecordFrame(crc, payloads[0]) + LogBytes(crc, payloads[1..])
  }

  class LogWriter {
    const crc: Crc
    var file: Bytes

    /** Logs are opened for appending. */
    constructor (crc: Crc, file: Bytes)
      ensures this.crc == crc && this.file == file
    {
      this.crc, this.file := crc, file;
    }

    method Append(payload: Bytes)
      modifies this`file
      ensures file == old(file) + RecordFrame(crc, payload)
    {
      hide LeBytes, AsU32;
      var checksum := crc([1] + payload);
      file := file + LeBytes(checksum, 4);
      file := file + LeBytes(AsU32(|payload|), 4);
      file := file + [1];
      file := file + payload;
    }
  }

  lemma {:induction false} LogBytesAppend(crc: Crc, a: seq<Bytes>, b: seq<Bytes>)
    ensures LogBytes(crc, a + b) == LogBytes(crc, a) + LogBytes(crc, b)
    decreases |a|
  {
    hide RecordFrame;
    if a == [] {
      assert a + b == b;
    } else {
      LogBytesAppend(crc, a[1..], b);
      assert (a + b)[1..] == a[1..] + b;
    }
  }

  // ----- reading

  /** The end of the log is also what a torn record, or a record without payload, reads as. */
  datatype ReadResult = Record(payload: Bytes, rest: Bytes) | EndOfLog | BadRecord

  function ReadRecord(crc: Crc, src: Bytes): (r: ReadResult)
    ensures r.Record? ==> |r.rest| < |src|
  {
    if |src| < HEADER_SIZE then EndOfLog
    else if src[8] != 1 then BadRecord
    else
      var len := LeValue(src[4..8]);
      if len == 0 || |src| - HEADER_SIZE < len then EndOfLog
      else
        var payload := src[HEADER_SIZE..HEADER_SIZE + len];
        if LeValue(src[0..4]) != crc([1] + payload) then BadRecord
        else Record(payload, src[HEADER_SIZE + len..])
  }

  function ReadLog(crc: Crc, src: Bytes): Option<seq<Bytes>>
    decreases |src|
  {
    match ReadRecord(crc, src)
    case EndOfLog => Some([])
    case BadRecord => None
    case Record(payload, rest) =>
      match ReadLog(crc, rest)
      case Some(tail) => Some([payload] + tail)
      case None => None
  }

  /** A file read forward; a read may return fewer bytes than asked for, but none only at the end. */
  class ReadableFile {
    const bytes: Bytes
    var pos: nat

    ghost predicate Valid()
      reads this
    {
      pos <= |bytes|
    }

    ghost function Rest(): Bytes
      requires Valid()
      reads this
    {
      bytes[pos..]
    }

    constructor (bytes: Bytes)
      ensures Valid() && Rest() == bytes
    {
      this.bytes, pos := bytes, 0;
    }

    method Read(max: nat) returns (chunk: Bytes)
      requires Valid()
      modifies this`pos
      ensures Valid() && |chunk| <= max && old(Rest()) == chunk + Rest()
      ensures chunk == [] <==> max == 0 || old(Rest()) == []
    {
      var most := if max < |bytes| - pos then max else |bytes| - pos;
      if most == 0 {
        return [];
      }
      var n :| 1 <= n <= most;
      chunk := bytes[pos..pos + n];
      pos := pos + n;
    }
  }

  /** Whether `len > 0` bytes could be read; short reads are repeated. */
  method ReadExactOrEof(file: ReadableFile, len: nat) returns (full: bool, data: Bytes)
    requires file.Valid()
    modifies file`pos
    ensures file.Valid()
    ensures full <==> 0 < len <= |old(file.Rest())|
    ensures full ==> data == old(file.Rest())[..len] && file.Rest() == old(file.Rest())[len..]
  {
    var readAny := false;
    data := [];
    ghost var all := file.Rest();
    assert [] + all == all;
    while |data| < len
      invariant file.Valid() && |data| <= len
      invariant data + file.Rest() == all
      invariant readAny <==> data != []
    {
      var chunk := file.Read(len - |data|);
      if chunk == [] {
        return false, data;
      }
      readAny := true;
      assert data + (chunk + file.Rest()) == (data + chunk) + file.Rest();
      data := data + chunk;
    }
    full := readAny;
    assert (data + file.Rest())[..|data|] == data && (data + file.Rest())[|data|..] == file.Rest();
  }

  method ReadNextRecord(crc: Crc, file: ReadableFile) returns (r: ReadResult)
    requires file.Valid()
    modifies file`pos
    ensures file.Valid()
    ensures r == ReadRecord(crc, old(file.Rest()))
    ensures r.Record? ==> file.Rest() == r.rest
  {
    hide LeValue;
    ghost var src := file.Rest();
    var full, header := ReadExactOrEof(file, HEADER_SIZE);
    if !full {
      return EndOfLog;
    }
    assert header[0..4] == src[0..4] && header[4..8] == src[4..8] && header[8] == src[8];
    if header[8] != 1 {
      return BadRecord;
    }
    var len := LeValue(header[4..8]);
    var payload;
    full, payload := ReadExactOrEof(file, len);
    if !full {
      return EndOfLog;
    }
    assert payload == src[HEADER_SIZE..HEADER_SIZE + len];
    if LeValue(header[0..4]) != crc([1] + payload) {
      return BadRecord;
    }
    r := Record(payload, file.bytes[file.pos..]);
  }

  method ReadAllRecords(crc: Crc, bytes: Bytes) returns (r: Option<seq<Bytes>>)
    ensures r == ReadLog(crc, bytes)
  {
    hide ReadRecord;
    var file := new ReadableFile(bytes);
    var payloads := [];
    ghost var src := bytes;
    PrefixedNothing(ReadLog(crc, bytes));
    while true
      invariant file.Valid() && file.Rest() == src
      invariant Prefixed(payloads, ReadLog(crc, src)) == ReadLog(crc, bytes)
      decreases |src|
    {
      var next := ReadNextRecord(crc, file);
      match next {
        case EndOfLog =>
          assert payloads + [] == payloads;
          return Some(payloads);
        case BadRecord =>
          return None;
        case Record(payload, rest) =>
          PrefixedTwice(payloads, payload, ReadLog(crc, rest));
          payloads := payloads + [payload];
          src := rest;
      }
    }
  }

  // ----- truncation

  lemma FrameReads(crc: Crc, payload: Bytes, rest: Bytes)
    requires Is32Bit(crc) && |payload| <= U32_MAX
    ensures ReadRecord(crc, RecordFrame(crc, payload) + rest) == if payload == [] then EndOfLog else Record(payload, rest)
  {
    hide LeBytes, LeValue;
    var src := RecordFrame(crc, payload) + rest;
    var sum := crc([1] + payload);
    assert src[0..4] == LeBytes(sum, 4);
    assert src[4..8] == LeBytes(AsU32(|payload|), 4);
    assert src[8] == 1;
    Pow256Values();
    LeRoundTrip(sum, 4);
    LeRoundTrip(|payload|, 4);
    assert AsU32(|payload|) == |payload|;
    if payload != [] {
      assert src[HEADER_SIZE..HEADER_SIZE + |payload|] == payload;
      assert src[HEADER_SIZE + |payload|..] == rest;
    }
  }

  lemma TornFrameReads(crc: Crc, payload: Bytes, cut: nat)
    requires |payload| <= U32_MAX && cut < |RecordFrame(crc, payload)|
    ensures ReadRecord(crc, RecordFrame(crc, payload)[..cut]) == EndOfLog
  {
    hide LeBytes, LeValue;
    if cut >= HEADER_SIZE {
      var src := RecordFrame(crc, payload)[..cut];
      assert src[8] == 1;
      assert src[4..8] == LeBytes(AsU32(|payload|), 4);
      Pow256Values();
      LeRoundTrip(|payload|, 4);
      assert AsU32(|payload|) == |payload|;
    }
  }

  /** How many records of a log cut at `cut` are whole, counting up to the first empty payload. */
  function WholeRecords(payloads: seq<Bytes>, cut: nat): (n: nat)
    ensures n <= |payloads|
  {
    if payloads == [] || payloads[0] == [] || cut < HEADER_SIZE + |payloads[0]| then 0
    else 1 + WholeRecords(payloads[1..], cut - HEADER_SIZE - |payloads[0]|)
  }

  predicate AllShort(payloads: seq<Bytes>) {
    forall p :: p in payloads ==> |p| <= U32_MAX
  }

  lemma CutFrames(frame: Bytes, tail: Bytes, cut: nat)
    requires cut <= |frame| + |tail|
    ensures cut < |frame| ==> (frame + tail)[..cut] == frame[..cut]
    ensures cut >= |frame| ==> (frame + tail)[..cut] == frame + tail[..cut - |frame|]
  {
  }

  lemma ReadLogStep(crc: Crc, src: Bytes)
    ensures ReadRecord(crc, src) == EndOfLog ==> ReadLog(crc, src) == Some([])
    ensures ReadRecord(crc, src).Record? ==>
              ReadLog(crc, src) == Prefixed([ReadRecord(crc, src).payload], ReadLog(crc, ReadRecord(crc, src).rest))
  {
    hide ReadRecord;
  }

  lemma LogStarts(crc: Crc, payloads: seq<Bytes>)
    ensures ReadRecord(crc, []) == EndOfLog
    ensures LogBytes(crc, payloads) ==
            if payloads == [] then [] else RecordFrame(crc, payloads[0]) + LogBytes(crc, payloads[1..])
  {
    hide RecordFrame;
  }

  /** A log cut anywhere reads, without error, as its whole records up to the first empty payload. */
  lemma {:induction false} TruncatedLog(crc: Crc, payloads: seq<Bytes>, cut: nat)
    requires Is32Bit(crc) && AllShort(payloads) && cut <= |LogBytes(crc, payloads)|
    ensures ReadLog(crc, LogBytes(crc, payloads)[..cut]) == Some(payloads[..WholeRecords(payloads, cut)])
    decreases |payloads|
  {
    hide ReadRecord, RecordFrame, LogBytes, ReadLog, Is32Bit;
    LogStarts(crc, payloads);
    ReadLogStep(crc, LogBytes(crc, payloads)[..cut]);
    if payloads != [] {
      var head, frame, tail := payloads[0], RecordFrame(crc, payloads[0]), LogBytes(crc, payloads[1..]);
      CutFrames(frame, tail, cut);
      if cut < |frame| {
        TornFrameReads(crc, head, cut);
      } else {
        FrameReads(crc, head, tail[..cut - |frame|]);
        if head != [] {
          TruncatedLog(crc, payloads[1..], cut - |frame|);
          FirstAndRest(payloads, WholeRecords(payloads[1..], cut - |frame|));
        }
      }
    }
  }

  lemma FirstAndRest(payloads: seq<Bytes>, n: nat)
    requires n < |payloads|
    ensures [payloads[0]] + payloads[1..][..n] == payloads[..n + 1]
  {
  }

  /** The count of whole records: their frames fit before the cut, and the next one does not or is empty. */
  lemma {:induction false} WholeRecordsExact(crc: Crc, payloads: seq<Bytes>, cut: nat)
    ensures var n := WholeRecords(payloads, cut);
            && |LogBytes(crc, payloads[..n])| <= cut
            && (forall i :: 0 <= i < n ==> payloads[i] != [])
            && (n < |payloads| ==> payloads[n] == [] || |LogBytes(crc, payloads[..n + 1])| > cut)
    decreases |payloads|
  {
    hide RecordFrame;
    var n := WholeRecords(payloads, cut);
    if n > 0 {
      var rest := payloads[1..];
      WholeRecordsExact(crc, rest, cut - HEADER_SIZE - |payloads[0]|);
      assert payloads[..n][1..] == rest[..n - 1];
      if n < |payloads| { assert payloads[..n + 1][1..] == rest[..n]; }
    } else if payloads != [] {
      assert payloads[..1][1..] == [];
    }
  }

  /** Without empty payloads a log cut anywhere reads as exactly the records that are whole, without error. */
  lemma TruncationTolerated(crc: Crc, payloads: seq<Bytes>, cut: nat, n: nat)
    requires Is32Bit(crc) && AllShort(payloads) && cut <= |LogBytes(crc, payloads)|
    requires forall p :: p in payloads ==> p != []
    requires n <= |payloads| && |LogBytes(crc, payloads[..n])| <= cut
    requires n < |payloads| ==> cut < |LogBytes(crc, payloads[..n + 1])|
    ensures ReadLog(crc, LogBytes(crc, payloads)[..cut]) == Some(payloads[..n])
  {
    hide ReadLog, LogBytes, WholeRecords;
    TruncatedLog(crc, payloads, cut);
    WholeRecordsExact(crc, payloads, cut);
    var m := WholeRecords(payloads, cut);
    assert m < |payloads| ==> payloads[m] in payloads;
    PrefixGrows(crc, payloads, n + 1, m);
    PrefixGrows(crc, payloads, m + 1, n);
  }

  lemma PrefixGrows(crc: Crc, payloads: seq<Bytes>, i: nat, j: nat)
    ensures i <= j <= |payloads| ==> |LogBytes(crc, payloads[..i])| <= |LogBytes(crc, payloads[..j])|
  {
    if i <= j <= |payloads| {
      LogBytesAppend(crc, payloads[..i], payloads[i..j]);
      assert payloads[..i] + payloads[i..j] == payloads[..j];
    }
  }

  /** A whole log reads back exactly when no payload is empty: an empty payload hides everything after it. */
  lemma LogRoundTrip(crc: Crc, payloads: seq<Bytes>)
    requires Is32Bit(crc) && AllShort(payloads)
    ensures ReadLog(crc, LogBytes(crc, payloads)) == Some(payloads) <==> forall p :: p in payloads ==> p != []
  {
    hide ReadLog, LogBytes, WholeRecords;
    var all := LogBytes(crc, payloads);
    assert all[..|all|] == all;
    TruncatedLog(crc, payloads, |all|);
    WholeRecordsExact(crc, payloads, |all|);
    var n := WholeRecords(payloads, |all|);
    assert payloads[..|payloads|] == payloads;
    PrefixGrows(crc, payloads, n + 1, |payloads|);
    if n < |payloads| {
      assert payloads[n] == [];
      assert payloads[n] in payloads;
      assert |payloads[..n]| != |payloads|;
    } else {
      forall p | p in payloads ensures p != [] {
        var i :| 0 <= i < |payloads| && payloads[i] == p;
      }
    }
  }

  /** A record without payload, and everything behind it is lost to the reader. */
  lemma EmptyPayloadHidesRest(crc: Crc)
    requires Is32Bit(crc)
    ensures ReadLog(crc, LogBytes(crc, [[], [7]])) == Some([])
  {
    var payloads: seq<Bytes> := [[], [7]];
    hide ReadLog, LogBytes;
    var all := LogBytes(crc, payloads);
    assert all[..|all|] == all;
    TruncatedLog(crc, payloads, |all|);
  }

  // ----- the MANIFEST

  function EditPayloads(edits: seq<VersionEdit>): seq<Bytes> {
    seq(|edits|, i requires 0 <= i < |edits| => EditBytes(edits[i]))
  }

  function DecodeEdits(payloads: seq<Bytes>): Option<seq<VersionEdit>> {
    if payloads == [] then Some([])
    else
      match DecodeEdit(payloads[0])
      case None => None
      case Some(e) => Prefixed([e], DecodeEdits(payloads[1..]))
  }

  /** The reader decodes records as it goes, so either kind of damage ends it. */
  function ReadManifest(crc: Crc, bytes: Bytes): Option<seq<VersionEdit>> {
    match ReadLog(crc, bytes)
    case None => None
    case Some(payloads) => DecodeEdits(payloads)
  }

  lemma ReadManifestStep(crc: Crc, src: Bytes)
    ensures ReadManifest(crc, src) ==
            match ReadRecord(crc, src)
            case EndOfLog => Some([])
            case BadRecord => None
            case Record(payload, rest) =>
              if DecodeEdit(payload).None? then None else Prefixed([DecodeEdit(payload).value], ReadManifest(crc, rest))
  {
    hide ReadRecord, DecodeEdit;
    match ReadRecord(crc, src)
    case Record(payload, rest) =>
      if ReadLog(crc, rest).Some? {
        assert ([payload] + ReadLog(crc, rest).value)[1..] == ReadLog(crc, rest).value;
      }
    case _ =>
  }

  method ReadAllEdits(crc: Crc, bytes: Bytes) returns (r: Option<seq<VersionEdit>>)
    ensures r == ReadManifest(crc, bytes)
  {
    hide ReadRecord, ReadManifest, DecodeEdit;
    var file := new ReadableFile(bytes);
    var edits := [];
    ghost var src := bytes;
    PrefixedNothing(ReadManifest(crc, bytes));
    while true
      invariant file.Valid() && file.Rest() == src
      invariant Prefixed(edits, ReadManifest(crc, src)) == ReadManifest(crc, bytes)
      decreases |src|
    {
      ReadManifestStep(crc, src);
      var next := ReadNextRecord(crc, file);
      match next {
        case EndOfLog =>
          assert edits + [] == edits;
          return Some(edits);
        case BadRecord =>
          return None;
        case Record(payload, rest) =>
          var edit := DecodeEdit(payload);
          if edit.None? {
            return None;
          }
          PrefixedTwice(edits, edit.value, ReadManifest(crc, rest));
          edits := edits + [edit.value];
          src := rest;
      }
    }
  }

  lemma {:induction false} EditsDecode(edits: seq<VersionEdit>)
    requires forall e :: e in edits ==> EditFits(e)
    ensures DecodeEdits(EditPayloads(edits)) == Some(edits)
  {
    hide EditBytes, DecodeEdit, EditFits;
    if edits != [] {
      EditRoundTrip(edits[0]);
      EditsDecode(edits[1..]);
      assert EditPayloads(edits)[1..] == EditPayloads(edits[1..]);
      assert [edits[0]] + edits[1..] == edits;
    }
  }

  /** A MANIFEST cut anywhere reads as the edits whose records are whole. */
  lemma ManifestTruncation(crc: Crc, edits: seq<VersionEdit>, cut: nat, n: nat)
    requires Is32Bit(crc) && (forall e :: e in edits ==> EditFits(e) && |EditBytes(e)| <= U32_MAX)
    requires cut <= |LogBytes(crc, EditPayloads(edits))|
    requires n <= |edits| && |LogBytes(crc, EditPayloads(edits[..n]))| <= cut
    requires n < |edits| ==> cut < |LogBytes(crc, EditPayloads(edits[..n + 1]))|
    ensures ReadManifest(crc, LogBytes(crc, EditPayloads(edits))[..cut]) == Some(edits[..n])
  {
    hide ReadLog, LogBytes, EditBytes, EditFits, DecodeEdits;
    var payloads := EditPayloads(edits);
    forall p | p in payloads ensures p != [] && |p| <= U32_MAX {
      var i :| 0 <= i < |edits| && p == EditBytes(edits[i]);
      EditBytesNonEmpty(edits[i]);
    }
    assert EditPayloads(edits[..n]) == payloads[..n];
    if n < |edits| { assert EditPayloads(edits[..n + 1]) == payloads[..n + 1]; }
    TruncationTolerated(crc, payloads, cut, n);
    EditsDecode(edits[..n]);
  }

  lemma ManifestRoundTrip(crc: Crc, edits: seq<VersionEdit>)
    requires Is32Bit(crc) && (forall e :: e in edits ==> EditFits(e) && |EditBytes(e)| <= U32_MAX)
    ensures ReadManifest(crc, LogBytes(crc, EditPayloads(edits))) == Some(edits)
  {
    hide LogBytes, EditBytes, EditFits, ReadManifest;
    var bytes := LogBytes(crc, EditPayloads(edits));
    assert edits[..|edits|] == edits && bytes[..|bytes|] == bytes;
    ManifestTruncation(crc, edits, |bytes|, |edits|);
  }
}
