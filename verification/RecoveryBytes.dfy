/**
 Opening from bytes: the MANIFEST and the log are framed records of edits and batches, and a log may end in a
 torn record.
 */
module RecoveryBytes {
  import opened Keys
  import opened Coding
  import opened Payloads
  import opened Wal
  import opened MemTables
  import opened Lsm
  import opened Manifest
  import opened Recovery

  function BatchPayloads(wal: seq<Logged>): seq<Bytes> {
    seq(|wal|, i requires 0 <= i < |wal| => BatchBytes(wal[i].start, wal[i].batch))
  }

  function EncodedLog(crc: Crc, wal: seq<Logged>): Bytes { LogBytes(crc, BatchPayloads(wal)) }

  function DecodeBatches(payloads: seq<Bytes>): Option<seq<Logged>> {
    if payloads == [] then Some([])
    else
      match DecodeBatch(payloads[0])
      case None => None
      case Some(b) => Prefixed([Logged(b.0, b.1)], DecodeBatches(payloads[1..]))
  }

  function ReadBatches(crc: Crc, bytes: Bytes): Option<seq<Logged>> {
    match ReadLog(crc, bytes)
    case None => None
    case Some(payloads) => DecodeBatches(payloads)
  }

  ghost predicate LogFits(wal: seq<Logged>) {
    forall l :: l in wal ==> BatchFits(l.start, l.batch) && |BatchBytes(l.start, l.batch)| <= U32_MAX
  }

  lemma {:induction false} BatchesDecode(wal: seq<Logged>)
    requires LogFits(wal)
    ensures DecodeBatches(BatchPayloads(wal)) == Some(wal)
  {
    hide DecodeBatch, BatchBytes, BatchFits;
    if wal != [] {
      BatchRoundTrip(wal[0].start, wal[0].batch);
      BatchesDecode(wal[1..]);
      assert BatchPayloads(wal)[1..] == BatchPayloads(wal[1..]);
      assert [wal[0]] + wal[1..] == wal;
    }
  }

  /** A log cut anywhere reads as the batches whose records are whole. */
  lemma LogTruncation(crc: Crc, wal: seq<Logged>, cut: nat, n: nat)
    requires Is32Bit(crc) && LogFits(wal) && cut <= |EncodedLog(crc, wal)|
    requires n <= |wal| && |EncodedLog(crc, wal[..n])| <= cut
    requires n < |wal| ==> cut < |EncodedLog(crc, wal[..n + 1])|
    ensures ReadBatches(crc, EncodedLog(crc, wal)[..cut]) == Some(wal[..n])
  {
    hide ReadLog, LogBytes, BatchBytes, BatchFits, DecodeBatches;
    var payloads := BatchPayloads(wal);
    forall p | p in payloads ensures p != [] && |p| <= U32_MAX {
      var i :| 0 <= i < |wal| && p == BatchBytes(wal[i].start, wal[i].batch);
      BatchBytesNonEmpty(wal[i].start, wal[i].batch);
    }
    assert BatchPayloads(wal[..n]) == payloads[..n];
    if n < |wal| { assert BatchPayloads(wal[..n + 1]) == payloads[..n + 1]; }
    TruncationTolerated(crc, payloads, cut, n);
    BatchesDecode(wal[..n]);
  }

  lemma ReadBatchesStep(crc: Crc, src: Bytes)
    ensures ReadBatches(crc, src) ==
            match ReadRecord(crc, src)
            case EndOfLog => Some([])
            case BadRecord => None
            case Record(payload, rest) =>
              if DecodeBatch(payload).None? then None
              else Prefixed([Logged(DecodeBatch(payload).value.0, DecodeBatch(payload).value.1)], ReadBatches(crc, rest))
  {
    hide ReadRecord, DecodeBatch;
    match ReadRecord(crc, src)
    case Record(payload, rest) =>
      if ReadLog(crc, rest).Some? {
        assert ([payload] + ReadLog(crc, rest).value)[1..] == ReadLog(crc, rest).value;
      }
    case _ =>
  }

  lemma ReplaySnocLog(wal: seq<Logged>, l: Logged, last: nat)
    ensures ReplayMemtable(wal + [l]) == InsertAll(ReplayMemtable(wal), BatchEntries(l.start, l.batch))
    ensures ReplayLast(last, wal + [l]) == LastOf(ReplayLast(last, wal), l)
  {
    hide InsertAll, BatchEntries;
    assert (wal + [l])[..|wal|] == wal;
  }

  /** `recover_wal`: every batch of the log goes into the memtable, under the sequences it was written with. */
  method RecoverWal(crc: Crc, bytes: Bytes, lastSequence: nat) returns (ok: bool, mutable: MemTable, last: nat)
    ensures ok <==> ReadBatches(crc, bytes).Some?
    ensures ok ==> mutable == ReplayMemtable(ReadBatches(crc, bytes).value)
    ensures ok ==> last == ReplayLast(lastSequence, ReadBatches(crc, bytes).value)
  {
    hide ReadRecord, ReadBatches, DecodeBatch, InsertAll, BatchEntries;
    var file := new ReadableFile(bytes);
    mutable, last := EMPTY_MEMTABLE, lastSequence;
    ghost var src, wal := bytes, [];
    PrefixedNothing(ReadBatches(crc, bytes));
    while true
      invariant file.Valid() && file.Rest() == src
      invariant Prefixed(wal, ReadBatches(crc, src)) == ReadBatches(crc, bytes)
      invariant mutable == ReplayMemtable(wal) && last == ReplayLast(lastSequence, wal)
      decreases |src|
    {
      ReadBatchesStep(crc, src);
      var next := ReadNextRecord(crc, file);
      match next {
        case EndOfLog =>
          assert wal + [] == wal;
          return true, mutable, last;
        case BadRecord =>
          return false, mutable, last;
        case Record(payload, rest) =>
          var decoded := DecodePayload(payload);
          if decoded.None? {
            return false, mutable, last;
          }
          var l := Logged(decoded.value.0, decoded.value.1);
          PrefixedTwice(wal, l, ReadBatches(crc, rest));
          ReplaySnocLog(wal, l, lastSequence);
          mutable := InsertAll(mutable, BatchEntries(l.start, l.batch));
          last := LastOf(last, l);
          wal := wal + [l];
          src := rest;
      }
    }
  }

  // ----- opening

  datatype DiskBytes = DiskBytes(manifest: Bytes, files: map<nat, seq<Entry>>, logs: map<nat, Bytes>)

  function OpenBytes(crc: Crc, maxLevels: nat, disk: DiskBytes): Option<Db> {
    match Recovered(crc, maxLevels, disk.manifest)
    case None => None
    case Some(vs) =>
      if !TablesExist(vs.current, disk.files) then None
      else
        match (if vs.logNumber in disk.logs then ReadBatches(crc, disk.logs[vs.logNumber]) else Some([]))
        case None => None
        case Some(wal) =>
          Some(Db(ReplayMemtable(wal), [], vs.current, disk.files, ReplayLast(vs.lastSequence, wal), vs.nextFileNumber, multiset{}))
  }

  function Encoded(crc: Crc, disk: Disk): DiskBytes {
    DiskBytes(LogBytes(crc, EditPayloads(disk.edits)), disk.files, map n | n in disk.logs :: EncodedLog(crc, disk.logs[n]))
  }

  ghost predicate DiskFits(disk: Disk) {
    && (forall e :: e in disk.edits ==> EditFits(e) && |EditBytes(e)| <= U32_MAX)
    && forall n :: n in disk.logs ==> LogFits(disk.logs[n])
  }

  /**
   Opening the bytes of a disk whose current log was cut anywhere is opening the disk whose log ends with the
   last whole batch.
   */
  lemma OpensFromBytes(crc: Crc, maxLevels: nat, disk: Disk, cut: nat, n: nat)
    requires Is32Bit(crc) && DiskFits(disk) && LogNumberOf(maxLevels, disk) in disk.logs
    requires var wal := disk.logs[LogNumberOf(maxLevels, disk)];
             && cut <= |EncodedLog(crc, wal)| && n <= |wal| && |EncodedLog(crc, wal[..n])| <= cut
             && (n < |wal| ==> cut < |EncodedLog(crc, wal[..n + 1])|)
    ensures var log, bytes := LogNumberOf(maxLevels, disk), Encoded(crc, disk);
            OpenBytes(crc, maxLevels, bytes.(logs := bytes.logs[log := bytes.logs[log][..cut]]))
            == OpenDb(maxLevels, disk.(logs := disk.logs[log := disk.logs[log][..n]]))
  {
    hide ReadBatches, EncodedLog, Replay, InitialState, LogFits, EditFits, ReplayMemtable, ReplayLast, TablesExist, ReadManifest, LogBytes;
    var log := LogNumberOf(maxLevels, disk);
    ManifestRoundTrip(crc, disk.edits);
    LogTruncation(crc, disk.logs[log], cut, n);
  }

  /** Without a torn record the bytes open as the disk they encode. */
  lemma OpensWhole(crc: Crc, maxLevels: nat, disk: Disk)
    requires Is32Bit(crc) && DiskFits(disk) && LogNumberOf(maxLevels, disk) in disk.logs
    ensures OpenBytes(crc, maxLevels, Encoded(crc, disk)) == OpenDb(maxLevels, disk)
  {
    hide OpenBytes, OpenDb, EncodedLog, LogNumberOf, DiskFits, Is32Bit;
    var log, bytes := LogNumberOf(maxLevels, disk), Encoded(crc, disk);
    var wal := disk.logs[log];
    var cut := |EncodedLog(crc, wal)|;
    assert wal[..|wal|] == wal && EncodedLog(crc, wal)[..cut] == EncodedLog(crc, wal);
    OpensFromBytes(crc, maxLevels, disk, cut, |wal|);
    assert bytes.logs[log := bytes.logs[log][..cut]] == bytes.logs;
    assert disk.logs[log := wal[..|wal|]] == disk.logs;
  }
}
