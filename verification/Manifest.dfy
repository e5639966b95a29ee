/**
 The version set (src/version/version_set.rs): counters and the current version, changed by logged edits and
 by allocation of file numbers, and rebuilt from the MANIFEST.
 */
module Manifest {
  import opened Keys
  import opened Coding
  import opened Versions
  import opened Payloads
  import opened Wal

  datatype VersionState = VersionState(current: Version, nextFileNumber: nat, lastSequence: nat, logNumber: nat)

  function Max(a: nat, b: nat): nat { if a > b then a else b }

  function InitialState(maxLevels: nat): VersionState {
    VersionState(EmptyVersion(maxLevels), 2, 0, 1)
  }

  /** An edit for a level that does not exist fails, though its file number has been passed by then. */
  function ApplyEdit(vs: VersionState, edit: VersionEdit): VersionState {
    match edit
    case NextFileNumber(number) => vs.(nextFileNumber := Max(vs.nextFileNumber, number))
    case LastSequence(sequence) => vs.(lastSequence := Max(vs.lastSequence, sequence))
    case LogNumber(log) => vs.(logNumber := log, nextFileNumber := Max(vs.nextFileNumber, log + 1))
    case AddFile(level, meta) =>
      var passed := vs.(nextFileNumber := Max(vs.nextFileNumber, meta.number + 1));
      if ApplyToVersion(vs.current, edit).Some? then passed.(current := ApplyToVersion(vs.current, edit).value) else passed
    case DeleteFile(level, number) =>
      if ApplyToVersion(vs.current, edit).Some? then vs.(current := ApplyToVersion(vs.current, edit).value) else vs
  }

  predicate EditOk(vs: VersionState, edit: VersionEdit) {
    ApplyToVersion(vs.current, edit).Some?
  }

  /** Applying edits one after another; None as soon as one fails. */
  function Replay(vs: VersionState, edits: seq<VersionEdit>): Option<VersionState>
    decreases |edits|
  {
    if edits == [] then Some(vs)
    else if EditOk(vs, edits[0]) then Replay(ApplyEdit(vs, edits[0]), edits[1..])
    else None
  }

  /** What a new MANIFEST starts with. */
  const InitialEdits: seq<VersionEdit> := [NextFileNumber(2), LogNumber(1), LastSequence(0)]

  lemma InitialReplay(maxLevels: nat)
    ensures Replay(InitialState(maxLevels), InitialEdits) == Some(InitialState(maxLevels))
  {
    var s := InitialState(maxLevels);
    assert InitialEdits[1..] == [LogNumber(1), LastSequence(0)];
    assert Replay(s, [LastSequence(0)]) == Replay(s, []);
    assert [LogNumber(1), LastSequence(0)][1..] == [LastSequence(0)];
  }

  lemma {:induction false} ReplayAppend(vs: VersionState, a: seq<VersionEdit>, b: seq<VersionEdit>)
    ensures Replay(vs, a + b) == (match Replay(vs, a) case Some(mid) => Replay(mid, b) case None => None)
    decreases |a|
  {
    hide ApplyEdit, EditOk;
    if a == [] {
      assert a + b == b;
    } else {
      assert (a + b)[1..] == a[1..] + b;
      if EditOk(vs, a[0]) {
        ReplayAppend(ApplyEdit(vs, a[0]), a[1..], b);
      }
    }
  }

  lemma ReplaySnoc(vs: VersionState, edits: seq<VersionEdit>, e: VersionEdit)
    requires Replay(vs, edits).Some?
    ensures var mid := Replay(vs, edits).value;
            Replay(vs, edits + [e]) == if EditOk(mid, e) then Some(ApplyEdit(mid, e)) else None
  {
    hide ApplyEdit, EditOk;
    ReplayAppend(vs, edits, [e]);
    assert [e][1..] == [];
  }

  // ----- runs of one process

  datatype Op = Log(edit: VersionEdit) | Allocate

  /** The live state, the edits in the MANIFEST, and the numbers handed out in this run. */
  datatype Live = Live(vs: VersionState, edits: seq<VersionEdit>, handedOut: seq<nat>)

  function DoOp(l: Live, op: Op): Live {
    match op
    case Log(edit) => Live(ApplyEdit(l.vs, edit), l.edits + [edit], l.handedOut)
    case Allocate =>
      Live(l.vs.(nextFileNumber := l.vs.nextFileNumber + 1), l.edits, l.handedOut + [l.vs.nextFileNumber])
  }

  function RunOps(l: Live, ops: seq<Op>): Live {
    if ops == [] then l else DoOp(RunOps(l, ops[..|ops| - 1]), ops[|ops| - 1])
  }

  /** Every edit of the run was for a level that exists. */
  predicate AllOk(l: Live, ops: seq<Op>) {
    ops == [] ||
    var n := |ops| - 1;
    AllOk(l, ops[..n]) && (ops[n].Log? ==> EditOk(RunOps(l, ops[..n]).vs, ops[n].edit))
  }

  function Created(maxLevels: nat): Live {
    Live(InitialState(maxLevels), InitialEdits, [])
  }

  /** The live state is what replay gives, but for numbers handed out without an edit. */
  ghost predicate Refines(live: VersionState, replayed: VersionState) {
    && replayed.current == live.current
    && replayed.logNumber == live.logNumber
    && replayed.lastSequence == live.lastSequence
    && replayed.nextFileNumber <= live.nextFileNumber
  }

  /** No number in use is handed out again. */
  ghost predicate NumbersPassed(vs: VersionState) {
    && vs.logNumber < vs.nextFileNumber
    && (forall f :: f in vs.current.l0Files ==> f.number < vs.nextFileNumber)
    && (forall n, f :: 0 <= n < |vs.current.levels| && f in vs.current.levels[n] ==> f.number < vs.nextFileNumber)
  }

  lemma ApplyRefines(live: VersionState, replayed: VersionState, e: VersionEdit)
    requires Refines(live, replayed)
    ensures EditOk(live, e) <==> EditOk(replayed, e)
    ensures Refines(ApplyEdit(live, e), ApplyEdit(replayed, e))
  {
    hide ApplyToVersion;
  }

  lemma ApplyPasses(vs: VersionState, e: VersionEdit)
    requires NumbersPassed(vs)
    ensures NumbersPassed(ApplyEdit(vs, e))
  {
    var t := ApplyEdit(vs, e);
    match e
    case AddFile(level, meta) =>
      if ValidLevel(vs.current, level) {
        var files := WithFile(LevelFiles(vs.current, level), level, meta);
        assert t.current == WithLevel(vs.current, level, files);
      }
    case DeleteFile(level, number) =>
      if ValidLevel(vs.current, level) {
        var files := Retain(LevelFiles(vs.current, level), {number});
        assert t.current == WithLevel(vs.current, level, files);
      }
    case _ =>
  }

  lemma {:induction false} ReplayPasses(vs: VersionState, edits: seq<VersionEdit>)
    requires NumbersPassed(vs) && Replay(vs, edits).Some?
    ensures NumbersPassed(Replay(vs, edits).value)
    decreases |edits|
  {
    hide NumbersPassed, ApplyEdit, EditOk;
    if edits != [] {
      ApplyPasses(vs, edits[0]);
      ReplayPasses(ApplyEdit(vs, edits[0]), edits[1..]);
    }
  }

  lemma InitialPasses(maxLevels: nat)
    ensures NumbersPassed(InitialState(maxLevels))
  {
  }

  /** The edits in the MANIFEST replay to a state that the live one refines. */
  ghost predicate Backed(maxLevels: nat, l: Live) {
    var r := Replay(InitialState(maxLevels), l.edits);
    r.Some? && Refines(l.vs, r.value)
  }

  lemma CreatedBacked(maxLevels: nat)
    ensures Backed(maxLevels, Created(maxLevels))
  {
    InitialReplay(maxLevels);
  }

  lemma AllocateRefines(live: VersionState, replayed: VersionState)
    requires Refines(live, replayed)
    ensures Refines(live.(nextFileNumber := live.nextFileNumber + 1), replayed)
  {
  }

  lemma {:induction false} RunRefines(maxLevels: nat, l0: Live, ops: seq<Op>)
    requires Backed(maxLevels, l0) && AllOk(l0, ops)
    ensures Backed(maxLevels, RunOps(l0, ops))
    decreases |ops|
  {
    hide ApplyEdit, EditOk, Replay, Refines;
    if ops != [] {
      var n := |ops| - 1;
      RunRefines(maxLevels, l0, ops[..n]);
      var l := RunOps(l0, ops[..n]);
      match ops[n]
      case Log(e) =>
        ReplaySnoc(InitialState(maxLevels), l.edits, e);
        ApplyRefines(l.vs, Replay(InitialState(maxLevels), l.edits).value, e);
      case Allocate =>
        AllocateRefines(l.vs, Replay(InitialState(maxLevels), l.edits).value);
    }
  }

  /** What a process starts from when it reopens the database. */
  function Reopened(maxLevels: nat, edits: seq<VersionEdit>): Live
    requires Replay(InitialState(maxLevels), edits).Some?
  {
    Live(Replay(InitialState(maxLevels), edits).value, edits, [])
  }

  /**
   After any run of valid edits and allocations, of a new database or of a reopened one, recovery from the
   MANIFEST gives the same version, log number and last sequence; its next file number is at most the live one
   and above every number in use.
   */
  lemma RecoveryRefines(maxLevels: nat, l0: Live, ops: seq<Op>)
    requires Backed(maxLevels, l0) && AllOk(l0, ops)
    ensures var edits := RunOps(l0, ops).edits;
            && Replay(InitialState(maxLevels), edits).Some?
            && Refines(RunOps(l0, ops).vs, Reopened(maxLevels, edits).vs)
            && NumbersPassed(Reopened(maxLevels, edits).vs)
            && Backed(maxLevels, Reopened(maxLevels, edits))
  {
    hide RunOps, AllOk, Replay, NumbersPassed;
    RunRefines(maxLevels, l0, ops);
    InitialPasses(maxLevels);
    ReplayPasses(InitialState(maxLevels), RunOps(l0, ops).edits);
  }

  /**
   Edits are logged before they are checked, so recovery succeeds exactly when none was for a level that does
   not exist.
   */
  lemma {:induction false} RecoversIffValid(maxLevels: nat, l0: Live, ops: seq<Op>)
    requires Backed(maxLevels, l0)
    ensures Replay(InitialState(maxLevels), RunOps(l0, ops).edits).Some? <==> AllOk(l0, ops)
    decreases |ops|
  {
    hide ApplyEdit, EditOk, Replay, Refines;
    if ops != [] {
      var n := |ops| - 1;
      var init := InitialState(maxLevels);
      var l := RunOps(l0, ops[..n]);
      RecoversIffValid(maxLevels, l0, ops[..n]);
      if ops[n].Log? {
        if AllOk(l0, ops[..n]) {
          RunRefines(maxLevels, l0, ops[..n]);
          ReplaySnoc(init, l.edits, ops[n].edit);
          ApplyRefines(l.vs, Replay(init, l.edits).value, ops[n].edit);
        } else {
          ReplayAppend(init, l.edits, [ops[n].edit]);
        }
      }
    }
  }

  /** The level a table edit names; other edits name none. */
  function NamedLevel(e: VersionEdit): nat {
    match e
    case AddFile(level, _) => level
    case DeleteFile(level, _) => level
    case _ => 0
  }

  predicate LevelExists(e: VersionEdit, levels: nat) { NamedLevel(e) == 0 || NamedLevel(e) < levels }

  lemma OkIfLevelExists(vs: VersionState, e: VersionEdit)
    ensures EditOk(vs, e) <==> LevelExists(e, |vs.current.levels|)
    ensures |ApplyEdit(vs, e).current.levels| == |vs.current.levels|
  {
  }

  /** Edits replay with a number of levels if and only if every level they name exists. */
  lemma {:induction false} ReplaysIffLevels(vs: VersionState, edits: seq<VersionEdit>)
    ensures Replay(vs, edits).Some? <==> forall e :: e in edits ==> LevelExists(e, |vs.current.levels|)
    decreases |edits|
  {
    if edits != [] {
      OkIfLevelExists(vs, edits[0]);
      hide ApplyEdit, EditOk, LevelExists;
      ReplaysIffLevels(ApplyEdit(vs, edits[0]), edits[1..]);
      assert forall e :: e in edits <==> e == edits[0] || e in edits[1..];
    }
  }

  /** A MANIFEST written with three levels, one file in the third, does not recover with two. */
  lemma FewerLevelsDoNotRecover(meta: FileMeta)
    ensures AllOk(Created(3), [Log(AddFile(2, meta))])
    ensures var edits := RunOps(Created(3), [Log(AddFile(2, meta))]).edits;
            Replay(InitialState(3), edits).Some? && Replay(InitialState(2), edits) == None
  {
    var op := Log(AddFile(2, meta));
    assert [op][..0] == [];
    var l := RunOps(Created(3), [op]);
    assert RunOps(Created(3), [op]) == DoOp(RunOps(Created(3), []), op);
    assert l.edits == InitialEdits + [AddFile(2, meta)];
    hide ApplyEdit, WithFile;
    ReplaysIffLevels(InitialState(3), l.edits);
    ReplaysIffLevels(InitialState(2), l.edits);
    assert AddFile(2, meta) in l.edits;
  }

  lemma NextGrows(vs: VersionState, e: VersionEdit)
    ensures vs.nextFileNumber <= ApplyEdit(vs, e).nextFileNumber
  {
    hide ApplyToVersion;
  }

  /** The numbers handed out in one run are strictly increasing, whatever edits come in between. */
  lemma {:induction false} AllocationsIncrease(l: Live, ops: seq<Op>)
    requires l.handedOut == []
    ensures var a := RunOps(l, ops).handedOut;
            && (forall i, j :: 0 <= i < j < |a| ==> a[i] < a[j])
            && (forall i :: 0 <= i < |a| ==> l.vs.nextFileNumber <= a[i] < RunOps(l, ops).vs.nextFileNumber)
    ensures l.vs.nextFileNumber <= RunOps(l, ops).vs.nextFileNumber
    decreases |ops|
  {
    hide ApplyEdit;
    if ops != [] {
      var n := |ops| - 1;
      AllocationsIncrease(l, ops[..n]);
      if ops[n].Log? {
        NextGrows(RunOps(l, ops[..n]).vs, ops[n].edit);
      }
    }
  }

  // ----- the version set

  class VersionSet {
    const crc: Crc
    var vs: VersionState
    var manifest: LogWriter
    ghost const maxLevels: nat
    ghost var edits: seq<VersionEdit>

    /** The MANIFEST holds the edits, and the state refines their replay as long as they are all valid. */
    ghost predicate Valid()
      reads this, manifest
    {
      && manifest.crc == crc
      && manifest.file == LogBytes(crc, EditPayloads(edits))
      && (Replay(InitialState(maxLevels), edits).Some? ==> Refines(vs, Replay(InitialState(maxLevels), edits).value))
    }

    constructor Create(crc: Crc, maxLevels: nat)
      ensures Valid() && fresh(manifest)
      ensures vs == InitialState(maxLevels) && edits == InitialEdits && this.maxLevels == maxLevels
    {
      this.crc, this.maxLevels := crc, maxLevels;
      vs := InitialState(maxLevels);
      manifest := new LogWriter(crc, []);
      edits := InitialEdits;
      new;
      manifest.Append(EditBytes(NextFileNumber(2)));
      manifest.Append(EditBytes(LogNumber(1)));
      manifest.Append(EditBytes(LastSequence(0)));
      InitialManifest(crc);
      InitialReplay(maxLevels);
    }

    /** Takes over a MANIFEST without a torn tail and the state recovered from it. */
    constructor Reopen(crc: Crc, maxLevels: nat, file: Bytes, recovered: VersionState, ghost read: seq<VersionEdit>)
      requires file == LogBytes(crc, EditPayloads(read)) && Replay(InitialState(maxLevels), read) == Some(recovered)
      ensures Valid() && fresh(manifest)
      ensures vs == recovered && edits == read && this.maxLevels == maxLevels
    {
      this.crc, this.maxLevels := crc, maxLevels;
      vs := recovered;
      manifest := new LogWriter(crc, file);
      edits := read;
    }

    method AllocateFileNumber() returns (number: nat)
      requires Valid()
      modifies this`vs
      ensures Valid()
      ensures number == old(vs).nextFileNumber && vs == old(vs).(nextFileNumber := number + 1)
    {
      number := vs.nextFileNumber;
      vs := vs.(nextFileNumber := number + 1);
    }

    /** The edit is in the MANIFEST whether or not it can be applied. */
    method LogAndApply(edit: VersionEdit) returns (ok: bool)
      requires Valid()
      modifies this`vs, this`edits, manifest
      ensures Valid() && edits == old(edits) + [edit]
      ensures ok == EditOk(old(vs), edit) && vs == ApplyEdit(old(vs), edit)
    {
      hide ApplyEdit, EditOk, Replay, LogBytes, RecordFrame;
      manifest.Append(EditBytes(edit));
      EditPayloadsSnoc(crc, edits, edit);
      ok := EditOk(vs, edit);
      if Replay(InitialState(maxLevels), edits).Some? {
        ReplaySnoc(InitialState(maxLevels), edits, edit);
        ApplyRefines(vs, Replay(InitialState(maxLevels), edits).value, edit);
      } else {
        ReplayAppend(InitialState(maxLevels), edits, [edit]);
      }
      vs := ApplyEdit(vs, edit);
      edits := edits + [edit];
    }
  }

  lemma EditPayloadsSnoc(crc: Crc, edits: seq<VersionEdit>, e: VersionEdit)
    ensures LogBytes(crc, EditPayloads(edits + [e])) == LogBytes(crc, EditPayloads(edits)) + RecordFrame(crc, EditBytes(e))
  {
    hide EditBytes, RecordFrame;
    assert EditPayloads(edits + [e]) == EditPayloads(edits) + [EditBytes(e)];
    LogBytesAppend(crc, EditPayloads(edits), [EditBytes(e)]);
    assert [EditBytes(e)][1..] == [];
  }

  lemma InitialManifest(crc: Crc)
    ensures LogBytes(crc, EditPayloads(InitialEdits)) ==
            [] + RecordFrame(crc, EditBytes(NextFileNumber(2))) + RecordFrame(crc, EditBytes(LogNumber(1)))
            + RecordFrame(crc, EditBytes(LastSequence(0)))
  {
    assert LogBytes(crc, EditPayloads([])) == [];
    hide EditBytes, RecordFrame, LogBytes;
    var a, b := [NextFileNumber(2)], [NextFileNumber(2), LogNumber(1)];
    EditPayloadsSnoc(crc, [], NextFileNumber(2));
    EditPayloadsSnoc(crc, a, LogNumber(1));
    EditPayloadsSnoc(crc, b, LastSequence(0));
    assert [] + [NextFileNumber(2)] == a && a + [LogNumber(1)] == b && b + [LastSequence(0)] == InitialEdits;
  }

  function Recovered(crc: Crc, maxLevels: nat, file: Bytes): Option<VersionState> {
    match ReadManifest(crc, file)
    case None => None
    case Some(edits) => Replay(InitialState(maxLevels), edits)
  }

  /** Recovery fails on a damaged record or an edit that cannot be applied. */
  method Recover(crc: Crc, maxLevels: nat, file: Bytes) returns (r: Option<VersionState>)
    ensures r == Recovered(crc, maxLevels, file)
  {
    hide ApplyEdit, EditOk, ReadManifest;
    var state := InitialState(maxLevels);
    var read := ReadAllEdits(crc, file);
    if read.None? {
      return None;
    }
    var edits := read.value;
    assert edits[0..] == edits;
    for i := 0 to |edits|
      invariant Replay(state, edits[i..]) == Replay(InitialState(maxLevels), edits)
    {
      assert edits[i..][1..] == edits[i + 1..];
      if !EditOk(state, edits[i]) {
        return None;
      }
      state := ApplyEdit(state, edits[i]);
    }
    r := Some(state);
  }

  /** The bytes written by any run of valid edits and allocations recover to a state the live one refines. */
  lemma BytesRecover(crc: Crc, maxLevels: nat, l0: Live, ops: seq<Op>)
    requires Is32Bit(crc) && Backed(maxLevels, l0) && AllOk(l0, ops)
    requires forall e :: e in RunOps(l0, ops).edits ==> EditFits(e) && |EditBytes(e)| <= U32_MAX
    ensures var r := Recovered(crc, maxLevels, LogBytes(crc, EditPayloads(RunOps(l0, ops).edits)));
            r.Some? && Refines(RunOps(l0, ops).vs, r.value) && NumbersPassed(r.value)
  {
    hide RunOps, AllOk, Replay, NumbersPassed, Refines, EditFits, EditBytes, ReadManifest, LogBytes, Backed;
    RecoveryRefines(maxLevels, l0, ops);
    ManifestRoundTrip(crc, RunOps(l0, ops).edits);
  }
}
