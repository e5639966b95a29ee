/**
 What a MANIFEST says (src/version/version_set.rs:57-142): the files and counters after replaying edits, read off the
 edits themselves.
 */
module Replays {
  import opened Keys
  import opened Versions
  import opened Lsm
  import opened Manifest

  // ----- files

  /** The file was added to the level, and since then its number was not deleted from there. */
  ghost predicate Stands(edits: seq<VersionEdit>, level: nat, f: FileMeta) {
    exists i :: 0 <= i < |edits| && edits[i] == AddFile(level, f) &&
                forall j :: i < j < |edits| ==> edits[j] != DeleteFile(level, f.number)
  }

  lemma StandsSnoc(edits: seq<VersionEdit>, e: VersionEdit, level: nat, f: FileMeta)
    ensures Stands(edits + [e], level, f) <==>
            e == AddFile(level, f) || (Stands(edits, level, f) && e != DeleteFile(level, f.number))
  {
    var all, n := edits + [e], |edits|;
    if e == AddFile(level, f) {
      assert all[n] == AddFile(level, f);
    } else {
      if Stands(edits, level, f) && e != DeleteFile(level, f.number) {
        var i :| 0 <= i < n && edits[i] == AddFile(level, f) && forall j :: i < j < n ==> edits[j] != DeleteFile(level, f.number);
        assert all[i] == AddFile(level, f);
      }
      StoodBefore(edits, e, level, f);
    }
  }

  lemma StoodBefore(edits: seq<VersionEdit>, e: VersionEdit, level: nat, f: FileMeta)
    requires e != AddFile(level, f)
    ensures Stands(edits + [e], level, f) ==> Stands(edits, level, f) && e != DeleteFile(level, f.number)
  {
    var all, n := edits + [e], |edits|;
    assert all[n] == e && forall j :: 0 <= j < n ==> all[j] == edits[j];
    if Stands(all, level, f) {
      var i :| 0 <= i < |all| && all[i] == AddFile(level, f) && forall j :: i < j < |all| ==> all[j] != DeleteFile(level, f.number);
      assert i < n;
    }
  }

  lemma EditFiles(v: Version, e: VersionEdit, level: nat, f: FileMeta)
    requires ApplyToVersion(v, e).Some?
    ensures InLevel(ApplyToVersion(v, e).value, level, f) <==>
            e == AddFile(level, f) || (InLevel(v, level, f) && e != DeleteFile(level, f.number))
  {
    match e
    case AddFile(n, meta) => var files := WithFile(LevelFiles(v, n), n, meta);
    case DeleteFile(n, number) => var files := Retain(LevelFiles(v, n), {number});
    case _ =>
  }

  lemma AppliedVersion(vs: VersionState, e: VersionEdit)
    requires EditOk(vs, e)
    ensures ApplyToVersion(vs.current, e) == Some(ApplyEdit(vs, e).current)
  {
  }

  /** After a replay a level holds exactly the files added to it and not deleted since. */
  lemma {:induction false} ReplayedFiles(maxLevels: nat, edits: seq<VersionEdit>, level: nat, f: FileMeta)
    requires Replay(InitialState(maxLevels), edits).Some?
    ensures InLevel(Replay(InitialState(maxLevels), edits).value.current, level, f) <==> Stands(edits, level, f)
    decreases |edits|
  {
    var init := InitialState(maxLevels);
    if edits == [] {
      assert init.current == EmptyVersion(maxLevels);
    } else {
      hide Replay, ApplyEdit, EditOk, ApplyToVersion, InLevel, Stands;
      var front, last := edits[..|edits| - 1], edits[|edits| - 1];
      assert edits == front + [last];
      ReplayAppend(init, front, [last]);
      ReplaySnoc(init, front, last);
      var mid := Replay(init, front).value;
      ReplayedFiles(maxLevels, front, level, f);
      AppliedVersion(mid, last);
      EditFiles(mid.current, last, level, f);
      StandsSnoc(front, last, level, f);
    }
  }

  // ----- counters

  /** The least next file number that an edit leaves behind. */
  function Passes(e: VersionEdit): nat {
    match e
    case NextFileNumber(number) => number
    case LogNumber(log) => log + 1
    case AddFile(_, meta) => meta.number + 1
    case _ => 0
  }

  function SequenceIn(e: VersionEdit): nat {
    match e
    case LastSequence(sequence) => sequence
    case _ => 0
  }

  /** `m` is the largest of `least` and the values of `value` on the edits. */
  ghost predicate LargestOf(edits: seq<VersionEdit>, value: VersionEdit -> nat, least: nat, m: nat) {
    && least <= m
    && (forall e :: e in edits ==> value(e) <= m)
    && (m == least || exists e :: e in edits && value(e) == m)
  }

  lemma LargestSnoc(edits: seq<VersionEdit>, e: VersionEdit, value: VersionEdit -> nat, least: nat, m: nat)
    requires LargestOf(edits, value, least, m)
    ensures LargestOf(edits + [e], value, least, Max(m, value(e)))
  {
    var all := edits + [e];
    assert e in all && forall x :: x in all <==> x in edits || x == e;
  }

  /** The last of the log numbers, and 1 when there is none. */
  ghost predicate LatestLog(edits: seq<VersionEdit>, log: nat) {
    if exists i :: 0 <= i < |edits| && edits[i].LogNumber? then
      exists i :: 0 <= i < |edits| && edits[i] == LogNumber(log) && forall j :: i < j < |edits| ==> !edits[j].LogNumber?
    else log == 1
  }

  lemma LatestSnoc(edits: seq<VersionEdit>, e: VersionEdit, log: nat)
    requires LatestLog(edits, log)
    ensures LatestLog(edits + [e], if e.LogNumber? then e.log else log)
  {
    var all, n := edits + [e], |edits|;
    assert all[n] == e && forall i :: 0 <= i < n ==> all[i] == edits[i];
    if !e.LogNumber? && (exists i :: 0 <= i < n && edits[i].LogNumber?) {
      var i :| 0 <= i < n && edits[i] == LogNumber(log) && forall j :: i < j < n ==> !edits[j].LogNumber?;
      assert all[i] == LogNumber(log);
    }
  }

  lemma EditCounters(vs: VersionState, e: VersionEdit)
    ensures ApplyEdit(vs, e).nextFileNumber == Max(vs.nextFileNumber, Passes(e))
    ensures ApplyEdit(vs, e).lastSequence == Max(vs.lastSequence, SequenceIn(e))
    ensures ApplyEdit(vs, e).logNumber == if e.LogNumber? then e.log else vs.logNumber
  {
    hide ApplyToVersion;
  }

  /**
   After a replay the next file number is the largest any edit asks for, the last sequence the largest logged, and
   the log number the last one logged: counters never go back, and never further ahead than the edits say.
   */
  lemma {:induction false} ReplayedCounters(maxLevels: nat, edits: seq<VersionEdit>)
    requires Replay(InitialState(maxLevels), edits).Some?
    ensures var vs := Replay(InitialState(maxLevels), edits).value;
            && LargestOf(edits, Passes, 2, vs.nextFileNumber)
            && LargestOf(edits, SequenceIn, 0, vs.lastSequence)
            && LatestLog(edits, vs.logNumber)
    decreases |edits|
  {
    var init := InitialState(maxLevels);
    if edits != [] {
      hide Replay, ApplyEdit, EditOk, LargestOf, LatestLog, Max;
      var front, last := edits[..|edits| - 1], edits[|edits| - 1];
      assert edits == front + [last];
      ReplayAppend(init, front, [last]);
      ReplaySnoc(init, front, last);
      var mid := Replay(init, front).value;
      ReplayedCounters(maxLevels, front);
      EditCounters(mid, last);
      LargestSnoc(front, last, Passes, 2, mid.nextFileNumber);
      LargestSnoc(front, last, SequenceIn, 0, mid.lastSequence);
      LatestSnoc(front, last, mid.logNumber);
    }
  }
}
