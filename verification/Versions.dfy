/**
 File metadata, versions and version edits (src/version/version.rs, src/version/edit.rs,
 src/version/version_set.rs:117-142).  A version is copied before an edit changes it and never
 changed afterwards, so it is a value here.
 */
module Versions {
  import opened Keys
  import opened Sorting

  datatype FileMeta = FileMeta(
    number: nat, fileSize: nat, smallest: InternalKey, largest: InternalKey, smallestSeq: nat, largestSeq: nat)

  /** `l0Files` newest first; `levels[0]` exists but is never filled. */
  datatype Version = Version(l0Files: seq<FileMeta>, levels: seq<seq<FileMeta>>)

  datatype VersionEdit =
    | NextFileNumber(number: nat)
    | LastSequence(sequence: nat)
    | LogNumber(log: nat)
    | AddFile(level: nat, meta: FileMeta)
    | DeleteFile(fromLevel: nat, file: nat)

  function SmallestKey(f: FileMeta): InternalKey { f.smallest }

  function EmptyVersion(maxLevels: nat): Version {
    Version([], seq(maxLevels, _ => []))
  }

  predicate ValidLevel(v: Version, level: nat) {
    level == 0 || level < |v.levels|
  }

  function LevelFiles(v: Version, level: nat): seq<FileMeta>
    requires ValidLevel(v, level)
  {
    if level == 0 then v.l0Files else v.levels[level]
  }

  function WithLevel(v: Version, level: nat, files: seq<FileMeta>): Version
    requires ValidLevel(v, level)
  {
    if level == 0 then v.(l0Files := files) else v.(levels := v.levels[level := files])
  }

  /** `retain(|file| file.number not in numbers)` */
  function Retain(files: seq<FileMeta>, numbers: set<nat>): (r: seq<FileMeta>)
    ensures forall f :: f in r <==> f in files && f.number !in numbers
  {
    if files == [] then []
    else (if files[0].number in numbers then [] else [files[0]]) + Retain(files[1..], numbers)
  }

  /** Level 0 grows at the front; deeper levels are kept sorted by smallest key. */
  function WithFile(files: seq<FileMeta>, level: nat, meta: FileMeta): (r: seq<FileMeta>)
    ensures multiset(r) == multiset(files) + multiset{meta}
    ensures forall f :: f in r <==> f in files || f == meta
  {
    var r := if level == 0 then [meta] + files else SortBy(files + [meta], SmallestKey);
    assert forall f :: f in r <==> f in multiset(r);
    assert forall f :: f in files <==> f in multiset(files);
    r
  }

  /** An edit of the version part; None for an invalid level. */
  function ApplyToVersion(v: Version, edit: VersionEdit): Option<Version> {
    match edit
    case AddFile(level, meta) =>
      if ValidLevel(v, level) then Some(WithLevel(v, level, WithFile(LevelFiles(v, level), level, meta))) else None
    case DeleteFile(level, number) =>
      if ValidLevel(v, level) then Some(WithLevel(v, level, Retain(LevelFiles(v, level), {number}))) else None
    case _ => Some(v)
  }

  function ApplyAll(v: Version, edits: seq<VersionEdit>): Option<Version>
    decreases |edits|
  {
    if edits == [] then Some(v)
    else match ApplyToVersion(v, edits[0])
      case Some(next) => ApplyAll(next, edits[1..])
      case None => None
  }

  lemma {:induction false} ApplyAllConcat(v: Version, a: seq<VersionEdit>, b: seq<VersionEdit>)
    ensures ApplyAll(v, a + b) == (match ApplyAll(v, a) case Some(m) => ApplyAll(m, b) case None => None)
    decreases |a|
  {
    if a == [] {
      assert a + b == b;
    } else {
      assert (a + b)[0] == a[0] && (a + b)[1..] == a[1..] + b;
      if ApplyToVersion(v, a[0]).Some? {
        ApplyAllConcat(ApplyToVersion(v, a[0]).value, a[1..], b);
      }
    }
  }

  lemma {:induction false} RetainTwice(files: seq<FileMeta>, a: set<nat>, b: set<nat>)
    ensures Retain(Retain(files, a), b) == Retain(files, a + b)
  {
    if files != [] {
      RetainTwice(files[1..], a, b);
      var head := if files[0].number in a then [] else [files[0]];
      assert Retain(files, a) == head + Retain(files[1..], a);
      if files[0].number in a {
        assert Retain(files, a) == Retain(files[1..], a);
      } else {
        assert Retain(files, a)[0] == files[0] && Retain(files, a)[1..] == Retain(files[1..], a);
      }
    }
  }

  lemma {:induction false} RetainAll(files: seq<FileMeta>, a: set<nat>)
    requires forall f :: f in files ==> f.number !in a
    ensures Retain(files, a) == files
  {
    if files != [] {
      RetainAll(files[1..], a);
    }
  }

  function Numbers(files: seq<FileMeta>): set<nat> {
    set f | f in files :: f.number
  }

  function Deletions(level: nat, files: seq<FileMeta>): seq<VersionEdit> {
    seq(|files|, i requires 0 <= i < |files| => DeleteFile(level, files[i].number))
  }

  function Additions(level: nat, metas: seq<FileMeta>): seq<VersionEdit> {
    seq(|metas|, i requires 0 <= i < |metas| => AddFile(level, metas[i]))
  }

  /** Deleting files one by one equals deleting them at once. */
  lemma {:induction false} DeleteAll(v: Version, level: nat, files: seq<FileMeta>)
    requires ValidLevel(v, level)
    ensures ApplyAll(v, Deletions(level, files)) == Some(WithLevel(v, level, Retain(LevelFiles(v, level), Numbers(files))))
    decreases |files|
  {
    hide Retain;
    var edits := Deletions(level, files);
    if files == [] {
      RetainAll(LevelFiles(v, level), {});
      assert Numbers(files) == {};
      assert WithLevel(v, level, LevelFiles(v, level)) == v;
    } else {
      assert edits[0] == DeleteFile(level, files[0].number);
      assert edits[1..] == Deletions(level, files[1..]);
      var next := WithLevel(v, level, Retain(LevelFiles(v, level), {files[0].number}));
      DeleteAll(next, level, files[1..]);
      RetainTwice(LevelFiles(v, level), {files[0].number}, Numbers(files[1..]));
      assert {files[0].number} + Numbers(files[1..]) == Numbers(files);
      assert WithLevel(next, level, Retain(LevelFiles(v, level), Numbers(files)))
          == WithLevel(v, level, Retain(LevelFiles(v, level), Numbers(files)));
    }
  }

  function WithFiles(files: seq<FileMeta>, level: nat, metas: seq<FileMeta>): (r: seq<FileMeta>)
    ensures multiset(r) == multiset(files) + multiset(metas)
    decreases |metas|
  {
    if metas == [] then files
    else
      assert metas == [metas[0]] + metas[1..];
      WithFiles(WithFile(files, level, metas[0]), level, metas[1..])
  }

  /** Adding files touches one level and adds exactly them. */
  lemma {:induction false} AddAll(v: Version, level: nat, metas: seq<FileMeta>)
    requires ValidLevel(v, level)
    ensures ApplyAll(v, Additions(level, metas)) == Some(WithLevel(v, level, WithFiles(LevelFiles(v, level), level, metas)))
    decreases |metas|
  {
    hide WithFile;
    var edits := Additions(level, metas);
    if metas == [] {
      assert WithLevel(v, level, LevelFiles(v, level)) == v;
    } else {
      assert edits[0] == AddFile(level, metas[0]);
      assert edits[1..] == Additions(level, metas[1..]);
      var grown := WithFile(LevelFiles(v, level), level, metas[0]);
      var next := WithLevel(v, level, grown);
      AddAll(next, level, metas[1..]);
      assert LevelFiles(next, level) == grown;
      var files := WithFiles(grown, level, metas[1..]);
      assert WithLevel(next, level, files) == WithLevel(v, level, files);
    }
  }
}
