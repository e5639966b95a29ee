/** The version and the files after a compaction: what each level holds, and that levels stay disjoint. */
module LsmRewrite {
  import opened Keys
  import opened Versions
  import opened Picker
  import opened Lsm
  import opened LsmCompaction

  // ----- the version after the edits

  function NewVersion(v: Version, task: CompactionTask, metas: seq<FileMeta>): Version
    requires ValidLevel(v, task.inputLevel) && ValidLevel(v, task.outputLevel)
  {
    var v1 := WithLevel(v, task.inputLevel, Retain(LevelFiles(v, task.inputLevel), Numbers(task.inputFiles)));
    WithLevel(v1, task.outputLevel,
              WithFiles(Retain(LevelFiles(v, task.outputLevel), Numbers(task.overlapFiles)), task.outputLevel, metas))
  }

  lemma DeletionsByLevel(v: Version, task: CompactionTask)
    requires TaskShape(v, task) && NumbersUnique(v)
    ensures InputDeletions(task) == Deletions(task.inputLevel, task.inputFiles) + Deletions(task.outputLevel, task.overlapFiles)
  {
    var all := task.AllInputFiles();
    forall i | |task.inputFiles| <= i < |all| ensures all[i].number !in Numbers(task.inputFiles) {
      assert all[i] in task.overlapFiles;
    }
    forall i | 0 <= i < |task.inputFiles| ensures all[i].number in Numbers(task.inputFiles) {
      assert all[i] in task.inputFiles;
    }
  }

  lemma RewriteEditsApply(v: Version, task: CompactionTask, metas: seq<FileMeta>)
    requires TaskShape(v, task) && NumbersUnique(v)
    ensures ApplyAll(v, RewriteEdits(task, metas)) == Some(NewVersion(v, task, metas))
  {
    LevelsOf(v, task);
    NewVersionIs(v, task, metas);
    assert RewriteEdits(task, metas) == InputDeletions(task) + Additions(task.outputLevel, metas);
    hide *;
    var a, b, c := Deletions(task.inputLevel, task.inputFiles), Deletions(task.outputLevel, task.overlapFiles), Additions(task.outputLevel, metas);
    DeletionsByLevel(v, task);
    DeleteAll(v, task.inputLevel, task.inputFiles);
    var left := Retain(LevelFiles(v, task.inputLevel), Numbers(task.inputFiles));
    var v1 := WithLevel(v, task.inputLevel, left);
    OtherLevel(v, task.inputLevel, left, task.outputLevel);
    DeleteAll(v1, task.outputLevel, task.overlapFiles);
    var kept := Retain(LevelFiles(v, task.outputLevel), Numbers(task.overlapFiles));
    var v2 := WithLevel(v1, task.outputLevel, kept);
    SameLevel(v1, task.outputLevel, kept);
    AddAll(v2, task.outputLevel, metas);
    ApplyAllConcat(v, a, b);
    ApplyAllConcat(v, a + b, c);
    var fs := WithFiles(kept, task.outputLevel, metas);
    SetLevelTwice(v1, task.outputLevel, kept, fs);
  }

  lemma NewVersionIs(v: Version, task: CompactionTask, metas: seq<FileMeta>)
    requires ValidLevel(v, task.inputLevel) && ValidLevel(v, task.outputLevel) && task.inputLevel != task.outputLevel
    ensures var v1 := WithLevel(v, task.inputLevel, Retain(LevelFiles(v, task.inputLevel), Numbers(task.inputFiles)));
            && ValidLevel(v1, task.outputLevel)
            && NewVersion(v, task, metas) ==
               WithLevel(v1, task.outputLevel,
                         WithFiles(Retain(LevelFiles(v, task.outputLevel), Numbers(task.overlapFiles)), task.outputLevel, metas))
  {
    hide Retain, Numbers, WithFiles;
  }

  lemma SetLevelTwice(v: Version, n: nat, a: seq<FileMeta>, b: seq<FileMeta>)
    requires ValidLevel(v, n)
    ensures ValidLevel(WithLevel(v, n, a), n) && WithLevel(WithLevel(v, n, a), n, b) == WithLevel(v, n, b)
  {
  }

  lemma LevelsOf(v: Version, task: CompactionTask)
    requires TaskShape(v, task)
    ensures ValidLevel(v, task.inputLevel) && ValidLevel(v, task.outputLevel) && task.inputLevel != task.outputLevel
    ensures task.inputFiles != [] && InLevel(v, task.inputLevel, task.inputFiles[0])
  {
  }

  lemma OtherLevel(v: Version, n: nat, files: seq<FileMeta>, m: nat)
    requires ValidLevel(v, n) && ValidLevel(v, m) && n != m
    ensures ValidLevel(WithLevel(v, n, files), m) && LevelFiles(WithLevel(v, n, files), m) == LevelFiles(v, m)
  {
  }

  lemma SameLevel(v: Version, n: nat, files: seq<FileMeta>)
    requires ValidLevel(v, n)
    ensures ValidLevel(WithLevel(v, n, files), n) && LevelFiles(WithLevel(v, n, files), n) == files
  {
  }

  lemma MoveEditsApply(v: Version, task: CompactionTask)
    requires TaskShape(v, task) && task.IsTrivialMove()
    ensures ApplyAll(v, MoveEdits(task)) == Some(NewVersion(v, task, task.inputFiles))
  {
    var f, edits := task.inputFiles[0], MoveEdits(task);
    var fs := LevelFiles(v, task.outputLevel);
    assert Numbers(task.inputFiles) == {f.number};
    assert Numbers(task.overlapFiles) == {};
    assert task.inputFiles == [f];
    assert task.outputLevel == task.inputLevel + 1 < |v.levels|;
    hide WithFile, Retain, Numbers, TaskShape, WithFiles, ApplyAll;
    RetainAll(fs, {});
    var v1 := WithLevel(v, task.inputLevel, Retain(LevelFiles(v, task.inputLevel), {f.number}));
    assert LevelFiles(v1, task.outputLevel) == fs;
    OneFile(fs, task.outputLevel, f);
    TwoEdits(v, edits[0], edits[1]);
    assert edits == [edits[0], edits[1]];
  }

  lemma OneFile(fs: seq<FileMeta>, level: nat, f: FileMeta)
    ensures WithFiles(fs, level, [f]) == WithFile(fs, level, f)
  {
    hide WithFile;
    assert [f][1..] == [];
  }

  lemma TwoEdits(v: Version, a: VersionEdit, b: VersionEdit)
    ensures ApplyAll(v, [a, b]) == (match ApplyToVersion(v, a) case Some(m) => ApplyToVersion(m, b) case None => None)
  {
    hide ApplyToVersion;
    assert [a, b] == [a] + [b];
    ApplyAllConcat(v, [a], [b]);
    OneEdit(v, a);
    if ApplyToVersion(v, a).Some? { OneEdit(ApplyToVersion(v, a).value, b); }
  }

  lemma OneEdit(v: Version, a: VersionEdit)
    ensures ApplyAll(v, [a]) == ApplyToVersion(v, a)
  {
    hide ApplyToVersion;
    assert [a][1..] == [];
  }

  predicate SelectedIn(task: CompactionTask, n: nat, f: FileMeta) {
    (n == task.inputLevel && f in task.inputFiles) || (n == task.outputLevel && f in task.overlapFiles)
  }

  lemma WithFilesElements(files: seq<FileMeta>, level: nat, metas: seq<FileMeta>)
    ensures forall f :: f in WithFiles(files, level, metas) <==> f in files || f in metas
  {
    var r := WithFiles(files, level, metas);
    assert forall f :: f in r <==> f in multiset(r);
    assert forall f :: f in files <==> f in multiset(files);
    assert forall f :: f in metas <==> f in multiset(metas);
  }

  lemma NumberIdentifies(v: Version, n: nat, fs: seq<FileMeta>, f: FileMeta)
    requires NumbersUnique(v) && InLevel(v, n, f) && forall g :: g in fs ==> InLevel(v, n, g)
    ensures f.number in Numbers(fs) <==> f in fs
  {
  }

  lemma NewVersionAt(v: Version, task: CompactionTask, metas: seq<FileMeta>, n: nat)
    requires task.outputLevel == task.inputLevel + 1 < |v.levels|
    ensures var v' := NewVersion(v, task, metas);
            && (ValidLevel(v', n) <==> ValidLevel(v, n))
            && (ValidLevel(v, n) ==>
                  LevelFiles(v', n) ==
                  if n == task.outputLevel then
                    WithFiles(Retain(LevelFiles(v, n), Numbers(task.overlapFiles)), n, metas)
                  else if n == task.inputLevel then Retain(LevelFiles(v, n), Numbers(task.inputFiles))
                  else LevelFiles(v, n))
  {
    hide WithFiles, Retain;
  }

  /** A level afterwards holds its unselected files, and the output level the new ones too. */
  lemma NewVersionLevels(v: Version, task: CompactionTask, metas: seq<FileMeta>, n: nat, f: FileMeta)
    requires TaskShape(v, task) && NumbersUnique(v)
    ensures InLevel(NewVersion(v, task, metas), n, f) <==>
            (InLevel(v, n, f) && !SelectedIn(task, n, f)) || (n == task.outputLevel && f in metas)
  {
    NewVersionAt(v, task, metas, n);
    if n == task.outputLevel {
      WithFilesElements(Retain(LevelFiles(v, n), Numbers(task.overlapFiles)), n, metas);
    }
    if InLevel(v, n, f) && n == task.inputLevel {
      NumberIdentifies(v, n, task.inputFiles, f);
    }
    if InLevel(v, n, f) && n == task.outputLevel {
      NumberIdentifies(v, n, task.overlapFiles, f);
    }
    hide WithFiles, Retain, NumbersUnique, TaskShape, NewVersion;
  }

  lemma {:induction false} RetainMultiset(fs: seq<FileMeta>, numbers: set<nat>, f: FileMeta)
    ensures multiset(Retain(fs, numbers))[f] <= multiset(fs)[f]
  {
    if fs != [] {
      RetainMultiset(fs[1..], numbers, f);
      assert fs == [fs[0]] + fs[1..];
      var head := if fs[0].number in numbers then [] else [fs[0]];
      assert multiset(head)[f] <= multiset([fs[0]])[f];
    }
  }

  // ----- the effect of a compaction on the state

  /** `db'` is `db` with the selected files replaced by `metas`, which hold exactly `kept`. */
  ghost predicate Effect(db: Db, db': Db, task: CompactionTask, metas: seq<FileMeta>, kept: set<Entry>) {
    && ValidLevel(db.version, task.inputLevel) && ValidLevel(db.version, task.outputLevel)
    && db'.mutable == db.mutable && db'.immutables == db.immutables
    && db'.lastSequence == db.lastSequence && db'.live == db.live
    && db'.version == NewVersion(db.version, task, metas)
    && (forall n, f :: InLevel(db.version, n, f) && !SelectedIn(task, n, f) ==> Untouched(db, db', metas, f))
    && (forall f :: f in metas ==> FileOk(db'.files, f) && f.number < db'.nextFileNumber)
    && (forall i, j :: 0 <= i < j < |metas| ==>
          metas[i].number != metas[j].number && Less(metas[i].largest.userKey, metas[j].smallest.userKey))
    && LevelSet(db'.files, metas) == kept
  }

  ghost predicate Untouched(db: Db, db': Db, metas: seq<FileMeta>, f: FileMeta) {
    && TableEntries(db'.files, f) == TableEntries(db.files, f)
    && f.number in db'.files
    && f.number < db'.nextFileNumber
    && f.number !in Numbers(metas)
  }

  lemma MetaNumbers(metas: seq<FileMeta>, f: FileMeta, g: FileMeta)
    requires f in metas && g in metas && f != g
    requires forall i, j :: 0 <= i < j < |metas| ==>
               metas[i].number != metas[j].number && Less(metas[i].largest.userKey, metas[j].smallest.userKey)
    ensures f.number != g.number && DisjointRanges(f, g)
  {
    var i :| 0 <= i < |metas| && metas[i] == f;
    var j :| 0 <= j < |metas| && metas[j] == g;
    assert i < j || j < i;
  }

  lemma EffectNumbers(db: Db, db': Db, task: CompactionTask, metas: seq<FileMeta>, kept: set<Entry>)
    requires TablesOk(db.version, db.files, db.nextFileNumber) && TaskShape(db.version, task) && Effect(db, db', task, metas, kept)
    ensures FilesOk(db'.version, db'.files, db'.nextFileNumber) && NumbersUnique(db'.version)
  {
    var v, v' := db.version, db'.version;
    forall n, f | InLevel(v', n, f)
      ensures FileOk(db'.files, f) && f.number < db'.nextFileNumber
    {
      NewVersionLevels(v, task, metas, n, f);
      if InLevel(v, n, f) && !SelectedIn(task, n, f) {
        assert Untouched(db, db', metas, f);
        assert FileOk(db.files, f);
      }
    }
    forall n, m, f, g | InLevel(v', n, f) && InLevel(v', m, g) && f.number == g.number
      ensures n == m && f == g
    {
      NewVersionLevels(v, task, metas, n, f);
      NewVersionLevels(v, task, metas, m, g);
      if InLevel(v, n, f) && !SelectedIn(task, n, f) {
        assert Untouched(db, db', metas, f);
      }
      if InLevel(v, m, g) && !SelectedIn(task, m, g) {
        assert Untouched(db, db', metas, g);
      }
      if f in metas && g in metas && f != g {
        MetaNumbers(metas, f, g);
      }
    }
  }

  // ----- disjoint levels

  lemma RangeOrdered(files: map<nat, seq<Entry>>, f: FileMeta)
    requires FileOk(files, f)
    ensures Leq(f.smallest.userKey, f.largest.userKey)
  {
    KeysInRange(files, f, files[f.number][0]);
  }

  predicate LeftOf(g: FileMeta, f: FileMeta) { Less(g.largest.userKey, f.smallest.userKey) }

  /** With `f` overlapping the input, a retained file left of the input is left of `f`. */
  lemma StaysLeft(f0: FileMeta, f: FileMeta, g: FileMeta)
    requires UserKeyOverlaps(f, f0.smallest.userKey, f0.largest.userKey) && DisjointRanges(f, g)
    requires Leq(g.smallest.userKey, g.largest.userKey) && LeftOf(g, f0)
    ensures LeftOf(g, f)
  {
    UserKeyOrder();
  }

  lemma StaysRight(f0: FileMeta, f: FileMeta, g: FileMeta)
    requires UserKeyOverlaps(f, f0.smallest.userKey, f0.largest.userKey) && DisjointRanges(f, g)
    requires Leq(g.smallest.userKey, g.largest.userKey) && LeftOf(f0, g)
    ensures LeftOf(f, g)
  {
    UserKeyOrder();
  }

  /** The interval argument: input and overlap files form one range, and a retained file lies wholly on one side. */
  lemma RetainedApart(db: Db, task: CompactionTask, g: FileMeta)
    requires TablesOk(db.version, db.files, db.nextFileNumber) && TaskShape(db.version, task)
    requires InLevel(db.version, task.outputLevel, g) && g !in task.overlapFiles
    ensures (forall f :: f in task.AllInputFiles() ==> LeftOf(g, f)) || (forall f :: f in task.AllInputFiles() ==> LeftOf(f, g))
  {
    var f0 := task.inputFiles[0];
    TableOk(db, task.outputLevel, g);
    RangeOrdered(db.files, g);
    assert task.inputFiles == [f0];
    assert LeftOf(g, f0) || LeftOf(f0, g);
    forall f | f in task.overlapFiles ensures (LeftOf(g, f0) ==> LeftOf(g, f)) && (LeftOf(f0, g) ==> LeftOf(f, g)) {
      assert DisjointRanges(f, g);
      if LeftOf(g, f0) { StaysLeft(f0, f, g); }
      if LeftOf(f0, g) { StaysRight(f0, f, g); }
    }
  }

  /** An output file lies inside the range of the compaction. */
  lemma OutputApart(db: Db, db': Db, task: CompactionTask, metas: seq<FileMeta>, kept: set<Entry>, g: FileMeta, m: FileMeta)
    requires TablesOk(db.version, db.files, db.nextFileNumber) && TaskShape(db.version, task) && Effect(db, db', task, metas, kept)
    requires kept <= LevelSet(db.files, task.AllInputFiles())
    requires InLevel(db.version, task.outputLevel, g) && g !in task.overlapFiles && m in metas
    ensures DisjointRanges(g, m)
  {
    hide NewVersion, LevelSet;
    RetainedApart(db, task, g);
    var s := db'.files[m.number];
    assert s[0] in TableEntries(db'.files, m) && s[|s| - 1] in TableEntries(db'.files, m);
    LevelSetHas(db'.files, metas, m, s[0]);
    LevelSetHas(db'.files, metas, m, s[|s| - 1]);
    var f := InLevelSet(db.files, task.AllInputFiles(), s[0]);
    var h := InLevelSet(db.files, task.AllInputFiles(), s[|s| - 1]);
    assert InLevel(db.version, task.inputLevel, f) || InLevel(db.version, task.outputLevel, f);
    assert InLevel(db.version, task.inputLevel, h) || InLevel(db.version, task.outputLevel, h);
    assert FileOk(db.files, f) && FileOk(db.files, h);
    KeysInRange(db.files, f, s[0]);
    KeysInRange(db.files, h, s[|s| - 1]);
    assert m.smallest == s[0].key && m.largest == s[|s| - 1].key;
    LessLeqTrans(g.largest.userKey, f.smallest.userKey, m.smallest.userKey);
    LessLeqTrans(m.largest.userKey, h.largest.userKey, g.smallest.userKey);
    assert LeftOf(g, f) || LeftOf(h, g);
  }

  lemma OutputPairDisjoint(db: Db, db': Db, task: CompactionTask, metas: seq<FileMeta>, kept: set<Entry>, f: FileMeta, g: FileMeta)
    requires TablesOk(db.version, db.files, db.nextFileNumber) && TaskShape(db.version, task) && Effect(db, db', task, metas, kept)
    requires kept <= LevelSet(db.files, task.AllInputFiles()) && f != g
    requires InLevel(db'.version, task.outputLevel, f) && InLevel(db'.version, task.outputLevel, g)
    ensures DisjointRanges(f, g)
  {
    NewVersionLevels(db.version, task, metas, task.outputLevel, f);
    NewVersionLevels(db.version, task, metas, task.outputLevel, g);
    hide NewVersion, LevelSet;
    if f in metas && g in metas {
      MetaNumbers(metas, f, g);
    } else if f in metas {
      OutputApart(db, db', task, metas, kept, g, f);
    } else if g in metas {
      OutputApart(db, db', task, metas, kept, f, g);
    } else {
      assert LevelDisjoint(db.version.levels[task.outputLevel]);
    }
  }

  lemma OutputNoRepeats(db: Db, db': Db, task: CompactionTask, metas: seq<FileMeta>, kept: set<Entry>, f: FileMeta)
    requires TablesOk(db.version, db.files, db.nextFileNumber) && TaskShape(db.version, task) && Effect(db, db', task, metas, kept)
    ensures multiset(LevelFiles(db'.version, task.outputLevel))[f] <= 1
  {
    var old_, numbers := LevelFiles(db.version, task.outputLevel), Numbers(task.overlapFiles);
    NewVersionAt(db.version, task, metas, task.outputLevel);
    RetainMultiset(old_, numbers, f);
    MetasOnce(metas, f);
    assert LevelDisjoint(old_);
    hide WithFiles, NewVersion;
    var kept_ := Retain(old_, numbers);
    assert f in kept_ ==> InLevel(db.version, task.outputLevel, f) && !SelectedIn(task, task.outputLevel, f);
    assert f in kept_ ==> Untouched(db, db', metas, f);
    assert f in kept_ ==> f !in metas;
    assert f !in metas ==> multiset(metas)[f] == 0;
    assert f !in kept_ ==> multiset(kept_)[f] == 0;
  }

  lemma OutputLevelDisjoint(db: Db, db': Db, task: CompactionTask, metas: seq<FileMeta>, kept: set<Entry>)
    requires TablesOk(db.version, db.files, db.nextFileNumber) && TaskShape(db.version, task) && Effect(db, db', task, metas, kept)
    requires kept <= LevelSet(db.files, task.AllInputFiles())
    ensures LevelDisjoint(db'.version.levels[task.outputLevel])
  {
    var fs := db'.version.levels[task.outputLevel];
    assert forall f :: f in fs ==> InLevel(db'.version, task.outputLevel, f);
    assert fs == LevelFiles(db'.version, task.outputLevel);
    hide TablesOk, TaskShape, Effect, LevelSet, InLevel, NewVersion;
    forall f, g | f in fs && g in fs && f != g ensures DisjointRanges(f, g) {
      OutputPairDisjoint(db, db', task, metas, kept, f, g);
    }
    forall f ensures multiset(fs)[f] <= 1 {
      OutputNoRepeats(db, db', task, metas, kept, f);
    }
  }

  lemma {:induction false} MetasOnce(metas: seq<FileMeta>, f: FileMeta)
    requires forall i, j :: 0 <= i < j < |metas| ==> metas[i].number != metas[j].number
    ensures multiset(metas)[f] <= 1
  {
    if metas != [] {
      MetasOnce(metas[1..], f);
      assert metas == [metas[0]] + metas[1..];
      forall j | 0 <= j < |metas[1..]| ensures metas[1..][j] != metas[0] {
        assert metas[j + 1] == metas[1..][j];
      }
      assert f !in metas[1..] ==> multiset(metas[1..])[f] == 0;
    }
  }

  lemma EffectTables(db: Db, db': Db, task: CompactionTask, metas: seq<FileMeta>, kept: set<Entry>)
    requires TablesOk(db.version, db.files, db.nextFileNumber) && TaskShape(db.version, task) && Effect(db, db', task, metas, kept)
    requires kept <= LevelSet(db.files, task.AllInputFiles())
    ensures TablesOk(db'.version, db'.files, db'.nextFileNumber)
  {
    EffectNumbers(db, db', task, metas, kept);
    OutputLevelDisjoint(db, db', task, metas, kept);
    forall n | 0 < n < |db'.version.levels| ensures LevelDisjoint(db'.version.levels[n]) {
      assert LevelDisjoint(db.version.levels[n]);
      if n == task.inputLevel {
        forall f ensures multiset(db'.version.levels[n])[f] <= 1 {
          RetainMultiset(db.version.levels[n], Numbers(task.inputFiles), f);
        }
      }
    }
  }
}
