/** Every step keeps the invariant; no step but a write changes a protected read. */
module LsmSteps {
  import opened Keys
  import opened Visibility
  import opened LayerCompaction
  import opened Executor
  import opened Versions
  import opened Picker
  import opened Lsm
  import opened LsmCompaction
  import opened LsmRewrite

  // ----- the layers after a compaction

  lemma LevelAfterHas(db: Db, db': Db, task: CompactionTask, metas: seq<FileMeta>, kept: set<Entry>, n: nat, e: Entry)
    requires TablesOk(db.version, db.files, db.nextFileNumber) && TaskShape(db.version, task) && Effect(db, db', task, metas, kept)
    requires 0 < n < |db.version.levels| && |db'.version.levels| == |db.version.levels|
    requires e in LevelSet(db'.files, db'.version.levels[n])
    ensures (n == task.outputLevel && e in kept) ||
            (e in LevelSet(db.files, db.version.levels[n]) && e !in MovedLevels(db, task)[n])
  {
    hide LevelSet, NewVersion, TablesOk;
    NumbersUniqueOf(db);
    var f := InLevelSet(db'.files, db'.version.levels[n], e);
    NewVersionLevels(db.version, task, metas, n, f);
    assert InLevel(db'.version, n, f);
    if n == task.outputLevel && f in metas {
      LevelSetHas(db'.files, metas, f, e);
    } else {
      assert Untouched(db, db', metas, f);
      LevelSetHas(db.files, db.version.levels[n], f, e);
      NotMoved(db, task, n, f, e);
    }
  }

  lemma NotMoved(db: Db, task: CompactionTask, n: nat, f: FileMeta, e: Entry)
    requires TablesOk(db.version, db.files, db.nextFileNumber) && TaskShape(db.version, task)
    requires 0 < n < |db.version.levels| && InLevel(db.version, n, f) && !SelectedIn(task, n, f) && e in TableEntries(db.files, f)
    ensures e !in MovedLevels(db, task)[n]
  {
    hide TablesOk;
    var selected := if n == task.outputLevel then task.overlapFiles else if n == task.inputLevel then task.inputFiles else [];
    forall g | g in selected && e in TableEntries(db.files, g) ensures false {
      SameLevelSeparate(db, n, f, g, e, e);
    }
    assert MovedLevels(db, task)[n] == LevelSet(db.files, selected);
  }

  lemma LevelAfterKeeps(db: Db, db': Db, task: CompactionTask, metas: seq<FileMeta>, kept: set<Entry>, n: nat, e: Entry)
    requires TablesOk(db.version, db.files, db.nextFileNumber) && TaskShape(db.version, task) && Effect(db, db', task, metas, kept)
    requires 0 < n < |db.version.levels| && |db'.version.levels| == |db.version.levels|
    requires (n == task.outputLevel && e in kept) ||
             (e in LevelSet(db.files, db.version.levels[n]) && e !in MovedLevels(db, task)[n])
    ensures e in LevelSet(db'.files, db'.version.levels[n])
  {
    hide LevelSet, NewVersion, TablesOk;
    NumbersUniqueOf(db);
    if n == task.outputLevel && e in kept {
      var f := InLevelSet(db'.files, metas, e);
      NewVersionLevels(db.version, task, metas, n, f);
      LevelSetHas(db'.files, db'.version.levels[n], f, e);
    } else {
      var f := InLevelSet(db.files, db.version.levels[n], e);
      assert InLevel(db.version, n, f);
      if SelectedIn(task, n, f) {
        LevelSetHas(db.files, if n == task.outputLevel then task.overlapFiles else task.inputFiles, f, e);
      }
      assert Untouched(db, db', metas, f);
      NewVersionLevels(db.version, task, metas, n, f);
      LevelSetHas(db'.files, db'.version.levels[n], f, e);
    }
  }

  lemma LevelAfter(db: Db, db': Db, task: CompactionTask, metas: seq<FileMeta>, kept: set<Entry>, n: nat)
    requires TablesOk(db.version, db.files, db.nextFileNumber) && TaskShape(db.version, task) && Effect(db, db', task, metas, kept)
    requires n < |db.version.levels| && |db'.version.levels| == |db.version.levels|
    ensures LevelSet(db'.files, db'.version.levels[n]) ==
            LevelSet(db.files, db.version.levels[n]) - MovedLevels(db, task)[n] + (if n == task.outputLevel then kept else {})
  {
    hide *;
    MovedLevelsCount(db, task);
    if n == 0 {
      LevelZero(db, db', task, metas, kept);
    } else {
      var before, after, moved := LevelSet(db.files, db.version.levels[n]), LevelSet(db'.files, db'.version.levels[n]), MovedLevels(db, task);
      forall e ensures e in after <==> (n == task.outputLevel && e in kept) || (e in before && e !in moved[n]) {
        if e in after { LevelAfterHas(db, db', task, metas, kept, n, e); }
        if (n == task.outputLevel && e in kept) || (e in before && e !in moved[n]) {
          LevelAfterKeeps(db, db', task, metas, kept, n, e);
        }
      }
    }
  }

  lemma LevelZero(db: Db, db': Db, task: CompactionTask, metas: seq<FileMeta>, kept: set<Entry>)
    requires TablesOk(db.version, db.files, db.nextFileNumber) && TaskShape(db.version, task) && Effect(db, db', task, metas, kept)
    ensures |db'.version.levels| == |db.version.levels| && 0 < task.outputLevel
    ensures LevelSet(db'.files, db'.version.levels[0]) == LevelSet(db.files, db.version.levels[0]) == {}
  {
    assert db'.version.levels[0] == db.version.levels[0] == [];
  }

  lemma MovedLevelsCount(db: Db, task: CompactionTask)
    ensures |MovedLevels(db, task)| == |db.version.levels|
  {
  }

  /** The level-0 part of the stack with the selected files emptied instead of removed. */
  function EmptiedL0(files: map<nat, seq<Entry>>, l0: seq<FileMeta>, numbers: set<nat>): seq<set<Entry>> {
    seq(|l0|, i requires 0 <= i < |l0| => if l0[i].number in numbers then {} else Elems(TableEntries(files, l0[i])))
  }

  lemma L0LayersCons(files: map<nat, seq<Entry>>, f: FileMeta, rest: seq<FileMeta>)
    ensures L0Layers(files, [f] + rest) == [Elems(TableEntries(files, f))] + L0Layers(files, rest)
  {
  }

  lemma EmptiedCons(files: map<nat, seq<Entry>>, f: FileMeta, rest: seq<FileMeta>, numbers: set<nat>)
    ensures EmptiedL0(files, [f] + rest, numbers) ==
            [if f.number in numbers then {} else Elems(TableEntries(files, f))] + EmptiedL0(files, rest, numbers)
  {
  }

  lemma {:induction false} RemovedIsEmptied(files: map<nat, seq<Entry>>, files': map<nat, seq<Entry>>, l0: seq<FileMeta>, numbers: set<nat>)
    requires forall f :: f in l0 && f.number !in numbers ==> TableEntries(files', f) == TableEntries(files, f)
    ensures NonEmpty(L0Layers(files', Retain(l0, numbers))) == NonEmpty(EmptiedL0(files, l0, numbers))
  {
    if l0 != [] {
      var f, rest := l0[0], l0[1..];
      assert l0 == [f] + rest;
      RemovedIsEmptied(files, files', rest, numbers);
      EmptiedCons(files, f, rest, numbers);
      var l := if f.number in numbers then {} else Elems(TableEntries(files, f));
      NonEmptyConcat([l], EmptiedL0(files, rest, numbers));
      if f.number in numbers {
        assert NonEmpty([l]) == [];
        assert Retain(l0, numbers) == Retain(rest, numbers);
      } else {
        assert Retain(l0, numbers) == [f] + Retain(rest, numbers);
        L0LayersCons(files', f, Retain(rest, numbers));
        NonEmptyConcat([l], L0Layers(files', Retain(rest, numbers)));
      }
    }
    hide NonEmpty, L0Layers, EmptiedL0, Retain;
  }

  function MemPart(db: Db): seq<set<Entry>> {
    [Elems(db.mutable.map_)] + ImmutableLayers(db.immutables)
  }

  lemma LayersByPart(db: Db)
    ensures Layers(db) == MemPart(db) + L0Layers(db.files, db.version.l0Files) + LevelLayers(db.files, db.version.levels)
  {
    hide ImmutableLayers, L0Layers, LevelLayers;
  }

  lemma AfterAt(db: Db, db': Db, task: CompactionTask, metas: seq<FileMeta>, kept: set<Entry>, i: nat)
    requires TablesOk(db.version, db.files, db.nextFileNumber) && TaskShape(db.version, task) && Effect(db, db', task, metas, kept)
    requires |db'.version.levels| == |db.version.levels|
    requires i < |Layers(db)| == |Moved(db, task)| == LevelIndex(db, |db.version.levels|)
    requires |MemPart(db)| == Base(db) && LevelIndex(db, task.outputLevel) < |Layers(db)|
    ensures var l0 := EmptiedL0(db.files, db.version.l0Files, if task.inputLevel == 0 then Numbers(task.inputFiles) else {});
            After(Layers(db), Moved(db, task), LevelIndex(db, task.outputLevel), kept)[i] ==
            if i < Base(db) then MemPart(db)[i]
            else if i < LevelIndex(db, 0) then l0[i - Base(db)]
            else LevelLayers(db'.files, db'.version.levels)[i - LevelIndex(db, 0)]
  {
    hide *;
    LevelIndices(db, task);
    LayerAt(db, task, i);
    LayersByPart(db);
    AfterIndex(Layers(db), Moved(db, task), LevelIndex(db, task.outputLevel), kept, i);
    if i < Base(db) {
    } else if i < LevelIndex(db, 0) {
      L0Emptied(db, task, i - Base(db));
    } else {
      LevelAfter(db, db', task, metas, kept, i - LevelIndex(db, 0));
      LevelLayersAt(db', i - LevelIndex(db, 0));
    }
  }

  lemma AfterIndex(ls: seq<set<Entry>>, moved: seq<set<Entry>>, t: nat, kept: set<Entry>, i: nat)
    requires |moved| == |ls| && t < |ls| && i < |ls|
    ensures After(ls, moved, t, kept)[i] == ls[i] - moved[i] + (if i == t then kept else {})
  {
  }

  lemma LevelIndices(db: Db, task: CompactionTask)
    requires TaskShape(db.version, task)
    ensures forall n :: LevelIndex(db, n) == Base(db) + |db.version.l0Files| + n
    ensures 0 < task.outputLevel
  {
  }

  lemma AfterByPart(db: Db, db': Db, task: CompactionTask, metas: seq<FileMeta>, kept: set<Entry>)
    requires TablesOk(db.version, db.files, db.nextFileNumber) && TaskShape(db.version, task) && Effect(db, db', task, metas, kept)
    ensures LevelIndex(db, task.outputLevel) < |Layers(db)| == |Moved(db, task)|
    ensures After(Layers(db), Moved(db, task), LevelIndex(db, task.outputLevel), kept) ==
            MemPart(db)
            + EmptiedL0(db.files, db.version.l0Files, if task.inputLevel == 0 then Numbers(task.inputFiles) else {})
            + LevelLayers(db'.files, db'.version.levels)
  {
    hide *;
    PartSizes(db, db', task, metas, kept);
    var numbers := if task.inputLevel == 0 then Numbers(task.inputFiles) else {};
    var a := After(Layers(db), Moved(db, task), LevelIndex(db, task.outputLevel), kept);
    var mem, l0, lv := MemPart(db), EmptiedL0(db.files, db.version.l0Files, numbers), LevelLayers(db'.files, db'.version.levels);
    forall i | 0 <= i < |a| ensures a[i] == PartAt(mem, l0, lv, i) {
      AfterAt(db, db', task, metas, kept, i);
      PartAtIndex(mem, l0, lv, i);
    }
    ThreeParts(a, mem, l0, lv);
  }

  lemma PartSizes(db: Db, db': Db, task: CompactionTask, metas: seq<FileMeta>, kept: set<Entry>)
    requires TaskShape(db.version, task) && Effect(db, db', task, metas, kept)
    ensures |db'.version.levels| == |db.version.levels|
    ensures LevelIndex(db, task.outputLevel) < |Layers(db)| == |Moved(db, task)| == LevelIndex(db, |db.version.levels|)
    ensures |MemPart(db)| == Base(db) && LevelIndex(db, 0) == Base(db) + |db.version.l0Files|
    ensures |EmptiedL0(db.files, db.version.l0Files, if task.inputLevel == 0 then Numbers(task.inputFiles) else {})| == |db.version.l0Files|
    ensures |LevelLayers(db'.files, db'.version.levels)| == |db.version.levels|
    ensures |Layers(db)| == Base(db) + |db.version.l0Files| + |db.version.levels|
  {
    LayerCount(db, task);
    NewVersionCount(db.version, task, metas);
  }

  lemma PartAtIndex(x: seq<set<Entry>>, y: seq<set<Entry>>, z: seq<set<Entry>>, i: nat)
    requires i < |x| + |y| + |z|
    ensures PartAt(x, y, z, i) == if i < |x| then x[i] else if i < |x| + |y| then y[i - |x|] else z[i - |x| - |y|]
  {
  }

  function PartAt(x: seq<set<Entry>>, y: seq<set<Entry>>, z: seq<set<Entry>>, i: nat): set<Entry>
    requires i < |x| + |y| + |z|
  {
    if i < |x| then x[i] else if i < |x| + |y| then y[i - |x|] else z[i - |x| - |y|]
  }

  lemma ThreeParts(a: seq<set<Entry>>, x: seq<set<Entry>>, y: seq<set<Entry>>, z: seq<set<Entry>>)
    requires |a| == |x| + |y| + |z|
    requires forall i :: 0 <= i < |a| ==> a[i] == PartAt(x, y, z, i)
    ensures a == x + y + z
  {
  }

  lemma LevelLayersAt(db: Db, n: nat)
    requires n < |db.version.levels|
    ensures LevelLayers(db.files, db.version.levels)[n] == LevelSet(db.files, db.version.levels[n])
  {
  }

  lemma NewVersionCount(v: Version, task: CompactionTask, metas: seq<FileMeta>)
    requires TaskShape(v, task)
    ensures |NewVersion(v, task, metas).levels| == |v.levels|
  {
  }

  lemma L0Emptied(db: Db, task: CompactionTask, i: nat)
    requires TablesOk(db.version, db.files, db.nextFileNumber) && TaskShape(db.version, task) && i < |db.version.l0Files|
    ensures EmptiedL0(db.files, db.version.l0Files, if task.inputLevel == 0 then Numbers(task.inputFiles) else {})[i] ==
            Elems(TableEntries(db.files, db.version.l0Files[i])) - MovedL0(db, task)[i]
  {
    var f := db.version.l0Files[i];
    assert InLevel(db.version, 0, f);
    if task.inputLevel == 0 {
      NumberIdentifies(db.version, 0, task.inputFiles, f);
    }
  }

  lemma NumbersUniqueOf(db: Db)
    requires TablesOk(db.version, db.files, db.nextFileNumber)
    ensures NumbersUnique(db.version)
  {
  }

  lemma L0After(db: Db, db': Db, task: CompactionTask, metas: seq<FileMeta>, kept: set<Entry>)
    requires TablesOk(db.version, db.files, db.nextFileNumber) && TaskShape(db.version, task) && Effect(db, db', task, metas, kept)
    ensures NonEmpty(L0Layers(db'.files, db'.version.l0Files)) ==
            NonEmpty(EmptiedL0(db.files, db.version.l0Files, if task.inputLevel == 0 then Numbers(task.inputFiles) else {}))
  {
    var numbers := if task.inputLevel == 0 then Numbers(task.inputFiles) else {};
    var l0 := db.version.l0Files;
    NewVersionAt(db.version, task, metas, 0);
    if task.inputLevel > 0 {
      RetainAll(l0, {});
    }
    assert db'.version.l0Files == Retain(l0, numbers);
    forall f | f in l0 && f.number !in numbers ensures TableEntries(db'.files, f) == TableEntries(db.files, f) {
      assert InLevel(db.version, 0, f);
      assert f in task.inputFiles ==> f.number in Numbers(task.inputFiles);
      assert Untouched(db, db', metas, f);
    }
    RemovedIsEmptied(db.files, db'.files, l0, numbers);
  }

  /** After a compaction the stack is the moved stack, up to empty layers. */
  lemma EffectLayers(db: Db, db': Db, task: CompactionTask, metas: seq<FileMeta>, kept: set<Entry>)
    requires TablesOk(db.version, db.files, db.nextFileNumber) && TaskShape(db.version, task) && Effect(db, db', task, metas, kept)
    ensures LevelIndex(db, task.outputLevel) < |Layers(db)| == |Moved(db, task)|
    ensures NonEmpty(Layers(db')) == NonEmpty(After(Layers(db), Moved(db, task), LevelIndex(db, task.outputLevel), kept))
  {
    var numbers := if task.inputLevel == 0 then Numbers(task.inputFiles) else {};
    var l0, l0' := EmptiedL0(db.files, db.version.l0Files, numbers), L0Layers(db'.files, db'.version.l0Files);
    var lv := LevelLayers(db'.files, db'.version.levels);
    AfterByPart(db, db', task, metas, kept);
    L0After(db, db', task, metas, kept);
    LayersByPart(db');
    assert MemPart(db') == MemPart(db);
    hide Layers, Moved, After, NonEmpty, EmptiedL0, L0Layers, LevelLayers, TablesOk, TaskShape, Effect, MemPart;
    NonEmptyConcat(MemPart(db) + l0, lv);
    NonEmptyConcat(MemPart(db), l0);
    NonEmptyConcat(MemPart(db) + l0', lv);
    NonEmptyConcat(MemPart(db), l0');
  }
}
