/**
 The database object (src/db.rs): its fields are updated in place, and every method is proved
 against the state-machine functions of `Lsm` or against the reference reads of `Visibility`.
 */
module Databases {
  import opened Keys
  import opened Visibility
  import opened Executor
  import opened Splitter
  import opened MemTables
  import opened Versions
  import opened Picker
  import opened Lsm
  import opened LsmWrites
  import opened LsmCompaction
  import opened LsmSafety
  import opened Watermarks
  import opened Sorting
  import opened Iterators

  datatype Error = Closed | InvalidArgument | TransactionConflict
  datatype Result<+T> = Ok(value: T) | Err(error: Error)

  type ReadRange = (Bound, Bound)

  // ----- one table, one level

  /** The newest version in a sorted table is the first one met; `TableReads` refines this by index, filter and cache. */
  method TableGet(s: seq<Entry>, key: Bytes, readSeq: nat) returns (r: Option<Entry>)
    requires Sorted(s) && Functional(Elems(s))
    ensures r == Newest(Elems(s), key, readSeq)
  {
    for i := 0 to |s|
      invariant forall j :: 0 <= j < i ==> !VersionOf(s[j], key, readSeq)
    {
      if s[i].key.userKey == key && s[i].key.sequence <= readSeq {
        FirstVersion(s, i, key, readSeq);
        return Some(s[i]);
      }
    }
    return None;
  }

  predicate FileOverlapsUserKey(f: FileMeta, key: Bytes) {
    Leq(f.smallest.userKey, key) && Leq(key, f.largest.userKey)
  }

  method FindOverlapping(fs: seq<FileMeta>, key: Bytes) returns (f: Option<FileMeta>)
    ensures f.None? ==> forall g :: g in fs ==> !FileOverlapsUserKey(g, key)
    ensures f.Some? ==> f.value in fs && FileOverlapsUserKey(f.value, key)
  {
    for i := 0 to |fs|
      invariant forall j :: 0 <= j < i ==> !FileOverlapsUserKey(fs[j], key)
    {
      if FileOverlapsUserKey(fs[i], key) {
        return Some(fs[i]);
      }
    }
    return None;
  }

  lemma OutsideRange(files: map<nat, seq<Entry>>, f: FileMeta, key: Bytes, r: nat)
    requires FileOk(files, f) && !FileOverlapsUserKey(f, key)
    ensures Newest(Elems(TableEntries(files, f)), key, r) == None
  {
    forall e | e in Elems(TableEntries(files, f)) ensures !VersionOf(e, key, r) {
      KeysInRange(files, f, e);
    }
  }

  /** One file answers for its level: the others are disjoint from it. */
  lemma LevelAnswer(db: Db, n: nat, f: FileMeta, key: Bytes, r: nat)
    requires Inv(db) && 0 < n < |db.version.levels| && f in db.version.levels[n] && FileOverlapsUserKey(f, key)
    ensures Newest(LevelSet(db.files, db.version.levels[n]), key, r) == Newest(Elems(TableEntries(db.files, f)), key, r)
  {
    var level, own := LevelSet(db.files, db.version.levels[n]), Elems(TableEntries(db.files, f));
    UnpackInv(db);
    LevelWithin(db, n);
    hide Inv, Recency, Layers, All, LevelSet, TablesOk;
    forall e | e in level && VersionOf(e, key, r) ensures e in own {
      OwnerIs(db, n, f, e);
    }
    forall e | e in own ensures e in level { LevelSetHas(db.files, db.version.levels[n], f, e); }
    FunctionalSubset(All(db), level);
    if Newest(own, key, r).Some? {
      NewestUnique(level, key, r, Newest(own, key, r).value);
    }
  }

  /** A version in a level lies in the one file whose range holds its key. */
  lemma OwnerIs(db: Db, n: nat, f: FileMeta, e: Entry)
    requires TablesOk(db.version, db.files, db.nextFileNumber) && 0 < n < |db.version.levels| && f in db.version.levels[n]
    requires FileOverlapsUserKey(f, e.key.userKey) && e in LevelSet(db.files, db.version.levels[n])
    ensures e in TableEntries(db.files, f)
  {
    var g := InLevelSet(db.files, db.version.levels[n], e);
    TableOk(db, n, g);
    KeysInRange(db.files, g, e);
    assert LevelDisjoint(db.version.levels[n]);
    hide TablesOk, LevelSet, FileOk;
    if DisjointRanges(f, g) {
      LessLeqTrans(f.largest.userKey, g.smallest.userKey, e.key.userKey);
      LessLeqTrans(e.key.userKey, g.largest.userKey, f.smallest.userKey);
    }
  }

  lemma LevelWithin(db: Db, n: nat)
    requires n < |db.version.levels|
    ensures LevelSet(db.files, db.version.levels[n]) <= All(db)
  {
    var i := LevelIndex(db, n);
    assert Layers(db)[i] == LevelSet(db.files, db.version.levels[n]);
  }

  lemma NoFileAnswers(db: Db, n: nat, key: Bytes, r: nat)
    requires TablesOk(db.version, db.files, db.nextFileNumber) && 0 < n < |db.version.levels|
    requires forall g :: g in db.version.levels[n] ==> !FileOverlapsUserKey(g, key)
    ensures Newest(LevelSet(db.files, db.version.levels[n]), key, r) == None
  {
    forall e | e in LevelSet(db.files, db.version.levels[n]) ensures !VersionOf(e, key, r) {
      hide LevelSet;
      var g := InLevelSet(db.files, db.version.levels[n], e);
      TableOk(db, n, g);
      KeysInRange(db.files, g, e);
    }
  }

  // ----- the read path, part by part

  function RecordOf(n: Option<Entry>): Option<ValueRecord> {
    match n case Some(e) => Some(e.value) case None => None
  }

  function VisibleValue(v: Option<ValueRecord>): Option<Bytes> {
    match v
    case Some(Put(b)) => Some(b)
    case _ => None
  }

  lemma SkipLayer(ls: seq<set<Entry>>, i: nat, key: Bytes, r: nat)
    requires i < |ls|
    ensures FirstHit(ls[i..], key, r) ==
            if Newest(ls[i], key, r).Some? then Newest(ls[i], key, r) else FirstHit(ls[i + 1..], key, r)
  {
    assert ls[i..][0] == ls[i] && ls[i..][1..] == ls[i + 1..];
  }

  /** Immutable memtables, the last pushed first. */
  method SearchImmutables(ms: seq<MemTable>, key: Bytes, readSeq: nat) returns (v: Option<ValueRecord>)
    requires forall m :: m in ms ==> StrictlySorted(m.map_) && Functional(Elems(m.map_))
    ensures v == RecordOf(FirstHit(ImmutableLayers(ms), key, readSeq))
  {
    ghost var ls := ImmutableLayers(ms);
    assert ls == ls[0..];
    for i := 0 to |ms|
      invariant FirstHit(ls, key, readSeq) == FirstHit(ls[i..], key, readSeq)
    {
      var m := ms[|ms| - 1 - i];
      SkipLayer(ls, i, key, readSeq);
      v := MemGet(m.map_, key, readSeq);
      if v.Some? {
        return;
      }
    }
    return None;
  }

  /** Level-0 files front to back, skipping those whose key range excludes the key. */
  method SearchL0(files: map<nat, seq<Entry>>, l0: seq<FileMeta>, key: Bytes, readSeq: nat) returns (v: Option<ValueRecord>)
    requires forall f :: f in l0 ==> FileOk(files, f) && Functional(Elems(TableEntries(files, f)))
    ensures v == RecordOf(FirstHit(L0Layers(files, l0), key, readSeq))
  {
    ghost var ls := L0Layers(files, l0);
    assert ls == ls[0..];
    for i := 0 to |l0|
      invariant FirstHit(ls, key, readSeq) == FirstHit(ls[i..], key, readSeq)
    {
      var f := l0[i];
      SkipLayer(ls, i, key, readSeq);
      if FileOverlapsUserKey(f, key) {
        var e := TableGet(files[f.number], key, readSeq);
        if e.Some? {
          return Some(e.value.value);
        }
      } else {
        OutsideRange(files, f, key, readSeq);
      }
    }
    return None;
  }

  /** One file per level, from level 1 down. */
  method SearchLevels(ghost db: Db, files: map<nat, seq<Entry>>, levels: seq<seq<FileMeta>>, key: Bytes, readSeq: nat) returns (v: Option<ValueRecord>)
    requires Inv(db) && files == db.files && levels == db.version.levels
    ensures v == RecordOf(FirstHit(LevelLayers(files, levels), key, readSeq))
  {
    ghost var ls := LevelLayers(files, levels);
    assert ls == ls[0..];
    assert ls[0] == {};
    SkipLayer(ls, 0, key, readSeq);
    for n := 1 to |levels|
      invariant FirstHit(ls, key, readSeq) == FirstHit(ls[n..], key, readSeq)
    {
      SkipLayer(ls, n, key, readSeq);
      assert ls[n] == LevelSet(files, levels[n]);
      var f := FindOverlapping(levels[n], key);
      if f.Some? {
        LevelAnswer(db, n, f.value, key, readSeq);
        LevelTable(db, n, f.value);
        var e := TableGet(files[f.value.number], key, readSeq);
        if e.Some? {
          return Some(e.value.value);
        }
      } else {
        NoFileAnswers(db, n, key, readSeq);
      }
    }
    return None;
  }

  lemma LevelTable(db: Db, n: nat, f: FileMeta)
    requires Inv(db) && InLevel(db.version, n, f)
    ensures FileOk(db.files, f) && Functional(Elems(TableEntries(db.files, f)))
  {
    UnpackInv(db);
    TableOk(db, n, f);
    hide Inv, Recency, All, FileOk;
    TableWithin(db, n, f);
    FunctionalSubset(All(db), Elems(TableEntries(db.files, f)));
  }

  lemma TableWithin(db: Db, n: nat, f: FileMeta)
    requires InLevel(db.version, n, f)
    ensures Elems(TableEntries(db.files, f)) <= All(db)
  {
    if n == 0 {
      var i :| 0 <= i < |db.version.l0Files| && db.version.l0Files[i] == f;
      assert Layers(db)[Base(db) + i] == Elems(TableEntries(db.files, f));
    } else {
      LevelWithin(db, n);
      forall e | e in TableEntries(db.files, f) ensures e in All(db) {
        LevelSetHas(db.files, db.version.levels[n], f, e);
      }
    }
  }

  lemma MemtableWithin(db: Db, m: MemTable)
    requires m == db.mutable || m in db.immutables
    ensures Elems(m.map_) <= All(db)
  {
    if m == db.mutable {
      assert Layers(db)[0] == Elems(m.map_);
    } else {
      var i :| 0 <= i < |db.immutables| && db.immutables[i] == m;
      assert Layers(db)[|db.immutables| - i] == Elems(m.map_);
    }
  }

  /** The tables and memtables a point read meets are each sorted and functional. */
  lemma ReadParts(db: Db)
    requires Inv(db)
    ensures forall m :: m == db.mutable || m in db.immutables ==> StrictlySorted(m.map_) && Functional(Elems(m.map_))
    ensures forall f :: f in db.version.l0Files ==> FileOk(db.files, f) && Functional(Elems(TableEntries(db.files, f)))
  {
    forall m | m == db.mutable || m in db.immutables ensures StrictlySorted(m.map_) && Functional(Elems(m.map_)) {
      assert MemOk(m);
      MemtableWithin(db, m);
      FunctionalSubset(All(db), Elems(m.map_));
    }
    forall f | f in db.version.l0Files ensures FileOk(db.files, f) && Functional(Elems(TableEntries(db.files, f))) {
      assert InLevel(db.version, 0, f);
      LevelTable(db, 0, f);
    }
  }

  /** Reading part by part is reading the whole stack. */
  lemma SearchOrder(db: Db, key: Bytes, r: nat)
    requires Inv(db)
    ensures var top := Newest(Elems(db.mutable.map_), key, r);
            var imm := FirstHit(ImmutableLayers(db.immutables), key, r);
            var l0 := FirstHit(L0Layers(db.files, db.version.l0Files), key, r);
            var lv := FirstHit(LevelLayers(db.files, db.version.levels), key, r);
            Newest(All(db), key, r) ==
            if top.Some? then top else if imm.Some? then imm else if l0.Some? then l0 else lv
  {
    var imm, l0, lv := ImmutableLayers(db.immutables), L0Layers(db.files, db.version.l0Files), LevelLayers(db.files, db.version.levels);
    LayeredReadCorrect(db, key, r);
    assert Layers(db) == [Elems(db.mutable.map_)] + (imm + l0 + lv);
    hide Inv, Layers, All, ImmutableLayers, L0Layers, LevelLayers;
    FirstHitConcat([Elems(db.mutable.map_)], imm + l0 + lv, key, r);
    FirstHitConcat(imm + l0, lv, key, r);
    FirstHitConcat(imm, l0, key, r);
    assert [Elems(db.mutable.map_)][1..] == [];
  }

  // ----- what a scan merges

  lemma PoolConcat(a: seq<Cursor>, b: seq<Cursor>)
    ensures Pool(ChildEntries(a + b)) == Pool(ChildEntries(a)) + Pool(ChildEntries(b))
  {
    assert ChildEntries(a + b) == ChildEntries(a) + ChildEntries(b);
  }

  lemma PoolOne(c: Cursor)
    ensures Pool(ChildEntries([c])) == Elems(c.entries)
  {
    assert ChildEntries([c]) == [c.entries];
  }

  lemma ElemsConcat(a: seq<Entry>, b: seq<Entry>)
    ensures Elems(a + b) == Elems(a) + Elems(b)
  {
  }

  /** All memtable entries, newest memtable first (src/db.rs:369-373). */
  method MemEntries(m: MemTable, ms: seq<MemTable>) returns (entries: seq<Entry>)
    ensures Elems(entries) == Elems(m.map_) + Union(ImmutableLayers(ms))
  {
    entries := m.map_;
    ghost var ls := ImmutableLayers(ms);
    assert Union(ls[..0]) == {};
    for i := 0 to |ms|
      invariant Elems(entries) == Elems(m.map_) + Union(ls[..i])
    {
      assert ls[..i + 1] == ls[..i] + [ls[i]];
      UnionConcat(ls[..i], [ls[i]]);
      assert Union([ls[i]]) == ls[i];
      ElemsConcat(entries, ms[|ms| - 1 - i].map_);
      entries := entries + ms[|ms| - 1 - i].map_;
    }
    assert ls[..|ms|] == ls;
  }

  /** One cursor per table. */
  method AddTables(cs: seq<Cursor>, files: map<nat, seq<Entry>>, fs: seq<FileMeta>) returns (children: seq<Cursor>)
    requires FreshChildren(cs) && forall f :: f in fs ==> FileOk(files, f)
    ensures FreshChildren(children)
    ensures Pool(ChildEntries(children)) == Pool(ChildEntries(cs)) + LevelSet(files, fs)
  {
    children := cs;
    assert LevelSet(files, fs[..0]) == {};
    for i := 0 to |fs|
      invariant FreshChildren(children)
      invariant Pool(ChildEntries(children)) == Pool(ChildEntries(cs)) + LevelSet(files, fs[..i])
    {
      hide Pool, ChildEntries, LevelSet, FreshChildren;
      AddOneTable(children, files, fs, i);
      children := children + [Cursor(files[fs[i].number], 0)];
    }
    assert fs[..|fs|] == fs;
  }

  lemma AddOneTable(cs: seq<Cursor>, files: map<nat, seq<Entry>>, fs: seq<FileMeta>, i: nat)
    requires FreshChildren(cs) && i < |fs| && FileOk(files, fs[i])
    ensures var c := Cursor(files[fs[i].number], 0);
            && FreshChildren(cs + [c])
            && Pool(ChildEntries(cs + [c])) == Pool(ChildEntries(cs)) + Elems(files[fs[i].number])
            && LevelSet(files, fs[..i + 1]) == LevelSet(files, fs[..i]) + Elems(files[fs[i].number])
  {
    var c := Cursor(files[fs[i].number], 0);
    assert Sorted(files[fs[i].number]);
    OneTableLevel(files, fs, i);
    hide Pool, ChildEntries, LevelSet, FileOk, Sorted;
    PoolConcat(cs, [c]);
    PoolOne(c);
  }

  lemma OneTableLevel(files: map<nat, seq<Entry>>, fs: seq<FileMeta>, i: nat)
    requires i < |fs| && fs[i].number in files
    ensures LevelSet(files, fs[..i + 1]) == LevelSet(files, fs[..i]) + Elems(files[fs[i].number])
  {
    assert fs[..i + 1] == fs[..i] + [fs[i]];
    LevelSetConcat(files, fs[..i], [fs[i]]);
    assert LevelSet(files, [fs[i]]) == Elems(TableEntries(files, fs[i]));
  }

  /** The memtables' child, absent when they are all empty. */
  method MemChildren(entries: seq<Entry>) returns (children: seq<Cursor>)
    ensures FreshChildren(children) && Pool(ChildEntries(children)) == Elems(entries)
  {
    children := [];
    if entries != [] {
      SortBySorted(entries, EntryKey);
      SortByElements(entries, EntryKey);
      var c := Cursor(SortBy(entries, EntryKey), 0);
      PoolOne(c);
      children := [c];
    } else {
      assert Pool(ChildEntries(children)) == {};
    }
  }

  lemma OneMoreLayer(ls: seq<set<Entry>>, n: nat)
    requires n < |ls|
    ensures Union(ls[..n + 1]) == Union(ls[..n]) + ls[n]
  {
    assert ls[..n + 1] == ls[..n] + [ls[n]];
    UnionConcat(ls[..n], [ls[n]]);
    assert Union([ls[n]]) == ls[n];
  }

  method AddLevels(cs: seq<Cursor>, files: map<nat, seq<Entry>>, levels: seq<seq<FileMeta>>) returns (children: seq<Cursor>)
    requires FreshChildren(cs) && forall n, f :: 0 <= n < |levels| && f in levels[n] ==> FileOk(files, f)
    ensures FreshChildren(children)
    ensures Pool(ChildEntries(children)) == Pool(ChildEntries(cs)) + Union(LevelLayers(files, levels))
  {
    children := cs;
    ghost var ls := LevelLayers(files, levels);
    assert |ls| == |levels| && forall n :: 0 <= n < |levels| ==> ls[n] == LevelSet(files, levels[n]);
    assert Union(ls[..0]) == {};
    hide LevelLayers, LevelSet, Pool, Union, FreshChildren, ChildEntries, FileOk;
    for n := 0 to |levels|
      invariant FreshChildren(children)
      invariant Pool(ChildEntries(children)) == Pool(ChildEntries(cs)) + Union(ls[..n])
    {
      OneMoreLayer(ls, n);
      children := AddTables(children, files, levels[n]);
    }
    assert ls[..|levels|] == ls;
  }

  lemma AllByPart(db: Db)
    ensures All(db) == Elems(db.mutable.map_) + Union(ImmutableLayers(db.immutables))
                       + LevelSet(db.files, db.version.l0Files) + Union(LevelLayers(db.files, db.version.levels))
  {
    var top, imm, l0, lv := Elems(db.mutable.map_), ImmutableLayers(db.immutables), L0Layers(db.files, db.version.l0Files), LevelLayers(db.files, db.version.levels);
    TablesAreLevel(db.files, db.version.l0Files);
    assert All(db) == Union([top] + (imm + l0 + lv));
    hide All, ImmutableLayers, L0Layers, LevelLayers, Union;
    UnionTop(top, imm + l0 + lv);
    UnionConcat(imm + l0, lv);
    UnionConcat(imm, l0);
  }

  // ----- conflict detection

  predicate Hit(e: Entry, readSeq: nat, p: InternalKey -> bool) {
    e.key.sequence > readSeq && p(e.key)
  }

  ghost predicate HitIn(s: set<Entry>, readSeq: nat, p: InternalKey -> bool) {
    exists e :: e in s && Hit(e, readSeq, p)
  }

  lemma HitInParts(db: Db, readSeq: nat, p: InternalKey -> bool)
    ensures HitIn(All(db), readSeq, p) <==>
            || HitIn(Elems(db.mutable.map_), readSeq, p)
            || HitIn(Union(ImmutableLayers(db.immutables)), readSeq, p)
            || HitIn(Union(L0Layers(db.files, db.version.l0Files)), readSeq, p)
            || HitIn(Union(LevelLayers(db.files, db.version.levels)), readSeq, p)
  {
    var top, imm, l0, lv := Elems(db.mutable.map_), ImmutableLayers(db.immutables), L0Layers(db.files, db.version.l0Files), LevelLayers(db.files, db.version.levels);
    assert All(db) == Union([top] + (imm + l0 + lv));
    hide All, ImmutableLayers, L0Layers, LevelLayers, Union, Hit;
    UnionTop(top, imm + l0 + lv);
    UnionConcat(imm + l0, lv);
    UnionConcat(imm, l0);
  }

  method AnyIn(s: seq<Entry>, readSeq: nat, p: InternalKey -> bool) returns (b: bool)
    ensures b <==> HitIn(Elems(s), readSeq, p)
  {
    for i := 0 to |s|
      invariant forall j :: 0 <= j < i ==> !Hit(s[j], readSeq, p)
    {
      if s[i].key.sequence > readSeq && p(s[i].key) {
        assert s[i] in Elems(s) && Hit(s[i], readSeq, p);
        return true;
      }
    }
    return false;
  }

  lemma HitInLayer(ls: seq<set<Entry>>, i: nat, readSeq: nat, p: InternalKey -> bool)
    requires i < |ls|
    ensures HitIn(Union(ls[..i + 1]), readSeq, p) <==> HitIn(Union(ls[..i]), readSeq, p) || HitIn(ls[i], readSeq, p)
    ensures HitIn(ls[i], readSeq, p) ==> HitIn(Union(ls), readSeq, p)
  {
    assert ls[..i + 1] == ls[..i] + [ls[i]];
    UnionConcat(ls[..i], [ls[i]]);
    assert Union([ls[i]]) == ls[i];
  }

  method AnyInMemtables(ms: seq<MemTable>, readSeq: nat, p: InternalKey -> bool) returns (b: bool)
    ensures b <==> HitIn(Union(ImmutableLayers(ms)), readSeq, p)
  {
    ghost var ls := ImmutableLayers(ms);
    for i := 0 to |ms|
      invariant !HitIn(Union(ls[..i]), readSeq, p)
    {
      HitInLayer(ls, i, readSeq, p);
      b := AnyIn(ms[|ms| - 1 - i].map_, readSeq, p);
      if b { return; }
    }
    assert ls[..|ms|] == ls;
    return false;
  }

  /** Tables whose largest sequence is not above the read sequence are skipped. */
  method AnyInTables(files: map<nat, seq<Entry>>, fs: seq<FileMeta>, readSeq: nat, p: InternalKey -> bool) returns (b: bool)
    requires forall f :: f in fs ==> FileOk(files, f)
    ensures b <==> HitIn(Union(L0Layers(files, fs)), readSeq, p)
  {
    ghost var ls := L0Layers(files, fs);
    for i := 0 to |fs|
      invariant !HitIn(Union(ls[..i]), readSeq, p)
    {
      HitInLayer(ls, i, readSeq, p);
      assert FileOk(files, fs[i]) && ls[i] == Elems(files[fs[i].number]);
      if fs[i].largestSeq > readSeq {
        b := AnyIn(files[fs[i].number], readSeq, p);
        if b { return; }
      }
    }
    assert ls[..|fs|] == ls;
    return false;
  }

  lemma TablesAreLevel(files: map<nat, seq<Entry>>, fs: seq<FileMeta>)
    ensures Union(L0Layers(files, fs)) == LevelSet(files, fs)
  {
    var ls := L0Layers(files, fs);
    forall e | e in LevelSet(files, fs) ensures e in Union(ls) {
      var f := InLevelSet(files, fs, e);
      var i :| 0 <= i < |fs| && fs[i] == f;
      assert e in ls[i] && ls[i] in ls;
    }
  }

  method AnyInLevels(files: map<nat, seq<Entry>>, levels: seq<seq<FileMeta>>, readSeq: nat, p: InternalKey -> bool) returns (b: bool)
    requires forall n, f :: 0 <= n < |levels| && f in levels[n] ==> FileOk(files, f)
    ensures b <==> HitIn(Union(LevelLayers(files, levels)), readSeq, p)
  {
    ghost var ls := LevelLayers(files, levels);
    for n := 0 to |levels|
      invariant !HitIn(Union(ls[..n]), readSeq, p)
    {
      HitInLayer(ls, n, readSeq, p);
      TablesAreLevel(files, levels[n]);
      b := AnyInTables(files, levels[n], readSeq, p);
      if b { return; }
    }
    assert ls[..|levels|] == ls;
    return false;
  }

  lemma AllFilesOk(db: Db)
    requires Inv(db)
    ensures forall f :: f in db.version.l0Files ==> FileOk(db.files, f)
    ensures forall n, f :: 0 <= n < |db.version.levels| && f in db.version.levels[n] ==> FileOk(db.files, f)
  {
    UnpackInv(db);
    assert forall f :: f in db.version.l0Files ==> InLevel(db.version, 0, f);
    assert forall n, f :: 0 <= n < |db.version.levels| && f in db.version.levels[n] ==> n > 0 && InLevel(db.version, n, f);
    hide Inv, FileOk;
  }

  /** No version above `readSeq` touches a read key, a write key or a scanned range. */
  ghost predicate NoConflict(s: set<Entry>, readSeq: nat, readKeys: set<Bytes>, readRanges: seq<ReadRange>, writeKeys: set<Bytes>) {
    forall e :: e in s && e.key.sequence > readSeq ==>
      && e.key.userKey !in readKeys
      && e.key.userKey !in writeKeys
      && forall i :: 0 <= i < |readRanges| ==> !WithinBounds(e.key.userKey, readRanges[i].0, readRanges[i].1)
  }

  function RecordKey(r: BatchRecord): Bytes { r.key }

  function BatchWriteKeys(batch: seq<BatchRecord>): set<Bytes> {
    set r | r in batch :: RecordKey(r)
  }

  function KeyIs(key: Bytes): InternalKey -> bool {
    (k: InternalKey) => k.userKey == key
  }

  function KeyWithin(range: ReadRange): InternalKey -> bool {
    (k: InternalKey) => WithinBounds(k.userKey, range.0, range.1)
  }

  lemma NoConflictParts(s: set<Entry>, readSeq: nat, readKeys: set<Bytes>, readRanges: seq<ReadRange>, writeKeys: set<Bytes>)
    ensures NoConflict(s, readSeq, readKeys, readRanges, writeKeys) <==>
            && (forall k :: k in readKeys || k in writeKeys ==> !HitIn(s, readSeq, KeyIs(k)))
            && (forall i :: 0 <= i < |readRanges| ==> !HitIn(s, readSeq, KeyWithin(readRanges[i])))
  {
    if NoConflict(s, readSeq, readKeys, readRanges, writeKeys) {
    } else {
      var e :| e in s && e.key.sequence > readSeq &&
        !(&& e.key.userKey !in readKeys
          && e.key.userKey !in writeKeys
          && forall i :: 0 <= i < |readRanges| ==> !WithinBounds(e.key.userKey, readRanges[i].0, readRanges[i].1));
      if e.key.userKey in readKeys || e.key.userKey in writeKeys {
        assert Hit(e, readSeq, KeyIs(e.key.userKey));
      } else {
        var i :| 0 <= i < |readRanges| && WithinBounds(e.key.userKey, readRanges[i].0, readRanges[i].1);
        assert Hit(e, readSeq, KeyWithin(readRanges[i]));
      }
    }
  }

  predicate Full(opts: Options, m: MemTable) {
    m.map_ != [] && m.approximateSize >= opts.memtableSize
  }

  /** A batch applied, and the memtable frozen if that filled it. */
  function AppliedAndFrozen(opts: Options, db: Db, batch: seq<BatchRecord>): Db {
    var applied := ApplyBatch(db, batch);
    if Full(opts, applied.mutable) then FreezeMutable(applied) else applied
  }

  /** What a successful non-empty commit does: apply, then freeze and flush if the memtable is full. */
  function Committed(opts: Options, db: Db, batch: seq<BatchRecord>, fileSize: nat): Db {
    var db1 := AppliedAndFrozen(opts, db, batch);
    if Full(opts, ApplyBatch(db, batch).mutable) then FlushMemtable(db1, fileSize) else db1
  }

  /** A write group: every batch applied in order, each followed by a freeze if the memtable is full. */
  function GroupApplied(opts: Options, db: Db, items: seq<seq<BatchRecord>>): Db
    decreases |items|
  {
    if items == [] then db else GroupApplied(opts, AppliedAndFrozen(opts, db, items[0]), items[1..])
  }

  /** Some batch of the group fills the memtable. */
  predicate GroupFills(opts: Options, db: Db, items: seq<seq<BatchRecord>>)
    decreases |items|
  {
    items != [] &&
    (Full(opts, ApplyBatch(db, items[0]).mutable) || GroupFills(opts, AppliedAndFrozen(opts, db, items[0]), items[1..]))
  }

  /** A flush is due exactly when the group froze a memtable. */
  lemma {:induction false} FillsIffFreezes(opts: Options, db: Db, items: seq<seq<BatchRecord>>)
    ensures |db.immutables| <= |GroupApplied(opts, db, items).immutables|
    ensures GroupFills(opts, db, items) <==> |db.immutables| < |GroupApplied(opts, db, items).immutables|
    decreases |items|
  {
    hide InsertAll, BatchEntries;
    if items != [] {
      FillsIffFreezes(opts, AppliedAndFrozen(opts, db, items[0]), items[1..]);
    }
  }

  lemma AppliedKeepsInv(opts: Options, db: Db, batch: seq<BatchRecord>)
    requires Inv(db)
    ensures Inv(AppliedAndFrozen(opts, db, batch))
  {
    hide Inv, ApplyBatch;
    WriteKeepsInv(db, batch);
    if Full(opts, ApplyBatch(db, batch).mutable) {
      FreezeKeepsInv(ApplyBatch(db, batch));
    }
  }

  lemma GcWatermarkIs(db: Db, s: nat)
    requires if db.live == multiset{} then s == db.lastSequence else IsOldest(db.live, s)
    ensures GcWatermark(db) == s
  {
  }

  lemma PickedNonEmpty(v: Version, task: CompactionTask)
    requires Picked(v, task)
    ensures task.inputFiles != []
  {
  }

  lemma MoveDone(opts: Options, db: Db, task: CompactionTask, w: nat)
    requires Picked(db.version, task) && L0Closed(db, task) && w == GcWatermark(db)
    requires SplitSafe(opts, CompactionOutput(db, task, w)) && MovesTrivially(db, task, w)
    ensures Enabled(opts, db, Compact(task, [], []))
    ensures Do(opts, db, Compact(task, [], [])) == db.(version := Applied(db.version, MoveEdits(task)))
  {
    hide Picked, L0Closed, SplitSafe, MovesTrivially, GcWatermark, Applied, MoveEdits;
  }

  lemma ChunksAre(opts: Options, db: Db, task: CompactionTask, w: nat, output: seq<Entry>)
    requires output == Compacted(Gather(db.files, task.AllInputFiles()), w, CanDropTombstones(db.version, task))
    ensures var chunks := Split(output, opts.targetFileSizeBase, opts.maxSubcompactions);
            chunks == Chunks(opts, db, task, w) && forall i :: 0 <= i < |chunks| ==> chunks[i] != []
  {
    var chunks := Split(output, opts.targetFileSizeBase, opts.maxSubcompactions);
    SplitPartition(output, opts.targetFileSizeBase, opts.maxSubcompactions);
    assert forall i :: 0 <= i < |chunks| ==> chunks[i] in chunks;
    hide Split, Compacted, Gather;
  }

  lemma RewriteDone(opts: Options, db: Db, task: CompactionTask, w: nat, chunks: seq<seq<Entry>>, numbers: seq<nat>, sizes: seq<nat>)
    requires Picked(db.version, task) && L0Closed(db, task) && w == GcWatermark(db)
    requires SplitSafe(opts, CompactionOutput(db, task, w)) && task.inputFiles != [] && !MovesTrivially(db, task, w)
    requires chunks == Chunks(opts, db, task, w) && forall i :: 0 <= i < |chunks| ==> chunks[i] != []
    requires |numbers| == |chunks| && |sizes| == |chunks| && FreshNumbers(db, numbers)
    ensures Enabled(opts, db, Compact(task, numbers, sizes))
    ensures Do(opts, db, Compact(task, numbers, sizes)) ==
            db.(version := Applied(db.version, RewriteEdits(task, OutputMetas(chunks, numbers, sizes))),
                files := (db.files - Numbers(task.AllInputFiles())) + OutputFiles(chunks, numbers),
                nextFileNumber := db.nextFileNumber + |chunks|)
  {
    hide Picked, L0Closed, SplitSafe, MovesTrivially, GcWatermark, Applied, RewriteEdits, OutputMetas, OutputFiles, Numbers, Split, CompactionOutput;
  }

  // ----- the object

  /** A live snapshot's scan of any range returns the same rows at any two states of a run. */
  lemma ScanStability(opts: Options, states: seq<Db>, steps: seq<Step>, i: nat, j: nat, r: nat, lower: Bound, upper: Bound, a: seq<Row>, b: seq<Row>)
    requires IsRun(opts, states, steps) && Inv(states[0]) && i <= j <= |steps|
    requires forall m :: i <= m < j ==> r in states[m].live
    requires IsScan(a, All(states[i]), lower, upper, r) && IsScan(b, All(states[j]), lower, upper, r)
    ensures a == b
  {
    RunProtects(opts, states, steps, i, j, r);
    assert forall k :: Get(All(states[j]), k, r) == Get(All(states[i]), k, r);
    hide *;
    SameViewSameScan(a, b, All(states[i]), r, All(states[j]), r, lower, upper);
  }

  /** The last sequence after `n` records from `start` on. */
  function RaisedTo(last: nat, start: nat, n: nat): nat {
    if n == 0 || start + n - 1 < last then last else start + n - 1
  }

  lemma BatchApplied(db: Db, batch: seq<BatchRecord>, mutable: MemTable, last: nat)
    requires mutable == InsertAll(db.mutable, BatchEntries(db.lastSequence + 1, batch))
    requires last == RaisedTo(db.lastSequence, db.lastSequence + 1, |batch|)
    ensures db.(mutable := mutable, lastSequence := last) == ApplyBatch(db, batch)
  {
  }

  lemma InsertNone(m: MemTable, start: nat)
    ensures InsertAll(m, BatchEntries(start, [])) == m
  {
  }

  /** Inserting the records from the `i`-th on starts with that record. */
  lemma InsertFrom(m: MemTable, start: nat, batch: seq<BatchRecord>, i: nat)
    requires i <= |batch|
    ensures i == 0 ==> BatchEntries(start + i, batch[i..]) == BatchEntries(start, batch)
    ensures i < |batch| ==>
              InsertAll(m, BatchEntries(start + i, batch[i..])) ==
              InsertAll(MemInsert(m, RecordEntry(batch[i], start + i)), BatchEntries(start + i + 1, batch[i + 1..]))
  {
    hide MemInsert;
    if i < |batch| {
      var es := BatchEntries(start + i, batch[i..]);
      assert es[0] == RecordEntry(batch[i], start + i);
      assert es[1..] == BatchEntries(start + i + 1, batch[i + 1..]);
    }
  }

  class Database {
    const opts: Options
    const watermark: Watermark
    var mutable: MemTable
    var immutables: seq<MemTable>
    var version: Version
    var files: map<nat, seq<Entry>>
    var lastSequence: nat
    var nextFileNumber: nat
    var closed: bool

    ghost function Model(): Db
      reads this, watermark
    {
      Db(mutable, immutables, version, files, lastSequence, nextFileNumber, watermark.live)
    }

    ghost predicate Valid()
      reads this, watermark
    {
      watermark.Valid() && Inv(Model())
    }

    constructor (opts: Options, maxLevels: nat)
      requires maxLevels >= 2
      ensures Valid() && fresh(watermark) && !closed
      ensures Model() == InitDb(maxLevels)
    {
      this.opts := opts;
      this.watermark := new Watermark();
      mutable, immutables, version, files := EMPTY_MEMTABLE, [], EmptyVersion(maxLevels), map[];
      lastSequence, nextFileNumber, closed := 0, 2, false;
      new;
      InitInv(maxLevels);
    }

    /** `apply_batch`: consecutive sequences from `start`, the last sequence never going back. */
    method ApplyBatchAt(start: nat, batch: seq<BatchRecord>)
      modifies this`mutable, this`lastSequence
      ensures mutable == InsertAll(old(mutable), BatchEntries(start, batch))
      ensures lastSequence == RaisedTo(old(lastSequence), start, |batch|)
    {
      hide MemInsert, InsertAll, BatchEntries;
      ghost var es := BatchEntries(start, batch);
      InsertFrom(mutable, start, batch, 0);
      for i := 0 to |batch|
        invariant InsertAll(mutable, BatchEntries(start + i, batch[i..])) == InsertAll(old(mutable), es)
        invariant lastSequence == RaisedTo(old(lastSequence), start, i)
      {
        var sequence := start + i;
        InsertFrom(mutable, start, batch, i);
        match batch[i] {
          case PutRecord(key, value) => mutable := MemInsert(mutable, Entry(InternalKey(key, sequence, PutType), Put(value)));
          case DeleteRecord(key) => mutable := MemInsert(mutable, Entry(InternalKey(key, sequence, DeleteType), Delete));
        }
        if lastSequence < sequence { lastSequence := sequence; }
      }
      InsertNone(mutable, start + |batch|);
      assert batch[|batch|..] == [];
    }

    method FreezeMutableIfNeeded() returns (frozen: bool)
      modifies this`mutable, this`immutables
      ensures frozen <==> Full(opts, old(mutable))
      ensures Model() == if frozen then FreezeMutable(old(Model())) else old(Model())
    {
      if mutable.map_ == [] || mutable.approximateSize < opts.memtableSize {
        return false;
      }
      immutables := immutables + [mutable];
      mutable := EMPTY_MEMTABLE;
      return true;
    }

    /** Writes the oldest memtable as the newest level-0 table. */
    method Flush(fileSize: nat) returns (r: Result<()>)
      requires Valid()
      modifies this
      ensures old(closed) ==> r == Err(Closed) && Model() == old(Model())
      ensures !old(closed) ==> r == Ok(()) && Model() == FlushMemtable(old(Model()), fileSize)
      ensures Valid() && closed == old(closed)
    {
      hide Inv, MetaOf, All;
      if closed { return Err(Closed); }
      FlushKeepsInv(Model(), fileSize);
      ghost var db := Model();
      var memtable: MemTable;
      if immutables != [] {
        memtable := immutables[0];
        immutables := immutables[1..];
      } else if mutable.map_ == [] {
        return Ok(());
      } else {
        memtable := mutable;
        mutable := EMPTY_MEMTABLE;
      }
      var meta := MetaOf(nextFileNumber, fileSize, memtable.map_);
      files := files[nextFileNumber := memtable.map_];
      version := version.(l0Files := [meta] + version.l0Files);
      nextFileNumber := nextFileNumber + 2;
      assert Model() == FlushMemtable(db, fileSize);
      return Ok(());
    }

    /** `get_opt`: the value of the newest version at the snapshot's sequence, or at the last one. */
    method GetOpt(key: Bytes, snapshot: Option<nat>) returns (r: Result<Option<Bytes>>)
      requires Valid()
      ensures closed ==> r == Err(Closed)
      ensures !closed ==>
                r == Ok(Get(All(Model()), key, if snapshot.Some? then snapshot.value else lastSequence))
    {
      if closed { return Err(Closed); }
      var readSeq := if snapshot.Some? then snapshot.value else lastSequence;
      ReadParts(Model());
      SearchOrder(Model(), key, readSeq);
      hide Inv, All;
      var v := MemGet(mutable.map_, key, readSeq);
      if v.Some? { return Ok(VisibleValue(v)); }
      v := SearchImmutables(immutables, key, readSeq);
      if v.Some? { return Ok(VisibleValue(v)); }
      v := SearchL0(files, version.l0Files, key, readSeq);
      if v.Some? { return Ok(VisibleValue(v)); }
      v := SearchLevels(Model(), files, version.levels, key, readSeq);
      return Ok(VisibleValue(v));
    }

    /** `scan_opt`: the range scan at the snapshot's sequence, or at the last one. */
    method ScanOpt(lower: Bound, upper: Bound, snapshot: Option<nat>) returns (r: Result<seq<Row>>)
      requires Valid() && lastSequence <= U64_MAX
      ensures closed ==> r == Err(Closed)
      ensures !closed ==>
                r.Ok? && IsScan(r.value, All(Model()), lower, upper, if snapshot.Some? then snapshot.value else lastSequence)
    {
      if closed { return Err(Closed); }
      ghost var db := Model();
      var readSeq := if snapshot.Some? then snapshot.value else lastSequence;
      AllFilesOk(db);
      AllByPart(db);
      UnpackInv(db);
      hide Inv, All, Union, LevelSet, ImmutableLayers, LevelLayers, FileOk, Functional, IsScan, TablesOk, Recency, Layers;
      var entries := MemEntries(mutable, immutables);
      hide Pool, ChildEntries;
      var children := MemChildren(entries);
      children := AddTables(children, files, version.l0Files);
      children := AddLevels(children, files, version.levels);
      var rows := ScanChildren(children, lower, upper, readSeq);
      return Ok(rows);
    }

    /** `any_entry_after`: is there, anywhere in the store, a later version whose key satisfies `p`? */
    method AnyEntryAfter(readSeq: nat, p: InternalKey -> bool) returns (b: bool)
      requires Valid()
      ensures b <==> HitIn(All(Model()), readSeq, p)
    {
      AllFilesOk(Model());
      HitInParts(Model(), readSeq, p);
      hide Inv, All, FileOk, HitIn;
      b := AnyIn(mutable.map_, readSeq, p);
      if b { return; }
      b := AnyInMemtables(immutables, readSeq, p);
      if b { return; }
      b := AnyInTables(files, version.l0Files, readSeq, p);
      if b { return; }
      b := AnyInLevels(files, version.levels, readSeq, p);
    }

    /** A key set is clear when no later version of any of its keys exists. */
    method AnyKeyChanged(keys: set<Bytes>, readSeq: nat) returns (b: bool)
      requires Valid()
      ensures b <==> exists k :: k in keys && HitIn(All(Model()), readSeq, KeyIs(k))
    {
      var remaining := keys;
      while remaining != {}
        invariant remaining <= keys
        invariant forall k :: k in keys - remaining ==> !HitIn(All(Model()), readSeq, KeyIs(k))
        decreases remaining
      {
        hide Inv, All, HitIn, KeyIs;
        var key :| key in remaining;
        b := AnyEntryAfter(readSeq, KeyIs(key));
        if b { return; }
        remaining := remaining - {key};
      }
      return false;
    }

    method EnsureNoTransactionConflicts(readSeq: nat, readKeys: set<Bytes>, readRanges: seq<ReadRange>, writeKeys: set<Bytes>) returns (r: Result<()>)
      requires Valid()
      ensures r == if NoConflict(All(Model()), readSeq, readKeys, readRanges, writeKeys) then Ok(()) else Err(TransactionConflict)
    {
      NoConflictParts(All(Model()), readSeq, readKeys, readRanges, writeKeys);
      hide Inv, All, HitIn, NoConflict, KeyIs, KeyWithin;
      var changed := AnyKeyChanged(readKeys, readSeq);
      if changed { return Err(TransactionConflict); }
      changed := AnyKeyChanged(writeKeys, readSeq);
      if changed { return Err(TransactionConflict); }
      for i := 0 to |readRanges|
        invariant forall j :: 0 <= j < i ==> !HitIn(All(Model()), readSeq, KeyWithin(readRanges[j]))
      {
        changed := AnyEntryAfter(readSeq, KeyWithin(readRanges[i]));
        if changed { return Err(TransactionConflict); }
      }
      return Ok(());
    }

    /** `commit_transaction`: on a conflict nothing changes; otherwise the whole batch is applied. */
    method CommitTransaction(readSeq: nat, batch: seq<BatchRecord>, readKeys: set<Bytes>, readRanges: seq<ReadRange>, fileSize: nat)
      returns (r: Result<()>)
      requires Valid()
      modifies this
      ensures old(closed) ==> r == Err(Closed) && Model() == old(Model())
      ensures !old(closed) ==>
                if NoConflict(All(old(Model())), readSeq, readKeys, readRanges, BatchWriteKeys(batch))
                then r == Ok(()) && Model() == (if batch == [] then old(Model()) else Committed(opts, old(Model()), batch, fileSize))
                else r == Err(TransactionConflict) && Model() == old(Model())
      ensures Valid() && closed == old(closed)
    {
      if closed { return Err(Closed); }
      r := EnsureNoTransactionConflicts(readSeq, readKeys, readRanges, BatchWriteKeys(batch));
      if r.Err? || batch == [] { return; }
      hide Inv, All, NoConflict, FlushMemtable, AppliedAndFrozen, FreezeMutable, ApplyBatch;
      var shouldFlush := ApplyOne(batch);
      if shouldFlush {
        r := Flush(fileSize);
      }
    }

    /** A batch at the next sequences, then a freeze if needed (src/db.rs:472-477, 844-849). */
    method ApplyOne(batch: seq<BatchRecord>) returns (frozen: bool)
      requires Valid()
      modifies this`mutable, this`lastSequence, this`immutables
      ensures Valid() && Model() == AppliedAndFrozen(opts, old(Model()), batch)
      ensures frozen <==> Full(opts, ApplyBatch(old(Model()), batch).mutable)
    {
      hide Inv, ApplyBatch, RaisedTo, InsertAll, BatchEntries, FreezeMutable, Full, Watermark.Valid;
      ghost var before := Model();
      AppliedKeepsInv(opts, before, batch);
      ApplyBatchAt(lastSequence + 1, batch);
      BatchApplied(before, batch, mutable, lastSequence);
      assert Model() == ApplyBatch(before, batch);
      frozen := FreezeMutableIfNeeded();
      assert Model() == AppliedAndFrozen(opts, before, batch);
    }

    /** `apply_write_group_to_memtable`: all batches of a drained group, in queue order. */
    method ApplyWriteGroup(items: seq<seq<BatchRecord>>) returns (r: Result<bool>)
      requires Valid()
      modifies this
      ensures old(closed) ==> r == Err(Closed) && Model() == old(Model())
      ensures !old(closed) ==> r == Ok(GroupFills(opts, old(Model()), items)) && Model() == GroupApplied(opts, old(Model()), items)
      ensures Valid() && closed == old(closed)
    {
      if closed { return Err(Closed); }
      hide Inv, AppliedAndFrozen, ApplyBatch, Full;
      var shouldFlush := false;
      assert items[0..] == items;
      for i := 0 to |items|
        invariant Valid() && closed == old(closed)
        invariant GroupApplied(opts, Model(), items[i..]) == GroupApplied(opts, old(Model()), items)
        invariant (shouldFlush || GroupFills(opts, Model(), items[i..])) == GroupFills(opts, old(Model()), items)
      {
        assert items[i..][0] == items[i] && items[i..][1..] == items[i + 1..];
        var frozen := ApplyOne(items[i]);
        shouldFlush := shouldFlush || frozen;
      }
      assert items[|items|..] == [];
      return Ok(shouldFlush);
    }

    /** The watermark compaction collects at. */
    method CollectionPoint() returns (w: nat)
      requires watermark.Valid()
      ensures w == GcWatermark(Model())
    {
      var oldest := watermark.Oldest();
      w := if oldest.Some? then oldest.value else lastSequence;
      GcWatermarkIs(Model(), w);
    }

    /** The trivial-move test: a single file that collection would leave as it is. */
    method NothingToCollect(task: CompactionTask, w: nat) returns (b: bool)
      requires task.inputFiles != []
      ensures b <==> MovesTrivially(Model(), task, w)
    {
      if !task.IsTrivialMove() { return false; }
      var entries := TableEntries(files, task.inputFiles[0]);
      var compacted := CompactEntries(entries, w, CanDropTombstones(version, task));
      return |compacted| == |entries|;
    }

    /** `execute_compaction` on a picked task, output numbers taken in order. */
    method ExecuteTask(task: CompactionTask, sizeOf: nat -> nat) returns (ghost numbers: seq<nat>, ghost sizes: seq<nat>)
      requires Valid() && Picked(version, task) && L0Closed(Model(), task)
      requires SplitSafe(opts, CompactionOutput(Model(), task, GcWatermark(Model())))
      modifies this
      ensures Enabled(opts, old(Model()), Compact(task, numbers, sizes))
      ensures Model() == Do(opts, old(Model()), Compact(task, numbers, sizes))
      ensures Valid()
    {
      PickedNonEmpty(version, task);
      hide Inv, Picked, L0Closed, SplitSafe, Enabled, Do, GcWatermark, MovesTrivially, CompactionOutput;
      var w := CollectionPoint();
      var trivial := NothingToCollect(task, w);
      if trivial {
        numbers, sizes := [], [];
        MoveFile(task, w);
      } else {
        numbers, sizes := Rewrite(task, w, sizeOf);
      }
    }

    method MoveFile(task: CompactionTask, w: nat)
      requires Valid() && Picked(version, task) && L0Closed(Model(), task) && w == GcWatermark(Model())
      requires SplitSafe(opts, CompactionOutput(Model(), task, w)) && task.inputFiles != [] && MovesTrivially(Model(), task, w)
      modifies this
      ensures Enabled(opts, old(Model()), Compact(task, [], []))
      ensures Model() == Do(opts, old(Model()), Compact(task, [], []))
      ensures Valid()
    {
      MoveDone(opts, Model(), task, w);
      hide Inv, Picked, L0Closed, SplitSafe, Enabled, Do, GcWatermark, MovesTrivially, CompactionOutput, Applied, MoveEdits;
      CompactionKeeps(opts, Model(), task, [], []);
      version := Applied(version, MoveEdits(task));
    }

    method Rewrite(task: CompactionTask, w: nat, sizeOf: nat -> nat) returns (ghost numbers: seq<nat>, ghost sizes: seq<nat>)
      requires Valid() && Picked(version, task) && L0Closed(Model(), task) && w == GcWatermark(Model())
      requires SplitSafe(opts, CompactionOutput(Model(), task, w)) && task.inputFiles != [] && !MovesTrivially(Model(), task, w)
      modifies this
      ensures Enabled(opts, old(Model()), Compact(task, numbers, sizes))
      ensures Model() == Do(opts, old(Model()), Compact(task, numbers, sizes))
      ensures Valid()
    {
      hide Inv, Picked, L0Closed, SplitSafe, Enabled, Do, GcWatermark, MovesTrivially, CompactionOutput, Chunks, Split, Applied, RewriteEdits, OutputMetas, OutputFiles, Numbers, Compacted, Gather, CanDropTombstones;
      var output := CompactEntries(Gather(files, task.AllInputFiles()), w, CanDropTombstones(version, task));
      var chunks := SplitCompactionEntries(output, opts.targetFileSizeBase, opts.maxSubcompactions);
      ChunksAre(opts, Model(), task, w, output);
      var next := nextFileNumber;
      var ns := seq(|chunks|, i requires 0 <= i => next + i);
      var ss := seq(|chunks|, i requires 0 <= i => sizeOf(next + i));
      numbers, sizes := ns, ss;
      RewriteDone(opts, Model(), task, w, chunks, ns, ss);
      CompactionKeeps(opts, Model(), task, ns, ss);
      version := Applied(version, RewriteEdits(task, OutputMetas(chunks, ns, ss)));
      files := (files - Numbers(task.AllInputFiles())) + OutputFiles(chunks, ns);
      nextFileNumber := nextFileNumber + |chunks|;
    }
  }
}
