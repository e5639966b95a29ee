/** Writing, freezing and flushing keep the invariant; only writes change what can be read, and only above. */
module LsmWrites {
  import opened Keys
  import opened Visibility
  import opened Executor
  import opened MemTables
  import opened Versions
  import opened Lsm

  // ----- write

  lemma InsertOneElems(m: MemTable, e: Entry)
    requires StrictlySorted(m.map_) && forall x :: x in m.map_ ==> x.key != e.key
    ensures StrictlySorted(MemInsert(m, e).map_)
    ensures forall x :: x in MemInsert(m, e).map_ <==> x == e || x in m.map_
    ensures Elems(MemInsert(m, e).map_) == Elems(m.map_) + {e}
  {
    InsertKeeps(m.map_, e);
    assert MemInsert(m, e).map_ == Insert(m.map_, e);
    hide Insert, StrictlySorted, MemInsert;
  }

  lemma {:induction false} InsertAllElems(m: MemTable, es: seq<Entry>)
    requires StrictlySorted(m.map_)
    requires forall e, x :: e in es && x in m.map_ ==> x.key != e.key
    requires forall i, j :: 0 <= i < j < |es| ==> es[i].key != es[j].key
    ensures StrictlySorted(InsertAll(m, es).map_)
    ensures Elems(InsertAll(m, es).map_) == Elems(m.map_) + Elems(es)
    decreases |es|
  {
    hide StrictlySorted, MemInsert;
    if es != [] {
      var first, rest := es[0], es[1..];
      assert es == [first] + rest;
      InsertOneElems(m, first);
      var m' := MemInsert(m, first);
      forall e, x | e in rest && x in m'.map_ ensures x.key != e.key {
        var i :| 0 <= i < |rest| && rest[i] == e;
        assert es[i + 1] == e;
      }
      hide Elems;
      InsertAllElems(m', rest);
      ElemsOfCons(first, rest);
    }
  }

  lemma ElemsOfCons(e: Entry, s: seq<Entry>)
    ensures Elems([e] + s) == {e} + Elems(s)
  {
  }

  /** Versions above everything stored may join the top layer. */
  lemma TopLayerGrows(top: set<Entry>, rest: seq<set<Entry>>, added: set<Entry>, last: nat)
    requires Recency([top] + rest) && Functional(Union([top] + rest)) && Bounded(Union([top] + rest), last)
    requires Functional(added) && forall e :: e in added ==> e.key.sequence > last
    ensures Union([top + added] + rest) == Union([top] + rest) + added
    ensures Recency([top + added] + rest) && Functional(Union([top + added] + rest))
    ensures forall k, r: nat :: r <= last ==> Get(Union([top + added] + rest), k, r) == Get(Union([top] + rest), k, r)
  {
    var all := Union([top] + rest);
    UnionConcat([top], rest);
    UnionConcat([top + added], rest);
    RecencyConcat([top], rest);
    RecencyConcat([top + added], rest);
    forall y | y in rest ensures Shadows(top + added, y) {
      assert Shadows(top, y);
      assert forall e :: e in y ==> e in all;
    }
    forall k, r: nat | r <= last ensures Get(all + added, k, r) == Get(all, k, r) {
      if Newest(all, k, r).Some? {
        NewestUnique(all + added, k, r, Newest(all, k, r).value);
      }
    }
  }

  lemma BatchEntriesFresh(start: nat, batch: seq<BatchRecord>)
    ensures forall e :: e in BatchEntries(start, batch) ==> Consistent(e) && start <= e.key.sequence < start + |batch|
    ensures forall i, j :: 0 <= i < j < |batch| ==> BatchEntries(start, batch)[i].key != BatchEntries(start, batch)[j].key
    ensures Functional(Elems(BatchEntries(start, batch)))
  {
  }

  lemma WriteMutable(db: Db, batch: seq<BatchRecord>)
    requires MemOk(db.mutable) && Bounded(Elems(db.mutable.map_), db.lastSequence)
    ensures var es := BatchEntries(db.lastSequence + 1, batch);
            var m := InsertAll(db.mutable, es);
            MemOk(m) && Elems(m.map_) == Elems(db.mutable.map_) + Elems(es)
  {
    var es := BatchEntries(db.lastSequence + 1, batch);
    BatchEntriesFresh(db.lastSequence + 1, batch);
    assert forall x :: x in db.mutable.map_ ==> x in Elems(db.mutable.map_);
    InsertAllElems(db.mutable, es);
    var m := InsertAll(db.mutable, es);
    assert forall e :: e in m.map_ ==> e in Elems(m.map_);
  }

  lemma WriteKeepsInv(db: Db, batch: seq<BatchRecord>)
    requires Inv(db)
    ensures Inv(ApplyBatch(db, batch))
    ensures All(ApplyBatch(db, batch)) == All(db) + Elems(BatchEntries(db.lastSequence + 1, batch))
    ensures forall k, r: nat :: r <= db.lastSequence ==> Get(All(ApplyBatch(db, batch)), k, r) == Get(All(db), k, r)
  {
    hide Recency, Union, Functional, TablesOk, Get, InsertAll, BatchEntries, L0Layers, LevelLayers, ImmutableLayers;
    var es, top := BatchEntries(db.lastSequence + 1, batch), Elems(db.mutable.map_);
    BatchEntriesFresh(db.lastSequence + 1, batch);
    assert forall e :: e in Elems(es) ==> db.lastSequence < e.key.sequence <= db.lastSequence + |batch|;
    UnionTop(top, BelowMutable(db));
    WriteMutable(db, batch);
    TopLayerGrows(top, BelowMutable(db), Elems(es), db.lastSequence);
    var db' := ApplyBatch(db, batch);
    assert Layers(db') == [top + Elems(es)] + BelowMutable(db);
    assert Layers(db) == [top] + BelowMutable(db);
  }

  // ----- freeze and flush

  lemma FreezeKeepsInv(db: Db)
    requires Inv(db) && db.mutable.map_ != []
    ensures Inv(FreezeMutable(db)) && All(FreezeMutable(db)) == All(db)
  {
    var db' := FreezeMutable(db);
    assert Elems([]) == {};
    assert ImmutableLayers(db'.immutables) == [Elems(db.mutable.map_)] + ImmutableLayers(db.immutables);
    assert BelowMutable(db') == Layers(db);
    EmptyTop(Layers(db));
  }

  /** Contents depend only on the tables listed. */
  lemma SameContents(files: map<nat, seq<Entry>>, files': map<nat, seq<Entry>>, fs: seq<FileMeta>)
    requires forall f :: f in fs ==> TableEntries(files', f) == TableEntries(files, f)
    ensures LevelSet(files', fs) == LevelSet(files, fs)
    ensures L0Layers(files', fs) == L0Layers(files, fs)
  {
    assert forall i :: 0 <= i < |fs| ==> fs[i] in fs;
  }

  lemma SameVersionContents(v: Version, files: map<nat, seq<Entry>>, files': map<nat, seq<Entry>>)
    requires forall n, f :: InLevel(v, n, f) ==> TableEntries(files', f) == TableEntries(files, f)
    requires |v.levels| > 0 && v.levels[0] == []
    ensures L0Layers(files', v.l0Files) == L0Layers(files, v.l0Files)
    ensures LevelLayers(files', v.levels) == LevelLayers(files, v.levels)
  {
    assert forall f :: f in v.l0Files ==> InLevel(v, 0, f);
    SameContents(files, files', v.l0Files);
    forall n | 0 <= n < |v.levels| ensures LevelSet(files', v.levels[n]) == LevelSet(files, v.levels[n]) {
      assert forall f :: f in v.levels[n] ==> InLevel(v, n, f);
      SameContents(files, files', v.levels[n]);
    }
  }

  lemma NewNumberSameTables(v: Version, files: map<nat, seq<Entry>>, next: nat, s: seq<Entry>)
    requires FilesOk(v, files, next)
    ensures forall n, f :: InLevel(v, n, f) ==>
              f.number < next && FileOk(files[next := s], f) && TableEntries(files[next := s], f) == TableEntries(files, f)
  {
  }

  lemma FlushLayers(db: Db, size: nat)
    requires TablesOk(db.version, db.files, db.nextFileNumber) && Flushable(db).map_ != []
    ensures Layers(FlushMemtable(db, size)) == (if db.immutables == [] then [{}] else []) + Layers(db)
  {
    var db' := FlushMemtable(db, size);
    var s := Flushable(db).map_;
    NewNumberSameTables(db.version, db.files, db.nextFileNumber, s);
    SameVersionContents(db.version, db.files, db'.files);
    var l0, l0' := L0Layers(db.files, db.version.l0Files), L0Layers(db'.files, db'.version.l0Files);
    assert l0' == [Elems(s)] + L0Layers(db'.files, db.version.l0Files);
    assert Elems([]) == {};
    if db.immutables == [] {
      assert BelowMutable(db') == Layers(db);
    } else {
      assert ImmutableLayers(db.immutables) == ImmutableLayers(db'.immutables) + [Elems(s)];
      assert BelowMutable(db') == BelowMutable(db);
    }
  }

  lemma NewTableOk(files: map<nat, seq<Entry>>, number: nat, size: nat, s: seq<Entry>)
    requires s != [] && Sorted(s) && forall e :: e in s ==> Consistent(e)
    ensures FileOk(files[number := s], MetaOf(number, size, s))
  {
  }

  lemma FlushTables(v: Version, files: map<nat, seq<Entry>>, next: nat, s: seq<Entry>, meta: FileMeta)
    requires TablesOk(v, files, next) && FileOk(files[next := s], meta) && meta.number == next
    ensures TablesOk(v.(l0Files := [meta] + v.l0Files), files[next := s], next + 2)
  {
    var v' := v.(l0Files := [meta] + v.l0Files);
    NewNumberSameTables(v, files, next, s);
    forall n, f | InLevel(v', n, f) ensures (n == 0 && f == meta) || InLevel(v, n, f) {
    }
  }

  lemma FlushKeepsInv(db: Db, size: nat)
    requires Inv(db)
    ensures Inv(FlushMemtable(db, size)) && All(FlushMemtable(db, size)) == All(db)
  {
    if Flushable(db).map_ != [] {
      FlushLayers(db, size);
      var s := Flushable(db).map_;
      StrictlySortedSorted(s);
      NewTableOk(db.files, db.nextFileNumber, size, s);
      FlushTables(db.version, db.files, db.nextFileNumber, s, FlushedMeta(db, size));
      EmptyTop(Layers(db));
      assert [] + Layers(db) == Layers(db);
    }
  }
}
