/**
 The point read down to bytes (src/db.rs:259-333): memtables first, then the table files of the version, each
 looked up through its filter, its index and the block cache.
 */
module StoreReads {
  import opened Keys
  import opened Visibility
  import opened Executor
  import opened Splitter
  import opened MemTables
  import opened Versions
  import opened Lsm
  import opened LsmSafety
  import opened Bloom
  import opened Tables
  import opened TableReads
  import opened Databases

  /** Every live file is open, and its bytes hold its entries in the blocks given. */
  ghost predicate Opened(db: Db, c: Codec, tables: map<nat, TableFile>, blocks: map<nat, seq<seq<Entry>>>) {
    forall n, f :: InLevel(db.version, n, f) ==> OpenFile(db, c, tables, blocks, f)
  }

  ghost predicate OpenFile(db: Db, c: Codec, tables: map<nat, TableFile>, blocks: map<nat, seq<seq<Entry>>>, f: FileMeta) {
    && f.number in tables && f.number in blocks
    && Searchable(c, tables[f.number], blocks[f.number])
    && Flatten(blocks[f.number]) == TableEntries(db.files, f)
    && (FromBytes(tables[f.number].filter).Some? ==> Sound(FromBytes(tables[f.number].filter).value))
  }

  /** The files are open when each was written by the builder from the entries of its table. */
  lemma BuiltFilesAreOpen(db: Db, c: Codec, tables: map<nat, TableFile>, blocks: map<nat, seq<seq<Entry>>>)
    requires Inv(db) && Lawful(c)
    requires forall n, f :: InLevel(db.version, n, f) ==>
               && f.number in tables && f.number in blocks && TableFits(c, blocks[f.number])
               && Flatten(blocks[f.number]) == TableEntries(db.files, f) && tables[f.number] == Built(c, blocks[f.number])
    ensures Opened(db, c, tables, blocks)
  {
    hide Inv, Lawful, TableFits, Built, Flatten, TableEntries, FileOk, Searchable, FromBytes, Sound;
    forall n, f | InLevel(db.version, n, f) ensures OpenFile(db, c, tables, blocks, f) {
      BuiltFileIsOpen(db, c, tables, blocks, n, f);
    }
  }

  lemma BuiltFileIsOpen(db: Db, c: Codec, tables: map<nat, TableFile>, blocks: map<nat, seq<seq<Entry>>>, n: nat, f: FileMeta)
    requires Inv(db) && Lawful(c) && InLevel(db.version, n, f)
    requires f.number in tables && f.number in blocks && TableFits(c, blocks[f.number])
    requires Flatten(blocks[f.number]) == TableEntries(db.files, f) && tables[f.number] == Built(c, blocks[f.number])
    ensures OpenFile(db, c, tables, blocks, f)
  {
    LevelTable(db, n, f);
    hide Inv, Lawful, TableFits, Built, Flatten, Searchable, FromBytes, Sound, Functional, Sorted;
    BuiltIsSearchable(c, blocks[f.number]);
  }

  /** One live file: its newest version of the key at or below the read sequence. */
  method LookUpFile(ghost db: Db, c: Codec, tables: map<nat, TableFile>, ghost blocks: map<nat, seq<seq<Entry>>>, f: FileMeta,
                    key: Bytes, readSeq: nat, cache: BlockCache, useCache: bool)
    returns (r: Lookup)
    requires f.number in tables && OpenFile(db, c, tables, blocks, f) && cache.Coherent(c, tables)
    modifies cache`blocks
    ensures cache.Coherent(c, tables)
    ensures r == Answer(Newest(Elems(TableEntries(db.files, f)), key, readSeq))
  {
    hide Searchable, FromBytes, Sound, Flatten, TableEntries, BlockCache.Coherent, Newest;
    r := GetWithCache(c, tables[f.number], key, readSeq, f.number, cache, useCache, tables, blocks[f.number]);
  }

  method SearchL0Files(ghost db: Db, c: Codec, tables: map<nat, TableFile>, ghost blocks: map<nat, seq<seq<Entry>>>, l0: seq<FileMeta>,
                       key: Bytes, readSeq: nat, cache: BlockCache, useCache: bool)
    returns (r: Lookup)
    requires Inv(db) && l0 == db.version.l0Files && Opened(db, c, tables, blocks) && cache.Coherent(c, tables)
    modifies cache`blocks
    ensures cache.Coherent(c, tables)
    ensures r == Answer(FirstHit(L0Layers(db.files, l0), key, readSeq))
  {
    hide *;
    ghost var ls := L0Layers(db.files, l0);
    L0LayersCount(db.files, l0);
    assert ls == ls[0..];
    for i := 0 to |l0|
      invariant cache.Coherent(c, tables)
      invariant FirstHit(ls, key, readSeq) == FirstHit(ls[i..], key, readSeq)
    {
      var f := l0[i];
      L0LayerAt(db, l0, i);
      SkipLayer(ls, i, key, readSeq);
      OpenTable(db, c, tables, blocks, 0, f);
      if FileOverlapsUserKey(f, key) {
        r := LookUpFile(db, c, tables, blocks, f, key, readSeq, cache, useCache);
        if r != Miss {
          AnswersHit(Newest(ls[i], key, readSeq));
          return;
        }
      } else {
        LevelTable(db, 0, f);
        OutsideRange(db.files, f, key, readSeq);
      }
      AnswersHit(Newest(ls[i], key, readSeq));
    }
    assert ls[|l0|..] == [];
    NoLayers(key, readSeq);
    r := Miss;
  }

  lemma L0LayersCount(files: map<nat, seq<Entry>>, l0: seq<FileMeta>)
    ensures |L0Layers(files, l0)| == |l0|
  {
  }

  lemma L0LayerAt(db: Db, l0: seq<FileMeta>, i: nat)
    requires l0 == db.version.l0Files && i < |l0|
    ensures |L0Layers(db.files, l0)| == |l0| && L0Layers(db.files, l0)[i] == Elems(TableEntries(db.files, l0[i]))
    ensures InLevel(db.version, 0, l0[i])
  {
  }

  lemma AnswersHit(n: Option<Entry>)
    ensures Answer(n) == Miss <==> n == None
  {
  }

  lemma NoLayers(k: Bytes, r: nat)
    ensures FirstHit([], k, r) == None && Answer(None) == Miss
  {
  }

  lemma OpenTable(db: Db, c: Codec, tables: map<nat, TableFile>, blocks: map<nat, seq<seq<Entry>>>, n: nat, f: FileMeta)
    requires Opened(db, c, tables, blocks) && InLevel(db.version, n, f)
    ensures f.number in tables && OpenFile(db, c, tables, blocks, f)
  {
    hide Searchable, FromBytes, Sound, Flatten, TableEntries;
  }

  method SearchLevelFiles(ghost db: Db, c: Codec, tables: map<nat, TableFile>, ghost blocks: map<nat, seq<seq<Entry>>>,
                          levels: seq<seq<FileMeta>>, key: Bytes, readSeq: nat, cache: BlockCache, useCache: bool)
    returns (r: Lookup)
    requires Inv(db) && levels == db.version.levels && Opened(db, c, tables, blocks) && cache.Coherent(c, tables)
    modifies cache`blocks
    ensures cache.Coherent(c, tables)
    ensures r == Answer(FirstHit(LevelLayers(db.files, levels), key, readSeq))
  {
    UnpackInv(db);
    ghost var ls := LevelLayers(db.files, levels);
    assert ls == ls[0..];
    assert |levels| >= 2 && ls[0] == {};
    SkipLayer(ls, 0, key, readSeq);
    hide Inv, BlockCache.Coherent, OpenFile, Opened, Newest, FileOk, LevelSet, Recency, Functional, All, Layers, Bounded;
    for n := 1 to |levels|
      invariant cache.Coherent(c, tables)
      invariant FirstHit(ls, key, readSeq) == FirstHit(ls[n..], key, readSeq)
    {
      SkipLayer(ls, n, key, readSeq);
      assert ls[n] == LevelSet(db.files, levels[n]);
      var f := FindOverlapping(levels[n], key);
      if f.Some? {
        assert InLevel(db.version, n, f.value);
        LevelAnswer(db, n, f.value, key, readSeq);
        OpenTable(db, c, tables, blocks, n, f.value);
        r := LookUpFile(db, c, tables, blocks, f.value, key, readSeq, cache, useCache);
        if r != Miss {
          return;
        }
      } else {
        NoFileAnswers(db, n, key, readSeq);
      }
    }
    r := Miss;
  }

  /** A point read over memtables and the bytes of the tables finds the newest version over the whole store. */
  method GetFromBytes(ghost db: Db, c: Codec, mutable: MemTable, immutables: seq<MemTable>, version: Version, tables: map<nat, TableFile>,
                      ghost blocks: map<nat, seq<seq<Entry>>>, key: Bytes, readSeq: nat, cache: BlockCache, useCache: bool)
    returns (r: Lookup)
    requires Inv(db) && mutable == db.mutable && immutables == db.immutables && version == db.version
    requires Opened(db, c, tables, blocks) && cache.Coherent(c, tables)
    modifies cache`blocks
    ensures cache.Coherent(c, tables)
    ensures r == Answer(Newest(All(db), key, readSeq))
  {
    ReadParts(db);
    SearchOrder(db, key, readSeq);
    hide Inv, All, Opened, BlockCache.Coherent, Newest, FirstHit, Functional, StrictlySorted;
    var v := MemGet(mutable.map_, key, readSeq);
    if v.Some? {
      return Hit(v.value);
    }
    v := SearchImmutables(immutables, key, readSeq);
    if v.Some? {
      return Hit(v.value);
    }
    r := SearchL0Files(db, c, tables, blocks, version.l0Files, key, readSeq, cache, useCache);
    if r != Miss {
      return;
    }
    r := SearchLevelFiles(db, c, tables, blocks, version.levels, key, readSeq, cache, useCache);
  }
}
