/** The restore task in its three forms, on the files a history has left: each writes exactly the
    bytes of the version asked for. */
module RestoreVersion {
  import opened Common
  import opened MetadataManager
  import opened StoreModel
  import opened StoreInvariant
  import opened StoreIndexFile
  import opened StoreHistory
  import opened StorePacking
  import opened StorePlaces
  import opened StoreCrowding
  import opened StoreNames
  import opened StoreWrite
  import opened FastCDC
  import opened Chunking
  import opened CDedup
  import opened RepositoryRuns
  import opened RestoreCaches
  import opened RestoreTask
  import opened FAA

  datatype Strategy = CONTAINER_CACHE | CHUNK_CACHE | FAA_FIXED

  // The cache sizes main.cpp asks for.
  const CACHED_CONTAINERS: nat := 128
  const CACHED_CHUNKS: nat := 16 * 1024

  // ---------- What a reachable store offers ----------

  /** Every entry points inside a container that one read returns whole, and recipes name entries. */
  ghost predicate AllReadable(st: Store)
  {
    && (forall fp :: fp in st.index ==> InReach(st.containers, st.index[fp]))
    && forall v :: v in st.recipes ==> forall fp :: fp in st.recipes[v] ==> fp in st.index
  }

  lemma InvReadable(h: Bytes -> SHA1FP, universe: iset<Bytes>, st: Store, content: Contents, files: map<nat, Bytes>)
    requires Inv(h, universe, st, content, files) && Small(st.containers)
    ensures AllReadable(st)
  {
    hide Layout, Counted, Named, Cat, Slice, AllRefs, Stored;
    forall fp | fp in st.index
      ensures InReach(st.containers, st.index[fp])
    {
      SliceIsContent(st.index, content, st.containers, st.revs, fp);
      SliceInside(st.containers, st.index[fp]);
    }
    forall v | v in st.recipes
      ensures forall fp :: fp in st.recipes[v] ==> fp in st.index
    {
      RecipesIndexed(st.index, st.recipes, v);
    }
  }

  lemma SliceInside(containers: map<nat, Bytes>, e: EntryValue)
    requires Slice(containers, e).Some?
    ensures e.containerNumber in containers && e.offset + e.chunkLength <= |containers[e.containerNumber]|
  {}

  lemma PlainId(d: EntryValue)
    requires d.containerNumber < U32 && d.innerIndex < U16
    ensures ChunkGlobalID(d) == d.containerNumber * U32 + d.innerIndex
  {
    assert d.containerNumber * U32 + d.innerIndex < U64;
  }

  /** With 32-bit container numbers, the 64-bit chunk id names one place only. */
  lemma ChunkIdsDiffer(d: EntryValue, e: EntryValue)
    requires d.containerNumber < U32 && e.containerNumber < U32 && d.innerIndex < U16 && e.innerIndex < U16
    ensures ChunkGlobalID(d) == ChunkGlobalID(e) <==> SamePlace(d, e)
  {
    hide ChunkGlobalID;
    PlainId(d);
    PlainId(e);
  }

  lemma SamePlaceSameId(d: EntryValue, e: EntryValue)
    ensures SamePlace(d, e) ==> ChunkGlobalID(d) == ChunkGlobalID(e)
  {}

  /** Two chunks in one place are two chunks with one id and different bytes. */
  lemma SharedPlaceConfuses(h: Bytes -> SHA1FP, universe: iset<Bytes>, st: Store, content: Contents,
                            files: map<nat, Bytes>,
                            fp: SHA1FP, gp: SHA1FP)
    requires Inv(h, universe, st, content, files) && Short(content)
    requires fp in st.index && gp in st.index && fp != gp && SamePlace(st.index[fp], st.index[gp])
    ensures !ToldApart(st.containers, st.index.Values)
  {
    hide Layout, Counted, Holds, Slice, AllRefs, ChunkGlobalID;
    SliceIsContent(st.index, content, st.containers, st.revs, fp);
    SliceIsContent(st.index, content, st.containers, st.revs, gp);
    ShortStored(content, fp);
    ShortStored(content, gp);
    SamePlaceSameId(st.index[fp], st.index[gp]);
    assert st.index[fp] in st.index.Values && st.index[gp] in st.index.Values;
    IndexedContents(st.index, content, st.containers, st.revs);
  }

  lemma IndexedContents(index: Index, content: Contents, containers: map<nat, Bytes>, revs: map<nat, seq<SHA1FP>>)
    requires Layout(index, content, containers, revs)
    ensures index.Keys == content.Keys
  {}

  lemma ShortStored(content: Contents, fp: SHA1FP)
    requires Short(content)
    ensures fp in content ==> Stored(content)[fp] == content[fp]
  {}

  /** The ids of a reachable store tell its chunks apart exactly when no two entries share a
      place. */
  lemma ToldApartExactly(h: Bytes -> SHA1FP, universe: iset<Bytes>, st: Store, content: Contents,
                         files: map<nat, Bytes>)
    requires Inv(h, universe, st, content, files) && Short(content) && IndexFits(st.index)
    ensures ToldApart(st.containers, st.index.Values) <==> Distinct(st.index)
  {
    hide Inv, Short, ToldApart;
    if Distinct(st.index) {
      DistinctToldApart(st);
    } else {
      FieldsFit(st.index);
      var fp, gp :| fp in st.index && gp in st.index && SamePlace(st.index[fp], st.index[gp]) && fp != gp;
      SharedPlaceConfuses(h, universe, st, content, files, fp, gp);
    }
  }

  lemma FieldsFit(index: Index)
    requires IndexFits(index)
    ensures forall fp :: fp in index ==> index[fp].innerIndex < U16 && index[fp].containerNumber < U32
  {
    assert forall fp :: fp in index ==> Fits((fp, index[fp]));
  }

  lemma DistinctToldApart(st: Store)
    requires Distinct(st.index) && IndexFits(st.index)
    ensures ToldApart(st.containers, st.index.Values)
  {
    hide Slice, ChunkGlobalID, IndexFits;
    FieldsFit(st.index);
    var evs := st.index.Values;
    forall d, e | d in evs && e in evs && ChunkGlobalID(d) == ChunkGlobalID(e)
      ensures Slice(st.containers, d) == Slice(st.containers, e)
    {
      var x :| x in st.index && st.index[x] == d;
      var y :| y in st.index && st.index[y] == e;
      ChunkIdsDiffer(d, e);
    }
  }

  /** Every run of requests over a reachable index gets the right bytes exactly when no two entries
      share a place. */
  lemma ChunkCacheExactly(h: Bytes -> SHA1FP, universe: iset<Bytes>, st: Store, content: Contents,
                          files: map<nat, Bytes>, k: nat)
    requires Inv(h, universe, st, content, files) && Short(content) && IndexFits(st.index)
    ensures (forall requests: seq<EntryValue> ::
               (requests != [] && forall e :: e in requests ==> e in st.index.Values) ==>
                 Answer(st.containers, requests, k) == Slice(st.containers, requests[|requests| - 1]))
            <==> Distinct(st.index)
  {
    hide Inv, Short, IndexFits, Distinct, ToldApart, Answer, Slice;
    ToldApartExactly(h, universe, st, content, files);
    AnswersExactly(st.containers, st.index.Values, k);
  }

  ghost function BlockSet(): iset<Bytes>
  {
    iset c | c in Blocks(0, CROWD)
  }

  lemma BlocksCollisionFree(h: Bytes -> SHA1FP)
    requires BlocksDiffer(h)
    ensures CollisionFree(h, BlockSet()) && Writable(BlockSet(), Blocks(0, CROWD))
  {
    hide Block, Blocks;
    var cs := Blocks(0, CROWD);
    forall a, b | a in BlockSet() && b in BlockSet() && h(a) == h(b)
      ensures a == b
    {
      var i :| 0 <= i < |cs| && cs[i] == a;
      var j :| 0 <= j < |cs| && cs[j] == b;
      assert a == Block(i) && b == Block(j);
    }
    forall c | c in cs ensures 0 < |c| < U16 {
      var i :| 0 <= i < |cs| && cs[i] == c;
      assert c == Block(i);
    }
  }

  /** The file that crowds a container leaves a store in which the chunk cache takes one chunk for
      another. */
  lemma CrowdedConfuses(h: Bytes -> SHA1FP)
    requires BlocksDiffer(h)
    ensures var st := Write(h, EmptyStore, ChunksOf(WriteFile(InitNC(12, 2).value, CrowdedFile())), true);
            !ToldApart(st.containers, st.index.Values)
  {
    hide Write, FileChunks, Blocks, BlocksDiffer, Inv, FreshNames, Below, CollisionFree, BlockSet, ToldApart,
         AddContents, CrowdedFile, ListsNumbered;
    var cs := Blocks(0, CROWD);
    var st, content := Write(h, EmptyStore, cs, true), AddContents(h, map[], cs);
    CrowdedChunks();
    CrowdedWrite(h);
    BlocksCollisionFree(h);
    EmptyStoreInv(h, BlockSet());
    EmptyBelow();
    WriteStaysBelow(h, EmptyStore, cs);
    WriteKeepsInv(h, BlockSet(), EmptyStore, map[], map[], cs);
    WriteNumbers(h, BlockSet(), EmptyStore, map[], map[], cs);
    ShortBlocks(h);
    InvLayout(h, BlockSet(), st, content, map[0 := Flatten(cs)]);
    CrowdedShares(EmptyStore, st, content, 0);
    var fp, gp :| fp in st.index && gp in st.index && fp != gp && SamePlace(st.index[fp], st.index[gp]);
    SharedPlaceConfuses(h, BlockSet(), st, content, map[0 := Flatten(cs)], fp, gp);
  }

  lemma ShortBlocks(h: Bytes -> SHA1FP)
    ensures Short(AddContents(h, map[], Blocks(0, CROWD)))
  {
    hide Block, Blocks;
    var cs := Blocks(0, CROWD);
    forall c | c in cs ensures |c| < U16 {
      var i :| 0 <= i < |cs| && cs[i] == c;
      assert c == Block(i);
    }
    AddContentsShort(h, map[], cs);
  }

  lemma InvLayout(h: Bytes -> SHA1FP, universe: iset<Bytes>, st: Store, content: Contents, files: map<nat, Bytes>)
    requires Inv(h, universe, st, content, files)
    ensures Layout(st.index, content, st.containers, st.revs)
  {}

  // ---------- The task ----------

  /** What the task needs: entries inside their containers, and for the chunk cache ids that tell
      the recipe's chunks apart. Forward assembly needs a recipe that is not empty, since the
      source compares with an unsigned `size() - 1`, and does not notice a missing fingerprint. */
  ghost predicate Restorable(how: Strategy, st: Store, version: nat)
  {
    var v := RecipeName(version);
    v in st.recipes ==>
      && (forall e :: e in EntriesOf(st.index, st.recipes[v]) ==> InReach(st.containers, e))
      && (how.CHUNK_CACHE? ==> ToldApart(st.containers, EntriesOf(st.index, st.recipes[v])))
      && (how.FAA_FIXED? ==> st.recipes[v] != [] && forall fp :: fp in st.recipes[v] ==> fp in st.index)
  }

  lemma ReachFacts(index: Index, containers: map<nat, Bytes>, recipe: seq<SHA1FP>)
    requires forall e :: e in EntriesOf(index, recipe) ==> InReach(containers, e)
    ensures forall e :: e in EntriesOf(index, recipe) ==> Slice(containers, e).Some? && e.chunkLength <= FILE_CACHE
    ensures forall fp :: fp in recipe && fp in index ==> InReach(containers, index[fp])
    ensures forall fp :: fp in recipe ==> EntryOf(index, fp).chunkLength <= FILE_CACHE && Loadable(EntryOf(index, fp))
  {
    hide Slice;
    forall fp | fp in recipe && fp in index ensures InReach(containers, index[fp]) {
      assert index[fp] in EntriesOf(index, recipe);
    }
    forall fp | fp in recipe ensures EntryOf(index, fp).chunkLength <= FILE_CACHE && Loadable(EntryOf(index, fp)) {
      if fp in index { PieceIsSlice(containers, index[fp]); }
    }
  }

  /** One restore run: the index is loaded, then the recipe is followed. */
  method Restoring(how: Strategy, r: Repository, version: nat) returns (out: Option<Bytes>)
    requires Restorable(how, r.View(), version)
    modifies r`mm, r`revContainerCnt
    ensures out == Restore(old(r.View()), version) && r.View() == old(r.View())
  {
    hide LoadIndex, Assemble, ToldApart, Slice, InReach, Pieces, Loadable, EntryOf, Entries;
    var name := RecipeName(version);
    if name !in r.recipes {
      return None;
    }
    assert |r.recipes| != 0;
    var recipe := r.recipes[name];
    ghost var st := r.View();
    r.Start();
    ReachFacts(st.index, st.containers, recipe);
    match how
    case CONTAINER_CACHE =>
      var c := new ContainerCache(r.containers, CACHED_CONTAINERS);
      out := RestoreThroughCache(r.mm, r.containers, recipe, ByContainer(c));
    case CHUNK_CACHE =>
      var c := new ChunkCache(r.containers, CACHED_CHUNKS);
      out := RestoreThroughCache(r.mm, r.containers, recipe, ByChunk(c));
    case FAA_FIXED =>
      PiecesAreAssembled(st.index, st.containers, recipe);
      var pieces := RestoreByAssembly(r.mm, r.containers, recipe);
      out := Some(pieces);
  }

  // ---------- After any history ----------

  lemma NoEmptyRecipe(h: Bytes -> SHA1FP, universe: iset<Bytes>, st: Store, content: Contents, files: map<nat, Bytes>,
                      v: nat)
    requires Inv(h, universe, st, content, files) && v in st.recipes
    ensures v in files && (files[v] != [] ==> st.recipes[v] != [])
  {
    hide Layout, Counted, Named;
  }

  lemma ApartForRecipe(containers: map<nat, Bytes>, index: Index, recipe: seq<SHA1FP>)
    requires ToldApart(containers, index.Values)
    ensures ToldApart(containers, EntriesOf(index, recipe))
  {
    hide ChunkGlobalID, Slice;
  }

  /** After an admissible history every version can be restored: through the container cache, by
      forward assembly unless it is empty, and through the chunk cache when no two entries share a
      place. */
  lemma HistoryRestorable(how: Strategy, h: Bytes -> SHA1FP, universe: iset<Bytes>, ops: seq<Op>, version: nat)
    requires CollisionFree(h, universe) && AdmissibleRun(h, universe, EmptyStore, ops)
    requires var files := RunStored(map[], ops);
             how.FAA_FIXED? && RecipeName(version) in files ==> files[RecipeName(version)] != []
    requires how.CHUNK_CACHE? && Run(h, EmptyStore, ops).Some? ==> Distinct(Run(h, EmptyStore, ops).value.index)
    ensures Run(h, EmptyStore, ops).Some? && Restorable(how, Run(h, EmptyStore, ops).value, version)
    ensures var files := RunStored(map[], ops);
            Restore(Run(h, EmptyStore, ops).value, version) ==
            if RecipeName(version) in files then Some(files[RecipeName(version)]) else None
  {
    hide Inv, CollisionFree, AdmissibleRun, Run, RunStored, IndexFits, Short, Restore, Distinct, ToldApart, InReach,
         Small;
    EmptyStoreInv(h, universe);
    EmptyIndexFits();
    var content := RunKeepsInv(h, universe, EmptyStore, map[], map[], ops);
    var files := RunStored(map[], ops);
    var st, v := Run(h, EmptyStore, ops).value, RecipeName(version);
    InvReadable(h, universe, st, content, files);
    InvRestores(h, universe, st, content, files, version);
    if v in st.recipes {
      NoEmptyRecipe(h, universe, st, content, files, v);
      if how.CHUNK_CACHE? {
        DistinctToldApart(st);
        ApartForRecipe(st.containers, st.index, st.recipes[v]);
      }
    }
  }

  /** Files that are read in few enough pieces never crowd a container, so that the chunk cache can
      be used as well. */
  lemma RoomyHistoryDistinct(h: Bytes -> SHA1FP, universe: iset<Bytes>, ops: seq<Op>)
    requires CollisionFree(h, universe) && AdmissibleRun(h, universe, EmptyStore, ops)
    requires forall op :: op in ops ==> RoomyOp(op)
    ensures Run(h, EmptyStore, ops).Some? && Distinct(Run(h, EmptyStore, ops).value.index)
  {
    hide Inv, CollisionFree, AdmissibleRun, Run, IndexFits, RoomyOp, UncrowdedRun;
    EmptyStoreInv(h, universe);
    EmptyIndexFits();
    RoomyRun(h, EmptyStore, ops);
    RunStaysDistinct(h, universe, EmptyStore, map[], map[], ops);
  }

  /** From an empty repository through any history to a restored version, task by task on the files:
      the bytes written come back by each of the three strategies. */
  method BackUpAndRestore(how: Strategy, h: Bytes -> SHA1FP, ops: seq<Op>, version: nat, ghost universe: iset<Bytes>)
    returns (out: Option<Bytes>)
    requires CollisionFree(h, universe) && AdmissibleRun(h, universe, EmptyStore, ops)
    requires var files := RunStored(map[], ops);
             how.FAA_FIXED? && version % 256 in files ==> files[version % 256] != []
    requires how.CHUNK_CACHE? && Run(h, EmptyStore, ops).Some? ==> Distinct(Run(h, EmptyStore, ops).value.index)
    ensures var files := RunStored(map[], ops);
            out == if version % 256 in files then Some(files[version % 256]) else None
    ensures AllAsAsked(map[], ops) && version in RunFiles(map[], ops) ==>
              var files := RunFiles(map[], ops);
              (out == Some(files[version]) <==>
                 version < 256 || (version % 256 in files && files[version % 256] == files[version]))
  {
    hide CollisionFree, AdmissibleRun, Run, RunStored, RunFiles, Restore, Distinct, Restorable, AllAsAsked;
    HistoryRestorable(how, h, universe, ops, version);
    var r := RunHistory(h, ops, universe);
    out := Restoring(how, r, version);
    if AllAsAsked(map[], ops) && version in RunFiles(map[], ops) { OwnNumber(ops, version); }
  }

  /** What a user gets for a live version. */
  lemma OwnNumber(ops: seq<Op>, version: nat)
    requires AllAsAsked(map[], ops) && version in RunFiles(map[], ops)
    ensures var stored, files, v := RunStored(map[], ops), RunFiles(map[], ops), RecipeName(version);
            (if v in stored then Some(stored[v]) else None) == Some(files[version]) <==>
              version < U8 || (v in files && files[v] == files[version])
  {
    hide RunStored, RunFiles, AllAsAsked;
    RunAsAsked(map[], ops);
  }
}
