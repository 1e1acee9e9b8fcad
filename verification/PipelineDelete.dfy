/** Deleting versions after a pipeline run, which saves no reverse lists: when a delete finds every
    list it opens, and what it then leaves. */
module PipelineDelete {
  import opened Common
  import opened Chunking
  import opened MetadataManager
  import opened StoreModel
  import opened StoreInvariant
  import opened StorePacking
  import opened StoreWrite
  import opened StoreDelete
  import opened StoreHistory
  import opened StoreOverlong
  import opened StorePlaces
  import opened Pipeline
  import opened PipelineRun
  import opened PipelineRestore

  /** The same store, but only the containers in `listed` have their reverse lists. */
  ghost predicate Shadow(a: Store, b: Store, listed: set<nat>)
  {
    && b == a.(revs := b.revs) && b.revs.Keys == a.revs.Keys * listed
    && forall c :: c in b.revs ==> b.revs[c] == a.revs[c]
  }

  /** Every chunk that loses its last reference lies in a container with a reverse list. */
  ghost predicate Removable(index: Index, fps: seq<SHA1FP>, listed: set<nat>)
  {
    forall fp :: fp in fps && fp in index && multiset(fps)[fp] >= index[fp].refCnt ==>
      index[fp].containerNumber in listed
  }

  /** Container and count are not what offset repairs change. */
  ghost predicate SameCounts(a: Index, b: Index)
  {
    a.Keys == b.Keys && forall fp :: fp in a ==>
      a[fp].refCnt == b[fp].refCnt && a[fp].containerNumber == b[fp].containerNumber
  }

  lemma {:induction false} ShiftKeepsCounts(m: Index, rev: seq<SHA1FP>, gone: SHA1FP, off: nat, len: nat)
    ensures SameCounts(m, ShiftEach(m, rev, gone, off, len))
    decreases |rev|
  {
    if rev != [] {
      ShiftKeepsCounts(if rev[0] == gone then m else ShiftOne(m, rev[0], off, len), rev[1..], gone, off, len);
    }
  }

  lemma RemovalShadow(a: Store, b: Store, listed: set<nat>, c: nat, fp: SHA1FP, off: nat, len: nat)
    requires Shadow(a, b, listed) && RemoveChunk(a, c, fp, off, len).Some?
    ensures var a', b' := RemoveChunk(a, c, fp, off, len), RemoveChunk(b, c, fp, off, len);
            && SameCounts(a.index, a'.value.index)
            && (b'.Some? <==> c in listed)
            && (b'.Some? ==> Shadow(a'.value, b'.value, listed))
  {
    hide CutOut, ShiftEach;
    ShiftKeepsCounts(a.index, a.revs[c], fp, off, len);
  }

  lemma DropShadow(a: Store, b: Store, listed: set<nat>, fp: SHA1FP)
    requires Shadow(a, b, listed) && DropFree(a, fp).Some?
    ensures fp in a.index
    ensures var a', b', e := DropFree(a, fp), DropFree(b, fp), a.index[fp];
            && SameCounts(if e.refCnt > 1 then a.index[fp := e.(refCnt := e.refCnt - 1)] else a.index - {fp},
                          a'.value.index)
            && (b'.Some? <==> e.refCnt > 1 || e.containerNumber in listed)
            && (b'.Some? ==> Shadow(a'.value, b'.value, listed))
  {
    hide RemoveChunk;
    var e := a.index[fp];
    if e.refCnt <= 1 {
      RemovalShadow(a.(index := a.index - {fp}), b.(index := b.index - {fp}), listed, e.containerNumber, fp, e.offset,
                    e.chunkLength);
    }
  }

  lemma {:induction false} DropAllIndexed(a: Store, fps: seq<SHA1FP>)
    requires DropAllFree(a, fps).Some?
    ensures forall fp :: fp in fps ==> fp in a.index
    decreases |fps|
  {
    hide DropFree;
    if fps != [] {
      SelfShadow(a);
      DropShadow(a, a, a.revs.Keys, fps[0]);
      DropAllIndexed(DropFree(a, fps[0]).value, fps[1..]);
      assert forall fp :: fp in fps ==> fp == fps[0] || fp in fps[1..];
    }
  }

  lemma SelfShadow(a: Store)
    ensures Shadow(a, a, a.revs.Keys)
  {}

  /** One reference less, and what it means for the rest of the recipe. */
  lemma RemovableStep(index: Index, index': Index, fps: seq<SHA1FP>, listed: set<nat>)
    requires fps != [] && fps[0] in index && forall fp :: fp in fps[1..] ==> fp in index'
    requires var fp, e := fps[0], index[fps[0]];
             SameCounts(if e.refCnt > 1 then index[fp := e.(refCnt := e.refCnt - 1)] else index - {fp}, index')
    ensures Removable(index, fps, listed) <==>
              (index[fps[0]].refCnt > 1 || index[fps[0]].containerNumber in listed)
              && Removable(index', fps[1..], listed)
  {
    var f, rest := fps[0], fps[1..];
    assert fps == [f] + rest;
    assert multiset(fps) == multiset{f} + multiset(rest);
    assert forall fp :: fp in fps <==> fp == f || fp in rest;
    if f !in rest { assert multiset(rest)[f] == 0; }
  }

  /** Without some of the lists the delete loop finds every list it opens exactly when every chunk
      that loses its last reference lies in a container that has one, and then does what it does
      with all lists. */
  lemma {:induction false} DropAllShadow(a: Store, b: Store, listed: set<nat>, fps: seq<SHA1FP>)
    requires Shadow(a, b, listed) && DropAllFree(a, fps).Some?
    ensures DropAllFree(b, fps).Some? <==> Removable(a.index, fps, listed)
    ensures DropAllFree(b, fps).Some? ==> Shadow(DropAllFree(a, fps).value, DropAllFree(b, fps).value, listed)
    decreases |fps|
  {
    hide DropFree, Shadow, Removable, SameCounts;
    if fps == [] {
      assert Removable(a.index, fps, listed) by { NothingToRemove(a.index, listed); }
    } else {
      DropShadow(a, b, listed, fps[0]);
      var a' := DropFree(a, fps[0]).value;
      DropAllIndexed(a', fps[1..]);
      RemovableStep(a.index, a'.index, fps, listed);
      if DropFree(b, fps[0]).Some? { DropAllShadow(a', DropFree(b, fps[0]).value, listed, fps[1..]); }
    }
  }

  lemma NothingToRemove(index: Index, listed: set<nat>)
    ensures Removable(index, [], listed)
  {}

  // ---------- After one run of the pipeline ----------

  /** What a pipeline run leaves. */
  function PipelineWrite(h: Bytes -> SHA1FP, st: Store, cs: seq<Bytes>): Store
  {
    Write(h, st, cs, true).(revs := st.revs)
  }

  lemma PipelineShadow(h: Bytes -> SHA1FP, universe: iset<Bytes>, st: Store, content: Contents, files: map<nat, Bytes>,
                       cs: seq<Bytes>)
    requires Inv(h, universe, st, content, files) && CollisionFree(h, universe)
    requires Writable(universe, cs) && FreshNames(h, st, cs)
    ensures Shadow(Write(h, st, cs, true), PipelineWrite(h, st, cs), st.revs.Keys)
  {
    hide Inv, CollisionFree, Writable, FreshNames, Write;
    WriteNumbers(h, universe, st, content, files, cs);
  }

  ghost predicate GivesBack(st: Store, files: map<nat, Bytes>)
  {
    forall u: nat :: Restore(st, u) == if u % 256 in files then Some(files[u % 256]) else None
  }

  lemma InvGivesBack(h: Bytes -> SHA1FP, universe: iset<Bytes>, a: Store, b: Store, content: Contents,
                     files: map<nat, Bytes>)
    requires Inv(h, universe, a, content, files) && Short(content) && b == a.(revs := b.revs)
    ensures GivesBack(b, files)
  {
    hide Inv, Short, Restore;
    forall u: nat
      ensures Restore(b, u) == if u % 256 in files then Some(files[u % 256]) else None
    {
      InvRestores(h, universe, a, content, files, u);
      RestoreIgnoresRevs(a, b.revs, u);
    }
  }

  /** A store that lacks some of the lists of one with the invariant: the delete of a live version
      finds every list it opens exactly when every chunk that loses its last reference lies in a
      container that has one, and then leaves what it leaves with all lists. */
  lemma DeleteShadow(h: Bytes -> SHA1FP, universe: iset<Bytes>, a: Store, b: Store, content: Contents,
                     files: map<nat, Bytes>, version: nat) returns (content': Contents)
    requires Inv(h, universe, a, content, files) && Short(content) && Small(a.containers)
    requires Shadow(a, b, b.revs.Keys) && ListsHold(b.revs) && RecipeName(version) in b.recipes
    ensures Delete(b, version).Some? <==> Removable(b.index, b.recipes[RecipeName(version)], b.revs.Keys)
    ensures DeleteFree(a, version).Some?
    ensures var a' := DeleteFree(a, version).value;
            && Inv(h, universe, a', content', files - {RecipeName(version)}) && Short(content') && Small(a'.containers)
            && (Delete(b, version).Some? ==>
                  var b' := Delete(b, version).value;
                  Shadow(a', b', b.revs.Keys) && ListsHold(b'.revs) && GivesBack(b', files - {RecipeName(version)}))
  {
    hide Inv, Short, Shadow, Removable, DropAll, DropAllFree, Small, ListsHold, GivesBack;
    var v := RecipeName(version);
    ShadowOnlyLists(a, b, b.revs.Keys);
    content' := FreeDeleteKeepsInv(h, universe, a, content, files, version);
    DropAllShadow(a, b, b.revs.Keys, b.recipes[v]);
    DropAllIsFree(b, b.recipes[v]);
    if Delete(b, version).Some? {
      var a', b' := DeleteFree(a, version).value, Delete(b, version).value;
      RecipeGone(DropAllFree(a, a.recipes[v]).value, DropAll(b, b.recipes[v]).value, b.revs.Keys, b.recipes - {v});
      ShadowOnlyLists(a', b', b.revs.Keys);
      InvGivesBack(h, universe, a', b', content', files - {v});
    }
  }

  lemma RecipeGone(a: Store, b: Store, listed: set<nat>, recipes: map<nat, seq<SHA1FP>>)
    requires Shadow(a, b, listed)
    ensures Shadow(a.(recipes := recipes), b.(recipes := recipes), listed)
  {}

  /** After a covered history and a pipeline run, the delete of a version, old or new, finds every
      list it opens exactly when every chunk that loses its last reference lies in a container of a
      sequential write; all other versions are then still restored. */
  lemma DeleteAfterPipeline(h: Bytes -> SHA1FP, universe: iset<Bytes>, st: Store, content: Contents,
                            files: map<nat, Bytes>, cs: seq<Bytes>, version: nat)
    requires Inv(h, universe, st, content, files) && CollisionFree(h, universe) && Short(content) && Bounded(st)
    requires Writable(universe, cs) && FreshNames(h, st, cs) && forall c :: c in cs ==> |c| < U16
    requires RecipeName(version) in PipelineWrite(h, st, cs).recipes
    ensures var b, v := PipelineWrite(h, st, cs), RecipeName(version);
            var left := files[|st.recipes| := Flatten(cs)] - {v};
            && (Delete(b, version).Some? <==> Removable(b.index, b.recipes[v], st.revs.Keys))
            && (Delete(b, version).Some? ==> GivesBack(Delete(b, version).value, left))
  {
    hide Inv, CollisionFree, Writable, FreshNames, WriteAt, AddContents, Short, Shadow, Removable, Delete, DeleteFree,
         Small, ListsHold, GivesBack;
    var a, b := Write(h, st, cs, true), PipelineWrite(h, st, cs);
    WriteKeepsInv(h, universe, st, content, files, cs);
    AddContentsShort(h, content, cs);
    WritableFits(universe, cs);
    WriteStaysSmall(h, st, ContainerFiles(st), cs, true);
    PipelineShadow(h, universe, st, content, files, cs);
    var _ := DeleteShadow(h, universe, a, b, AddContents(h, content, cs), files[|st.recipes| := Flatten(cs)], version);
  }

  lemma WritableFits(universe: iset<Bytes>, cs: seq<Bytes>)
    requires Writable(universe, cs)
    ensures Fitting(cs) && forall c :: c in cs ==> c != []
  {}

  lemma ShadowOnlyLists(a: Store, b: Store, listed: set<nat>)
    requires Shadow(a, b, listed)
    ensures b == a.(revs := b.revs)
  {}

  /** The delete of the version a pipeline run has just written finds every list it opens exactly
      when the run stored nothing, since all its chunks were known before; or when the number is 256
      or more, because then it is another version that goes. */
  lemma DeletePipelineVersion(h: Bytes -> SHA1FP, universe: iset<Bytes>, st: Store, content: Contents,
                              files: map<nat, Bytes>, cs: seq<Bytes>)
    requires Inv(h, universe, st, content, files) && CollisionFree(h, universe) && Short(content) && Bounded(st)
    requires Writable(universe, cs) && FreshNames(h, st, cs) && (forall c :: c in cs ==> |c| < U16)
    ensures Delete(PipelineWrite(h, st, cs), |st.recipes|).Some? <==>
              |st.recipes| >= U8 || forall c :: c in cs ==> h(c) in st.index
  {
    hide Inv, CollisionFree, Writable, FreshNames, Write, Short, Bounded, Delete, GivesBack, Removable;
    var a, n := Write(h, st, cs, true), |st.recipes|;
    NewNumber(h, universe, st, content, files, cs);
    UnknownVersion(PipelineWrite(h, st, cs), n);
    if RecipeName(n) in a.recipes {
      DeleteAfterPipeline(h, universe, st, content, files, cs, n);
      if n < U8 {
        NewVersionRemovable(h, universe, st, content, files, cs);
      } else {
        OldChunksListed(h, universe, st, content, files, cs, RecipeName(n));
      }
    }
  }

  lemma UnknownVersion(st: Store, version: nat)
    ensures RecipeName(version) !in st.recipes ==> Delete(st, version) == Some(st)
  {}

  lemma NewVersionRemovable(h: Bytes -> SHA1FP, universe: iset<Bytes>, st: Store, content: Contents,
                            files: map<nat, Bytes>, cs: seq<Bytes>)
    requires Inv(h, universe, st, content, files) && CollisionFree(h, universe)
    requires Writable(universe, cs) && FreshNames(h, st, cs)
    ensures var a, n := Write(h, st, cs, true), |st.recipes|;
            n in a.recipes &&
            (Removable(a.index, a.recipes[n], st.revs.Keys) <==> forall c :: c in cs ==> h(c) in st.index)
  {
    hide Inv, CollisionFree, Writable, FreshNames, WriteAt;
    var a, n := Write(h, st, cs, true), |st.recipes|;
    NewNumber(h, universe, st, content, files, cs);
    WrittenRecipe(h, st, cs);
    forall fp | fp in a.recipes[n]
      ensures fp in a.index && (a.index[fp].refCnt <= multiset(a.recipes[n])[fp] <==> fp !in st.index)
      ensures fp !in st.index ==> a.index[fp].containerNumber !in st.revs
    {
      NewestReferences(h, universe, st, content, files, cs, fp);
    }
    PrintsKnown(h, cs, st.index);
  }

  /** The chunks of older versions lie in containers that have lists. */
  lemma OldChunksListed(h: Bytes -> SHA1FP, universe: iset<Bytes>, st: Store, content: Contents, files: map<nat, Bytes>,
                        cs: seq<Bytes>, v: nat)
    requires Inv(h, universe, st, content, files) && CollisionFree(h, universe)
    requires Writable(universe, cs) && FreshNames(h, st, cs)
    requires v in Write(h, st, cs, true).recipes && v != |st.recipes|
    ensures var a := Write(h, st, cs, true); Removable(a.index, a.recipes[v], st.revs.Keys)
  {
    hide CollisionFree, Writable, FreshNames, WriteAt, AllRefs, Named, Holds, Layout, Laid, Counted;
    var a := Write(h, st, cs, true);
    WriteNumbers(h, universe, st, content, files, cs);
    OtherRecipes(h, st, cs, v);
    RecipesIndexed(st.index, st.recipes, v);
    forall fp | fp in a.recipes[v] && fp in a.index
      ensures a.index[fp].containerNumber in st.revs.Keys
    {
      ListedWhere(st.index, content, st.containers, st.revs, fp);
    }
  }

  lemma PrintsKnown(h: Bytes -> SHA1FP, cs: seq<Bytes>, index: Index)
    ensures (forall fp :: fp in Prints(h, cs) ==> fp in index) <==> forall c :: c in cs ==> h(c) in index
  {
    forall c | c in cs ensures h(c) in Prints(h, cs) {
      var i :| 0 <= i < |cs| && cs[i] == c;
      assert Prints(h, cs)[i] == h(c);
    }
  }

  lemma NewNumber(h: Bytes -> SHA1FP, universe: iset<Bytes>, st: Store, content: Contents, files: map<nat, Bytes>,
                  cs: seq<Bytes>)
    requires Inv(h, universe, st, content, files) && FreshNames(h, st, cs)
    ensures |st.recipes| !in st.recipes && |st.recipes| in Write(h, st, cs, true).recipes
    ensures Write(h, st, cs, true).recipes - {|st.recipes|} == st.recipes
  {
    hide Inv, WriteChunks;
  }

  /** A chunk of the newest version that only this version refers to is one the write has stored,
      in a container of its own. */
  lemma NewestReferences(h: Bytes -> SHA1FP, universe: iset<Bytes>, st: Store, content: Contents,
                         files: map<nat, Bytes>, cs: seq<Bytes>, fp: SHA1FP)
    requires Inv(h, universe, st, content, files) && CollisionFree(h, universe)
    requires Writable(universe, cs) && FreshNames(h, st, cs)
    requires var a := Write(h, st, cs, true);
             && a.recipes - {|st.recipes|} == st.recipes && |st.recipes| in a.recipes
             && fp in a.recipes[|st.recipes|]
    ensures var a := Write(h, st, cs, true);
            && fp in a.index
            && (a.index[fp].refCnt <= multiset(a.recipes[|st.recipes|])[fp] <==> fp !in st.index)
            && (fp !in st.index ==> a.index[fp].containerNumber !in st.revs)
  {
    hide CollisionFree, Writable, FreshNames, Write, Layout, AllRefs, Named, Holds, AddContents, ListsNumbered;
    var a, n := Write(h, st, cs, true), |st.recipes|;
    WriteKeepsInv(h, universe, st, content, files, cs);
    WriteNumbers(h, universe, st, content, files, cs);
    AllRefsSplit(a.recipes, n);
    assert fp in multiset(a.recipes[n]);
    WhereListed(st, content, a, AddContents(h, content, cs), fp);
  }

  /** The same after a schedule of the threads, for a file of any length. */
  lemma ScheduleThenDelete(h: Bytes -> SHA1FP, universe: iset<Bytes>, st: Store, content: Contents,
                           files: map<nat, Bytes>, cfg: Config, file: Bytes, moves: seq<Move>)
    requires Inv(h, universe, st, content, files) && CollisionFree(h, universe) && Short(content) && Bounded(st)
    requires cfg.h == h && cfg.st == st && PipelineAdmissible(h, universe, st, cfg.ch, file) && Ends(cfg, file, moves)
    ensures var result := Exec(cfg, Init(cfg, file), moves).value.result;
            && result.Some?
            && (Delete(result.value, |st.recipes|).Some? <==>
                  || |st.recipes| >= U8
                  || forall c :: c in Chunks(cfg.ch, cfg.ch.InitialAvg(), file) ==> h(c) in st.index)
  {
    hide Inv, CollisionFree, FreshNames, Write, Short, Bounded, Delete, Exec, Fire, Init, Ends, Chunks, BuffersHold;
    var cs := Chunks(cfg.ch, cfg.ch.InitialAvg(), file);
    ShortHolds(h, st, cs);
    EverySchedule(cfg, file, moves);
    ChunksPartition(cfg.ch, cfg.ch.InitialAvg(), file);
    DeletePipelineVersion(h, universe, st, content, files, cs);
  }
}
