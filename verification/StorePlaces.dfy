/** The number of a chunk inside its container has 16 bits. When it tells the chunks of a container
    apart, the 64-bit ids of the chunk cache do; a container that receives more than 65536 chunks
    is where it stops doing so. */
module StorePlaces {
  import opened Common
  import opened Chunking
  import opened MetadataManager
  import opened StoreModel
  import opened StoreInvariant
  import opened StorePacking
  import opened StoreWrite
  import opened StoreFilling
  import opened StoreHistory
  import opened StoreIndexFile

  predicate SamePlace(a: EntryValue, b: EntryValue)
  {
    a.containerNumber == b.containerNumber && a.innerIndex == b.innerIndex
  }

  /** No two entries share a place, and the numbers fit 16 bits. */
  ghost predicate Distinct(index: Index)
  {
    && (forall fp :: fp in index ==> index[fp].innerIndex < U16)
    && forall fp, gp :: fp in index && gp in index && SamePlace(index[fp], index[gp]) ==> fp == gp
  }

  /** Entries of `b` sit where they sit in `a`. */
  ghost predicate SamePlaces(a: Index, b: Index)
  {
    forall fp :: fp in b ==> fp in a && SamePlace(a[fp], b[fp])
  }

  lemma SamePlacesDistinct(a: Index, b: Index)
    requires Distinct(a) && SamePlaces(a, b)
    ensures Distinct(b)
  {}

  // ---------- Write ----------

  /** The chunks of a container are numbered in the order of its reverse list, in 16 bits. */
  ghost predicate InOrder(index: Index, rev: seq<SHA1FP>)
  {
    forall i :: 0 <= i < |rev| ==> rev[i] in index && index[rev[i]].innerIndex == i % U16
  }

  /** Since the write began old entries have kept their places, old lists are untouched, and the
      new containers are numbered. */
  ghost predicate Numbering(st: Store, w: Writer)
  {
    && w.containers.Keys == w.revs.Keys
    && SamePlaces(IndexOf(w), st.index)
    && (forall c :: c in st.revs ==> c in w.revs && w.revs[c] == st.revs[c])
    && (w.rev != [] ==> w.ctr !in st.revs)
    && forall c :: c in Shelf(w.revs, w.ctr, w.rev) && c !in st.revs ==>
         InOrder(IndexOf(w), Shelf(w.revs, w.ctr, w.rev)[c])
  }

  lemma ReferenceNumbers(st: Store, w: Writer, fp: SHA1FP)
    requires Numbering(st, w) && w.origin.Keys !! w.added.Keys && fp in IndexOf(w)
    ensures Numbering(st, AddReference(w.(recipe := w.recipe + [fp]), fp))
  {
    hide IndexOf;
    var v := w.(recipe := w.recipe + [fp]);
    RecipeAside(w, fp);
    ReferenceIndex(v, fp);
  }

  lemma RecipeAside(w: Writer, fp: SHA1FP)
    ensures IndexOf(w.(recipe := w.recipe + [fp])) == IndexOf(w)
  {}

  lemma FlushNumbers(st: Store, w: Writer)
    requires Numbering(st, w) && w.keepRevs && w.rev != [] && w.ctr !in w.containers
    ensures Numbering(st, FlushContainer(w)) && IndexOf(FlushContainer(w)) == IndexOf(w)
  {
    hide InOrder;
    assert IndexOf(FlushContainer(w)) == IndexOf(w);
    assert Shelf(FlushContainer(w).revs, w.ctr + 1, []) == Shelf(w.revs, w.ctr, w.rev);
  }

  /** A new chunk goes to the end of the current container's list. */
  lemma StoreNumbers(st: Store, w: Writer, fp: SHA1FP, c: Bytes)
    requires Numbering(st, w) && w.keepRevs && w.inner == |w.rev| % U16 && w.origin.Keys !! w.added.Keys
    requires w.ctr !in st.revs && w.ctr !in w.revs && |w.buf| + |c| < CONTAINER_SIZE && fp !in IndexOf(w)
    ensures Numbering(st, StoreChunk(w, fp, c))
  {
    hide IndexOf;
    var e := EntryValue(w.ctr, |w.buf|, |c| % U16, w.inner, 1);
    var w' := StoreChunk(w, fp, c);
    StoreIndex(w, fp, c);
    forall d | d in Shelf(w'.revs, w'.ctr, w'.rev) && d !in st.revs
      ensures InOrder(IndexOf(w'), Shelf(w'.revs, w'.ctr, w'.rev)[d])
    {
      if d == w.ctr {
        CurrentInOrder(st, w);
        InOrderAppend(IndexOf(w), w.rev, fp, e);
      } else {
        assert Shelf(w'.revs, w'.ctr, w'.rev)[d] == Shelf(w.revs, w.ctr, w.rev)[d];
        InOrderUpdate(IndexOf(w), w.revs[d], fp, e);
      }
    }
  }

  lemma CurrentInOrder(st: Store, w: Writer)
    requires Numbering(st, w)
    ensures InOrder(IndexOf(w), w.rev)
  {
    if w.rev != [] { assert w.ctr in Shelf(w.revs, w.ctr, w.rev); }
  }

  lemma InOrderAppend(index: Index, rev: seq<SHA1FP>, fp: SHA1FP, e: EntryValue)
    requires InOrder(index, rev) && fp !in index && e.innerIndex == |rev| % U16
    ensures InOrder(index[fp := e], rev + [fp])
  {}

  lemma InOrderUpdate(index: Index, rev: seq<SHA1FP>, fp: SHA1FP, e: EntryValue)
    requires InOrder(index, rev) && fp !in index
    ensures InOrder(index[fp := e], rev)
  {}

  lemma StoreIndex(w: Writer, fp: SHA1FP, c: Bytes)
    requires |w.buf| + |c| < CONTAINER_SIZE
    ensures IndexOf(StoreChunk(w, fp, c)) == IndexOf(w)[fp := EntryValue(w.ctr, |w.buf|, |c| % U16, w.inner, 1)]
  {}

  lemma ChunkNumbers(h: Bytes -> SHA1FP, universe: iset<Bytes>, st: Store, w: Writer, content: Contents,
                     refs: multiset<SHA1FP>, c: Bytes)
    requires WriteInv(h, universe, w, content, refs) && Numbering(st, w)
    requires 0 < |c| < CONTAINER_SIZE && Unused(w.containers, w.ctr, EndName(WriteChunk(h, w, c)))
    ensures Numbering(st, WriteChunk(h, w, c))
  {
    hide Numbering, AddReference, WriteInv;
    var fp := h(c);
    var v := w.(recipe := w.recipe + [fp]);
    RunFacts(h, universe, w, content, refs);
    RecipeAside(w, fp);
    if fp in w.origin || fp in w.added {
      ReferenceNumbers(st, w, fp);
    } else {
      NumberingAside(st, w, fp);
      assert w.ctr !in w.containers;
      NotOld(st, w, w.ctr);
      if |w.buf| + |c| >= CONTAINER_SIZE {
        assert w.ctr + 1 !in w.containers;
        NotOld(st, w, w.ctr + 1);
        FlushNumbers(st, v);
        StoreNumbers(st, FlushContainer(v), fp, c);
      } else {
        StoreNumbers(st, v, fp, c);
      }
    }
  }

  lemma RunFacts(h: Bytes -> SHA1FP, universe: iset<Bytes>, w: Writer, content: Contents, refs: multiset<SHA1FP>)
    requires WriteInv(h, universe, w, content, refs)
    ensures w.keepRevs && w.origin.Keys !! w.added.Keys && (w.buf == [] <==> w.rev == []) && w.inner == |w.rev| % U16
  {}

  lemma NumberingAside(st: Store, w: Writer, fp: SHA1FP)
    requires Numbering(st, w)
    ensures Numbering(st, w.(recipe := w.recipe + [fp]))
  {
    hide InOrder, SamePlaces;
    RecipeAside(w, fp);
  }

  lemma NotOld(st: Store, w: Writer, c: nat)
    requires Numbering(st, w) && c !in w.containers
    ensures c !in st.revs && c !in w.revs
  {
    assert c in w.containers.Keys <==> c in w.revs.Keys;
  }

  lemma {:induction false} ChunksNumber(h: Bytes -> SHA1FP, universe: iset<Bytes>, st: Store, w: Writer,
                                        content: Contents,
                                        refs: multiset<SHA1FP>, cs: seq<Bytes>)
    requires WriteInv(h, universe, w, content, refs) && Numbering(st, w) && CollisionFree(h, universe)
    requires Writable(universe, cs)
    requires Unused(w.containers, w.ctr, EndName(WriteChunks(h, w, cs)))
    ensures Numbering(st, WriteChunks(h, w, cs))
    decreases |cs|
  {
    hide WriteInv, WriteChunk, EndName, CollisionFree, Unused, Numbering;
    if cs != [] {
      var c, w1, end := cs[0], WriteChunk(h, w, cs[0]), EndName(WriteChunks(h, w, cs));
      ChunksNames(h, w1, cs[1..]);
      UnusedShrink(w.containers, w.ctr, EndName(w1), end);
      ChunkKeepsInv(h, universe, w, content, refs, c);
      ChunkNumbers(h, universe, st, w, content, refs, c);
      UnusedLater(h, w, c, end);
      ChunksNumber(h, universe, st, w1, content[h(c) := c], refs, cs[1..]);
    }
  }

  lemma StartNumbers(h: Bytes -> SHA1FP, universe: iset<Bytes>, st: Store, content: Contents, files: map<nat, Bytes>)
    requires Inv(h, universe, st, content, files)
    ensures Numbering(st, StartWrite(st, true))
  {
    hide Counted, Named, Holds, AllRefs, Laid, Placed;
    if |st.recipes| == 0 { NoRecipeNoEntry(st.index, st.recipes); }
    assert IndexOf(StartWrite(st, true)) == st.index;
  }

  /** What a finished write leaves: old entries in their places, old lists as they were, new lists
      numbered. */
  ghost predicate ListsNumbered(st: Store, st': Store)
  {
    && SamePlaces(st'.index, st.index)
    && (forall c :: c in st.revs ==> c in st'.revs && st'.revs[c] == st.revs[c])
    && forall c :: c in st'.revs && c !in st.revs ==> InOrder(st'.index, st'.revs[c])
  }

  lemma FinishNumbers(st: Store, w: Writer, recipes: map<nat, seq<SHA1FP>>)
    requires Numbering(st, w) && w.keepRevs && (w.buf == [] <==> w.rev == [])
    ensures ListsNumbered(st, FinishWrite(w, recipes))
  {
    hide InOrder, SamePlaces, StoreModel.Put;
    assert FinishWrite(w, recipes).index == IndexOf(w);
    assert FinishWrite(w, recipes).revs == Shelf(w.revs, w.ctr, w.rev);
  }

  lemma WriteNumbers(h: Bytes -> SHA1FP, universe: iset<Bytes>, st: Store, content: Contents, files: map<nat, Bytes>,
                     cs: seq<Bytes>)
    requires Inv(h, universe, st, content, files) && CollisionFree(h, universe)
    requires Writable(universe, cs) && FreshNames(h, st, cs)
    ensures ListsNumbered(st, Write(h, st, cs, true))
  {
    hide Inv, WriteInv, WriteChunks, StartAt, EndName, CollisionFree, Unused, Numbering, ListsNumbered, FinishWrite;
    var w := StartWrite(st, true);
    StartFacts(h, universe, st, content, files, ContainerFiles(st));
    StartKeepsInv(h, universe, st, content, files, ContainerFiles(st));
    StartNumbers(h, universe, st, content, files);
    ChunksNumber(h, universe, st, w, content, AllRefs(st.recipes), cs);
    ChunksKeepInv(h, universe, w, content, AllRefs(st.recipes), cs);
    RunFacts(h, universe, WriteChunks(h, w, cs), AddContents(h, content, cs), AllRefs(st.recipes));
    FinishNumbers(st, WriteChunks(h, w, cs), st.recipes);
  }

  /** No container that the write fills receives more than 65536 chunks. */
  ghost predicate Uncrowded(st: Store, st': Store)
  {
    forall c :: c in st'.revs && c !in st.revs ==> |st'.revs[c]| <= U16
  }

  lemma ListedWhere(index: Index, content: Contents, containers: map<nat, Bytes>, revs: map<nat, seq<SHA1FP>>,
                    fp: SHA1FP)
    requires Layout(index, content, containers, revs) && fp in index
    ensures index[fp].containerNumber in revs && fp in revs[index[fp].containerNumber]
  {
    hide Laid;
  }

  lemma ListHolds(index: Index, content: Contents, containers: map<nat, Bytes>, revs: map<nat, seq<SHA1FP>>, c: nat)
    requires Layout(index, content, containers, revs) && c in revs
    ensures NoDup(revs[c]) && forall fp :: fp in revs[c] ==> fp in index && index[fp].containerNumber == c
  {
    hide Cat, Placed;
    assert Laid(index, content, c, revs[c], containers[c]);
  }

  lemma UncrowdedDistinct(st: Store, content: Contents, st': Store, content': Contents)
    requires Layout(st.index, content, st.containers, st.revs) && Layout(st'.index, content', st'.containers, st'.revs)
    requires Distinct(st.index) && ListsNumbered(st, st') && Uncrowded(st, st')
    ensures Distinct(st'.index)
  {
    hide Layout;
    forall fp | fp in st'.index
      ensures st'.index[fp].innerIndex < U16
    {
      WhereListed(st, content, st', content', fp);
    }
    forall fp, gp | fp in st'.index && gp in st'.index && SamePlace(st'.index[fp], st'.index[gp])
      ensures fp == gp
    {
      WhereListed(st, content, st', content', fp);
      WhereListed(st, content, st', content', gp);
    }
  }

  /** An entry is an old one in its old place, or a numbered one on a new list. */
  lemma WhereListed(st: Store, content: Contents, st': Store, content': Contents, fp: SHA1FP)
    requires Layout(st.index, content, st.containers, st.revs) && Layout(st'.index, content', st'.containers, st'.revs)
    requires ListsNumbered(st, st') && fp in st'.index
    ensures var e := st'.index[fp];
            && e.containerNumber in st'.revs
            && (e.containerNumber in st.revs ==> fp in st.index && SamePlace(st.index[fp], e))
            && (e.containerNumber !in st.revs ==>
                  exists i :: 0 <= i < |st'.revs[e.containerNumber]| &&
                    st'.revs[e.containerNumber][i] == fp && e.innerIndex == i % U16)
  {
    hide Layout;
    var c := st'.index[fp].containerNumber;
    ListedWhere(st'.index, content', st'.containers, st'.revs, fp);
    if c in st.revs {
      ListHolds(st.index, content, st.containers, st.revs, c);
    } else {
      var i :| 0 <= i < |st'.revs[c]| && st'.revs[c][i] == fp;
      assert InOrder(st'.index, st'.revs[c]);
    }
  }

  lemma CrowdedShares(st: Store, st': Store, content': Contents, c: nat)
    requires Layout(st'.index, content', st'.containers, st'.revs) && ListsNumbered(st, st')
    requires c in st'.revs && c !in st.revs && |st'.revs[c]| > U16
    ensures exists fp, gp :: fp in st'.index && gp in st'.index && fp != gp && SamePlace(st'.index[fp], st'.index[gp])
    ensures !Distinct(st'.index)
  {
    hide Layout;
    ListHolds(st'.index, content', st'.containers, st'.revs, c);
    var rev := st'.revs[c];
    assert InOrder(st'.index, rev) && rev[0] in rev && rev[U16] in rev;
    assert SamePlace(st'.index[rev[0]], st'.index[rev[U16]]);
    assert rev[0] != rev[U16];
  }

  /** That is told by the lengths of the new chunks. */
  lemma UncrowdedExactly(h: Bytes -> SHA1FP, universe: iset<Bytes>, st: Store, content: Contents,
                         files: map<nat, Bytes>, cs: seq<Bytes>)
    requires Inv(h, universe, st, content, files) && FreshNames(h, st, cs) && forall c :: c in cs ==> c != []
    ensures Uncrowded(st, Write(h, st, cs, true)) <==> AllAtMost(Fill(0, 0, NewLengths(h, Known(st), cs)), U16)
  {
    hide Counted, Named, Holds, WriteAt, NewLengths, Known, WriteChunks, Fill;
    var ctr, lengths, st' := ContainerFiles(st), NewLengths(h, Known(st), cs), Write(h, st, cs, true);
    NamesTaken(h, st, ctr, cs);
    WriteFills(h, st, ctr, cs);
    NamesOfBoth(st.index, content, st.containers, st.revs);
    var counts := Fill(0, 0, lengths);
    if lengths == [] {
      assert counts == [0] by { NoCounts(); }
    } else {
      assert Filled(lengths) == |counts|;
      if Uncrowded(st, st') {
        forall i | 0 <= i < |counts| ensures counts[i] <= U16 {
          assert ctr + i in st'.revs && |st'.revs[ctr + i]| == counts[i];
          assert ctr + i !in st.containers.Keys && ctr + i !in st.revs;
        }
      } else {
        var c :| c in st'.revs && c !in st.revs && |st'.revs[c]| > U16;
        assert |st'.revs[c]| == counts[c - ctr];
      }
    }
  }

  lemma NamesOfBoth(index: Index, content: Contents, containers: map<nat, Bytes>, revs: map<nat, seq<SHA1FP>>)
    requires Layout(index, content, containers, revs)
    ensures containers.Keys == revs.Keys
  {}

  /** Chunk numbers stay distinct over a write exactly when no container receives more than 65536 of
      its new chunks. */
  lemma DistinctExactly(h: Bytes -> SHA1FP, universe: iset<Bytes>, st: Store, content: Contents, files: map<nat, Bytes>,
                        cs: seq<Bytes>)
    requires Inv(h, universe, st, content, files) && CollisionFree(h, universe)
    requires Writable(universe, cs) && FreshNames(h, st, cs) && Distinct(st.index)
    ensures var st' := Write(h, st, cs, true); Distinct(st'.index) <==> Uncrowded(st, st')
    ensures Distinct(Write(h, st, cs, true).index) <==> AllAtMost(Fill(0, 0, NewLengths(h, Known(st), cs)), U16)
  {
    hide Layout, Counted, Named, Holds, Write, FreshNames, CollisionFree, AddContents, Distinct, ListsNumbered, AllRefs,
         Fill, NewLengths, Known, AllAtMost;
    var st' := Write(h, st, cs, true);
    UncrowdedExactly(h, universe, st, content, files, cs);
    WriteKeepsInv(h, universe, st, content, files, cs);
    WriteNumbers(h, universe, st, content, files, cs);
    var content' := AddContents(h, content, cs);
    if Uncrowded(st, st') {
      UncrowdedDistinct(st, content, st', content');
    } else {
      var c :| c in st'.revs && c !in st.revs && |st'.revs[c]| > U16;
      CrowdedShares(st, st', content', c);
    }
  }

  // ---------- Delete ----------

  lemma ShiftKeepsPlaces(m: Index, rev: seq<SHA1FP>, gone: SHA1FP, off: nat, len: nat)
    requires NoDup(rev)
    ensures SamePlaces(m, ShiftEach(m, rev, gone, off, len))
  {
    ShiftEachIsShiftOffsets(m, rev, gone, off, len);
  }

  ghost predicate ListedOnce(revs: map<nat, seq<SHA1FP>>)
  {
    forall c :: c in revs ==> NoDup(revs[c])
  }

  lemma CutOnce(rev: seq<SHA1FP>, i: nat)
    requires NoDup(rev) && i < |rev|
    ensures NoDup(CutOut(rev, i, 1))
  {}

  lemma RemovalPlaces(st: Store, c: nat, fp: SHA1FP, off: nat, len: nat)
    requires ListedOnce(st.revs)
    ensures var st' := ContainerDelChunk(st, c, fp, off, len);
            st'.Some? ==> SamePlaces(st.index, st'.value.index) && ListedOnce(st'.value.revs)
  {
    hide ShiftEach, NoDup;
    if c in st.revs {
      ShiftKeepsPlaces(st.index, st.revs[c], fp, off, len);
      if fp in st.revs[c] {
        CutOnce(st.revs[c], Position(st.revs[c], fp).value);
      }
    }
  }

  lemma DropPlaces(st: Store, fp: SHA1FP)
    requires ListedOnce(st.revs)
    ensures var st' := DropReference(st, fp);
            st'.Some? ==> SamePlaces(st.index, st'.value.index) && ListedOnce(st'.value.revs)
  {
    hide ContainerDelChunk, ListedOnce;
    if fp in st.index && st.index[fp].refCnt <= 1 {
      var e := st.index[fp];
      RemovalPlaces(st.(index := st.index - {fp}), e.containerNumber, fp, e.offset, e.chunkLength);
    }
  }

  lemma {:induction false} DropAllPlaces(st: Store, fps: seq<SHA1FP>)
    requires ListedOnce(st.revs)
    ensures var st' := DropAll(st, fps);
            st'.Some? ==> SamePlaces(st.index, st'.value.index) && ListedOnce(st'.value.revs)
    decreases |fps|
  {
    hide DropReference, ListedOnce;
    if fps != [] {
      DropPlaces(st, fps[0]);
      if DropReference(st, fps[0]).Some? { DropAllPlaces(DropReference(st, fps[0]).value, fps[1..]); }
    }
  }

  /** A delete leaves every remaining entry in its place. */
  lemma DeletePlaces(h: Bytes -> SHA1FP, universe: iset<Bytes>, st: Store, content: Contents, files: map<nat, Bytes>,
                     version: nat)
    requires Inv(h, universe, st, content, files)
    ensures Delete(st, version).Some? ==> SamePlaces(st.index, Delete(st, version).value.index)
  {
    hide DropAll, Layout, Counted, Named, Holds, ListedOnce, AllRefs;
    InvListsOnce(h, universe, st, content, files);
    if RecipeName(version) in st.recipes { DropAllPlaces(st, st.recipes[RecipeName(version)]); }
  }

  lemma InvListsOnce(h: Bytes -> SHA1FP, universe: iset<Bytes>, st: Store, content: Contents, files: map<nat, Bytes>)
    requires Inv(h, universe, st, content, files)
    ensures ListedOnce(st.revs)
  {
    hide Layout, Counted, Named, Holds, AllRefs, NoDup;
    forall c | c in st.revs ensures NoDup(st.revs[c]) {
      ListHolds(st.index, content, st.containers, st.revs, c);
    }
  }

  // ---------- Histories ----------

  ghost predicate UncrowdedRun(h: Bytes -> SHA1FP, st: Store, ops: seq<Op>)
    decreases |ops|
  {
    ops != [] && Step(h, st, ops[0]).Some? ==>
      && (ops[0].WriteFile? ==> Uncrowded(st, Step(h, st, ops[0]).value))
      && UncrowdedRun(h, Step(h, st, ops[0]).value, ops[1..])
  }

  /** Over a history without crowded containers chunk numbers stay distinct. */
  lemma {:induction false} RunStaysDistinct(h: Bytes -> SHA1FP, universe: iset<Bytes>, st: Store, content: Contents,
                                            files: map<nat, Bytes>, ops: seq<Op>)
    requires Inv(h, universe, st, content, files) && Short(content) && CollisionFree(h, universe)
    requires IndexFits(st.index) && Bounded(st) && AdmissibleRun(h, universe, st, ops)
    requires Distinct(st.index) && UncrowdedRun(h, st, ops)
    ensures Run(h, st, ops).Some? && Distinct(Run(h, st, ops).value.index)
    decreases |ops|
  {
    hide Inv, Short, CollisionFree, Admissible, Step, StoredAfter, IndexFits, Distinct, Uncrowded, Bounded;
    if ops != [] {
      var content1 := StepKeepsInv(h, universe, st, content, files, ops[0]);
      StepStaysDistinct(h, universe, st, content, files, ops[0]);
      RunStaysDistinct(h, universe, Step(h, st, ops[0]).value, content1, StoredAfter(files, ops[0]), ops[1..]);
    }
  }

  lemma StepStaysDistinct(h: Bytes -> SHA1FP, universe: iset<Bytes>, st: Store, content: Contents,
                          files: map<nat, Bytes>, op: Op)
    requires Inv(h, universe, st, content, files) && CollisionFree(h, universe)
    requires Admissible(h, universe, st, op) && Distinct(st.index)
    requires op.WriteFile? && Step(h, st, op).Some? ==> Uncrowded(st, Step(h, st, op).value)
    ensures Step(h, st, op).Some? ==> Distinct(Step(h, st, op).value.index)
  {
    hide Inv, CollisionFree, Distinct, Uncrowded, Write, Delete, FreshNames, FileChunks, IndexFits, BuffersHold;
    match op
    case WriteFile(ch, file) =>
      FileChunksPartition(ch, ch.InitialAvg(), file);
      DistinctExactly(h, universe, st, content, files, ChunksOf(op));
    case DeleteVersion(version) =>
      DeletePlaces(h, universe, st, content, files, version);
      if Delete(st, version).Some? { SamePlacesDistinct(st.index, Delete(st, version).value.index); }
  }
}
