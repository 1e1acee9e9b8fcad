/** Writing keeps the store's invariant and adds the file as a new version. */
module StoreWrite {
  import opened Common
  import opened MetadataManager
  import opened StoreModel
  import opened StoreInvariant

  // ---------- Layout under the two index changes of a write ----------

  lemma LaidFrame(index: Index, index': Index, content: Contents, content': Contents, c: nat, rev: seq<SHA1FP>,
                  bytes: Bytes)
    requires Laid(index, content, c, rev, bytes)
    requires forall fp :: fp in rev ==>
               && fp in index'
               && index'[fp].containerNumber == index[fp].containerNumber
               && index'[fp].offset == index[fp].offset
               && Content(content', fp) == Content(content, fp)
    ensures Laid(index', content', c, rev, bytes)
  {
    hide Content;
    CatFrame(content, content', rev);
    forall i | 0 <= i < |rev|
      ensures Cat(content, rev[..i]) == Cat(content', rev[..i])
    {
      CatFrame(content, content', rev[..i]);
    }
  }

  /** Changing only reference counts leaves the layout alone. */
  lemma LayoutIgnoresCounts(index: Index, index': Index, content: Contents, containers: map<nat, Bytes>,
                            revs: map<nat, seq<SHA1FP>>)
    requires Layout(index, content, containers, revs)
    requires index'.Keys == index.Keys
    requires forall fp :: fp in index ==> index'[fp] == index[fp].(refCnt := index'[fp].refCnt)
    ensures Layout(index', content, containers, revs)
  {
    forall c | c in revs
      ensures Laid(index', content, c, revs[c], containers[c])
    {
      assert Laid(index, content, c, revs[c], containers[c]);
      LaidFrame(index, index', content, content, c, revs[c], containers[c]);
    }
  }

  /** The files as they would be if the container in memory were saved now. */
  function Shelf<T>(files: map<nat, seq<T>>, ctr: nat, pending: seq<T>): map<nat, seq<T>>
  {
    if pending == [] then files else files[ctr := pending]
  }

  /** A new entry elsewhere does not disturb a container. */
  lemma LaidNewEntry(index: Index, content: Contents, d: nat, rev: seq<SHA1FP>, bytes: Bytes, fp: SHA1FP, c: Bytes,
                     e: EntryValue)
    requires Laid(index, content, d, rev, bytes) && fp !in index
    ensures fp !in rev && Laid(index[fp := e], content[fp := c], d, rev, bytes)
  {
    assert fp !in rev;
    LaidFrame(index, index[fp := e], content, content[fp := c], d, rev, bytes);
  }

  lemma LaidAppend(index: Index, content: Contents, ctr: nat, rev: seq<SHA1FP>, buf: Bytes, fp: SHA1FP, c: Bytes,
                   e: EntryValue)
    requires Laid(index, content, ctr, rev, buf) && fp !in index
    requires e.containerNumber == ctr && e.offset == |buf|
    ensures Laid(index[fp := e], content[fp := c], ctr, rev + [fp], buf + c)
  {
    var index', content', rev' := index[fp := e], content[fp := c], rev + [fp];
    LaidNewEntry(index, content, ctr, rev, buf, fp, c, e);
    CatConcat(content', rev, [fp]);
    CatOne(content', fp);
    forall i | 0 <= i < |rev'|
      ensures rev'[i] in index' && index'[rev'[i]].containerNumber == ctr
      ensures index'[rev'[i]].offset == |Cat(content', rev'[..i])|
    {
      assert rev'[..i] == rev[..i];
      if i == |rev| { assert rev[..i] == rev; }
    }
  }

  /** A new chunk at the end of the container in memory. */
  lemma LayoutAppend(index: Index, content: Contents, containers: map<nat, Bytes>, revs: map<nat, seq<SHA1FP>>,
                     ctr: nat, buf: Bytes, rev: seq<SHA1FP>, fp: SHA1FP, c: Bytes, e: EntryValue)
    requires Layout(index, content, Shelf(containers, ctr, buf), Shelf(revs, ctr, rev))
    requires buf == [] <==> rev == []
    requires ctr !in containers && fp !in index && c != []
    requires e.containerNumber == ctr && e.offset == |buf| && e.chunkLength == |c| % U16
    ensures Layout(index[fp := e], content[fp := c], containers[ctr := buf + c], revs[ctr := rev + [fp]])
  {
    hide Laid, Placed;
    var files, shelf := Shelf(containers, ctr, buf), Shelf(revs, ctr, rev);
    PendingLaid(index, content, containers, revs, ctr, buf, rev);
    LaidAppend(index, content, ctr, rev, buf, fp, c, e);
    ShelfOverwrite(containers, ctr, buf, buf + c);
    ShelfOverwrite(revs, ctr, rev, rev + [fp]);
    PlacedAppend(index, content, shelf, ctr, rev, fp, c, e);
    OthersLaid(index, content, files, shelf, ctr, fp, c, e);
  }

  lemma ShelfOverwrite<T>(files: map<nat, seq<T>>, ctr: nat, pending: seq<T>, more: seq<T>)
    ensures Shelf(files, ctr, pending)[ctr := more] == files[ctr := more]
  {}

  lemma PendingLaid(index: Index, content: Contents, containers: map<nat, Bytes>, revs: map<nat, seq<SHA1FP>>,
                    ctr: nat, buf: Bytes, rev: seq<SHA1FP>)
    requires Layout(index, content, Shelf(containers, ctr, buf), Shelf(revs, ctr, rev))
    requires buf == [] <==> rev == []
    ensures Laid(index, content, ctr, rev, buf)
  {
    if rev != [] { assert ctr in Shelf(revs, ctr, rev); }
  }

  lemma OthersLaid(index: Index, content: Contents, files: map<nat, Bytes>, shelf: map<nat, seq<SHA1FP>>, ctr: nat,
                   fp: SHA1FP, c: Bytes, e: EntryValue)
    requires Layout(index, content, files, shelf) && fp !in index
    ensures forall d :: d in shelf && d != ctr ==> Laid(index[fp := e], content[fp := c], d, shelf[d], files[d])
  {
    forall d | d in shelf && d != ctr
      ensures Laid(index[fp := e], content[fp := c], d, shelf[d], files[d])
    {
      assert Laid(index, content, d, shelf[d], files[d]);
      LaidNewEntry(index, content, d, shelf[d], files[d], fp, c, e);
    }
  }

  lemma PlacedAppend(index: Index, content: Contents, shelf: map<nat, seq<SHA1FP>>,
                     ctr: nat, rev: seq<SHA1FP>, fp: SHA1FP, c: Bytes, e: EntryValue)
    requires Placed(index, content, shelf)
    requires if ctr in shelf then shelf[ctr] == rev else rev == []
    requires fp !in index && c != []
    requires e.containerNumber == ctr && e.chunkLength == |c| % U16
    ensures Placed(index[fp := e], content[fp := c], shelf[ctr := rev + [fp]])
  {
  }

  /** One more occurrence of a fingerprint in the recipe, one more reference in its entry. */
  lemma CountedMore(index: Index, refs: multiset<SHA1FP>, recipe: seq<SHA1FP>, fp: SHA1FP, e: EntryValue)
    requires Counted(index, refs + multiset(recipe))
    requires e.refCnt == if fp in index then index[fp].refCnt + 1 else 1
    ensures Counted(index[fp := e], refs + multiset(recipe + [fp]))
  {
    var old', new' := refs + multiset(recipe), refs + multiset(recipe + [fp]);
    assert new' == old' + multiset{fp};
    assert forall x :: x in new' ==> x == fp || x in old';
    assert fp !in index ==> old'[fp] == 0;
  }

  // ---------- Invariant of a write run ----------

  function IndexOf(w: Writer): Index
  {
    w.origin + w.added
  }

  ghost predicate WriteInv(h: Bytes -> SHA1FP, universe: iset<Bytes>, w: Writer, content: Contents,
                           refs: multiset<SHA1FP>)
  {
    && w.keepRevs
    && w.origin.Keys !! w.added.Keys
    && Layout(IndexOf(w), content, Shelf(w.containers, w.ctr, w.buf), Shelf(w.revs, w.ctr, w.rev))
    && (w.buf == [] <==> w.rev == [])
    && w.inner == |w.rev| % U16
    && Counted(IndexOf(w), refs + multiset(w.recipe))
    && Named(h, universe, content)
  }

  /** First container name the run has not used. */
  function EndName(w: Writer): nat
  {
    if w.buf == [] then w.ctr else w.ctr + 1
  }

  /** No file has a name in lo..hi-1. */
  ghost predicate Unused<T>(files: map<nat, T>, lo: nat, hi: nat)
  {
    forall c :: lo <= c < hi ==> c !in files
  }

  lemma FlushKeepsInv(h: Bytes -> SHA1FP, universe: iset<Bytes>, w: Writer, content: Contents, refs: multiset<SHA1FP>)
    requires WriteInv(h, universe, w, content, refs)
    requires w.buf != [] && w.ctr !in w.containers
    ensures WriteInv(h, universe, FlushContainer(w), content, refs)
    ensures FlushContainer(w).containers == w.containers[w.ctr := w.buf]
  {
  }

  lemma UnionUpdate<K, V>(a: map<K, V>, b: map<K, V>, k: K, v: V)
    requires a.Keys !! b.Keys
    ensures a + b[k := v] == (a + b)[k := v]
    ensures k !in b ==> a[k := v] + b == (a + b)[k := v]
  {}

  lemma ReferenceIndex(w: Writer, fp: SHA1FP)
    requires w.origin.Keys !! w.added.Keys && fp in IndexOf(w)
    ensures IndexOf(AddReference(w, fp)) == IndexOf(w)[fp := IndexOf(w)[fp].(refCnt := IndexOf(w)[fp].refCnt + 1)]
    ensures AddReference(w, fp).origin.Keys == w.origin.Keys && AddReference(w, fp).added.Keys == w.added.Keys
  {
    var e := IndexOf(w)[fp];
    UnionUpdate(w.origin, w.added, fp, e.(refCnt := e.refCnt + 1));
    assert w.added[fp := e].Keys == w.added.Keys + {fp};
  }

  lemma ReferenceKeepsInv(h: Bytes -> SHA1FP, universe: iset<Bytes>, w: Writer, content: Contents,
                          refs: multiset<SHA1FP>, fp: SHA1FP)
    requires WriteInv(h, universe, w, content, refs) && fp in IndexOf(w)
    ensures WriteInv(h, universe, AddReference(w.(recipe := w.recipe + [fp]), fp), content, refs)
  {
    hide Layout, Named, Counted;
    var w' := AddReference(w.(recipe := w.recipe + [fp]), fp);
    ReferenceIndex(w.(recipe := w.recipe + [fp]), fp);
    LayoutIgnoresCounts(IndexOf(w), IndexOf(w'), content, Shelf(w.containers, w.ctr, w.buf),
                        Shelf(w.revs, w.ctr, w.rev));
    CountedMore(IndexOf(w), refs, w.recipe, fp, IndexOf(w')[fp]);
  }

  lemma NewChunkKeepsInv(h: Bytes -> SHA1FP, universe: iset<Bytes>, w: Writer, content: Contents,
                         refs: multiset<SHA1FP>, c: Bytes)
    requires WriteInv(h, universe, w, content, refs)
    requires h(c) !in IndexOf(w) && c in universe && 0 < |c|
    requires |w.buf| + |c| < CONTAINER_SIZE && w.ctr !in w.containers
    ensures WriteInv(h, universe, StoreChunk(w.(recipe := w.recipe + [h(c)]), h(c), c), content[h(c) := c], refs)
  {
    hide Layout, Counted;
    var fp := h(c);
    var w' := StoreChunk(w.(recipe := w.recipe + [fp]), fp, c);
    var e := w'.added[fp];
    LayoutAppend(IndexOf(w), content, w.containers, w.revs, w.ctr, w.buf, w.rev, fp, c, e);
    assert IndexOf(w') == IndexOf(w)[fp := e];
    CountedMore(IndexOf(w), refs, w.recipe, fp, e);
  }

  lemma UnusedShrink<T>(files: map<nat, T>, lo: nat, mid: nat, hi: nat)
    requires Unused(files, lo, hi) && mid <= hi
    ensures Unused(files, lo, mid)
  {}

  /** Which container names one chunk takes. */
  lemma ChunkNames(h: Bytes -> SHA1FP, w: Writer, c: Bytes)
    ensures var w' := WriteChunk(h, w, c);
            && w.ctr <= w'.ctr && EndName(w) <= EndName(w')
            && forall d :: d in w'.containers ==> d in w.containers || w.ctr <= d < w'.ctr
  {}

  lemma {:induction false} ChunksNames(h: Bytes -> SHA1FP, w: Writer, cs: seq<Bytes>)
    ensures w.ctr <= WriteChunks(h, w, cs).ctr && EndName(w) <= EndName(WriteChunks(h, w, cs))
    decreases |cs|
  {
    hide WriteChunk, EndName;
    if cs != [] {
      ChunkNames(h, w, cs[0]);
      ChunksNames(h, WriteChunk(h, w, cs[0]), cs[1..]);
    }
  }

  /** One chunk: the invariant holds again and the recipe spells one chunk more. */
  lemma ChunkKeepsInv(h: Bytes -> SHA1FP, universe: iset<Bytes>, w: Writer, content: Contents, refs: multiset<SHA1FP>,
                      c: Bytes)
    requires WriteInv(h, universe, w, content, refs) && CollisionFree(h, universe)
    requires c in universe && 0 < |c| < CONTAINER_SIZE
    requires Unused(w.containers, w.ctr, EndName(WriteChunk(h, w, c)))
    ensures WriteInv(h, universe, WriteChunk(h, w, c), content[h(c) := c], refs)
    ensures h(c) in content ==> content[h(c)] == c
  {
    hide WriteInv, AddReference, StoreChunk;
    WriteInvFacts(h, universe, w, content, refs);
    if h(c) in content {
      assert content[h(c)] == c;
      assert content[h(c) := c] == content;
      ReferenceKeepsInv(h, universe, w, content, refs, h(c));
    } else {
      StoreOrFlush(h, universe, w, content, refs, c);
    }
  }

  lemma WriteInvFacts(h: Bytes -> SHA1FP, universe: iset<Bytes>, w: Writer, content: Contents, refs: multiset<SHA1FP>)
    requires WriteInv(h, universe, w, content, refs)
    ensures IndexOf(w).Keys == content.Keys && Named(h, universe, content)
    ensures forall fp :: fp in w.recipe ==> fp in content
  {
    assert forall fp :: fp in w.recipe ==> fp in refs + multiset(w.recipe);
  }

  lemma StoreOrFlush(h: Bytes -> SHA1FP, universe: iset<Bytes>, w: Writer, content: Contents, refs: multiset<SHA1FP>,
                     c: Bytes)
    requires WriteInv(h, universe, w, content, refs)
    requires h(c) !in IndexOf(w) && c in universe && 0 < |c| < CONTAINER_SIZE
    requires Unused(w.containers, w.ctr, EndName(WriteChunk(h, w, c)))
    ensures WriteInv(h, universe, WriteChunk(h, w, c), content[h(c) := c], refs)
  {
    hide WriteInv;
    assert w.ctr !in w.containers;
    if |w.buf| + |c| >= CONTAINER_SIZE {
      assert w.ctr + 1 < EndName(WriteChunk(h, w, c));
      FlushKeepsInv(h, universe, w, content, refs);
      NewChunkKeepsInv(h, universe, FlushContainer(w), content, refs, c);
    } else {
      NewChunkKeepsInv(h, universe, w, content, refs, c);
    }
  }

  /** The chunks known after writing `cs`. */
  function AddContents(h: Bytes -> SHA1FP, content: Contents, cs: seq<Bytes>): Contents
    decreases |cs|
  {
    if cs == [] then content else AddContents(h, content[h(cs[0]) := cs[0]], cs[1..])
  }

  ghost predicate Extends(a: Contents, b: Contents)
  {
    forall fp :: fp in a ==> fp in b && b[fp] == a[fp]
  }

  lemma CatExtends(a: Contents, b: Contents, fps: seq<SHA1FP>)
    requires Extends(a, b) && forall fp :: fp in fps ==> fp in a
    ensures Cat(a, fps) == Cat(b, fps)
  {
    CatFrame(a, b, fps);
  }

  /** The chunks a caller may write: known to be collision free, not empty, smaller than a
      container. */
  ghost predicate Writable(universe: iset<Bytes>, cs: seq<Bytes>)
  {
    forall c :: c in cs ==> c in universe && 0 < |c| < CONTAINER_SIZE
  }

  lemma {:induction false} ChunksKeepInv(h: Bytes -> SHA1FP, universe: iset<Bytes>, w: Writer, content: Contents,
                                         refs: multiset<SHA1FP>, cs: seq<Bytes>)
    requires WriteInv(h, universe, w, content, refs) && CollisionFree(h, universe) && Writable(universe, cs)
    requires Unused(w.containers, w.ctr, EndName(WriteChunks(h, w, cs)))
    ensures WriteInv(h, universe, WriteChunks(h, w, cs), AddContents(h, content, cs), refs)
    ensures Extends(content, AddContents(h, content, cs))
    ensures Cat(AddContents(h, content, cs), WriteChunks(h, w, cs).recipe) == Cat(content, w.recipe) + Flatten(cs)
    decreases |cs|
  {
    hide WriteInv, WriteChunk, EndName, CollisionFree, Cat, Unused, Extends;
    if cs == [] {
      ExtendsFacts(content, content, content);
    } else {
      var c, w1, content1 := cs[0], WriteChunk(h, w, cs[0]), content[h(cs[0]) := cs[0]];
      var end := EndName(WriteChunks(h, w, cs));
      ChunksNames(h, w1, cs[1..]);
      UnusedShrink(w.containers, w.ctr, EndName(w1), end);
      ChunkKeepsInv(h, universe, w, content, refs, c);
      UnusedLater(h, w, c, end);
      ChunksKeepInv(h, universe, w1, content1, refs, cs[1..]);
      RecipeGrows(h, universe, w, content, refs, c);
      ExtendsUpdate(content, h(c), c);
      ExtendsFacts(content, content1, AddContents(h, content, cs));
    }
  }

  lemma ExtendsFacts(a: Contents, b: Contents, c: Contents)
    ensures Extends(a, a)
    ensures Extends(a, b) && Extends(b, c) ==> Extends(a, c)
  {}

  lemma ExtendsUpdate(a: Contents, fp: SHA1FP, c: Bytes)
    requires fp in a ==> a[fp] == c
    ensures Extends(a, a[fp := c])
  {}

  lemma UnusedLater(h: Bytes -> SHA1FP, w: Writer, c: Bytes, hi: nat)
    requires Unused(w.containers, w.ctr, hi)
    ensures Unused(WriteChunk(h, w, c).containers, WriteChunk(h, w, c).ctr, hi)
  {
    hide WriteChunk;
    ChunkNames(h, w, c);
  }

  lemma RecipeGrows(h: Bytes -> SHA1FP, universe: iset<Bytes>, w: Writer, content: Contents, refs: multiset<SHA1FP>,
                    c: Bytes)
    requires WriteInv(h, universe, w, content, refs)
    requires h(c) in content ==> content[h(c)] == c
    ensures Cat(content[h(c) := c], WriteChunk(h, w, c).recipe) == Cat(content, w.recipe) + c
  {
    hide WriteInv, Cat;
    WriteInvFacts(h, universe, w, content, refs);
    CatConcat(content[h(c) := c], w.recipe, [h(c)]);
    CatOne(content[h(c) := c], h(c));
    CatExtends(content, content[h(c) := c], w.recipe);
  }

  // ---------- A whole write ----------

  lemma StartKeepsInv(h: Bytes -> SHA1FP, universe: iset<Bytes>, st: Store, content: Contents, files: map<nat, Bytes>,
                      ctr: nat)
    requires Inv(h, universe, st, content, files)
    ensures WriteInv(h, universe, StartAt(st, ctr, true), content, AllRefs(st.recipes))
  {
    hide Layout, Counted, AllRefs;
    if |st.recipes| == 0 { NoRecipeNoEntry(st.index, st.recipes); }
    assert IndexOf(StartAt(st, ctr, true)) == st.index;
    assert AllRefs(st.recipes) + multiset([]) == AllRefs(st.recipes);
  }

  lemma AllRefsAdd(recipes: map<nat, seq<SHA1FP>>, v: nat, recipe: seq<SHA1FP>)
    requires v !in recipes
    ensures AllRefs(recipes[v := recipe]) == AllRefs(recipes) + multiset(recipe)
  {
    AllRefsSplit(recipes[v := recipe], v);
    assert recipes[v := recipe] - {v} == recipes;
  }

  /** The names the next write will use are free: the version number, and every container it
      fills. */
  ghost predicate FreshNames(h: Bytes -> SHA1FP, st: Store, cs: seq<Bytes>)
  {
    && |st.recipes| !in st.recipes
    && Unused(st.containers, ContainerFiles(st), EndName(WriteChunks(h, StartWrite(st, true), cs)))
  }

  lemma FinishKeepsInv(h: Bytes -> SHA1FP, universe: iset<Bytes>, w: Writer, content: Contents,
                       recipes: map<nat, seq<SHA1FP>>, files: map<nat, Bytes>, file: Bytes)
    requires WriteInv(h, universe, w, content, AllRefs(recipes))
    requires Holds(content, recipes, files) && Cat(content, w.recipe) == file
    requires |recipes| !in recipes && (w.buf != [] ==> w.ctr !in w.containers)
    ensures Inv(h, universe, FinishWrite(w, recipes), content, files[|recipes| := file])
  {
    hide Layout, Counted, Named, AllRefs, Cat;
    AllRefsAdd(recipes, |recipes|, w.recipe);
  }

  /** The same for a write that begins with a given container name. */
  ghost predicate FreshFrom(h: Bytes -> SHA1FP, st: Store, ctr: nat, cs: seq<Bytes>)
  {
    && |st.recipes| !in st.recipes
    && Unused(st.containers, ctr, EndName(WriteChunks(h, StartAt(st, ctr, true), cs)))
  }

  /** Writing keeps the invariant and adds the concatenation of the chunks as a new version. */
  lemma WriteKeepsInv(h: Bytes -> SHA1FP, universe: iset<Bytes>, st: Store, content: Contents, files: map<nat, Bytes>,
                      cs: seq<Bytes>)
    requires Inv(h, universe, st, content, files) && CollisionFree(h, universe)
    requires Writable(universe, cs) && FreshNames(h, st, cs)
    ensures Inv(h, universe, Write(h, st, cs, true), AddContents(h, content, cs), files[|st.recipes| := Flatten(cs)])
  {
    hide Inv, CollisionFree, Writable, WriteAt, Unused, WriteChunks, AddContents;
    WriteAtKeepsInv(h, universe, st, content, files, ContainerFiles(st), cs);
  }

  /** It does so wherever the container names begin, as long as they are free. */
  lemma WriteAtKeepsInv(h: Bytes -> SHA1FP, universe: iset<Bytes>, st: Store, content: Contents, files: map<nat, Bytes>,
                        ctr: nat, cs: seq<Bytes>)
    requires Inv(h, universe, st, content, files) && CollisionFree(h, universe)
    requires Writable(universe, cs) && FreshFrom(h, st, ctr, cs)
    ensures Inv(h, universe, WriteAt(h, st, ctr, cs, true), AddContents(h, content, cs),
    files[|st.recipes| := Flatten(cs)])
  {
    hide WriteInv, Layout, Counted, Named, CollisionFree, AllRefs, Cat, Holds, StartAt, EndName, FinishWrite,
         WriteChunks, AddContents, Unused;
    StartFacts(h, universe, st, content, files, ctr);
    var w := StartAt(st, ctr, true);
    var w' := WriteChunks(h, w, cs);
    var content' := AddContents(h, content, cs);
    StartKeepsInv(h, universe, st, content, files, ctr);
    ChunksKeepInv(h, universe, w, content, AllRefs(st.recipes), cs);
    HoldsExtends(st.index, content, content', st.recipes, files);
    LastNameUnused(h, w, cs);
    FinishKeepsInv(h, universe, w', content', st.recipes, files, Flatten(cs));
  }

  lemma StartFacts(h: Bytes -> SHA1FP, universe: iset<Bytes>, st: Store, content: Contents, files: map<nat, Bytes>,
                   ctr: nat)
    requires Inv(h, universe, st, content, files)
    ensures st.index.Keys == content.Keys
    ensures var w := StartAt(st, ctr, true);
            w.containers == st.containers && w.ctr == ctr && Cat(content, w.recipe) == []
  {}

  lemma HoldsExtends(index: Index, content: Contents, content': Contents, recipes: map<nat, seq<SHA1FP>>,
                     files: map<nat, Bytes>)
    requires Holds(content, recipes, files) && Extends(content, content')
    requires Counted(index, AllRefs(recipes)) && index.Keys == content.Keys
    ensures Holds(content', recipes, files)
  {
    hide Cat, AllRefs, Counted;
    forall v | v in recipes
      ensures files[v] == Cat(content', recipes[v])
    {
      RecipesIndexed(index, recipes, v);
      CatExtends(content, content', recipes[v]);
    }
  }

  lemma {:induction false} LastNameUnused(h: Bytes -> SHA1FP, w: Writer, cs: seq<Bytes>)
    requires Unused(w.containers, w.ctr, EndName(WriteChunks(h, w, cs)))
    ensures var w' := WriteChunks(h, w, cs); w'.buf != [] ==> w'.ctr !in w'.containers
    decreases |cs|
  {
    hide WriteChunk;
    if cs != [] {
      UnusedLater(h, w, cs[0], EndName(WriteChunks(h, w, cs)));
      LastNameUnused(h, WriteChunk(h, w, cs[0]), cs[1..]);
    }
  }
}
