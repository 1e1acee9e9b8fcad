/** Chunks that do not fit the 16-bit length field: when a written file comes back, and a file that
    does not. */
module StoreOverlong {
  import opened Common
  import opened FastCDC
  import opened Chunking
  import opened StoreModel
  import opened StoreInvariant
  import opened StorePacking
  import opened StoreWrite
  import opened StoreNames
  import opened StoreHistory
  import opened ZeroRuns

  function Prints(h: Bytes -> SHA1FP, cs: seq<Bytes>): (r: seq<SHA1FP>)
    ensures |r| == |cs| && forall i :: 0 <= i < |cs| ==> r[i] == h(cs[i])
  {
    seq(|cs|, i requires 0 <= i < |cs| => h(cs[i]))
  }

  /** The recipe lists the fingerprints of the chunks in order. */
  lemma {:induction false} RecipeLists(h: Bytes -> SHA1FP, w: Writer, cs: seq<Bytes>)
    ensures WriteChunks(h, w, cs).recipe == w.recipe + Prints(h, cs)
    decreases |cs|
  {
    hide StoreModel.Put;
    if cs != [] {
      RecipeLists(h, WriteChunk(h, w, cs[0]), cs[1..]);
      assert Prints(h, cs) == [h(cs[0])] + Prints(h, cs[1..]);
    }
  }

  lemma {:induction false} ContentsAdded(h: Bytes -> SHA1FP, universe: iset<Bytes>, content: Contents, cs: seq<Bytes>)
    requires Named(h, universe, content) && CollisionFree(h, universe) && Writable(universe, cs)
    ensures Extends(content, AddContents(h, content, cs))
    ensures forall c :: c in cs ==> h(c) in AddContents(h, content, cs) && AddContents(h, content, cs)[h(c)] == c
    decreases |cs|
  {
    if cs != [] {
      ContentsAdded(h, universe, content[h(cs[0]) := cs[0]], cs[1..]);
    }
  }

  lemma ShortOnPrints(h: Bytes -> SHA1FP, content: Contents, cs: seq<Bytes>)
    requires forall c :: c in cs ==> h(c) in content && content[h(c)] == c
    ensures ShortOn(content, Prints(h, cs)) <==> forall c :: c in cs ==> |c| < U16
  {
    if ShortOn(content, Prints(h, cs)) {
      forall c | c in cs ensures |c| < U16 {
        var i :| 0 <= i < |cs| && cs[i] == c;
        assert Prints(h, cs)[i] in Prints(h, cs);
      }
    }
  }

  /** A written file is restored under its number exactly when the number is below 256 and all its
      chunks are shorter than 65536 bytes, or the number has given back these bytes before. */
  lemma WriteRestoredExactly(h: Bytes -> SHA1FP, universe: iset<Bytes>, st: Store, content: Contents,
                             files: map<nat, Bytes>, cs: seq<Bytes>)
    requires Inv(h, universe, st, content, files) && CollisionFree(h, universe)
    requires Writable(universe, cs) && FreshNames(h, st, cs)
    ensures var n := |st.recipes|;
            Restore(Write(h, st, cs, true), n) == Some(Flatten(cs)) <==>
              if n < U8 then forall c :: c in cs ==> |c| < U16 else Restore(st, n) == Some(Flatten(cs))
  {
    hide Layout, Counted, CollisionFree, Write, Unused, EndName, WriteChunks, AddContents, Holds, Cat, ShortOn, AllRefs,
         Restore, Writable, FreshNames;
    var st', content', n := Write(h, st, cs, true), AddContents(h, content, cs), |st.recipes|;
    if n < U8 {
      WriteKeepsInv(h, universe, st, content, files, cs);
      FreeNumber(h, st, cs);
      RestoreExactly(h, universe, st', content', files[n := Flatten(cs)], n);
      WrittenRecipe(h, st, cs);
      ContentsAdded(h, universe, content, cs);
      ShortOnPrints(h, content', cs);
    } else {
      OthersAsBefore(h, universe, st, content, files, cs, n);
    }
  }

  lemma FreeNumber(h: Bytes -> SHA1FP, st: Store, cs: seq<Bytes>)
    requires FreshNames(h, st, cs)
    ensures |st.recipes| !in st.recipes
  {}

  /** A write changes nothing of what the numbers of other versions give back. */
  lemma OthersAsBefore(h: Bytes -> SHA1FP, universe: iset<Bytes>, st: Store, content: Contents, files: map<nat, Bytes>,
                       cs: seq<Bytes>, version: nat)
    requires Inv(h, universe, st, content, files) && CollisionFree(h, universe)
    requires Writable(universe, cs) && FreshNames(h, st, cs) && RecipeName(version) != |st.recipes|
    ensures Restore(Write(h, st, cs, true), version) == Restore(st, version)
  {
    hide Layout, Counted, Named, CollisionFree, WriteAt, FreshNames, AddContents, Holds, Cat, AllRefs, Writable, Stored,
         Assemble;
    var st', content', v := Write(h, st, cs, true), AddContents(h, content, cs), RecipeName(version);
    WriteKeepsInv(h, universe, st, content, files, cs);
    OtherRecipes(h, st, cs, v);
    if v in st.recipes {
      RecipesIndexed(st.index, st.recipes, v);
      RecipesIndexed(st'.index, st'.recipes, v);
      AssembleIsCat(st.index, content, st.containers, st.revs, st.recipes[v]);
      AssembleIsCat(st'.index, content', st'.containers, st'.revs, st.recipes[v]);
      InvNames(h, universe, st, content, files);
      ContentsAdded(h, universe, content, cs);
      StoredSame(content, content', st.recipes[v]);
    }
  }

  /** Files are not cut when they are written over: a version written under the number of a live one
      with more chunks goes on with its last chunks. All other recipes stay. */
  lemma WriteOverVersion(h: Bytes -> SHA1FP, st: Store, cs: seq<Bytes>)
    ensures var n, st' := |st.recipes|, Write(h, st, cs, true);
            && n in st'.recipes
            && st'.recipes[n] == Prints(h, cs)
                 + (if n in st.recipes && |cs| < |st.recipes[n]| then st.recipes[n][|cs|..] else [])
            && forall v :: v != n ==> (v in st'.recipes <==> v in st.recipes)
                                      && (v in st'.recipes ==> st'.recipes[v] == st.recipes[v])
  {
    hide WriteChunks, Prints, StoreModel.Put;
    RecipeLists(h, StartWrite(st, true), cs);
    assert [] + Prints(h, cs) == Prints(h, cs);
    PutTail(st.recipes, |st.recipes|, Prints(h, cs));
  }

  lemma PutTail<T>(files: map<nat, seq<T>>, name: nat, data: seq<T>)
    ensures var r := StoreModel.Put(files, name, data);
            && name in r
            && r[name] == data + (if name in files && |data| < |files[name]| then files[name][|data|..] else [])
            && forall v :: v != name ==> (v in r <==> v in files) && (v in r ==> r[v] == files[v])
  {}

  lemma OtherRecipes(h: Bytes -> SHA1FP, st: Store, cs: seq<Bytes>, v: nat)
    requires v != |st.recipes|
    ensures v in Write(h, st, cs, true).recipes <==> v in st.recipes
    ensures v in st.recipes ==> Write(h, st, cs, true).recipes[v] == st.recipes[v]
  {
    hide WriteChunks;
  }

  lemma InvNames(h: Bytes -> SHA1FP, universe: iset<Bytes>, st: Store, content: Contents, files: map<nat, Bytes>)
    requires Inv(h, universe, st, content, files)
    ensures Named(h, universe, content) && st.index.Keys == content.Keys
  {}

  lemma StoredSame(content: Contents, content': Contents, fps: seq<SHA1FP>)
    requires Extends(content, content') && forall fp :: fp in fps ==> fp in content
    ensures Cat(Stored(content), fps) == Cat(Stored(content'), fps)
  {
    hide Cat;
    CatFrame(Stored(content), Stored(content'), fps);
  }

  lemma WrittenRecipe(h: Bytes -> SHA1FP, st: Store, cs: seq<Bytes>)
    requires |st.recipes| !in st.recipes
    ensures var st' := Write(h, st, cs, true); |st.recipes| in st'.recipes && st'.recipes[|st.recipes|] == Prints(h, cs)
  {
    hide WriteChunks;
    RecipeLists(h, StartWrite(st, true), cs);
    assert [] + Prints(h, cs) == Prints(h, cs);
  }

  /** A file of zeros: FastCDC never finds a cut in it. */
  function ZeroFile(): (r: Bytes)
    ensures |r| == U16 && Zeros(r, 0, U16)
  {
    seq(U16, _ => 0)
  }

  lemma ZeroFileOneChunk()
    ensures ChunksOf(WriteFile(InitNC(16384, 2).value, ZeroFile())) == [ZeroFile()]
  {
    hide ZeroFile, Cut, NextAvg, AvgAfter;
    var ch, p := InitNC(16384, 2).value, ZeroFile();
    SmallFileIsOneBuffer(ch, 16384, p);
    assert ch.MinSize() == 4096 && ch.MaxSize() == U16 && Zeros(p, 4096, U16);
    ZerosCut(ch, 16384, p);
    assert p[..U16] == p && p[U16..] == [];
    NothingLeft(ch, NextAvg(ch, 16384, p));
  }

  /** With an average chunk size of 16384 bytes, 65536 zero bytes are written as one chunk whose
      stored length is 0, and do not come back. */
  lemma ZeroFileLost(h: Bytes -> SHA1FP)
    ensures var st := Step(h, EmptyStore, WriteFile(InitNC(16384, 2).value, ZeroFile()));
            st.Some? && Restore(st.value, 0) != Some(ZeroFile())
  {
    hide BuffersHold, WriteAt, Restore, FileChunks, Inv, FreshNames, ZeroFile, Below;
    var cs, universe := [ZeroFile()], iset{ZeroFile()};
    ZeroFileOneChunk();
    FewChunksHold(h, StartWrite(EmptyStore, true), cs);
    EmptyStoreInv(h, universe);
    EmptyBelow();
    WriteStaysBelow(h, EmptyStore, cs);
    WriteRestoredExactly(h, universe, EmptyStore, map[], map[], cs);
    FlattenCons(ZeroFile(), []);
    assert [ZeroFile()] + [] == cs && ZeroFile() + [] == ZeroFile();
    assert cs[0] in cs && |cs[0]| == U16;
  }
}
