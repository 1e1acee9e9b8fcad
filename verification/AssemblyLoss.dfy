/** What forward assembly writes when the loaded index lacks an entry: a file that is too short,
    where the caches stop. */
module AssemblyLoss {
  import opened Common
  import opened FastCDC
  import opened MetadataManager
  import opened StoreModel
  import opened StoreIndexFile
  import opened StoreHistory
  import opened StoreOverlong
  import opened StoreIndexLimit
  import opened StoreWidths
  import opened FAA

  /** What a load finds is part of what was saved. */
  lemma LoadedPart(index: Index, loaded: Index)
    requires AllFit(index) && Reloaded(index, loaded)
    ensures forall fp :: fp in loaded ==> fp in index && loaded[fp] == index[fp]
  {
    hide Encode, EncodeAll, EmplaceAll, Parse, Fits;
    var rs :| Lists(rs, index) && loaded == LoadIndex(EncodeAll(rs));
    var n := Min(|EncodeAll(rs)|, FILE_CACHE);
    ParsePrefix(rs, n);
    EmplacePart(map[], rs[..n / META_DATA_SIZE], index);
  }

  lemma {:induction false} EmplacePart(m: Index, rs: seq<Record>, index: Index)
    requires forall fp :: fp in m ==> fp in index && m[fp] == index[fp]
    requires forall r :: r in rs ==> r.0 in index && index[r.0] == r.1
    ensures var e := EmplaceAll(m, rs); forall fp :: fp in e ==> fp in index && e[fp] == index[fp]
    decreases |rs|
  {
    if rs != [] {
      assert rs[0] in rs && forall r :: r in rs[1..] ==> r in rs;
      EmplacePart(if rs[0].0 in m then m else m[rs[0].0 := rs[0].1], rs[1..], index);
    }
  }

  lemma {:induction false} TotalBound(evs: seq<EntryValue>, length: nat)
    requires forall i :: 0 <= i < |evs| ==> evs[i].chunkLength <= length
    ensures TotalLength(evs) <= length * |evs|
  {
    if evs != [] {
      TotalBound(evs[..|evs| - 1], length);
      assert length * |evs| == length * (|evs| - 1) + length;
    }
  }

  /** A missing entry counts as an empty chunk. */
  lemma {:induction false} TotalLess(evs: seq<EntryValue>, length: nat, k: nat)
    requires forall i :: 0 <= i < |evs| ==> evs[i].chunkLength <= length
    requires k < |evs| && evs[k].chunkLength == 0
    ensures TotalLength(evs) + length <= length * |evs|
  {
    var init := evs[..|evs| - 1];
    assert length * |evs| == length * (|evs| - 1) + length;
    if k < |evs| - 1 { TotalLess(init, length, k); } else { TotalBound(init, length); }
  }

  lemma MissingEntry(index: Index, recipe: seq<SHA1FP>, length: nat)
    requires (exists fp :: fp in recipe && fp !in index) && forall fp :: fp in index ==> index[fp].chunkLength <= length
    ensures TotalLength(Entries(index, recipe)) + length <= length * |recipe|
  {
    var k :| 0 <= k < |recipe| && recipe[k] !in index;
    TotalLess(Entries(index, recipe), length, k);
  }

  /** The file of too many blocks, after the next run has loaded the index: the caches stop, forward
      assembly writes a shorter file and does not notice. */
  lemma AssemblyLosesBlocks(h: Bytes -> SHA1FP, loaded: Index)
    requires SectorsDiffer(h)
    requires Reloaded(Write(h, EmptyStore, ChunksOf(WriteFile(Fixed(SECTOR), LargeFile())), true).index, loaded)
    ensures var st := Write(h, EmptyStore, ChunksOf(WriteFile(Fixed(SECTOR), LargeFile())), true);
            && Restore(st.(index := loaded), 0) == None
            && 0 in st.recipes && |Pieces(st.containers, Entries(loaded, st.recipes[0]))| < |LargeFile()|
  {
    hide Step, Write, Sector, Sectors, Reloaded, ChunksOf, LargeFile, Assemble, TotalLength, Entries, Prints;
    LargeFileLost(h, loaded);
    LargeFileChunks();
    LargeFileSize();
    var cs := Sectors(0, TOO_MANY);
    SectorsSize(0, TOO_MANY);
    var st := Write(h, EmptyStore, cs, true);
    FirstWriteFits(h, cs, SECTOR);
    WrittenRecipe(h, EmptyStore, cs);
    LoadedPart(st.index, loaded);
    LargeIndex(h);
    FirstKeys(h, cs);
    var fp := EntryLost(st.index, loaded);
    assert fp in PrintSet(h, cs) && fp in st.recipes[0] && fp !in loaded;
    MissingEntry(loaded, st.recipes[0], SECTOR);
  }

  lemma SectorsSize(i: nat, n: nat)
    requires i <= n
    ensures forall c :: c in Sectors(i, n) ==> |c| == SECTOR
  {
    hide Sector, Sectors;
    forall c | c in Sectors(i, n) ensures |c| == SECTOR {
      var k :| 0 <= k < |Sectors(i, n)| && Sectors(i, n)[k] == c;
      assert c == Sector(i + k);
    }
  }
}
