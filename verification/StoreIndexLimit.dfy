/** How many different chunks a first write may have for its version to survive the next load of
    the index, and a file that has more. */
module StoreIndexLimit {
  import opened Common
  import opened FastCDC
  import opened Chunking
  import opened MetadataManager
  import opened StoreModel
  import opened StoreInvariant
  import opened StoreIndexFile
  import opened StoreWrite
  import opened StoreFilling
  import opened StoreNames
  import opened StoreHistory
  import opened StoreOverlong
  import opened StoreWidths
  import opened StoreListLimit

  function PrintSet(h: Bytes -> SHA1FP, cs: seq<Bytes>): set<SHA1FP>
  {
    set fp | fp in Prints(h, cs)
  }

  /** A write adds the fingerprints of its chunks to the index, and nothing else. */
  lemma {:induction false} KeysAdded(h: Bytes -> SHA1FP, w: Writer, cs: seq<Bytes>)
    ensures KnownTo(WriteChunks(h, w, cs)) == KnownTo(w) + PrintSet(h, cs)
    decreases |cs|
  {
    hide WriteChunk, PrintSet, KnownTo;
    if cs == [] {
      assert PrintSet(h, cs) == {} by { NoPrints(h); }
    } else {
      ChunkKnown(h, w, cs[0]);
      KeysAdded(h, WriteChunk(h, w, cs[0]), cs[1..]);
      PrintSetStep(h, cs);
    }
  }

  lemma NoPrints(h: Bytes -> SHA1FP)
    ensures PrintSet(h, []) == {}
  {}

  lemma PrintSetStep(h: Bytes -> SHA1FP, cs: seq<Bytes>)
    requires cs != []
    ensures PrintSet(h, cs) == {h(cs[0])} + PrintSet(h, cs[1..])
  {
    assert Prints(h, cs) == [h(cs[0])] + Prints(h, cs[1..]);
  }

  lemma FirstKeys(h: Bytes -> SHA1FP, cs: seq<Bytes>)
    ensures Write(h, EmptyStore, cs, true).index.Keys == PrintSet(h, cs)
    ensures |Write(h, EmptyStore, cs, true).index| == |PrintSet(h, cs)|
  {
    hide WriteChunks, PrintSet, StoreModel.Put;
    KeysAdded(h, StartWrite(EmptyStore, true), cs);
    var m := Write(h, EmptyStore, cs, true).index;
    assert |m| == |m.Keys|;
  }

  /** The first version is restored by the next run exactly when its chunks have at most
      FILE_CACHE / 36 different fingerprints. */
  lemma FirstWriteReloads(h: Bytes -> SHA1FP, universe: iset<Bytes>, cs: seq<Bytes>, loaded: Index)
    requires CollisionFree(h, universe) && Writable(universe, cs) && forall c :: c in cs ==> |c| < U16
    requires |cs| < U32 && Reloaded(Write(h, EmptyStore, cs, true).index, loaded)
    ensures Restore(Write(h, EmptyStore, cs, true).(index := loaded), 0) == Some(Flatten(cs))
            <==> |PrintSet(h, cs)| <= 7_456_540
  {
    hide CollisionFree, Write, Layout, Counted, Named, Cat, AllFit, Reloaded, AddContents, Short, FreshNames, Below,
         PrintSet, Assemble;
    var st, content := Write(h, EmptyStore, cs, true), AddContents(h, map[], cs);
    FirstWriteFits(h, cs, U16 - 1);
    EmptyStoreInv(h, universe);
    EmptyIndexFits();
    EmptyBelow();
    WriteStaysBelow(h, EmptyStore, cs);
    WriteKeepsInv(h, universe, EmptyStore, map[], map[], cs);
    AddContentsShort(h, map[], cs);
    FirstKeys(h, cs);
    var files := map[0 := Flatten(cs)];
    assert map[][0 := Flatten(cs)] == files;
    ReloadedRestoresAll(h, universe, st, content, files, loaded);
    assert 0 in files && forall v :: v in files ==> v == 0;
  }

  // ---------- A file with too many blocks ----------

  const SECTOR: nat := 512

  /** What fixed-size chunking makes of a file, whatever the reads. */
  function Sectored(file: Bytes): seq<Bytes>
    decreases |file|
  {
    if file == [] then []
    else
      var n := Min(|file|, SECTOR);
      [file[..n]] + Sectored(file[n..])
  }

  lemma {:induction false} FixedChunks(avg: nat, p: Bytes)
    ensures Chunks(Fixed(SECTOR), avg, p) == Sectored(p)
    decreases |p|
  {
    if p != [] { FixedChunks(NextAvg(Fixed(SECTOR), avg, p), p[Min(|p|, SECTOR)..]); }
  }

  lemma {:induction false} SectoredSplit(file: Bytes, k: nat)
    requires SECTOR * k <= |file|
    ensures Sectored(file) == Sectored(file[..SECTOR * k]) + Sectored(file[SECTOR * k..])
    decreases k
  {
    if k == 0 {
      assert file[0..] == file && file[..0] == [];
    } else {
      var head, rest := file[..SECTOR * k], file[SECTOR..];
      SectoredSplit(rest, k - 1);
      assert head[..SECTOR] == file[..SECTOR] && head[SECTOR..] == rest[..SECTOR * (k - 1)];
      assert rest[SECTOR * (k - 1)..] == file[SECTOR * k..];
    }
  }

  lemma {:induction false} FixedFile(avg: nat, file: Bytes)
    ensures FileChunks(Fixed(SECTOR), avg, file) == Sectored(file)
    decreases |file|
  {
    hide Chunks, AvgAfter, Sectored;
    var n := Min(|file|, FILE_CACHE);
    if file == [] {
      FixedChunks(avg, file);
      assert Chunks(Fixed(SECTOR), avg, []) == [] by { NothingLeft(Fixed(SECTOR), avg); }
    } else {
      FixedChunks(avg, file[..n]);
      FixedFile(AvgAfter(Fixed(SECTOR), avg, file[..n]), file[n..]);
      if n == FILE_CACHE {
        SectoredSplit(file, FILE_CACHE / SECTOR);
      } else {
        assert file[..n] == file && file[n..] == [];
        FixedChunks(avg, []);
        NothingLeft(Fixed(SECTOR), avg);
      }
    }
  }

  /** A block with its number in front. */
  function Sector(i: nat): (r: Bytes)
    ensures |r| == SECTOR
  {
    [i % 256, i / 256 % 256, i / 65536 % 256] + seq(SECTOR - 3, _ => 0)
  }

  function Sectors(i: nat, n: nat): (r: seq<Bytes>)
    requires i <= n
    ensures |r| == n - i && forall k :: 0 <= k < n - i ==> r[k] == Sector(i + k)
    decreases n - i
  {
    if i == n then [] else [Sector(i)] + Sectors(i + 1, n)
  }

  lemma {:induction false} SectorsBack(i: nat, n: nat)
    requires i <= n
    ensures Sectored(Flatten(Sectors(i, n))) == Sectors(i, n)
    decreases n - i
  {
    hide Sector;
    if i < n {
      var rest := Flatten(Sectors(i + 1, n));
      FlattenCons(Sector(i), Sectors(i + 1, n));
      SectorsBack(i + 1, n);
      assert (Sector(i) + rest)[..SECTOR] == Sector(i) && (Sector(i) + rest)[SECTOR..] == rest;
    }
  }

  /** One more block than an index file takes records: about 3.6 GiB. */
  const TOO_MANY: nat := MAX_ENTRIES + 1

  function LargeFile(): Bytes
  {
    Flatten(Sectors(0, TOO_MANY))
  }

  ghost predicate SectorsDiffer(h: Bytes -> SHA1FP)
  {
    forall i, j :: 0 <= i < j < TOO_MANY ==> h(Sector(i)) != h(Sector(j))
  }

  lemma {:induction false} DistinctCount<T>(s: seq<T>)
    requires forall i, j :: 0 <= i < j < |s| ==> s[i] != s[j]
    ensures |set x | x in s| == |s|
    decreases |s|
  {
    if s != [] {
      DistinctCount(s[1..]);
      assert (set x | x in s) == {s[0]} + (set x | x in s[1..]);
      assert s[0] !in s[1..];
    }
  }

  lemma LargeFileChunks()
    ensures ChunksOf(WriteFile(Fixed(SECTOR), LargeFile())) == Sectors(0, TOO_MANY)
  {
    hide Sector, Sectors, FileChunks, Sectored;
    var ch := Fixed(SECTOR);
    FixedFile(ch.InitialAvg(), LargeFile());
    SectorsBack(0, TOO_MANY);
  }

  /** The program writes it: every container has room for its blocks. */
  lemma LargeFileWritten(h: Bytes -> SHA1FP)
    ensures Step(h, EmptyStore, WriteFile(Fixed(SECTOR), LargeFile()))
         == Some(Write(h, EmptyStore, ChunksOf(WriteFile(Fixed(SECTOR), LargeFile())), true))
  {
    hide WriteAt, BuffersHold, FileChunks, LargeFile;
    LargeFileSize();
    FilesHold(h, EmptyStore, Fixed(SECTOR), LargeFile());
  }

  lemma {:induction false} SectorsLength(i: nat, n: nat)
    requires i <= n
    ensures |Flatten(Sectors(i, n))| == SECTOR * (n - i)
    decreases n - i
  {
    hide Sector;
    if i < n {
      SectorsLength(i + 1, n);
      FlattenCons(Sector(i), Sectors(i + 1, n));
    }
  }

  lemma LargeFileSize()
    ensures |LargeFile()| == SECTOR * TOO_MANY
  {
    hide Sector, Sectors;
    SectorsLength(0, TOO_MANY);
  }

  lemma LargeIndex(h: Bytes -> SHA1FP)
    requires SectorsDiffer(h)
    ensures |Write(h, EmptyStore, Sectors(0, TOO_MANY), true).index| == TOO_MANY
  {
    hide Sector, Sectors, Write;
    var cs := Sectors(0, TOO_MANY);
    assert forall i :: 0 <= i < |cs| ==> cs[i] == Sector(i);
    DistinctCount(Prints(h, cs));
    FirstKeys(h, cs);
  }

  /** Written with 512-byte blocks, this file is not given back by the next run: the index it loads
      lacks an entry. */
  lemma LargeFileLost(h: Bytes -> SHA1FP, loaded: Index)
    requires SectorsDiffer(h)
    requires Reloaded(Write(h, EmptyStore, ChunksOf(WriteFile(Fixed(SECTOR), LargeFile())), true).index, loaded)
    ensures var st := Write(h, EmptyStore, ChunksOf(WriteFile(Fixed(SECTOR), LargeFile())), true);
            && Step(h, EmptyStore, WriteFile(Fixed(SECTOR), LargeFile())) == Some(st)
            && Restore(st.(index := loaded), 0) == None
  {
    hide Step, Sector, Sectors, Write, Reloaded, FileChunks, LargeFile, Assemble;
    LargeFileWritten(h);
    LargeFileChunks();
    var cs := Sectors(0, TOO_MANY);
    LargeIndex(h);
    FirstKeys(h, cs);
    WrittenRecipe(h, EmptyStore, cs);
    var st := Write(h, EmptyStore, cs, true);
    var fp := EntryLost(st.index, loaded);
    AssembleAllOrNone(loaded, st.containers, st.recipes[0]);
  }
}
