/** The buffer of the reverse list: files whose chunks it always holds, and a file that has one chunk
    too many for it. */
module StoreListLimit {
  import opened Common
  import opened FastCDC
  import opened Chunking
  import opened MetadataManager
  import opened StoreModel
  import opened StoreHistory
  import opened StoreCrowding

  // ---------- Files that are safe ----------

  /** While a container has room for its chunks its list stays inside the buffer. */
  lemma {:induction false} ChunksStayInside(h: Bytes -> SHA1FP, st: Store, w: Writer, cs: seq<Bytes>, m: nat, s: nat)
    requires Roomy(st, w, m, s, REV_CAPACITY) && m > 0 && forall c :: c in cs ==> |c| < CONTAINER_SIZE
    requires (CONTAINER_SIZE - 1) / m + s + ShortOnes(cs, m) <= REV_CAPACITY
    ensures BuffersHold(h, w, cs)
    decreases |cs|
  {
    hide Roomy, WriteChunk, RoomFor;
    if cs != [] {
      var s' := s + if |cs[0]| < m then 1 else 0;
      var w' := WriteChunk(h, w, cs[0]);
      ChunkLeavesRoom(h, st, w, cs[0], m, s, s', REV_CAPACITY);
      RoomFacts(st, w', h(cs[0]), m, s', REV_CAPACITY);
      HasRoom(h, w, cs[0]);
      ChunksStayInside(h, st, w', cs[1..], m, s');
    }
  }

  lemma HasRoom(h: Bytes -> SHA1FP, w: Writer, c: Bytes)
    requires |WriteChunk(h, w, c).rev| <= REV_CAPACITY && |c| <= CONTAINER_SIZE
    ensures RoomFor(w, h(c), c)
  {
    hide StoreModel.Put, OneMore;
  }

  /** The list buffer holds every file that is read in few enough pieces, whatever it contains: with
      a minimum chunk size of 32 bytes up to 78644 reads, that is 19 TiB. */
  lemma FilesHold(h: Bytes -> SHA1FP, st: Store, ch: Chunker, file: Bytes)
    requires ch.Valid() && ch.MinSize() > 0 && ch.MaxSize() < CONTAINER_SIZE
    requires 0x3f_ffff / ch.MinSize() + Reads(|file|) <= 209715
    ensures BuffersHold(h, StartWrite(st, true), ChunksOf(WriteFile(ch, file)))
  {
    hide FileChunks, Reads, ShortOnes, BuffersHold;
    var cs, w, m := FileChunks(ch, ch.InitialAvg(), file), StartWrite(st, true), ch.MinSize();
    FileChunksPartition(ch, ch.InitialAvg(), file);
    ShortPerRead(ch, ch.InitialAvg(), file);
    StartRoomy(st, m, REV_CAPACITY);
    ChunksStayInside(h, st, w, cs, m, 0);
  }

  // ---------- A file with too many chunks ----------

  /** 19 bytes between 94 and 84: at level 1 the byte 84 and the 94 of the next block pass the mask
      together. */
  function Link(i: nat): (r: Bytes)
    ensures |r| == 19 && r[0] == 94 && r[18] == 84
  {
    [94, i % 256, i / 256 % 256, i / 65536 % 256] + seq(14, _ => 0) + [84]
  }

  function Links(i: nat, n: nat): (r: seq<Bytes>)
    requires i <= n
    ensures |r| == n - i && forall k :: 0 <= k < n - i ==> r[k] == Link(i + k)
    decreases n - i
  {
    if i == n then [] else [Link(i)] + Links(i + 1, n)
  }

  function ChainFile(n: nat): Bytes
  {
    Flatten(Links(0, n))
  }

  const CHAIN: Chunker := InitNC(72, 1).value

  lemma {:induction false} LinksLength(i: nat, n: nat)
    requires i <= n
    ensures |Flatten(Links(i, n))| == 19 * (n - i)
    ensures i < n ==> Flatten(Links(i, n))[0] == 94
    decreases n - i
  {
    hide Link;
    if i < n {
      LinksLength(i + 1, n);
      FlattenCons(Link(i), Links(i + 1, n));
    }
  }

  /** The scan of a link fails at 84 and hits at the 94 behind it, or ends there. */
  lemma LinkCut(avg: nat, i: nat, rest: Bytes)
    requires avg >= 38 && (rest == [] || (|rest| >= 19 && rest[0] == 94))
    ensures CHAIN.Valid() && CHAIN.MinSize() == 18 && Cut(CHAIN, avg, Link(i) + rest) == 19
    ensures rest != [] ==> NextAvg(CHAIN, avg, Link(i) + rest) >= 38
  {
    hide Gear, BitAnd, Link;
    var p := Link(i) + rest;
    var split, n := NextAvg(CHAIN, avg, p), Min(|p|, CHAIN.MaxSize());
    GearEntries();
    WitnessTests();
    assert p[18] == 84 && (rest != [] ==> p[19] == 94);
    assert Roll(0, p[18]) == 0xcdd8af6cd9c471e1;
    assert rest != [] ==> Roll(0xcdd8af6cd9c471e1, p[19]) == 0xe3f30003a40923c7;
    assert FirstHit(p, 19, split, n, MASK_14, MASK_12, 0xcdd8af6cd9c471e1) == 19;
  }

  lemma {:induction false} LinksAreChunks(avg: nat, i: nat, n: nat)
    requires i <= n && avg >= 38
    ensures CHAIN.Valid() && Chunks(CHAIN, avg, Flatten(Links(i, n))) == Links(i, n)
    decreases n - i
  {
    hide Link, Cut, NextAvg;
    assert CHAIN.Valid();
    if i < n {
      var rest := Flatten(Links(i + 1, n));
      FlattenCons(Link(i), Links(i + 1, n));
      LinksLength(i + 1, n);
      LinkCut(avg, i, rest);
      assert (Link(i) + rest)[..19] == Link(i) && (Link(i) + rest)[19..] == rest;
      if i + 1 < n {
        LinksAreChunks(NextAvg(CHAIN, avg, Link(i) + rest), i + 1, n);
      } else {
        NothingLeft(CHAIN, NextAvg(CHAIN, avg, Link(i) + rest));
      }
    }
  }

  /** New chunks that fit one container are held exactly when they are few enough. */
  lemma {:induction false} NewOnesHold(h: Bytes -> SHA1FP, w: Writer, cs: seq<Bytes>)
    requires AllNew(h, w, cs) && w.keepRevs && forall c :: c in cs ==> |c| == 19
    requires |w.buf| + 19 * |cs| < CONTAINER_SIZE && |w.rev| <= REV_CAPACITY
    ensures BuffersHold(h, w, cs) <==> |w.rev| + |cs| <= REV_CAPACITY
    decreases |cs|
  {
    hide StoreModel.Put, StoreModel.SaveContainer;
    if cs != [] {
      assert cs[0] in cs;
      var w1 := WriteChunk(h, w, cs[0]);
      assert forall i :: 0 <= i < |cs| - 1 ==> cs[1..][i] == cs[i + 1];
      if |w1.rev| <= REV_CAPACITY { NewOnesHold(h, w1, cs[1..]); }
    }
  }

  ghost predicate LinksDiffer(h: Bytes -> SHA1FP, n: nat)
  {
    forall i, j :: 0 <= i < j < n ==> h(Link(i)) != h(Link(j))
  }

  lemma ChainChunks(n: nat)
    requires n <= REV_CAPACITY + 1
    ensures CHAIN.Valid() && ChunksOf(WriteFile(CHAIN, ChainFile(n))) == Links(0, n)
  {
    hide Link, Chunks, FileChunks, Links;
    assert CHAIN.Valid() && CHAIN.InitialAvg() == 72;
    LinksLength(0, n);
    SmallFileIsOneBuffer(CHAIN, 72, ChainFile(n));
    LinksAreChunks(72, 0, n);
  }

  lemma LinksNew(h: Bytes -> SHA1FP, n: nat)
    requires LinksDiffer(h, n)
    ensures AllNew(h, StartWrite(EmptyStore, true), Links(0, n))
    ensures forall c :: c in Links(0, n) ==> |c| == 19
  {
    hide Link, Links;
    var cs := Links(0, n);
    forall c | c in cs ensures |c| == 19 {
      var i :| 0 <= i < |cs| && cs[i] == c;
      assert c == Link(i);
    }
  }

  /** With an average chunk size of 72 bytes at level 1, a file of n such links can be written exactly
      when n is at most 209715: the next one is copied past the end of the list buffer. */
  lemma ChainWrittenExactly(h: Bytes -> SHA1FP, n: nat)
    requires n <= 209716 && LinksDiffer(h, n)
    ensures Step(h, EmptyStore, WriteFile(CHAIN, ChainFile(n))).Some? <==> n <= 209715
  {
    hide Link, Links, Chunks, FileChunks, AllNew, LinksDiffer, ChainFile, WriteAt, BuffersHold;
    ChainChunks(n);
    LinksNew(h, n);
    NewOnesHold(h, StartWrite(EmptyStore, true), Links(0, n));
  }
}
