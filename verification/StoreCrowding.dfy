/** How many chunks a container can receive: a bound from the minimum chunk size, and a file with
    which a container receives more than 65536. */
module StoreCrowding {
  import opened Common
  import opened FastCDC
  import opened Chunking
  import opened StoreModel
  import opened StorePacking
  import opened StoreHistory
  import opened StorePlaces
  import opened ZeroRuns

  /** Chunks of a list that are shorter than `m`. */
  function ShortOnes(cs: seq<Bytes>, m: nat): nat
  {
    if cs == [] then 0 else (if |cs[0]| < m then 1 else 0) + ShortOnes(cs[1..], m)
  }

  lemma {:induction false} ShortOnesConcat(a: seq<Bytes>, b: seq<Bytes>, m: nat)
    ensures ShortOnes(a + b, m) == ShortOnes(a, m) + ShortOnes(b, m)
  {
    if a == [] {
      assert a + b == b;
    } else {
      assert (a + b)[1..] == a[1..] + b;
      ShortOnesConcat(a[1..], b, m);
    }
  }

  /** Of the chunks of one buffer only the last can be shorter than the minimum. */
  lemma {:induction false} OneShort(ch: Chunker, cs: seq<Bytes>)
    requires LongEnough(ch, cs)
    ensures ShortOnes(cs, ch.MinSize()) <= 1
    decreases |cs|
  {
    if |cs| > 1 {
      assert LongEnough(ch, cs[1..]);
      OneShort(ch, cs[1..]);
    } else if |cs| == 1 {
      assert cs[1..] == [];
    }
  }

  /** Number of FILE_CACHE reads a file takes. */
  function Reads(length: nat): nat
  {
    (length + FILE_CACHE - 1) / FILE_CACHE
  }

  lemma {:induction false} ShortPerRead(ch: Chunker, avg: nat, file: Bytes)
    requires ch.Valid()
    ensures ShortOnes(FileChunks(ch, avg, file), ch.MinSize()) <= Reads(|file|)
    decreases |file|
  {
    hide Chunks, AvgAfter, LongEnough;
    if file != [] {
      var n := Min(|file|, FILE_CACHE);
      var avg' := AvgAfter(ch, avg, file[..n]);
      ChunksLongEnough(ch, avg, file[..n]);
      OneShort(ch, Chunks(ch, avg, file[..n]));
      ShortPerRead(ch, avg', file[n..]);
      ShortOnesConcat(Chunks(ch, avg, file[..n]), FileChunks(ch, avg', file[n..]), ch.MinSize());
      ReadsStep(|file|);
    }
  }

  lemma ReadsStep(length: nat)
    requires length > 0
    ensures Reads(length) == 1 + Reads(length - Min(length, FILE_CACHE))
  {}

  /** The current container has room for its chunks, of which at most `s` are short; new lists are
      no longer than `n`. */
  ghost predicate Roomy(st: Store, w: Writer, m: nat, s: nat, n: nat)
  {
    && |w.buf| < CONTAINER_SIZE && m * |w.rev| <= |w.buf| + m * s
    && (forall c :: c in w.revs && c !in st.revs ==> |w.revs[c]| <= n)
  }

  lemma Distribute(m: nat, k: nat)
    ensures m * (k + 1) == m * k + m && m * k >= 0
  {}

  lemma Monotone(m: nat, a: int, b: int)
    requires a <= b
    ensures m * a <= m * b
  {}

  lemma ListBound(m: nat, rev: nat, buf: nat, s: nat, n: nat)
    requires m > 0 && buf < CONTAINER_SIZE && m * rev <= buf + m * s && (CONTAINER_SIZE - 1) / m + s <= n
    ensures rev <= n
  {
    var q := (CONTAINER_SIZE - 1) / m;
    Distribute(m, q);
    assert m * (q + 1 + s) == m * (q + 1) + m * s;
    if rev > n { Monotone(m, q + 1 + s, rev); }
  }

  lemma ReferenceLeavesRoom(st: Store, w: Writer, fp: SHA1FP, m: nat, s: nat, s': nat, n: nat)
    requires Roomy(st, w, m, s, n) && s <= s' && (fp in w.origin || fp in w.added)
    ensures Roomy(st, AddReference(w.(recipe := w.recipe + [fp]), fp), m, s', n)
  {
    Monotone(m, s, s');
  }

  lemma FlushLeavesRoom(st: Store, w: Writer, m: nat, s: nat, n: nat)
    requires Roomy(st, w, m, s, n) && |w.rev| <= n
    ensures Roomy(st, FlushContainer(w), m, 0, n)
  {
    hide StoreModel.Put;
    assert m * 0 == 0;
  }

  lemma StoreLeavesRoom(st: Store, w: Writer, fp: SHA1FP, c: Bytes, m: nat, s: nat, s': nat, n: nat)
    requires Roomy(st, w, m, s, n) && |w.buf| + |c| < CONTAINER_SIZE
    requires s <= s' && (|c| < m ==> s < s')
    ensures Roomy(st, StoreChunk(w, fp, c), m, s', n)
  {
    Distribute(m, |w.rev|);
    Distribute(m, s);
    if |c| < m { Monotone(m, s + 1, s'); } else { Monotone(m, s, s'); }
  }

  lemma ChunkLeavesRoom(h: Bytes -> SHA1FP, st: Store, w: Writer, c: Bytes, m: nat, s: nat, s': nat, n: nat)
    requires Roomy(st, w, m, s, n) && m > 0 && |c| < CONTAINER_SIZE
    requires s <= s' && (|c| < m ==> s < s') && (CONTAINER_SIZE - 1) / m + s <= n
    ensures Roomy(st, WriteChunk(h, w, c), m, s', n)
  {
    hide AddReference, StoreModel.Put, Roomy, StoreModel.SaveContainer;
    var fp := h(c);
    var v := w.(recipe := w.recipe + [fp]);
    if fp in w.origin || fp in w.added {
      ReferenceLeavesRoom(st, w, fp, m, s, s', n);
    } else {
      RoomFacts(st, w, fp, m, s, n);
      if |w.buf| + |c| >= CONTAINER_SIZE {
        FlushLeavesRoom(st, v, m, s, n);
        StoreLeavesRoom(st, FlushContainer(v), fp, c, m, 0, s', n);
      } else {
        StoreLeavesRoom(st, v, fp, c, m, s, s', n);
      }
    }
  }

  lemma RoomFacts(st: Store, w: Writer, fp: SHA1FP, m: nat, s: nat, n: nat)
    requires Roomy(st, w, m, s, n) && m > 0 && (CONTAINER_SIZE - 1) / m + s <= n
    ensures Roomy(st, w.(recipe := w.recipe + [fp]), m, s, n) && |w.rev| <= n
  {
    ListBound(m, |w.rev|, |w.buf|, s, n);
  }

  lemma {:induction false} ChunksLeaveRoom(h: Bytes -> SHA1FP, st: Store, w: Writer, cs: seq<Bytes>, m: nat, s: nat,
                                           n: nat)
    requires Roomy(st, w, m, s, n) && m > 0 && forall c :: c in cs ==> |c| < CONTAINER_SIZE
    requires (CONTAINER_SIZE - 1) / m + s + ShortOnes(cs, m) <= n
    ensures Roomy(st, WriteChunks(h, w, cs), m, s + ShortOnes(cs, m), n)
    decreases |cs|
  {
    hide Roomy, WriteChunk;
    if cs != [] {
      var s' := s + if |cs[0]| < m then 1 else 0;
      ChunkLeavesRoom(h, st, w, cs[0], m, s, s', n);
      ChunksLeaveRoom(h, st, WriteChunk(h, w, cs[0]), cs[1..], m, s', n);
    }
  }

  lemma FinishLeavesRoom(st: Store, w: Writer, recipes: map<nat, seq<SHA1FP>>, m: nat, s: nat)
    requires Roomy(st, w, m, s, U16) && m > 0 && (CONTAINER_SIZE - 1) / m + s <= U16
    ensures Uncrowded(st, FinishWrite(w, recipes))
  {
    hide StoreModel.Put;
    ListBound(m, |w.rev|, |w.buf|, s, U16);
  }

  /** No container is crowded by a file that is read in few enough pieces, whatever it contains:
      with a minimum chunk size of 128 bytes up to 32769 reads, that is 8 TiB. */
  lemma FilesUncrowded(h: Bytes -> SHA1FP, st: Store, ch: Chunker, file: Bytes)
    requires ch.Valid() && ch.MinSize() > 0 && ch.MaxSize() < CONTAINER_SIZE
    requires (CONTAINER_SIZE - 1) / ch.MinSize() + Reads(|file|) <= U16
    ensures Uncrowded(st, Write(h, st, ChunksOf(WriteFile(ch, file)), true))
  {
    hide FileChunks, WriteChunks, Reads, ShortOnes, Uncrowded, FinishWrite;
    var cs, w, m := FileChunks(ch, ch.InitialAvg(), file), StartWrite(st, true), ch.MinSize();
    FileChunksPartition(ch, ch.InitialAvg(), file);
    ShortPerRead(ch, ch.InitialAvg(), file);
    StartRoomy(st, m, U16);
    ChunksLeaveRoom(h, st, w, cs, m, 0, U16);
    FinishLeavesRoom(st, WriteChunks(h, w, cs), st.recipes, m, ShortOnes(cs, m));
  }

  /** A file that is read in few enough pieces for the minimum chunk size. */
  predicate RoomyOp(op: Op)
  {
    op.WriteFile? && op.ch.Valid() ==>
      && op.ch.MinSize() > 0 && op.ch.MaxSize() < CONTAINER_SIZE
      && (CONTAINER_SIZE - 1) / op.ch.MinSize() + Reads(|op.file|) <= U16
  }

  lemma {:induction false} RoomyRun(h: Bytes -> SHA1FP, st: Store, ops: seq<Op>)
    requires forall op :: op in ops ==> RoomyOp(op)
    ensures UncrowdedRun(h, st, ops)
    decreases |ops|
  {
    hide Delete, Write, FileChunks, Uncrowded, Reads;
    if ops != [] {
      assert RoomyOp(ops[0]);
      if ops[0].WriteFile? && ops[0].ch.Valid() { FilesUncrowded(h, st, ops[0].ch, ops[0].file); }
      if Step(h, st, ops[0]).Some? { RoomyRun(h, Step(h, st, ops[0]).value, ops[1..]); }
    }
  }

  lemma StartRoomy(st: Store, m: nat, n: nat)
    ensures Roomy(st, StartWrite(st, true), m, 0, n)
  {
    assert m * 0 == 0;
  }

  // ---------- A crowded container ----------

  /** 48 bytes: a number in the part that is skipped, then zeros. */
  function Block(i: nat): (r: Bytes)
    ensures |r| == 48 && Zeros(r, 3, 48)
  {
    [i % 256, i / 256 % 256, i / 65536 % 256] + seq(45, _ => 0)
  }

  function Blocks(i: nat, n: nat): (r: seq<Bytes>)
    requires i <= n
    ensures |r| == n - i && forall k :: 0 <= k < n - i ==> r[k] == Block(i + k)
    decreases n - i
  {
    if i == n then [] else [Block(i)] + Blocks(i + 1, n)
  }

  /** One more than the 16-bit numbers can tell apart. */
  const CROWD: nat := U16 + 1

  function CrowdedFile(): Bytes
  {
    Flatten(Blocks(0, CROWD))
  }

  lemma {:induction false} BlocksLength(i: nat, n: nat)
    requires i <= n
    ensures |Flatten(Blocks(i, n))| == 48 * (n - i)
    decreases n - i
  {
    hide Block;
    if i < n {
      BlocksLength(i + 1, n);
      FlattenCons(Block(i), Blocks(i + 1, n));
    }
  }

  lemma BlockCut(i: nat, rest: Bytes)
    ensures var ch := InitNC(12, 2).value;
            ch.Valid() && ch.MinSize() == 3 && Cut(ch, 12, Block(i) + rest) == 48
            && NextAvg(ch, 12, Block(i) + rest) == 12
  {
    hide Block, Cut;
    var ch, p := InitNC(12, 2).value, Block(i) + rest;
    assert Zeros(p, 3, 48);
    ZerosCut(ch, 12, p);
  }

  lemma {:induction false} BlocksAreChunks(i: nat, n: nat)
    requires i <= n
    ensures Chunks(InitNC(12, 2).value, 12, Flatten(Blocks(i, n))) == Blocks(i, n)
    decreases n - i
  {
    hide Block, Cut, NextAvg;
    var ch := InitNC(12, 2).value;
    if i < n {
      var rest := Flatten(Blocks(i + 1, n));
      FlattenCons(Block(i), Blocks(i + 1, n));
      BlockCut(i, rest);
      BlocksAreChunks(i + 1, n);
      assert (Block(i) + rest)[..48] == Block(i) && (Block(i) + rest)[48..] == rest;
    }
  }

  /** The fingerprints of a list, all different. */
  ghost predicate AllNew(h: Bytes -> SHA1FP, w: Writer, cs: seq<Bytes>)
  {
    && (forall i, j :: 0 <= i < j < |cs| ==> h(cs[i]) != h(cs[j]))
    && forall i :: 0 <= i < |cs| ==> h(cs[i]) !in w.origin && h(cs[i]) !in w.added
  }

  lemma {:induction false} NewOnesGather(h: Bytes -> SHA1FP, w: Writer, cs: seq<Bytes>)
    requires AllNew(h, w, cs) && w.keepRevs && forall c :: c in cs ==> |c| == 48
    requires |w.buf| + 48 * |cs| < CONTAINER_SIZE
    ensures var w' := WriteChunks(h, w, cs);
            && w'.ctr == w.ctr && w'.revs == w.revs && w'.keepRevs
            && |w'.rev| == |w.rev| + |cs| && |w'.buf| == |w.buf| + 48 * |cs|
    decreases |cs|
  {
    hide StoreModel.Put, StoreModel.SaveContainer;
    if cs != [] {
      var w1 := WriteChunk(h, w, cs[0]);
      assert forall i :: 0 <= i < |cs| - 1 ==> cs[1..][i] == cs[i + 1];
      NewOnesGather(h, w1, cs[1..]);
    }
  }

  ghost predicate BlocksDiffer(h: Bytes -> SHA1FP)
  {
    forall i, j :: 0 <= i < j < CROWD ==> h(Block(i)) != h(Block(j))
  }

  lemma CrowdedChunks()
    ensures ChunksOf(WriteFile(InitNC(12, 2).value, CrowdedFile())) == Blocks(0, CROWD)
  {
    hide Block, Chunks, FileChunks, Blocks;
    BlocksLength(0, CROWD);
    SmallFileIsOneBuffer(InitNC(12, 2).value, 12, CrowdedFile());
    BlocksAreChunks(0, CROWD);
  }

  lemma BlocksNew(h: Bytes -> SHA1FP)
    requires BlocksDiffer(h)
    ensures AllNew(h, StartWrite(EmptyStore, true), Blocks(0, CROWD))
  {
    hide Block, Blocks;
  }

  lemma BlocksSize(i: nat, n: nat)
    requires i <= n
    ensures forall c :: c in Blocks(i, n) ==> |c| == 48
  {
    hide Block, Blocks;
    forall c | c in Blocks(i, n) ensures |c| == 48 {
      var k :| 0 <= k < |Blocks(i, n)| && Blocks(i, n)[k] == c;
      assert c == Block(i + k);
    }
  }

  lemma FinishKeepsList(w: Writer, recipes: map<nat, seq<SHA1FP>>)
    requires w.keepRevs && w.buf != []
    ensures w.ctr in FinishWrite(w, recipes).revs && FinishWrite(w, recipes).revs[w.ctr] == w.rev
  {
    hide StoreModel.Put;
  }

  /** With an average chunk size of 12 bytes this file puts more than 65536 chunks into its first
      container. */
  lemma CrowdedWrite(h: Bytes -> SHA1FP)
    requires BlocksDiffer(h)
    ensures var st := Write(h, EmptyStore, ChunksOf(WriteFile(InitNC(12, 2).value, CrowdedFile())), true);
            && Step(h, EmptyStore, WriteFile(InitNC(12, 2).value, CrowdedFile())) == Some(st)
            && 0 in st.revs && |st.revs[0]| == CROWD
  {
    hide Block, WriteChunks, Blocks, FinishWrite, FileChunks, AllNew, BlocksDiffer, CrowdedFile, BuffersHold;
    CrowdedChunks();
    BlocksNew(h);
    var w := StartWrite(EmptyStore, true);
    BlocksSize(0, CROWD);
    FewChunksHold(h, w, Blocks(0, CROWD));
    NewOnesGather(h, w, Blocks(0, CROWD));
    FinishKeepsList(WriteChunks(h, w, Blocks(0, CROWD)), EmptyStore.recipes);
  }
}
