/** How a write fills containers, from the lengths of the chunks it stores: which names it takes, how
    many chunks each container receives, and whether its buffers hold them. */
module StoreFilling {
  import opened Common
  import opened MetadataManager
  import opened StoreModel
  import opened StoreWrite

  /** Lengths of the chunks whose fingerprints are not known when their turn comes. */
  function NewLengths(h: Bytes -> SHA1FP, known: set<SHA1FP>, cs: seq<Bytes>): seq<nat>
    decreases |cs|
  {
    if cs == [] then []
    else if h(cs[0]) in known then NewLengths(h, known, cs[1..])
    else [|cs[0]|] + NewLengths(h, known + {h(cs[0])}, cs[1..])
  }

  /** How many chunks each container receives, the first of them holding `n` chunks of `size` bytes
      already: the next one is begun where a chunk would reach CONTAINER_SIZE. */
  function Fill(size: nat, n: nat, lengths: seq<nat>): (r: seq<nat>)
    ensures |r| > 0
    decreases |lengths|
  {
    if lengths == [] then [n]
    else if size + lengths[0] >= CONTAINER_SIZE then [n] + Fill(lengths[0], 1, lengths[1..])
    else Fill(size + lengths[0], n + 1, lengths[1..])
  }

  /** Fingerprints a write finds in the index. */
  function Known(st: Store): set<SHA1FP>
  {
    if |st.recipes| == 0 then {} else st.index.Keys
  }

  function KnownTo(w: Writer): set<SHA1FP>
  {
    w.origin.Keys + w.added.Keys
  }

  /** Number of containers that chunks of these lengths fill from the beginning. */
  function Filled(lengths: seq<nat>): nat
  {
    if lengths == [] then 0 else |Fill(0, 0, lengths)|
  }

  lemma ChunkKnown(h: Bytes -> SHA1FP, w: Writer, c: Bytes)
    ensures KnownTo(WriteChunk(h, w, c)) == KnownTo(w) + {h(c)}
  {
    hide StoreChunk, AddReference;
    var fp, v := h(c), w.(recipe := w.recipe + [h(c)]);
    if fp in w.origin || fp in w.added { ReferenceKnown(v, fp); } else { StoreKnown(v, fp, c); }
  }

  lemma ReferenceKnown(w: Writer, fp: SHA1FP)
    requires fp in w.origin || fp in w.added
    ensures KnownTo(AddReference(w, fp)) == KnownTo(w) + {fp}
  {
    hide OneMore;
    OneMoreKeys(w.origin, fp);
    OneMoreKeys(w.added, fp);
  }

  lemma StoreKnown(w: Writer, fp: SHA1FP, c: Bytes)
    ensures KnownTo(StoreChunk(w, fp, c)) == KnownTo(w) + {fp}
  {
    hide FlushContainer;
    FlushKeepsTables(w);
    assert StoreChunk(w, fp, c).added.Keys == w.added.Keys + {fp};
  }

  lemma FlushKeepsTables(w: Writer)
    ensures FlushContainer(w).origin == w.origin && FlushContainer(w).added == w.added
  {
    hide StoreModel.Put;
  }

  /** What one chunk does to the containers, known or not. */
  lemma OneChunkFills(h: Bytes -> SHA1FP, w: Writer, c: Bytes)
    requires w.keepRevs
    ensures var w' := WriteChunk(h, w, c);
            && w'.keepRevs
            && if h(c) in KnownTo(w) then w'.ctr == w.ctr && w'.buf == w.buf && w'.rev == w.rev && w'.revs == w.revs
               else if |w.buf| + |c| >= CONTAINER_SIZE then
                 w'.ctr == w.ctr + 1 && |w'.buf| == |c| && |w'.rev| == 1 && w'.revs == w.revs[w.ctr := w.rev]
               else w'.ctr == w.ctr && |w'.buf| == |w.buf| + |c| && |w'.rev| == |w.rev| + 1 && w'.revs == w.revs
  {
    hide StoreModel.Put, OneMore;
  }

  /** The lists a run has saved and the one in memory, against the counts. */
  ghost predicate Filling(w: Writer, w': Writer, counts: seq<nat>)
  {
    && |counts| > 0 && w'.ctr == w.ctr + |counts| - 1 && |w'.rev| == counts[|counts| - 1]
    && (forall c :: w.ctr <= c < w'.ctr ==> c in w'.revs && |w'.revs[c]| == counts[c - w.ctr])
    && forall d :: d < w.ctr || d >= w'.ctr ==>
         (d in w'.revs <==> d in w.revs) && (d in w.revs ==> w'.revs[d] == w.revs[d])
  }

  lemma FillingLater(w: Writer, w1: Writer, w2: Writer, counts: seq<nat>)
    requires w1.ctr == w.ctr + 1 && w1.revs == w.revs[w.ctr := w.rev] && Filling(w1, w2, counts)
    ensures Filling(w, w2, [|w.rev|] + counts)
  {
    var all := [|w.rev|] + counts;
    forall c | w.ctr <= c < w2.ctr ensures c in w2.revs && |w2.revs[c]| == all[c - w.ctr] {
      if c > w.ctr { assert all[c - w.ctr] == counts[c - w1.ctr]; }
    }
  }

  lemma FillingSame(w: Writer, w1: Writer, w2: Writer, counts: seq<nat>)
    requires w1.ctr == w.ctr && w1.revs == w.revs && Filling(w1, w2, counts)
    ensures Filling(w, w2, counts)
  {}

  /** The containers a run fills are told by the lengths of the chunks it stores. */
  lemma {:induction false} ChunksFill(h: Bytes -> SHA1FP, w: Writer, cs: seq<Bytes>)
    requires w.keepRevs
    ensures Filling(w, WriteChunks(h, w, cs), Fill(|w.buf|, |w.rev|, NewLengths(h, KnownTo(w), cs)))
    decreases |cs|
  {
    hide WriteChunk, KnownTo;
    if cs == [] {
      NothingFilled(w);
    } else {
      var w1, w2 := WriteChunk(h, w, cs[0]), WriteChunks(h, w, cs);
      ChunkKnown(h, w, cs[0]);
      OneChunkFills(h, w, cs[0]);
      ChunksFill(h, w1, cs[1..]);
      var later := Fill(|w1.buf|, |w1.rev|, NewLengths(h, KnownTo(w1), cs[1..]));
      if h(cs[0]) in KnownTo(w) {
        assert KnownTo(w) + {h(cs[0])} == KnownTo(w);
        FillingSame(w, w1, w2, later);
      } else {
        var rest := NewLengths(h, KnownTo(w) + {h(cs[0])}, cs[1..]);
        assert ([|cs[0]|] + rest)[1..] == rest;
        if |w.buf| + |cs[0]| >= CONTAINER_SIZE {
          FillingLater(w, w1, w2, later);
        } else {
          FillingSame(w, w1, w2, later);
        }
      }
    }
  }

  lemma NothingFilled(w: Writer)
    ensures Filling(w, w, [|w.rev|])
  {}

  predicate AllAtMost(ns: seq<nat>, limit: nat)
  {
    forall i :: 0 <= i < |ns| ==> ns[i] <= limit
  }

  lemma AtMostCons(n: nat, ns: seq<nat>, limit: nat)
    ensures AllAtMost([n] + ns, limit) <==> n <= limit && AllAtMost(ns, limit)
  {
    var all := [n] + ns;
    assert all[0] == n;
    assert forall i :: 0 < i < |all| ==> all[i] == ns[i - 1];
    if AllAtMost(all, limit) {
      forall i | 0 <= i < |ns| ensures ns[i] <= limit { assert all[i + 1] == ns[i]; }
    }
  }

  /** The counts only rise from what a container holds already. */
  lemma {:induction false} FirstCount(size: nat, n: nat, lengths: seq<nat>)
    ensures Fill(size, n, lengths)[0] >= n
    decreases |lengths|
  {
    if lengths != [] && size + lengths[0] < CONTAINER_SIZE { FirstCount(size + lengths[0], n + 1, lengths[1..]); }
  }

  /** The buffers of a sequential write hold its chunks exactly when no new chunk is longer than a
      container and no container receives more chunks than the list buffer takes. */
  lemma {:induction false} BuffersHoldExactly(h: Bytes -> SHA1FP, w: Writer, cs: seq<Bytes>)
    requires w.keepRevs && |w.rev| <= REV_CAPACITY
    ensures var lengths := NewLengths(h, KnownTo(w), cs);
            BuffersHold(h, w, cs) <==>
              AllAtMost(lengths, CONTAINER_SIZE) && AllAtMost(Fill(|w.buf|, |w.rev|, lengths), REV_CAPACITY)
    decreases |cs|
  {
    hide WriteChunk, KnownTo, AllAtMost;
    if cs == [] {
      assert AllAtMost([], CONTAINER_SIZE) && AllAtMost([|w.rev|], REV_CAPACITY) by { OneAtMost(|w.rev|); }
    } else {
      var w1 := WriteChunk(h, w, cs[0]);
      var lengths := NewLengths(h, KnownTo(w), cs);
      ChunkKnown(h, w, cs[0]);
      OneChunkFills(h, w, cs[0]);
      RoomForExactly(h, w, cs[0]);
      if h(cs[0]) in KnownTo(w) {
        assert KnownTo(w) + {h(cs[0])} == KnownTo(w);
        BuffersHoldExactly(h, w1, cs[1..]);
      } else {
        var rest := NewLengths(h, KnownTo(w1), cs[1..]);
        assert lengths == [|cs[0]|] + rest && lengths[1..] == rest;
        AtMostCons(|cs[0]|, rest, CONTAINER_SIZE);
        AtMostCons(|w.rev|, Fill(|cs[0]|, 1, rest), REV_CAPACITY);
        if |w1.rev| <= REV_CAPACITY {
          BuffersHoldExactly(h, w1, cs[1..]);
        } else {
          assert !AllAtMost(Fill(|w1.buf|, |w1.rev|, rest), REV_CAPACITY) by {
            TooManyAlready(|w1.buf|, |w1.rev|, rest);
          }
        }
      }
    }
  }

  lemma OneAtMost(n: nat)
    ensures AllAtMost([], CONTAINER_SIZE) && (n <= REV_CAPACITY ==> AllAtMost([n], REV_CAPACITY))
  {}

  lemma TooManyAlready(size: nat, n: nat, lengths: seq<nat>)
    requires n > REV_CAPACITY
    ensures !AllAtMost(Fill(size, n, lengths), REV_CAPACITY)
  {
    FirstCount(size, n, lengths);
  }

  lemma RoomForExactly(h: Bytes -> SHA1FP, w: Writer, c: Bytes)
    requires w.keepRevs
    ensures RoomFor(w, h(c), c) <==>
              h(c) in KnownTo(w) || (|c| <= CONTAINER_SIZE && |WriteChunk(h, w, c).rev| <= REV_CAPACITY)
  {
    hide StoreModel.Put, OneMore;
  }

  /** Without reverse lists, as the pipeline writes, only the lengths matter. */
  lemma {:induction false} ContainerHoldsExactly(h: Bytes -> SHA1FP, w: Writer, cs: seq<Bytes>)
    requires !w.keepRevs && w.rev == []
    ensures BuffersHold(h, w, cs) <==> AllAtMost(NewLengths(h, KnownTo(w), cs), CONTAINER_SIZE)
    decreases |cs|
  {
    hide KnownTo, AllAtMost;
    if cs == [] {
      assert AllAtMost([], CONTAINER_SIZE) by { OneAtMost(0); }
    } else {
      var w1 := WriteChunk(h, w, cs[0]);
      ChunkKnown(h, w, cs[0]);
      NoList(h, w, cs[0]);
      ContainerHoldsExactly(h, w1, cs[1..]);
      if h(cs[0]) in KnownTo(w) {
        assert KnownTo(w) + {h(cs[0])} == KnownTo(w);
      } else {
        AtMostCons(|cs[0]|, NewLengths(h, KnownTo(w1), cs[1..]), CONTAINER_SIZE);
      }
    }
  }

  lemma NoList(h: Bytes -> SHA1FP, w: Writer, c: Bytes)
    requires !w.keepRevs && w.rev == []
    ensures var w' := WriteChunk(h, w, c); !w'.keepRevs && w'.rev == []
    ensures RoomFor(w, h(c), c) <==> h(c) in KnownTo(w) || |c| <= CONTAINER_SIZE
  {
    hide StoreModel.Put, OneMore;
  }

  /** So chunks that fit a container are always held. */
  lemma {:induction false} FittingHold(h: Bytes -> SHA1FP, w: Writer, cs: seq<Bytes>)
    requires !w.keepRevs && w.rev == [] && forall c :: c in cs ==> |c| <= CONTAINER_SIZE
    ensures BuffersHold(h, w, cs)
    decreases |cs|
  {
    hide WriteChunk, RoomFor, KnownTo;
    if cs != [] {
      assert cs[0] in cs && forall c :: c in cs[1..] ==> c in cs;
      NoList(h, w, cs[0]);
      FittingHold(h, WriteChunk(h, w, cs[0]), cs[1..]);
    }
  }

  // ---------- A whole write ----------

  lemma StartKnows(st: Store, ctr: nat, keepRevs: bool)
    ensures KnownTo(StartAt(st, ctr, keepRevs)) == Known(st)
  {}

  /** The first container name that a write leaves alone. */
  lemma {:induction false} EndNameExactly(h: Bytes -> SHA1FP, w: Writer, cs: seq<Bytes>)
    requires w.keepRevs && forall c :: c in cs ==> c != []
    ensures var lengths := NewLengths(h, KnownTo(w), cs);
            WriteChunks(h, w, cs).buf == [] <==> w.buf == [] && lengths == []
    decreases |cs|
  {
    hide WriteChunk, KnownTo;
    if cs != [] {
      ChunkKnown(h, w, cs[0]);
      OneChunkFills(h, w, cs[0]);
      assert cs[0] in cs && forall c :: c in cs[1..] ==> c in cs;
      EndNameExactly(h, WriteChunk(h, w, cs[0]), cs[1..]);
      if h(cs[0]) in KnownTo(w) { assert KnownTo(w) + {h(cs[0])} == KnownTo(w); }
    }
  }

  /** The names a write takes, from the lengths of its new chunks. */
  lemma NamesTaken(h: Bytes -> SHA1FP, st: Store, ctr: nat, cs: seq<Bytes>)
    requires forall c :: c in cs ==> c != []
    ensures EndName(WriteChunks(h, StartAt(st, ctr, true), cs)) == ctr + Filled(NewLengths(h, Known(st), cs))
  {
    hide WriteChunks, KnownTo, Known;
    var w := StartAt(st, ctr, true);
    StartKnows(st, ctr, true);
    ChunksFill(h, w, cs);
    EndNameExactly(h, w, cs);
  }

  /** A write is covered, as far as names and buffers go, exactly when the lengths of its new chunks
      say so: the names from the number of files on are free, no chunk is longer than a container,
      and no container receives more chunks than the list buffer takes. */
  lemma CoveredExactly(h: Bytes -> SHA1FP, st: Store, cs: seq<Bytes>)
    requires forall c :: c in cs ==> c != []
    ensures var lengths := NewLengths(h, Known(st), cs);
            FreshNames(h, st, cs) && BuffersHold(h, StartWrite(st, true), cs) <==>
              && |st.recipes| !in st.recipes
              && Unused(st.containers, ContainerFiles(st), ContainerFiles(st) + Filled(lengths))
              && AllAtMost(lengths, CONTAINER_SIZE) && AllAtMost(Fill(0, 0, lengths), REV_CAPACITY)
  {
    hide WriteChunks, KnownTo, Known, BuffersHold, Unused, Filled, Fill, NewLengths, AllAtMost;
    NamesTaken(h, st, ContainerFiles(st), cs);
    StartKnows(st, ContainerFiles(st), true);
    BuffersHoldExactly(h, StartWrite(st, true), cs);
  }

  /** The lists a whole write adds have the counted lengths, and the old ones stay. */
  lemma WriteFills(h: Bytes -> SHA1FP, st: Store, ctr: nat, cs: seq<Bytes>)
    requires forall c :: c in cs ==> c != []
    ensures var revs, lengths := WriteAt(h, st, ctr, cs, true).revs, NewLengths(h, Known(st), cs);
            && (forall c :: ctr <= c < ctr + Filled(lengths) ==>
                  c in revs && |revs[c]| == Fill(0, 0, lengths)[c - ctr])
            && forall d :: !(ctr <= d < ctr + Filled(lengths)) ==>
                 (d in revs <==> d in st.revs) && (d in revs ==> revs[d] == st.revs[d])
  {
    hide WriteChunks, KnownTo, Known, NewLengths, Fill, Filling, FinishWrite;
    var w := StartAt(st, ctr, true);
    var w', counts := WriteChunks(h, w, cs), Fill(0, 0, NewLengths(h, Known(st), cs));
    StartKnows(st, ctr, true);
    ChunksFill(h, w, cs);
    KeepsKeeping(h, w, cs);
    EndNameExactly(h, w, cs);
    if NewLengths(h, Known(st), cs) == [] { NoCounts(); }
    FinishFills(w, w', st.recipes, counts);
  }

  lemma NoCounts()
    ensures Fill(0, 0, []) == [0]
  {}

  /** Saving the last container, unless it is empty. */
  lemma FinishFills(w: Writer, w': Writer, recipes: map<nat, seq<SHA1FP>>, counts: seq<nat>)
    requires Filling(w, w', counts) && w'.keepRevs && (w'.buf == [] ==> |counts| == 1)
    ensures var revs, n := FinishWrite(w', recipes).revs, if w'.buf == [] then 0 else |counts|;
            && (forall c :: w.ctr <= c < w.ctr + n ==> c in revs && |revs[c]| == counts[c - w.ctr])
            && forall d :: !(w.ctr <= d < w.ctr + n) ==>
                 (d in revs <==> d in w.revs) && (d in revs ==> revs[d] == w.revs[d])
  {
    hide StoreModel.Put;
  }

  lemma {:induction false} KeepsKeeping(h: Bytes -> SHA1FP, w: Writer, cs: seq<Bytes>)
    ensures WriteChunks(h, w, cs).keepRevs == w.keepRevs
    decreases |cs|
  {
    hide StoreModel.Put, OneMore;
    if cs != [] { KeepsKeeping(h, WriteChunk(h, w, cs[0]), cs[1..]); }
  }
}
