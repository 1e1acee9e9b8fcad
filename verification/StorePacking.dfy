/** How large containers and reverse lists become: containers stay below CONTAINER_SIZE, so that one
    read returns a whole container, and reverse lists within the buffer they are collected in. */
module StorePacking {
  import opened Common
  import opened MetadataManager
  import opened StoreModel

  ghost predicate Small(containers: map<nat, Bytes>)
  {
    forall c :: c in containers ==> |containers[c]| < 0x40_0000
  }

  ghost predicate ListsHold(revs: map<nat, seq<SHA1FP>>)
  {
    forall c :: c in revs ==> |revs[c]| <= 209715
  }

  ghost predicate Bounded(st: Store)
  {
    Small(st.containers) && ListsHold(st.revs)
  }

  /** Chunks that fit a container. */
  predicate Fitting(cs: seq<Bytes>)
  {
    forall c :: c in cs ==> |c| < CONTAINER_SIZE
  }

  // ---------- Write ----------

  /** A write keeps containers small, whatever names they are saved under. */
  lemma {:induction false} ChunksStaySmall(h: Bytes -> SHA1FP, w: Writer, cs: seq<Bytes>)
    requires Small(w.containers) && |w.buf| < CONTAINER_SIZE && Fitting(cs)
    ensures var w' := WriteChunks(h, w, cs); Small(w'.containers) && |w'.buf| < CONTAINER_SIZE
    decreases |cs|
  {
    hide WriteChunk, Small;
    if cs != [] {
      ChunkStaysSmall(h, w, cs[0]);
      ChunksStaySmall(h, WriteChunk(h, w, cs[0]), cs[1..]);
    }
  }

  lemma ChunkStaysSmall(h: Bytes -> SHA1FP, w: Writer, c: Bytes)
    requires Small(w.containers) && |w.buf| < CONTAINER_SIZE && |c| < CONTAINER_SIZE
    ensures var w' := WriteChunk(h, w, c); Small(w'.containers) && |w'.buf| < CONTAINER_SIZE
  {}

  lemma WriteStaysSmall(h: Bytes -> SHA1FP, st: Store, ctr: nat, cs: seq<Bytes>, keepRevs: bool)
    requires Small(st.containers) && Fitting(cs)
    ensures Small(WriteAt(h, st, ctr, cs, keepRevs).containers)
  {
    hide WriteChunks;
    ChunksStaySmall(h, StartAt(st, ctr, keepRevs), cs);
  }

  /** A write that stays inside its buffers saves no longer list. */
  lemma {:induction false} ChunksHoldLists(h: Bytes -> SHA1FP, w: Writer, cs: seq<Bytes>)
    requires ListsHold(w.revs) && |w.rev| <= REV_CAPACITY && BuffersHold(h, w, cs)
    ensures var w' := WriteChunks(h, w, cs); ListsHold(w'.revs) && |w'.rev| <= REV_CAPACITY
    decreases |cs|
  {
    hide StoreModel.Put, OneMore;
    if cs != [] { ChunksHoldLists(h, WriteChunk(h, w, cs[0]), cs[1..]); }
  }

  lemma WriteHoldsLists(h: Bytes -> SHA1FP, st: Store, cs: seq<Bytes>)
    requires ListsHold(st.revs) && BuffersHold(h, StartWrite(st, true), cs)
    ensures ListsHold(Write(h, st, cs, true).revs)
  {
    hide WriteChunks, BuffersHold, StoreModel.Put;
    ChunksHoldLists(h, StartWrite(st, true), cs);
  }

  /** Few enough chunks need no look at the containers. */
  lemma {:induction false} FewChunksHold(h: Bytes -> SHA1FP, w: Writer, cs: seq<Bytes>)
    requires |w.rev| + |cs| <= REV_CAPACITY && forall c :: c in cs ==> |c| <= CONTAINER_SIZE
    ensures BuffersHold(h, w, cs)
    decreases |cs|
  {
    hide StoreModel.Put, OneMore;
    if cs != [] {
      assert cs[0] in cs;
      FewChunksHold(h, WriteChunk(h, w, cs[0]), cs[1..]);
    }
  }

  // ---------- Delete ----------

  lemma RemovalBounds(st: Store, c: nat, fp: SHA1FP, off: nat, len: nat)
    ensures var st' := RemoveChunk(st, c, fp, off, len);
            st'.Some? ==>
              && (Small(st.containers) ==> Small(st'.value.containers))
              && (ListsHold(st.revs) ==> ListsHold(st'.value.revs))
  {
    hide ShiftEach;
  }

  lemma DropBounds(st: Store, fp: SHA1FP)
    ensures var st' := DropReference(st, fp);
            st'.Some? ==>
              && (Small(st.containers) ==> Small(st'.value.containers))
              && (ListsHold(st.revs) ==> ListsHold(st'.value.revs))
  {
    hide RemoveChunk, Small, ListsHold;
    if fp in st.index {
      var e := st.index[fp];
      RemovalBounds(st.(index := st.index - {fp}), e.containerNumber, fp, e.offset, e.chunkLength);
    }
  }

  lemma {:induction false} DropAllBounds(st: Store, fps: seq<SHA1FP>)
    ensures var st' := DropAll(st, fps);
            st'.Some? ==>
              && (Small(st.containers) ==> Small(st'.value.containers))
              && (ListsHold(st.revs) ==> ListsHold(st'.value.revs))
    decreases |fps|
  {
    hide DropReference, Small, ListsHold;
    if fps != [] {
      DropBounds(st, fps[0]);
      if DropReference(st, fps[0]).Some? { DropAllBounds(DropReference(st, fps[0]).value, fps[1..]); }
    }
  }

  /** Such a list always goes through the buffer that a removal uses, and so does a container. */
  lemma BoundedGoThrough(rev: seq<SHA1FP>, fp: SHA1FP)
    requires |rev| <= REV_CAPACITY
    ensures ListGoesThrough(rev, fp)
  {}
}
