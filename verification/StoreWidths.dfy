/** The widths of index fields after a first write: container number, offset, length, number inside
    the container and reference count all fit. */
module StoreWidths {
  import opened Common
  import opened MetadataManager
  import opened StoreModel

  predicate Within(e: EntryValue, ctr: nat, refs: nat, length: nat)
  {
    && e.containerNumber <= ctr && e.offset < CONTAINER_SIZE && e.chunkLength <= length
    && e.innerIndex < U16 && e.refCnt <= refs
  }

  ghost predicate AllWithin(m: Index, ctr: nat, refs: nat, length: nat)
  {
    forall fp :: fp in m ==> Within(m[fp], ctr, refs, length)
  }

  ghost predicate WriterWithin(w: Writer, ctr: nat, refs: nat, length: nat)
  {
    && AllWithin(w.origin, ctr, refs, length) && AllWithin(w.added, ctr, refs, length)
    && w.ctr <= ctr && |w.buf| < CONTAINER_SIZE && w.inner < U16
  }

  lemma ReferenceWithin(w: Writer, fp: SHA1FP, ctr: nat, refs: nat, length: nat)
    requires WriterWithin(w, ctr, refs, length) && (fp in w.origin || fp in w.added)
    ensures WriterWithin(AddReference(w, fp), ctr + 1, refs + 1, length)
  {}

  lemma StoreWithin(w: Writer, fp: SHA1FP, c: Bytes, ctr: nat, refs: nat, length: nat)
    requires WriterWithin(w, ctr, refs, length) && |c| < CONTAINER_SIZE && |c| % U16 <= length
    ensures WriterWithin(StoreChunk(w, fp, c), ctr + 1, refs + 1, length)
  {
    hide StoreModel.Put;
  }

  lemma {:induction false} ChunksWithin(h: Bytes -> SHA1FP, w: Writer, cs: seq<Bytes>, ctr: nat, refs: nat, length: nat)
    requires WriterWithin(w, ctr, refs, length) && forall c :: c in cs ==> |c| < CONTAINER_SIZE && |c| % U16 <= length
    ensures WriterWithin(WriteChunks(h, w, cs), ctr + |cs|, refs + |cs|, length)
    decreases |cs|
  {
    hide WriterWithin, StoreChunk, AddReference;
    if cs != [] {
      var fp, v := h(cs[0]), w.(recipe := w.recipe + [h(cs[0])]);
      assert cs[0] in cs && forall c :: c in cs[1..] ==> c in cs;
      assert WriterWithin(v, ctr, refs, length) by { RecipeWithin(w, fp, ctr, refs, length); }
      if fp in w.origin || fp in w.added {
        ReferenceWithin(v, fp, ctr, refs, length);
      } else {
        StoreWithin(v, fp, cs[0], ctr, refs, length);
      }
      ChunksWithin(h, WriteChunk(h, w, cs[0]), cs[1..], ctr + 1, refs + 1, length);
    }
  }

  lemma RecipeWithin(w: Writer, fp: SHA1FP, ctr: nat, refs: nat, length: nat)
    requires WriterWithin(w, ctr, refs, length)
    ensures WriterWithin(w.(recipe := w.recipe + [fp]), ctr, refs, length)
  {}

  lemma FinishWithin(w: Writer, recipes: map<nat, seq<SHA1FP>>, ctr: nat, refs: nat, length: nat)
    requires WriterWithin(w, ctr, refs, length)
    ensures AllWithin(FinishWrite(w, recipes).index, ctr, refs, length)
  {
    hide StoreModel.Put;
  }

  /** After a first write every field fits its width, as long as there are fewer than 2^32 chunks. */
  lemma FirstWriteFits(h: Bytes -> SHA1FP, cs: seq<Bytes>, length: nat)
    requires |cs| < U32 && length < U16 && forall c :: c in cs ==> |c| < CONTAINER_SIZE && |c| % U16 <= length
    ensures var index := Write(h, EmptyStore, cs, true).index;
            AllFit(index) && forall fp :: fp in index ==> index[fp].chunkLength <= length
  {
    hide WriteChunks, FinishWrite;
    var w := StartWrite(EmptyStore, true);
    ChunksWithin(h, w, cs, 0, 0, length);
    FinishWithin(WriteChunks(h, w, cs), EmptyStore.recipes, |cs|, |cs|, length);
    AllWithinFits(Write(h, EmptyStore, cs, true).index, |cs|, |cs|, length);
  }

  lemma AllWithinFits(m: Index, ctr: nat, refs: nat, length: nat)
    requires AllWithin(m, ctr, refs, length) && ctr < U32 && refs < U32 && length < U16
    ensures AllFit(m) && forall fp :: fp in m ==> m[fp].chunkLength <= length
  {}
}
