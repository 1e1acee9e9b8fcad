/** Versions written by the pipeline, and those written before it, are restored like any other. */
module PipelineRestore {
  import opened Common
  import opened FastCDC
  import opened Chunking
  import opened StoreModel
  import opened StoreInvariant
  import opened StoreIndexFile
  import opened StorePacking
  import opened StoreWrite
  import opened StoreFilling
  import opened StoreHistory
  import opened Pipeline
  import opened PipelineRun

  /** When a pipeline run is covered, as for a sequential write: the chunks fit the length field and
      do not collide, the names are free, and the index can be loaded again. */
  ghost predicate PipelineAdmissible(h: Bytes -> SHA1FP, universe: iset<Bytes>, st: Store, ch: Chunker, file: Bytes)
  {
    && ch.Valid()
    && var cs := Chunks(ch, ch.InitialAvg(), file);
       && (forall c :: c in cs ==> c in universe && |c| < U16)
       && FreshNames(h, st, cs)
       && IndexFits(Write(h, st, cs, true).index)
  }

  /** After any admissible history, a pipeline run on a file of any length, under any schedule, ends
      with a store that gives back the new file and every version that was live before, once its
      index has been saved and loaded. */
  lemma PipelineWriteRestores(h: Bytes -> SHA1FP, universe: iset<Bytes>, ops: seq<Op>, st: Store,
                              ch: Chunker, file: Bytes, moves: seq<Move>, version: nat)
    requires CollisionFree(h, universe) && AdmissibleRun(h, universe, EmptyStore, ops)
    requires Run(h, EmptyStore, ops) == Some(st)
    requires PipelineAdmissible(h, universe, st, ch, file) && Ends(Config(h, ch, st), file, moves)
    ensures var s := Exec(Config(h, ch, st), Init(Config(h, ch, st), file), moves).value;
            var before := RunStored(map[], ops);
            var files := before[|before| := file];
            && s.result.Some?
            && forall loaded :: Reloaded(s.result.value.index, loaded) ==>
                 Restore(s.result.value.(index := loaded), version) ==
                 if RecipeName(version) in files then Some(files[RecipeName(version)]) else None
  {
    hide Inv, CollisionFree, AdmissibleRun, Run, RunStored, Exec, Fire, Init, Ends, WriteAt, Chunks, IndexFits,
         Reloaded, FreshNames, Short, AddContents, Restore, Bounded, BuffersHold;
    var cs, files := Chunks(ch, ch.InitialAvg(), file), RunStored(map[], ops);
    ShortHolds(h, st, cs);
    EmptyStoreInv(h, universe);
    EmptyIndexFits();
    var content := RunKeepsInv(h, universe, EmptyStore, map[], map[], ops);
    ChunksPartition(ch, ch.InitialAvg(), file);
    WriteKeepsInv(h, universe, st, content, files, cs);
    AddContentsShort(h, content, cs);
    SameNumber(h, universe, st, content, files);
    var st' := Write(h, st, cs, true);
    InvRestores(h, universe, st', AddContents(h, content, cs), files[|files| := file], version);
    EverySchedule(Config(h, ch, st), file, moves);
    RestoreIgnoresRevs(st', st.revs, version);
    forall loaded | Reloaded(st'.index, loaded) ensures loaded == st'.index { FittingReloads(st'.index, loaded); }
  }

  /** Short chunks never overrun the container buffer of the pipeline. */
  lemma ShortHolds(h: Bytes -> SHA1FP, st: Store, cs: seq<Bytes>)
    requires forall c :: c in cs ==> |c| < U16
    ensures BuffersHold(h, StartWrite(st, false), cs)
  {
    hide BuffersHold;
    FittingHold(h, StartWrite(st, false), cs);
  }

  lemma SameNumber(h: Bytes -> SHA1FP, universe: iset<Bytes>, st: Store, content: Contents, files: map<nat, Bytes>)
    requires Inv(h, universe, st, content, files)
    ensures |st.recipes| == |files|
  {
    hide Layout, Counted, Named, Cat;
    FewerKeys(st.recipes, files);
    FewerKeys(files, st.recipes);
  }

  /** Reverse lists play no part in a restore. */
  lemma RestoreIgnoresRevs(st: Store, revs: map<nat, seq<SHA1FP>>, version: nat)
    ensures Restore(st.(revs := revs), version) == Restore(st, version)
  {}
}
