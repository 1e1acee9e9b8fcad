/** Histories in which sequential writes, pipeline runs and deletes alternate in any way. */
module MixedHistory {
  import opened Common
  import opened FastCDC
  import opened Chunking
  import opened MetadataManager
  import opened StoreModel
  import opened StoreInvariant
  import opened StorePacking
  import opened StoreWrite
  import opened StoreFilling
  import opened StoreDelete
  import opened StoreIndexFile
  import opened StoreHistory
  import opened StoreNames
  import opened Pipeline
  import opened PipelineRun
  import opened PipelineRestore
  import opened PipelineDelete

  datatype MixedOp = Sequential(op: Op) | Pipelined(ch: Chunker, file: Bytes)

  function WholeChunks(ch: Chunker, file: Bytes): seq<Bytes>
    requires ch.Valid()
  {
    Chunks(ch, ch.InitialAvg(), file)
  }

  /** One run of the program; None as for a sequential task. */
  function MixedStep(h: Bytes -> SHA1FP, st: Store, op: MixedOp): Option<Store>
  {
    match op
    case Sequential(o) => Step(h, st, o)
    case Pipelined(ch, file) =>
      if ch.Valid() && BuffersHold(h, StartWrite(st, false), WholeChunks(ch, file))
      then Some(Write(h, st, WholeChunks(ch, file), false)) else None
  }

  /** That is what the threads of the pipeline leave, whatever their schedule. */
  lemma PipelinedIsPipeline(h: Bytes -> SHA1FP, st: Store, ch: Chunker, file: Bytes, moves: seq<Move>)
    requires ch.Valid() && Ends(Config(h, ch, st), file, moves)
    ensures var s := Exec(Config(h, ch, st), Init(Config(h, ch, st), file), moves).value;
            MixedStep(h, st, Pipelined(ch, file)) == if s.crashed then None else s.result
  {
    hide Exec, Fire, Init, Ends, WriteAt, Chunks, BuffersHold;
    EverySchedule(Config(h, ch, st), file, moves);
    TwinWrites(h, st, WholeChunks(ch, file));
  }

  /** The versions the program keeps. */
  function MixedStored(files: map<nat, Bytes>, op: MixedOp): map<nat, Bytes>
  {
    match op
    case Sequential(o) => StoredAfter(files, o)
    case Pipelined(_, file) => files[|files| := file]
  }

  /** When a run is covered. A sequential write and a pipeline run as before; a delete when every
      chunk that loses its last reference lies in a container with a reverse list. */
  ghost predicate MixedAdmissible(h: Bytes -> SHA1FP, universe: iset<Bytes>, st: Store, op: MixedOp)
  {
    match op
    case Sequential(DeleteVersion(version)) =>
      RecipeName(version) in st.recipes ==> Removable(st.index, st.recipes[RecipeName(version)], st.revs.Keys)
    case Sequential(o) => Admissible(h, universe, st, o)
    case Pipelined(ch, file) => PipelineAdmissible(h, universe, st, ch, file)
  }

  ghost predicate MixedAdmissibleRun(h: Bytes -> SHA1FP, universe: iset<Bytes>, st: Store, ops: seq<MixedOp>)
    decreases |ops|
  {
    ops != [] ==>
      && MixedAdmissible(h, universe, st, ops[0])
      && (MixedStep(h, st, ops[0]).Some? ==> MixedAdmissibleRun(h, universe, MixedStep(h, st, ops[0]).value, ops[1..]))
  }

  ghost function MixedRun(h: Bytes -> SHA1FP, st: Store, ops: seq<MixedOp>): Option<Store>
    decreases |ops|
  {
    if ops == [] then Some(st)
    else
      var st' := MixedStep(h, st, ops[0]);
      if st' == None then None else MixedRun(h, st'.value, ops[1..])
  }

  function MixedFiles(files: map<nat, Bytes>, ops: seq<MixedOp>): map<nat, Bytes>
    decreases |ops|
  {
    if ops == [] then files else MixedFiles(MixedStored(files, ops[0]), ops[1..])
  }

  // ---------- Against a store with all lists ----------

  /** The store `b` lacks some of the lists of a store `a` that satisfies the invariant. */
  ghost predicate MixedInv(h: Bytes -> SHA1FP, universe: iset<Bytes>, a: Store, b: Store, content: Contents,
                           files: map<nat, Bytes>)
  {
    && Inv(h, universe, a, content, files) && Short(content) && Small(a.containers)
    && Shadow(a, b, b.revs.Keys) && ListsHold(b.revs) && IndexFits(b.index)
  }

  /** Two runs of a writer that differ in the lists saved before. */
  ghost predicate SameButLists(a: Writer, b: Writer)
  {
    b == a.(revs := b.revs) && forall c :: c in b.revs ==> c in a.revs && a.revs[c] == b.revs[c]
  }

  lemma ChunkSameButLists(h: Bytes -> SHA1FP, a: Writer, b: Writer, c: Bytes)
    requires SameButLists(a, b)
    ensures SameButLists(WriteChunk(h, a, c), WriteChunk(h, b, c))
  {
    hide StoreChunk, AddReference, SameButLists;
    SameTables(a, b);
    var fp := h(c);
    var a1, b1 := a.(recipe := a.recipe + [fp]), b.(recipe := b.recipe + [fp]);
    RecipeSameButLists(a, b, fp);
    if fp in a.origin || fp in a.added { ReferenceSameButLists(a1, b1, fp); } else { StoreSameButLists(a1, b1, fp, c); }
  }

  lemma SameTables(a: Writer, b: Writer)
    requires SameButLists(a, b)
    ensures b.origin == a.origin && b.added == a.added
  {}

  lemma RecipeSameButLists(a: Writer, b: Writer, fp: SHA1FP)
    requires SameButLists(a, b)
    ensures SameButLists(a.(recipe := a.recipe + [fp]), b.(recipe := b.recipe + [fp]))
  {}

  lemma ReferenceSameButLists(a: Writer, b: Writer, fp: SHA1FP)
    requires SameButLists(a, b) && (fp in a.origin || fp in a.added)
    ensures SameButLists(AddReference(a, fp), AddReference(b, fp))
  {
    hide OneMore;
  }

  lemma StoreSameButLists(a: Writer, b: Writer, fp: SHA1FP, c: Bytes)
    requires SameButLists(a, b)
    ensures SameButLists(StoreChunk(a, fp, c), StoreChunk(b, fp, c))
  {
    hide FlushContainer;
    FlushSameButLists(a, b);
  }

  lemma FlushSameButLists(a: Writer, b: Writer)
    requires SameButLists(a, b)
    ensures SameButLists(FlushContainer(a), FlushContainer(b))
  {
    hide StoreModel.Put;
  }

  lemma {:induction false} ChunksSameButLists(h: Bytes -> SHA1FP, a: Writer, b: Writer, cs: seq<Bytes>)
    requires SameButLists(a, b)
    ensures SameButLists(WriteChunks(h, a, cs), WriteChunks(h, b, cs))
    decreases |cs|
  {
    hide WriteChunk, SameButLists;
    if cs != [] {
      ChunkSameButLists(h, a, b, cs[0]);
      ChunksSameButLists(h, WriteChunk(h, a, cs[0]), WriteChunk(h, b, cs[0]), cs[1..]);
    }
  }

  lemma FinishSameButLists(a: Writer, b: Writer, recipes: map<nat, seq<SHA1FP>>)
    requires SameButLists(a, b)
    ensures var a', b' := FinishWrite(a, recipes), FinishWrite(b, recipes);
            b' == a'.(revs := b'.revs) && forall c :: c in b'.revs ==> c in a'.revs && a'.revs[c] == b'.revs[c]
  {
    hide StoreModel.Put;
  }

  lemma ShadowFacts(a: Store, b: Store, listed: set<nat>)
    requires Shadow(a, b, listed)
    ensures b == a.(revs := b.revs) && forall c :: c in b.revs ==> c in a.revs && a.revs[c] == b.revs[c]
  {
    assert forall c :: c in b.revs ==> c in b.revs.Keys;
  }

  lemma ShadowOf(a: Store, b: Store)
    requires b == a.(revs := b.revs) && forall c :: c in b.revs ==> c in a.revs && a.revs[c] == b.revs[c]
    ensures Shadow(a, b, b.revs.Keys)
  {
    assert b.revs.Keys == a.revs.Keys * b.revs.Keys;
  }

  /** A write with lists, and a write without, next to the write with all lists under the same
      names. */
  lemma WriteShadow(h: Bytes -> SHA1FP, universe: iset<Bytes>, a: Store, b: Store, content: Contents,
                    files: map<nat, Bytes>, cs: seq<Bytes>)
    requires Inv(h, universe, a, content, files) && Shadow(a, b, b.revs.Keys)
    requires FreshNames(h, b, cs) && forall c :: c in cs ==> c != []
    ensures FreshFrom(h, a, ContainerFiles(b), cs)
    ensures var a' := WriteAt(h, a, ContainerFiles(b), cs, true);
            && Shadow(a', Write(h, b, cs, true), Write(h, b, cs, true).revs.Keys)
            && Shadow(a', Write(h, b, cs, false), Write(h, b, cs, false).revs.Keys)
  {
    hide Inv, WriteChunks, FinishWrite, Filled, NewLengths, Known, Shadow;
    var n := ContainerFiles(b);
    ShadowFacts(a, b, b.revs.Keys);
    ChunksSameButLists(h, StartAt(a, n, true), StartAt(b, n, true), cs);
    var wa, wb := WriteChunks(h, StartAt(a, n, true), cs), WriteChunks(h, StartAt(b, n, true), cs);
    assert EndName(wa) == EndName(wb);
    FinishSameButLists(wa, wb, b.recipes);
    ShadowOf(WriteAt(h, a, n, cs, true), Write(h, b, cs, true));
    TwinWrites(h, b, cs);
    NamesTaken(h, b, n, cs);
    WriteFills(h, b, n, cs);
    OldListsFree(h, universe, a, b, content, files);
    ShadowOf(WriteAt(h, a, n, cs, true), Write(h, b, cs, false));
  }

  /** Lists stand beside containers. */
  lemma OldListsFree(h: Bytes -> SHA1FP, universe: iset<Bytes>, a: Store, b: Store, content: Contents,
                     files: map<nat, Bytes>)
    requires Inv(h, universe, a, content, files) && b.containers == a.containers
    requires forall c :: c in b.revs ==> c in a.revs
    ensures forall c :: c in b.revs ==> c in b.containers
  {
    assert a.containers.Keys == a.revs.Keys;
    assert forall c :: c in b.revs ==> c in a.containers.Keys;
  }

  lemma MixedWriteKeeps(h: Bytes -> SHA1FP, universe: iset<Bytes>, a: Store, b: Store, content: Contents,
                        files: map<nat, Bytes>, cs: seq<Bytes>, keepRevs: bool)
    requires MixedInv(h, universe, a, b, content, files) && CollisionFree(h, universe)
    requires FreshNames(h, b, cs) && forall c :: c in cs ==> c in universe && 0 < |c| < U16
    requires keepRevs ==> BuffersHold(h, StartWrite(b, true), cs)
    requires IndexFits(Write(h, b, cs, keepRevs).index)
    ensures MixedInv(h, universe, WriteAt(h, a, ContainerFiles(b), cs, true), Write(h, b, cs, keepRevs),
                     AddContents(h, content, cs), files[|files| := Flatten(cs)])
  {
    hide Inv, Short, Small, Shadow, ListsHold, IndexFits, CollisionFree, FreshNames, FreshFrom, BuffersHold, WriteAt,
         AddContents;
    var n := ContainerFiles(b);
    WriteShadow(h, universe, a, b, content, files, cs);
    ShadowFacts(a, b, b.revs.Keys);
    WriteAtKeepsInv(h, universe, a, content, files, n, cs);
    SameNumber(h, universe, a, content, files);
    AddContentsShort(h, content, cs);
    WriteStaysSmall(h, a, n, cs, true);
    if keepRevs { WriteHoldsLists(h, b, cs); } else { TwinWrites(h, b, cs); }
  }

  lemma MixedDeleteKeeps(h: Bytes -> SHA1FP, universe: iset<Bytes>, a: Store, b: Store, content: Contents,
                         files: map<nat, Bytes>, version: nat) returns (a': Store, content': Contents)
    requires MixedInv(h, universe, a, b, content, files)
    requires RecipeName(version) in b.recipes ==> Removable(b.index, b.recipes[RecipeName(version)], b.revs.Keys)
    ensures Delete(b, version).Some?
    ensures MixedInv(h, universe, a', Delete(b, version).value, content', files - {RecipeName(version)})
  {
    hide Inv, Short, Small, Shadow, ListsHold, IndexFits, Removable, Delete, DeleteFree, GivesBack;
    a', content' := a, content;
    ShadowFacts(a, b, b.revs.Keys);
    LiveNumbers(h, universe, a, content, files);
    UnknownVersion(b, version);
    DeleteFits(b, version);
    if RecipeName(version) in b.recipes {
      content' := DeleteShadow(h, universe, a, b, content, files, version);
      a' := DeleteFree(a, version).value;
      ShadowFacts(a', Delete(b, version).value, b.revs.Keys);
      ShadowOf(a', Delete(b, version).value);
    } else {
      assert files - {RecipeName(version)} == files;
    }
  }

  lemma LiveNumbers(h: Bytes -> SHA1FP, universe: iset<Bytes>, st: Store, content: Contents, files: map<nat, Bytes>)
    requires Inv(h, universe, st, content, files)
    ensures st.recipes.Keys == files.Keys
  {}

  /** Every covered run succeeds and keeps the invariant. */
  lemma MixedStepKeeps(h: Bytes -> SHA1FP, universe: iset<Bytes>, a: Store, b: Store, content: Contents,
                       files: map<nat, Bytes>, op: MixedOp) returns (a': Store, content': Contents)
    requires MixedInv(h, universe, a, b, content, files) && CollisionFree(h, universe)
    requires MixedAdmissible(h, universe, b, op)
    ensures MixedStep(h, b, op).Some?
    ensures MixedInv(h, universe, a', MixedStep(h, b, op).value, content', MixedStored(files, op))
  {
    hide MixedInv, CollisionFree, Delete, Removable, FreshNames, BuffersHold, WriteAt, IndexFits, FileChunks, Chunks,
         AddContents;
    match op
    case Sequential(DeleteVersion(version)) =>
      a', content' := MixedDeleteKeeps(h, universe, a, b, content, files, version);
    case Sequential(WriteFile(ch, file)) =>
      var cs := FileChunks(ch, ch.InitialAvg(), file);
      FileChunksPartition(ch, ch.InitialAvg(), file);
      MixedWriteKeeps(h, universe, a, b, content, files, cs, true);
      a', content' := WriteAt(h, a, ContainerFiles(b), cs, true), AddContents(h, content, cs);
    case Pipelined(ch, file) =>
      var cs := WholeChunks(ch, file);
      ChunksPartition(ch, ch.InitialAvg(), file);
      TwinWrites(h, b, cs);
      ShortHolds(h, b, cs);
      MixedWriteKeeps(h, universe, a, b, content, files, cs, false);
      a', content' := WriteAt(h, a, ContainerFiles(b), cs, true), AddContents(h, content, cs);
  }

  lemma {:induction false} MixedRunKeeps(h: Bytes -> SHA1FP, universe: iset<Bytes>, a: Store, b: Store,
                                         content: Contents, files: map<nat, Bytes>, ops: seq<MixedOp>)
    returns (a': Store, content': Contents)
    requires MixedInv(h, universe, a, b, content, files) && CollisionFree(h, universe)
    requires MixedAdmissibleRun(h, universe, b, ops)
    ensures MixedRun(h, b, ops).Some?
    ensures MixedInv(h, universe, a', MixedRun(h, b, ops).value, content', MixedFiles(files, ops))
    decreases |ops|
  {
    hide MixedInv, CollisionFree, MixedAdmissible, MixedStep, MixedStored;
    a', content' := a, content;
    if ops != [] {
      var a1, content1 := MixedStepKeeps(h, universe, a, b, content, files, ops[0]);
      a', content' := MixedRunKeeps(h, universe, a1, MixedStep(h, b, ops[0]).value,
                                    content1, MixedStored(files, ops[0]), ops[1..]);
    }
  }

  lemma EmptyMixedInv(h: Bytes -> SHA1FP, universe: iset<Bytes>)
    ensures MixedInv(h, universe, EmptyStore, EmptyStore, map[], map[])
  {
    hide Inv;
    EmptyStoreInv(h, universe);
    EmptyIndexFits();
  }

  /** After any covered mixture of sequential writes, pipeline runs and deletes, a number gives back
      exactly the bytes that are kept under what it is modulo 256, also after the index has been
      saved and loaded. */
  lemma MixedRestores(h: Bytes -> SHA1FP, universe: iset<Bytes>, ops: seq<MixedOp>)
    requires CollisionFree(h, universe) && MixedAdmissibleRun(h, universe, EmptyStore, ops)
    ensures MixedRun(h, EmptyStore, ops).Some?
    ensures var st := MixedRun(h, EmptyStore, ops).value;
            && GivesBack(st, MixedFiles(map[], ops))
            && forall loaded :: Reloaded(st.index, loaded) ==> GivesBack(st.(index := loaded), MixedFiles(map[], ops))
  {
    hide Inv, Short, Shadow, Small, ListsHold, CollisionFree, MixedAdmissibleRun, MixedRun, MixedFiles, GivesBack,
         IndexFits, Reloaded;
    EmptyMixedInv(h, universe);
    var a, content := MixedRunKeeps(h, universe, EmptyStore, EmptyStore, map[], map[], ops);
    var st := MixedRun(h, EmptyStore, ops).value;
    ShadowFacts(a, st, st.revs.Keys);
    InvGivesBack(h, universe, a, st, content, MixedFiles(map[], ops));
    forall loaded | Reloaded(st.index, loaded) ensures st.(index := loaded) == st { FittingReloads(st.index, loaded); }
  }

  // ---------- Without deletes ----------

  /** A write of either kind whose chunks fit the length field and are among the collision-free
      ones. */
  ghost predicate PlainMixed(universe: iset<Bytes>, op: MixedOp)
  {
    match op
    case Sequential(o) => PlainWrite(universe, o)
    case Pipelined(ch, file) => ch.Valid() && forall c :: c in WholeChunks(ch, file) ==> c in universe && |c| < U16
  }

  function FileOf(op: MixedOp): Bytes
  {
    match op
    case Sequential(WriteFile(_, file)) => file
    case Sequential(_) => []
    case Pipelined(_, file) => file
  }

  lemma PlainStep(h: Bytes -> SHA1FP, universe: iset<Bytes>, st: Store, op: MixedOp)
    requires Below(st) && (|st.recipes| == 0 ==> st.index == map[])
    requires PlainMixed(universe, op) && MixedStep(h, st, op).Some?
    ensures var st' := MixedStep(h, st, op).value;
            && Below(st') && |st'.recipes| > 0 && Grows(st.index, st'.index)
            && (IndexFits(st'.index) ==> MixedAdmissible(h, universe, st, op))
  {
    hide WriteAt, FreshNames, BuffersHold, Below, FileChunks, Chunks, IndexFits;
    var cs := if op.Sequential? then StoreHistory.ChunksOf(op.op) else WholeChunks(op.ch, op.file);
    WriteStaysBelow(h, st, cs);
    WriteGrows(h, st, cs);
    TwinWrites(h, st, cs);
  }

  lemma {:induction false} MixedWritesAdmissible(h: Bytes -> SHA1FP, universe: iset<Bytes>, st: Store,
                                                 ops: seq<MixedOp>, end: Store)
    requires Below(st) && (|st.recipes| == 0 ==> st.index == map[])
    requires (forall op :: op in ops ==> PlainMixed(universe, op))
          && MixedRun(h, st, ops) == Some(end) && IndexFits(end.index)
    ensures MixedAdmissibleRun(h, universe, st, ops) && Grows(st.index, end.index)
    decreases |ops|
  {
    hide Below, IndexFits, MixedStep, MixedAdmissible, PlainMixed;
    if ops != [] {
      assert PlainMixed(universe, ops[0]);
      var st1 := MixedStep(h, st, ops[0]).value;
      PlainStep(h, universe, st, ops[0]);
      MixedWritesAdmissible(h, universe, st1, ops[1..], end);
      GrowsFits(st1.index, end.index);
    }
  }

  lemma {:induction false} MixedFilesInOrder(files: map<nat, Bytes>, ops: seq<MixedOp>, v: nat)
    requires forall op :: op in ops ==> (op.Sequential? ==> op.op.WriteFile?)
    requires Numbered(files) && v < |files| + |ops|
    ensures v in MixedFiles(files, ops)
    ensures MixedFiles(files, ops)[v] == if v < |files| then files[v] else FileOf(ops[v - |files|])
    decreases |ops|
  {
    if ops != [] {
      NumberedNext(files, FileOf(ops[0]));
      MixedFilesInOrder(files[|files| := FileOf(ops[0])], ops[1..], v);
    }
  }

  lemma PlainMixedWrites(universe: iset<Bytes>, op: MixedOp)
    requires PlainMixed(universe, op)
    ensures op.Sequential? ==> op.op.WriteFile?
  {}

  /** Backups of both kinds in any order, without deletes: no assumption about names is needed. */
  lemma MixedWritesRestore(h: Bytes -> SHA1FP, universe: iset<Bytes>, ops: seq<MixedOp>, st: Store, version: nat)
    requires CollisionFree(h, universe) && version < |ops| && forall op :: op in ops ==> PlainMixed(universe, op)
    requires MixedRun(h, EmptyStore, ops) == Some(st) && IndexFits(st.index)
    ensures Restore(st, version) == Some(FileOf(ops[RecipeName(version)]))
  {
    hide MixedRun, Restore, CollisionFree, MixedFiles, MixedAdmissibleRun, IndexFits, PlainMixed, Below, Numbered,
         FileOf;
    EmptyBelow();
    forall op | op in ops ensures op.Sequential? ==> op.op.WriteFile? { PlainMixedWrites(universe, op); }
    MixedWritesAdmissible(h, universe, EmptyStore, ops, st);
    MixedRestores(h, universe, ops);
    MixedFilesInOrder(map[], ops, RecipeName(version));
  }
}
