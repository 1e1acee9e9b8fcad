/** Histories of sequential writes and deletes: what is stored under which number, when that is what
    a user expects, and that it is restored to the bytes that were written. */
module StoreHistory {
  import opened Common
  import opened FastCDC
  import opened Chunking
  import opened StoreModel
  import opened StoreInvariant
  import opened StoreWrite
  import opened StoreDelete
  import opened StoreIndexFile
  import opened StorePacking

  datatype Op = WriteFile(ch: Chunker, file: Bytes) | DeleteVersion(version: nat)

  function ChunksOf(op: Op): seq<Bytes>
    requires op.WriteFile? && op.ch.Valid()
  {
    FileChunks(op.ch, op.ch.InitialAvg(), op.file)
  }

  /** One task of the program; it stops on an invalid chunk size, and has no result where it leaves
      one of its buffers. */
  function Step(h: Bytes -> SHA1FP, st: Store, op: Op): Option<Store>
  {
    match op
    case WriteFile(ch, _) => if ch.Valid() then Written(h, st, ChunksOf(op)) else None
    case DeleteVersion(version) => Delete(st, version)
  }

  /** The versions a user expects: a write adds one under the next number, a delete removes the one
      it is asked for. */
  function FilesAfter(files: map<nat, Bytes>, op: Op): map<nat, Bytes>
  {
    match op
    case WriteFile(_, file) => files[|files| := file]
    case DeleteVersion(version) => files - {version}
  }

  /** The versions the program keeps: a delete finds its recipe by the lowest eight bits of the
      number. */
  function StoredAfter(files: map<nat, Bytes>, op: Op): map<nat, Bytes>
  {
    match op
    case WriteFile(_, file) => files[|files| := file]
    case DeleteVersion(version) => files - {RecipeName(version)}
  }

  /** When a task is covered: chunks fit the 16-bit length field, no two different chunks of the
      history share a fingerprint, the names the write takes are free, its buffers hold what is
      copied into them, and the index it leaves can be loaded again. A delete is always covered. */
  ghost predicate Admissible(h: Bytes -> SHA1FP, universe: iset<Bytes>, st: Store, op: Op)
  {
    op.WriteFile? ==>
      && op.ch.Valid()
      && (forall c :: c in ChunksOf(op) ==> c in universe && |c| < U16)
      && FreshNames(h, st, ChunksOf(op)) && BuffersHold(h, StartWrite(st, true), ChunksOf(op))
      && IndexFits(Write(h, st, ChunksOf(op), true).index)
  }

  ghost predicate AdmissibleRun(h: Bytes -> SHA1FP, universe: iset<Bytes>, st: Store, ops: seq<Op>)
    decreases |ops|
  {
    ops != [] ==>
      && Admissible(h, universe, st, ops[0])
      && (Step(h, st, ops[0]).Some? ==> AdmissibleRun(h, universe, Step(h, st, ops[0]).value, ops[1..]))
  }

  ghost function Run(h: Bytes -> SHA1FP, st: Store, ops: seq<Op>): Option<Store>
    decreases |ops|
  {
    if ops == [] then Some(st)
    else
      var st' := Step(h, st, ops[0]);
      if st' == None then None else Run(h, st'.value, ops[1..])
  }

  /** A history as the program goes through it: each task works on the files the one before it has
      left, and on the index it loads from its file. */
  ghost predicate Runs(h: Bytes -> SHA1FP, st: Store, ops: seq<Op>, st': Store)
    decreases |ops|
  {
    if ops == [] then st' == st
    else
      && Step(h, st, ops[0]).Some?
      && exists loaded :: Reloaded(Step(h, st, ops[0]).value.index, loaded)
                          && Runs(h, Step(h, st, ops[0]).value.(index := loaded), ops[1..], st')
  }

  function RunFiles(files: map<nat, Bytes>, ops: seq<Op>): map<nat, Bytes>
    decreases |ops|
  {
    if ops == [] then files else RunFiles(FilesAfter(files, ops[0]), ops[1..])
  }

  function RunStored(files: map<nat, Bytes>, ops: seq<Op>): map<nat, Bytes>
    decreases |ops|
  {
    if ops == [] then files else RunStored(StoredAfter(files, ops[0]), ops[1..])
  }

  lemma {:induction false} AddContentsShort(h: Bytes -> SHA1FP, content: Contents, cs: seq<Bytes>)
    requires Short(content) && forall c :: c in cs ==> |c| < U16
    ensures Short(AddContents(h, content, cs))
    decreases |cs|
  {
    if cs != [] { AddContentsShort(h, content[h(cs[0]) := cs[0]], cs[1..]); }
  }

  /** Every admissible task succeeds and keeps the invariant; containers and reverse lists stay
      within their bounds. */
  lemma StepKeepsInv(h: Bytes -> SHA1FP, universe: iset<Bytes>, st: Store, content: Contents, files: map<nat, Bytes>,
                     op: Op)
    returns (content': Contents)
    requires Inv(h, universe, st, content, files) && Short(content) && CollisionFree(h, universe)
    requires IndexFits(st.index) && Bounded(st) && Admissible(h, universe, st, op)
    ensures Step(h, st, op).Some? && Short(content')
    ensures IndexFits(Step(h, st, op).value.index) && Bounded(Step(h, st, op).value)
    ensures Inv(h, universe, Step(h, st, op).value, content', StoredAfter(files, op))
  {
    hide Layout, Counted, Named, CollisionFree, FreshNames, BuffersHold, WriteAt, Delete, FileChunks, Short, IndexFits,
         Small, ListsHold;
    match op
    case DeleteVersion(version) =>
      DeleteFits(st, version);
      content' := DeleteKeepsInv(h, universe, st, content, files, version);
    case WriteFile(ch, file) =>
      var cs := ChunksOf(op);
      content' := AddContents(h, content, cs);
      FileChunksPartition(ch, ch.InitialAvg(), file);
      AddContentsShort(h, content, cs);
      WriteKeepsInv(h, universe, st, content, files, cs);
      WriteStaysSmall(h, st, ContainerFiles(st), cs, true);
      WriteHoldsLists(h, st, cs);
      FewerKeys(st.recipes, files);
      FewerKeys(files, st.recipes);
  }

  lemma {:induction false} RunKeepsInv(h: Bytes -> SHA1FP, universe: iset<Bytes>, st: Store, content: Contents,
                                       files: map<nat, Bytes>, ops: seq<Op>) returns (content': Contents)
    requires Inv(h, universe, st, content, files) && Short(content) && CollisionFree(h, universe)
    requires IndexFits(st.index) && Bounded(st) && AdmissibleRun(h, universe, st, ops)
    ensures Run(h, st, ops).Some? && Short(content')
    ensures IndexFits(Run(h, st, ops).value.index) && Bounded(Run(h, st, ops).value)
    ensures Inv(h, universe, Run(h, st, ops).value, content', RunStored(files, ops))
    decreases |ops|
  {
    hide Inv, Short, CollisionFree, Admissible, Step, StoredAfter, IndexFits, Bounded;
    content' := content;
    if ops != [] {
      var content1 := StepKeepsInv(h, universe, st, content, files, ops[0]);
      content' := RunKeepsInv(h, universe, Step(h, st, ops[0]).value, content1, StoredAfter(files, ops[0]), ops[1..]);
    }
  }

  /** Between covered tasks the index comes back as it was saved. */
  lemma {:induction false} RunsIsRun(h: Bytes -> SHA1FP, universe: iset<Bytes>, st: Store, content: Contents,
                                     files: map<nat, Bytes>, ops: seq<Op>, st': Store)
    requires Inv(h, universe, st, content, files) && Short(content) && CollisionFree(h, universe)
    requires IndexFits(st.index) && Bounded(st) && AdmissibleRun(h, universe, st, ops) && Runs(h, st, ops, st')
    ensures Run(h, st, ops) == Some(st')
    decreases |ops|
  {
    hide Inv, Short, CollisionFree, Admissible, Step, StoredAfter, IndexFits, Reloaded, Bounded;
    if ops != [] {
      var content1 := StepKeepsInv(h, universe, st, content, files, ops[0]);
      var st1 := Step(h, st, ops[0]).value;
      var loaded :| Reloaded(st1.index, loaded) && Runs(h, st1.(index := loaded), ops[1..], st');
      FittingReloads(st1.index, loaded);
      RunsIsRun(h, universe, st1, content1, StoredAfter(files, ops[0]), ops[1..], st');
    }
  }

  /** Some such history exists: the run itself. */
  lemma {:induction false} RunsExists(h: Bytes -> SHA1FP, universe: iset<Bytes>, st: Store, content: Contents,
                                      files: map<nat, Bytes>, ops: seq<Op>)
    requires Inv(h, universe, st, content, files) && Short(content) && CollisionFree(h, universe)
    requires IndexFits(st.index) && Bounded(st) && AdmissibleRun(h, universe, st, ops)
    ensures Run(h, st, ops).Some? && Runs(h, st, ops, Run(h, st, ops).value)
    decreases |ops|
  {
    hide Inv, Short, CollisionFree, Admissible, Step, StoredAfter, IndexFits, Reloaded, Bounded;
    if ops != [] {
      var content1 := StepKeepsInv(h, universe, st, content, files, ops[0]);
      var st1 := Step(h, st, ops[0]).value;
      RunsExists(h, universe, st1, content1, StoredAfter(files, ops[0]), ops[1..]);
      ReloadsItself(st1.index);
      assert st1.(index := st1.index) == st1;
    }
  }

  lemma EmptyIndexFits()
    ensures IndexFits(EmptyStore.index) && Short(map[]) && Bounded(EmptyStore)
  {}

  /** In every store a number below 256 is the name of its recipe, and the numbers a multiple of 256
      above it are restored and deleted as this one. */
  lemma NumbersWrap(st: Store, n: nat, k: nat)
    requires n < 256
    ensures Restore(st, n + 256 * k) == Restore(st, n) && Delete(st, n + 256 * k) == Delete(st, n)
    ensures Restore(st, n) == if n in st.recipes then Assemble(st.index, st.containers, st.recipes[n]) else None
    ensures if n !in st.recipes then Delete(st, n) == Some(st)
            else Delete(st, n).Some? ==> Delete(st, n).value.recipes == st.recipes - {n}
  {
    hide Assemble, DropAll;
  }

  /** After any admissible history from the empty store, with the index saved and loaded after
      every task, restoring a number below 256, or one a multiple of 256 above it, gives exactly the
      bytes that are kept under it, and nothing when there are none. */
  lemma HistoryRestores(h: Bytes -> SHA1FP, universe: iset<Bytes>, ops: seq<Op>, n: nat, k: nat)
    requires CollisionFree(h, universe) && AdmissibleRun(h, universe, EmptyStore, ops) && n < 256
    ensures Run(h, EmptyStore, ops).Some? && Runs(h, EmptyStore, ops, Run(h, EmptyStore, ops).value)
    ensures forall st :: Runs(h, EmptyStore, ops, st) ==>
              && Run(h, EmptyStore, ops) == Some(st)
              && var files := RunStored(map[], ops);
                 Restore(st, n + 256 * k) == if n in files then Some(files[n]) else None
  {
    hide Inv, CollisionFree, AdmissibleRun, Run, Runs, RunStored, IndexFits, Short, Restore, Bounded;
    EmptyStoreInv(h, universe);
    EmptyIndexFits();
    var content := RunKeepsInv(h, universe, EmptyStore, map[], map[], ops);
    InvRestores(h, universe, Run(h, EmptyStore, ops).value, content, RunStored(map[], ops), n + 256 * k);
    RunsExists(h, universe, EmptyStore, map[], map[], ops);
    forall st | Runs(h, EmptyStore, ops, st)
      ensures Run(h, EmptyStore, ops) == Some(st)
    {
      RunsIsRun(h, universe, EmptyStore, map[], map[], ops, st);
    }
  }

  // ---------- Numbers from 256 on ----------

  /** Deleting this number touches no other version. */
  predicate AsAsked(files: map<nat, Bytes>, version: nat)
  {
    version < U8 || (version !in files && RecipeName(version) !in files)
  }

  predicate AllAsAsked(files: map<nat, Bytes>, ops: seq<Op>)
    decreases |ops|
  {
    ops != [] ==>
      && (ops[0].DeleteVersion? ==> AsAsked(files, ops[0].version))
      && AllAsAsked(FilesAfter(files, ops[0]), ops[1..])
  }

  /** A delete removes the version it is asked for, and no other, exactly when the number is below
      256 or neither it nor the number it leads to is live. */
  lemma DeleteAsAskedExactly(h: Bytes -> SHA1FP, universe: iset<Bytes>, st: Store, content: Contents,
                             files: map<nat, Bytes>, version: nat)
    requires Inv(h, universe, st, content, files) && Short(content) && Bounded(st)
    ensures Delete(st, version).Some?
    ensures Delete(st, version).value.recipes.Keys == files.Keys - {version} <==> AsAsked(files, version)
    ensures FilesAfter(files, DeleteVersion(version)) == StoredAfter(files, DeleteVersion(version))
            <==> AsAsked(files, version)
  {
    hide Delete, Layout, Counted, Named, Short, Bounded, Cat;
    var content' := DeleteKeepsInv(h, universe, st, content, files, version);
    SameWithout(files, version, RecipeName(version));
  }

  lemma SameWithout(files: map<nat, Bytes>, a: nat, b: nat)
    ensures (files - {a}).Keys == files.Keys - {a} && (files - {b}).Keys == files.Keys - {b}
    ensures files.Keys - {a} == files.Keys - {b} <==> a == b || (a !in files && b !in files)
    ensures files - {a} == files - {b} <==> a == b || (a !in files && b !in files)
  {
    if a !in files && b !in files { assert files - {a} == files && files - {b} == files; }
    if a in files && a != b { assert a in files - {b} && a !in files - {a}; }
    if b in files && a != b { assert b in files - {a} && b !in files - {b}; }
  }

  lemma {:induction false} RunAsAsked(files: map<nat, Bytes>, ops: seq<Op>)
    requires AllAsAsked(files, ops)
    ensures RunStored(files, ops) == RunFiles(files, ops)
    decreases |ops|
  {
    hide FilesAfter, StoredAfter, AsAsked;
    if ops != [] {
      StepAsAsked(files, ops[0]);
      RunAsAsked(FilesAfter(files, ops[0]), ops[1..]);
    }
  }

  lemma StepAsAsked(files: map<nat, Bytes>, op: Op)
    requires op.DeleteVersion? ==> AsAsked(files, op.version)
    ensures StoredAfter(files, op) == FilesAfter(files, op)
  {
    if op.DeleteVersion? { SameWithout(files, op.version, RecipeName(op.version)); }
  }

  /** A live version comes back under its own number exactly when the number is below 256, or the
      version that it leads to is live and has the same bytes. */
  lemma OwnNumberExactly(h: Bytes -> SHA1FP, universe: iset<Bytes>, st: Store, content: Contents,
                         files: map<nat, Bytes>, v: nat)
    requires Inv(h, universe, st, content, files) && Short(content) && v in files
    ensures Restore(st, v) == Some(files[v]) <==> v < U8 || (RecipeName(v) in files && files[RecipeName(v)] == files[v])
  {
    hide Inv, Short, Restore;
    InvRestores(h, universe, st, content, files, v);
  }

  /** What a user gets: after an admissible history whose deletes touch only what they are asked for,
      every version written and not deleted is restored under its own number, exactly when the
      number is below 256 or leads to a live version with the same bytes. */
  lemma HistoryGivesBack(h: Bytes -> SHA1FP, universe: iset<Bytes>, ops: seq<Op>, v: nat)
    requires CollisionFree(h, universe) && AdmissibleRun(h, universe, EmptyStore, ops) && AllAsAsked(map[], ops)
    requires v in RunFiles(map[], ops)
    ensures forall st :: Runs(h, EmptyStore, ops, st) ==>
              var files := RunFiles(map[], ops);
              (Restore(st, v) == Some(files[v]) <==>
               v < U8 || (RecipeName(v) in files && files[RecipeName(v)] == files[v]))
  {
    hide CollisionFree, AdmissibleRun, Run, Runs, RunFiles, RunStored, AllAsAsked, Restore;
    HistoryRestores(h, universe, ops, RecipeName(v), v / 256);
    RunAsAsked(map[], ops);
  }

  // ---------- Small containers in any history ----------

  lemma StepStaysSmall(h: Bytes -> SHA1FP, st: Store, op: Op)
    requires Small(st.containers) && (op.WriteFile? && op.ch.Valid() ==> Fitting(ChunksOf(op)))
    ensures Step(h, st, op).Some? ==> Small(Step(h, st, op).value.containers)
  {
    hide Small, WriteAt, BuffersHold, DropAll, ChunksOf;
    match op
    case WriteFile(ch, file) =>
      if ch.Valid() { WriteStaysSmall(h, st, ContainerFiles(st), ChunksOf(op), true); }
    case DeleteVersion(version) =>
      if RecipeName(version) in st.recipes { DropAllBounds(st, st.recipes[RecipeName(version)]); }
  }

  /** In every history of chunks below CONTAINER_SIZE all containers stay below it. */
  lemma {:induction false} RunStaysSmall(h: Bytes -> SHA1FP, st: Store, ops: seq<Op>)
    requires Small(st.containers) && forall op :: op in ops && op.WriteFile? && op.ch.Valid() ==> Fitting(ChunksOf(op))
    ensures Run(h, st, ops).Some? ==> Small(Run(h, st, ops).value.containers)
    decreases |ops|
  {
    hide Small, Step;
    if ops != [] {
      StepStaysSmall(h, st, ops[0]);
      if Step(h, st, ops[0]).Some? { RunStaysSmall(h, Step(h, st, ops[0]).value, ops[1..]); }
    }
  }

  lemma InvRestores(h: Bytes -> SHA1FP, universe: iset<Bytes>, st: Store, content: Contents, files: map<nat, Bytes>,
                    version: nat)
    requires Inv(h, universe, st, content, files) && Short(content)
    ensures Restore(st, version) == if RecipeName(version) in files then Some(files[RecipeName(version)]) else None
  {
    hide Layout, Counted, Named, Cat, Assemble;
    var v := RecipeName(version);
    if v in files {
      assert ShortOn(content, st.recipes[v]);
      RestoreExactly(h, universe, st, content, files, version);
    }
  }
}
