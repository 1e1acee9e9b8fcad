/** Histories on the files themselves: every task is a run of the program that loads the index the
    run before it has saved. */
module RepositoryRuns {
  import opened Common
  import opened FastCDC
  import opened Chunking
  import opened MetadataManager
  import opened StoreModel
  import opened StoreInvariant
  import opened StoreIndexFile
  import opened StoreHistory
  import opened StorePacking
  import opened StoreWrite
  import opened ReverseLists
  import opened CDedup

  /** One covered task leaves the files, and the index as it will be loaded, of the specified
      step. */
  method RunTask(r: Repository, h: Bytes -> SHA1FP, op: Op, ghost universe: iset<Bytes>, ghost content: Contents,
                 ghost files: map<nat, Bytes>)
    returns (ghost content': Contents)
    requires Inv(h, universe, r.View(), content, files) && Short(content) && CollisionFree(h, universe)
    requires r.Sound() && IndexFits(r.View().index) && Bounded(r.View()) && Admissible(h, universe, r.View(), op)
    modifies r
    ensures r.Sound() && Step(h, old(r.View()), op) == Some(r.View())
    ensures Inv(h, universe, r.View(), content', StoredAfter(files, op)) && Short(content')
    ensures IndexFits(r.View().index) && Bounded(r.View())
  {
    hide Inv, Short, CollisionFree, FileChunks, WriteAt, Delete, LoadIndex, AllFit, StoredAfter, FreshNames,
         BuffersHold, Bounded, ReadLists, AllWhole;
    content' := StepKeepsInv(h, universe, r.View(), content, files, op);
    match op
    case WriteFile(ch, file) =>
      var g := new Globals(ch);
      r.WriteTask(h, g, file);
    case DeleteVersion(version) =>
      var ok := r.DeleteTask(version);
  }

  /** The whole history from a new repository: what the program finds at its end, the loaded index
      included, is the specified store. */
  method RunHistory(h: Bytes -> SHA1FP, ops: seq<Op>, ghost universe: iset<Bytes>) returns (r: Repository)
    requires CollisionFree(h, universe) && AdmissibleRun(h, universe, EmptyStore, ops)
    ensures fresh(r) && r.Sound() && Run(h, EmptyStore, ops) == Some(r.View())
  {
    hide Inv, Short, CollisionFree, Admissible, Step, StoredAfter, IndexFits, Bounded, ReadLists, AllWhole;
    r := new Repository();
    ghost var content, files := map[], map[];
    EmptyStoreInv(h, universe);
    EmptyIndexFits();
    var i := 0;
    assert ops[0..] == ops;
    while i < |ops|
      invariant i <= |ops| && fresh(r) && r.Sound()
      invariant Inv(h, universe, r.View(), content, files) && Short(content)
      invariant IndexFits(r.View().index) && Bounded(r.View())
      invariant AdmissibleRun(h, universe, r.View(), ops[i..])
      invariant Run(h, r.View(), ops[i..]) == Run(h, EmptyStore, ops)
    {
      assert ops[i..][0] == ops[i] && ops[i..][1..] == ops[i + 1..];
      ghost var files' := StoredAfter(files, ops[i]);
      content := RunTask(r, h, ops[i], universe, content, files);
      files, i := files', i + 1;
    }
  }
}
