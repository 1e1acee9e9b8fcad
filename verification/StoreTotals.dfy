/** Conservation: the containers hold the distinct live chunks and nothing else. */
module StoreTotals {
  import opened Common
  import opened MetadataManager
  import opened StoreModel
  import opened StoreInvariant
  import opened StoreNames

  /** Summed lengths of a set of chunks. */
  ghost function SumOver(content: Contents, fps: set<SHA1FP>): nat
  {
    if fps == {} then 0
    else
      var fp :| fp in fps;
      |Content(content, fp)| + SumOver(content, fps - {fp})
  }

  lemma {:induction false} SumSplit(content: Contents, fps: set<SHA1FP>, fp: SHA1FP)
    requires fp in fps
    ensures SumOver(content, fps) == |Content(content, fp)| + SumOver(content, fps - {fp})
    decreases fps
  {
    var x :| x in fps && SumOver(content, fps) == |Content(content, x)| + SumOver(content, fps - {x});
    if x != fp {
      SumSplit(content, fps - {x}, fp);
      SumSplit(content, fps - {fp}, x);
      assert fps - {x} - {fp} == fps - {fp} - {x};
    }
  }

  lemma {:induction false} SumUnion(content: Contents, a: set<SHA1FP>, b: set<SHA1FP>)
    requires a !! b
    ensures SumOver(content, a + b) == SumOver(content, a) + SumOver(content, b)
    decreases a
  {
    if a == {} {
      assert a + b == b;
    } else {
      var fp :| fp in a;
      SumSplit(content, a, fp);
      SumSplit(content, a + b, fp);
      SumUnion(content, a - {fp}, b);
      assert a + b - {fp} == (a - {fp}) + b;
    }
  }

  lemma {:induction false} SumOfList(content: Contents, rev: seq<SHA1FP>)
    requires NoDup(rev)
    ensures SumOver(content, Members(rev)) == |Cat(content, rev)|
  {
    if rev == [] {
      assert Members(rev) == {};
    } else {
      assert NoDup(rev[1..]);
      SumOfList(content, rev[1..]);
      SumSplit(content, Members(rev), rev[0]);
      assert Members(rev) - {rev[0]} == Members(rev[1..]);
    }
  }

  /** The chunks that live in some containers. */
  function ChunksIn(index: Index, containers: map<nat, Bytes>): set<SHA1FP>
  {
    set fp | fp in index && index[fp].containerNumber in containers
  }

  lemma {:induction false} TotalIsSum(index: Index, content: Contents, part: map<nat, Bytes>,
                                      containers: map<nat, Bytes>, revs: map<nat, seq<SHA1FP>>)
    requires Layout(index, content, containers, revs)
    requires forall c :: c in part ==> c in containers && part[c] == containers[c]
    ensures Total(part) == SumOver(content, ChunksIn(index, part))
    decreases part
  {
    hide Cat;
    if part == map[] {
      assert ChunksIn(index, part) == {};
    } else {
      var c :| c in part;
      TotalSplit(part, c);
      assert Laid(index, content, c, revs[c], containers[c]);
      SumOfList(content, revs[c]);
      TotalIsSum(index, content, part - {c}, containers, revs);
      assert ChunksIn(index, part) == ChunksIn(index, part - {c}) + Members(revs[c]);
      SumUnion(content, ChunksIn(index, part - {c}), Members(revs[c]));
    }
  }

  /** In every reachable store the container files hold exactly the summed lengths of the distinct
      chunks that some live recipe refers to, and no container is empty. */
  lemma ContainersHoldLiveChunks(h: Bytes -> SHA1FP, universe: iset<Bytes>, st: Store, content: Contents,
                                 files: map<nat, Bytes>)
    requires Inv(h, universe, st, content, files)
    ensures Total(st.containers) == SumOver(content, content.Keys)
    ensures forall fp :: fp in content <==> fp in AllRefs(st.recipes)
    ensures NoEmptyFile(st.containers)
  {
    hide Cat;
    TotalIsSum(st.index, content, st.containers, st.containers, st.revs);
    assert ChunksIn(st.index, st.containers) == content.Keys;
    forall c | c in st.containers
      ensures st.containers[c] != []
    {
      var rev := st.revs[c];
      assert Laid(st.index, content, c, rev, st.containers[c]);
      SplitAround(content, rev, 0);
      assert rev[0] in st.index;
    }
  }
}
