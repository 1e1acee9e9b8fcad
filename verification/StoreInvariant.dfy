/** What every reachable store satisfies, and the facts about it that need no operation. */
module StoreInvariant {
  import opened Common
  import opened MetadataManager
  import opened StoreModel

  // ---------- Contents ----------

  type Contents = map<SHA1FP, Bytes>

  function Content(content: Contents, fp: SHA1FP): Bytes
  {
    if fp in content then content[fp] else []
  }

  /** Bytes of a list of chunks. */
  function Cat(content: Contents, fps: seq<SHA1FP>): Bytes
  {
    if fps == [] then [] else Content(content, fps[0]) + Cat(content, fps[1..])
  }

  lemma {:induction false} CatConcat(content: Contents, a: seq<SHA1FP>, b: seq<SHA1FP>)
    ensures Cat(content, a + b) == Cat(content, a) + Cat(content, b)
  {
    if a == [] {
      assert a + b == b;
    } else {
      assert (a + b)[1..] == a[1..] + b;
      CatConcat(content, a[1..], b);
    }
  }

  lemma CatOne(content: Contents, fp: SHA1FP)
    ensures Cat(content, [fp]) == Content(content, fp)
  {
    assert [fp][1..] == [];
  }

  lemma {:induction false} CatFrame(a: Contents, b: Contents, fps: seq<SHA1FP>)
    requires forall fp :: fp in fps ==> Content(a, fp) == Content(b, fp)
    ensures Cat(a, fps) == Cat(b, fps)
  {
    if fps != [] { CatFrame(a, b, fps[1..]); }
  }

  // ---------- Layout of the containers ----------

  /** The chunks of one container lie end to end in reverse-list order, each at its entry's
      offset. */
  ghost predicate Laid(index: Index, content: Contents, c: nat, rev: seq<SHA1FP>, bytes: Bytes)
  {
    && NoDup(rev)
    && bytes == Cat(content, rev)
    && forall i :: 0 <= i < |rev| ==>
         rev[i] in index && index[rev[i]].containerNumber == c && index[rev[i]].offset == |Cat(content, rev[..i])|
  }

  /** Every entry names its chunk: the container that lists it, and the chunk's length in 16 bits. */
  ghost predicate Placed(index: Index, content: Contents, revs: map<nat, seq<SHA1FP>>)
  {
    && index.Keys == content.Keys
    && forall fp :: fp in index ==>
         && content[fp] != []
         && index[fp].chunkLength == |content[fp]| % U16
         && index[fp].containerNumber in revs
         && fp in revs[index[fp].containerNumber]
  }

  ghost predicate Layout(index: Index, content: Contents, containers: map<nat, Bytes>, revs: map<nat, seq<SHA1FP>>)
  {
    && containers.Keys == revs.Keys
    && Placed(index, content, revs)
    && forall c :: c in revs ==> revs[c] != [] && Laid(index, content, c, revs[c], containers[c])
  }

  /** No chunk is too long for the 16-bit length field. */
  ghost predicate Short(content: Contents)
  {
    forall fp :: fp in content ==> |content[fp]| < U16
  }

  // ---------- References ----------

  /** All occurrences of fingerprints in all recipes. */
  ghost function AllRefs(recipes: map<nat, seq<SHA1FP>>): multiset<SHA1FP>
  {
    if recipes == map[] then multiset{}
    else
      var v :| v in recipes;
      multiset(recipes[v]) + AllRefs(recipes - {v})
  }

  lemma {:induction false} AllRefsSplit(recipes: map<nat, seq<SHA1FP>>, v: nat)
    requires v in recipes
    ensures AllRefs(recipes) == multiset(recipes[v]) + AllRefs(recipes - {v})
    decreases recipes
  {
    var u :| u in recipes && AllRefs(recipes) == multiset(recipes[u]) + AllRefs(recipes - {u});
    if u != v {
      AllRefsSplit(recipes - {u}, v);
      AllRefsSplit(recipes - {v}, u);
      assert recipes - {u} - {v} == recipes - {v} - {u};
    }
  }

  /** Every entry counts its occurrences, and nothing else is referenced. */
  ghost predicate Counted(index: Index, refs: multiset<SHA1FP>)
  {
    && (forall fp :: fp in index ==> index[fp].refCnt == refs[fp] && refs[fp] > 0)
    && (forall fp :: fp in refs ==> fp in index)
  }

  // ---------- Fingerprints ----------

  /** No two chunks of `universe` share a fingerprint. */
  ghost predicate CollisionFree(h: Bytes -> SHA1FP, universe: iset<Bytes>)
  {
    forall a, b :: a in universe && b in universe && h(a) == h(b) ==> a == b
  }

  ghost predicate Named(h: Bytes -> SHA1FP, universe: iset<Bytes>, content: Contents)
  {
    forall fp :: fp in content ==> h(content[fp]) == fp && content[fp] in universe
  }

  // ---------- The invariant ----------

  /** `files` are the versions written and not deleted; `content` the chunks they consist of. */
  ghost predicate Inv(h: Bytes -> SHA1FP, universe: iset<Bytes>, st: Store, content: Contents, files: map<nat, Bytes>)
  {
    && Layout(st.index, content, st.containers, st.revs)
    && Counted(st.index, AllRefs(st.recipes))
    && Named(h, universe, content)
    && Holds(content, st.recipes, files)
  }

  /** Each recipe spells its file. */
  ghost predicate Holds(content: Contents, recipes: map<nat, seq<SHA1FP>>, files: map<nat, Bytes>)
  {
    recipes.Keys == files.Keys && forall v :: v in recipes ==> files[v] == Cat(content, recipes[v])
  }

  lemma EmptyStoreInv(h: Bytes -> SHA1FP, universe: iset<Bytes>)
    ensures Inv(h, universe, EmptyStore, map[], map[])
  {}

  /** Every fingerprint of a recipe is in the index: the restore and delete loops never meet a
      missing one. */
  lemma RecipesIndexed(index: Index, recipes: map<nat, seq<SHA1FP>>, v: nat)
    requires Counted(index, AllRefs(recipes)) && v in recipes
    ensures forall fp :: fp in recipes[v] ==> fp in index
  {
    AllRefsSplit(recipes, v);
    assert forall fp :: fp in recipes[v] ==> fp in multiset(recipes[v]);
  }

  /** Without a recipe the index is empty, so not loading it then loses nothing. */
  lemma NoRecipeNoEntry(index: Index, recipes: map<nat, seq<SHA1FP>>)
    requires Counted(index, AllRefs(recipes)) && |recipes| == 0
    ensures index == map[]
  {
    assert recipes == map[];
    assert AllRefs(recipes) == multiset{};
    assert index.Keys == {};
  }

  // ---------- Reading ----------

  /** What the store returns for a chunk: its bytes up to the stored 16-bit length. */
  function Stored(content: Contents): Contents
  {
    map fp | fp in content :: content[fp][..|content[fp]| % U16]
  }

  /** A container splits around any of its chunks. */
  lemma SplitAround(content: Contents, rev: seq<SHA1FP>, i: nat)
    requires i < |rev|
    ensures Cat(content, rev) == Cat(content, rev[..i]) + Content(content, rev[i]) + Cat(content, rev[i + 1..])
  {
    assert rev == rev[..i] + [rev[i]] + rev[i + 1..];
    CatConcat(content, rev[..i] + [rev[i]], rev[i + 1..]);
    CatConcat(content, rev[..i], [rev[i]]);
    CatOne(content, rev[i]);
  }

  lemma Middle(a: Bytes, m: Bytes, b: Bytes, k: nat)
    requires k <= |m|
    ensures (a + m + b)[|a|..|a| + k] == m[..k]
  {}

  lemma SliceIsContent(index: Index, content: Contents, containers: map<nat, Bytes>, revs: map<nat, seq<SHA1FP>>,
                       fp: SHA1FP)
    requires Layout(index, content, containers, revs) && fp in index
    ensures Slice(containers, index[fp]) == Some(Stored(content)[fp])
  {
    hide Cat;
    var e := index[fp];
    var rev := revs[e.containerNumber];
    var i :| 0 <= i < |rev| && rev[i] == fp;
    assert Laid(index, content, e.containerNumber, rev, containers[e.containerNumber]);
    SplitAround(content, rev, i);
    Middle(Cat(content, rev[..i]), content[fp], Cat(content, rev[i + 1..]), e.chunkLength);
  }

  lemma {:induction false} AssembleIsCat(index: Index, content: Contents, containers: map<nat, Bytes>,
                                         revs: map<nat, seq<SHA1FP>>, recipe: seq<SHA1FP>)
    requires Layout(index, content, containers, revs)
    requires forall fp :: fp in recipe ==> fp in index
    ensures Assemble(index, containers, recipe) == Some(Cat(Stored(content), recipe))
  {
    hide Slice;
    if recipe != [] {
      SliceIsContent(index, content, containers, revs, recipe[0]);
      AssembleIsCat(index, content, containers, revs, recipe[1..]);
    }
  }

  lemma {:induction false} AssembleAllOrNone(index: Index, containers: map<nat, Bytes>, recipe: seq<SHA1FP>)
    ensures Assemble(index, containers, recipe).Some? ==> forall fp :: fp in recipe ==> fp in index
  {
    if recipe != [] { AssembleAllOrNone(index, containers, recipe[1..]); }
  }

  /** None of these chunks is too long for the 16-bit length field. */
  ghost predicate ShortOn(content: Contents, fps: seq<SHA1FP>)
  {
    forall fp :: fp in fps ==> |Content(content, fp)| < U16
  }

  lemma StoredOne(content: Contents, fp: SHA1FP)
    ensures |Content(Stored(content), fp)| <= |Content(content, fp)|
    ensures |Content(Stored(content), fp)| == |Content(content, fp)| <==> |Content(content, fp)| < U16
    ensures |Content(content, fp)| < U16 ==> Content(Stored(content), fp) == Content(content, fp)
  {}

  lemma ShortOnFirst(content: Contents, fps: seq<SHA1FP>)
    requires fps != []
    ensures ShortOn(content, fps) <==> |Content(content, fps[0])| < U16 && ShortOn(content, fps[1..])
  {
    hide Content;
    assert forall fp :: fp in fps <==> fp == fps[0] || fp in fps[1..];
  }

  lemma {:induction false} StoredLength(content: Contents, fps: seq<SHA1FP>)
    ensures |Cat(Stored(content), fps)| <= |Cat(content, fps)|
    ensures |Cat(Stored(content), fps)| == |Cat(content, fps)| <==> ShortOn(content, fps)
    ensures ShortOn(content, fps) ==> Cat(Stored(content), fps) == Cat(content, fps)
  {
    if fps == [] {
    } else {
      hide Content, Stored, ShortOn;
      StoredLength(content, fps[1..]);
      StoredOne(content, fps[0]);
      ShortOnFirst(content, fps);
    }
  }

  /** The live version that a number leads to is restored exactly when none of its chunks overflows
      the length field. */
  lemma RestoreExactly(h: Bytes -> SHA1FP, universe: iset<Bytes>, st: Store, content: Contents, files: map<nat, Bytes>,
                       version: nat)
    requires Inv(h, universe, st, content, files) && RecipeName(version) in files
    ensures var v := RecipeName(version); Restore(st, version) == Some(files[v]) <==> ShortOn(content, st.recipes[v])
  {
    hide Layout, Named, Counted, ShortOn, Cat, Stored;
    var v := RecipeName(version);
    var recipe := st.recipes[v];
    RecipesIndexed(st.index, st.recipes, v);
    AssembleIsCat(st.index, content, st.containers, st.revs, recipe);
    StoredLength(content, recipe);
  }
}
