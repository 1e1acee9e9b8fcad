/** Deleting compacts containers in place, keeps them tiled, and leaves every other version as
    it was. */
module StoreDelete {
  import opened Common
  import opened MetadataManager
  import opened StoreModel
  import opened StoreInvariant
  import opened StorePacking
  import opened StoreWrite

  // ---------- Taking one chunk out of its container ----------

  /** The reverse list without its i-th chunk. */
  lemma CatCut(content: Contents, rev: seq<SHA1FP>, i: nat)
    requires NoDup(rev) && i < |rev|
    ensures var content' := content - {rev[i]};
            Cat(content', CutOut(rev, i, 1)) == Cat(content, rev[..i]) + Cat(content, rev[i + 1..])
  {
    var content' := content - {rev[i]};
    CatConcat(content', rev[..i], rev[i + 1..]);
    CatFrame(content', content, rev[..i]);
    CatFrame(content', content, rev[i + 1..]);
  }

  lemma CutMiddle(a: Bytes, m: Bytes, b: Bytes)
    ensures CutOut(a + m + b, |a|, |m|) == a + b
  {}

  /** The index after the chunk is gone: its entry removed, the chunks behind it moved. */
  function AfterCut(index: Index, rev: seq<SHA1FP>, fp: SHA1FP): Index
    requires fp in index
  {
    ShiftOffsets(index - {fp}, rev, fp, index[fp].offset, index[fp].chunkLength)
  }

  /** A chunk keeps its offset in front of the gap and moves by the gap's length behind it. */
  lemma OffsetAfterCut(index: Index, content: Contents, c: nat, rev: seq<SHA1FP>, bytes: Bytes, i: nat, j: nat)
    requires Laid(index, content, c, rev, bytes)
    requires i < |rev| && rev[i] in content && content[rev[i]] != [] && index[rev[i]].chunkLength == |content[rev[i]]|
    requires j < |CutOut(rev, i, 1)|
    ensures var rev', index' := CutOut(rev, i, 1), AfterCut(index, rev, rev[i]);
            && rev'[j] in index' && index'[rev'[j]].containerNumber == c
            && index'[rev'[j]].offset == |Cat(content - {rev[i]}, rev'[..j])|
  {
    hide Cat;
    var rev', content' := CutOut(rev, i, 1), content - {rev[i]};
    if j < i {
      assert rev'[..j] == rev[..j];
      assert rev[..i] == rev[..j] + rev[j..i];
      CatConcat(content, rev[..j], rev[j..i]);
      CatFrame(content', content, rev[..j]);
    } else {
      assert rev[..j + 1] == rev[..i] + ([rev[i]] + rev[i + 1..j + 1]);
      CatConcat(content, rev[..i], [rev[i]] + rev[i + 1..j + 1]);
      CatConcat(content, [rev[i]], rev[i + 1..j + 1]);
      CatOne(content, rev[i]);
      assert rev'[..j] == rev[..i] + rev[i + 1..j + 1];
      CatConcat(content', rev[..i], rev[i + 1..j + 1]);
      CatFrame(content', content, rev[..i]);
      CatFrame(content', content, rev[i + 1..j + 1]);
    }
  }

  /** The container stays tiled: what is left lies end to end, each slice its own chunk. */
  lemma LaidCut(index: Index, content: Contents, c: nat, rev: seq<SHA1FP>, bytes: Bytes, i: nat)
    requires Laid(index, content, c, rev, bytes)
    requires i < |rev| && rev[i] in content && content[rev[i]] != [] && index[rev[i]].chunkLength == |content[rev[i]]|
    ensures var e := index[rev[i]];
            && e.offset + e.chunkLength <= |bytes|
            && Laid(AfterCut(index, rev, rev[i]), content - {rev[i]}, c,
                    CutOut(rev, i, 1), CutOut(bytes, e.offset, e.chunkLength))
  {
    hide Cat, AfterCut;
    var rev' := CutOut(rev, i, 1);
    SplitAround(content, rev, i);
    CutMiddle(Cat(content, rev[..i]), content[rev[i]], Cat(content, rev[i + 1..]));
    CatCut(content, rev, i);
    forall j | 0 <= j < |rev'|
      ensures rev'[j] in AfterCut(index, rev, rev[i])
           && AfterCut(index, rev, rev[i])[rev'[j]].containerNumber == c
           && AfterCut(index, rev, rev[i])[rev'[j]].offset == |Cat(content - {rev[i]}, rev'[..j])|
    {
      OffsetAfterCut(index, content, c, rev, bytes, i, j);
    }
  }

  /** Other containers do not list the removed chunk nor any of the moved ones. */
  lemma LaidElsewhere(index: Index, content: Contents, c: nat, rev: seq<SHA1FP>, bytes: Bytes, fp: SHA1FP,
                      d: nat, rev': seq<SHA1FP>, bytes': Bytes)
    requires Laid(index, content, c, rev, bytes) && fp in rev && fp in index
    requires Laid(index, content, d, rev', bytes') && c != d
    ensures Laid(AfterCut(index, rev, fp), content - {fp}, d, rev', bytes')
  {
    assert forall x :: x in rev ==> index[x].containerNumber == c;
    assert forall x :: x in rev' ==> index[x].containerNumber == d;
    LaidFrame(index, AfterCut(index, rev, fp), content, content - {fp}, d, rev', bytes');
  }

  lemma {:induction false} CatEmpty(content: Contents, fps: seq<SHA1FP>)
    requires forall fp :: fp in fps ==> Content(content, fp) != []
    ensures Cat(content, fps) == [] <==> fps == []
  {}

  lemma PlacedCut(index: Index, content: Contents, revs: map<nat, seq<SHA1FP>>, fp: SHA1FP, i: nat)
    requires Placed(index, content, revs) && fp in index
    requires i < |revs[index[fp].containerNumber]| && revs[index[fp].containerNumber][i] == fp
    ensures var c, rev := index[fp].containerNumber, revs[index[fp].containerNumber];
            && (|rev| > 1 ==> Placed(AfterCut(index, rev, fp), content - {fp}, revs[c := CutOut(rev, i, 1)]))
            && (|rev| == 1 ==> Placed(index - {fp}, content - {fp}, revs - {c}))
  {
    var c, rev := index[fp].containerNumber, revs[index[fp].containerNumber];
    var rev' := CutOut(rev, i, 1);
    forall x | x in rev && x != fp
      ensures x in rev'
    {
      var k :| 0 <= k < |rev| && rev[k] == x;
      assert rev'[if k < i then k else k - 1] == x;
    }
  }

  // ---------- One reference less ----------

  /** What the delete loop keeps between steps, while `refs` still has to be honoured. */
  ghost predicate DropInv(h: Bytes -> SHA1FP, universe: iset<Bytes>, st: Store, content: Contents,
                          refs: multiset<SHA1FP>)
  {
    && Layout(st.index, content, st.containers, st.revs)
    && Counted(st.index, refs)
    && Named(h, universe, content)
    && Short(content)
    && Small(st.containers)
  }

  lemma RemovalFacts(index: Index, content: Contents, containers: map<nat, Bytes>, revs: map<nat, seq<SHA1FP>>,
                     fp: SHA1FP)
    requires Layout(index, content, containers, revs) && fp in index && |Content(content, fp)| < U16
    ensures fp in content && content[fp] != [] && index[fp].chunkLength == |content[fp]|
    ensures var c := index[fp].containerNumber;
            && c in revs && c in containers && fp in revs[c]
            && Laid(index, content, c, revs[c], containers[c])
            && NoDup(revs[c])
            && (forall x :: x in revs[c] ==> x in index && Content(content, x) != [])
  {
    hide Cat;
    var c := index[fp].containerNumber;
    assert Laid(index, content, c, revs[c], containers[c]);
  }

  lemma CutMembers(rev: seq<SHA1FP>, i: nat)
    requires NoDup(rev) && i < |rev|
    ensures forall x :: x in CutOut(rev, i, 1) <==> x in rev && x != rev[i]
  {
    var rev' := CutOut(rev, i, 1);
    forall x | x in rev && x != rev[i]
      ensures x in rev'
    {
      var k :| 0 <= k < |rev| && rev[k] == x;
      assert rev'[if k < i then k else k - 1] == x;
    }
  }

  lemma CutEmpty(content: Contents, rev: seq<SHA1FP>, i: nat)
    requires i < |rev| && NoDup(rev)
    requires forall x :: x in rev ==> Content(content, x) != []
    ensures Cat(content - {rev[i]}, CutOut(rev, i, 1)) == [] <==> |rev| == 1
  {
    CutMembers(rev, i);
    CatEmpty(content - {rev[i]}, CutOut(rev, i, 1));
  }

  lemma AfterCutFacts(index: Index, rev: seq<SHA1FP>, fp: SHA1FP)
    requires fp in index && fp in rev
    ensures AfterCut(index, rev, fp) == ShiftOffsets(index - {fp}, rev, fp, index[fp].offset, index[fp].chunkLength)
    ensures AfterCut(index, rev, fp).Keys == index.Keys - {fp}
    ensures forall x :: x in AfterCut(index, rev, fp) ==> AfterCut(index, rev, fp)[x].refCnt == index[x].refCnt
    ensures |rev| == 1 ==> rev == [fp] && AfterCut(index, rev, fp) == index - {fp}
  {}

  /** Every container is still tiled after one of its chunks has been cut out. */
  lemma LayoutAfterCut(index: Index, content: Contents, containers: map<nat, Bytes>, revs: map<nat, seq<SHA1FP>>,
                       fp: SHA1FP, i: nat)
    requires Layout(index, content, containers, revs) && fp in index && |Content(content, fp)| < U16
    requires i < |revs[index[fp].containerNumber]| && revs[index[fp].containerNumber][i] == fp
    ensures var e, c := index[fp], index[fp].containerNumber;
            var rev := revs[c];
            && e.offset + e.chunkLength <= |containers[c]|
            && var bytes', index' := CutOut(containers[c], e.offset, e.chunkLength), AfterCut(index, rev, fp);
            && (bytes' == [] <==> |rev| == 1)
            && (if |rev| == 1 then Layout(index', content - {fp}, containers - {c}, revs - {c})
                else Layout(index', content - {fp}, containers[c := bytes'], revs[c := CutOut(rev, i, 1)]))
  {
    hide Cat, AfterCut, Laid, Placed, Content, NoDup, CutOut;
    var c := index[fp].containerNumber;
    RemovalFacts(index, content, containers, revs, fp);
    var rev, bytes := revs[c], containers[c];
    LaidCut(index, content, c, rev, bytes, i);
    LaidBytes(AfterCut(index, rev, fp), content - {fp}, c, CutOut(rev, i, 1),
              CutOut(bytes, index[fp].offset, index[fp].chunkLength));
    PlacedCut(index, content, revs, fp, i);
    CutEmpty(content, rev, i);
    AfterCutFacts(index, rev, fp);
    OthersAfterCut(index, content, containers, revs, fp);
    CutLength(rev, i);
  }

  lemma CutLength(rev: seq<SHA1FP>, i: nat)
    requires i < |rev|
    ensures |CutOut(rev, i, 1)| == |rev| - 1
  {}

  lemma LaidBytes(index: Index, content: Contents, c: nat, rev: seq<SHA1FP>, bytes: Bytes)
    requires Laid(index, content, c, rev, bytes)
    ensures bytes == Cat(content, rev)
  {}

  lemma OthersAfterCut(index: Index, content: Contents, containers: map<nat, Bytes>, revs: map<nat, seq<SHA1FP>>,
                       fp: SHA1FP)
    requires Layout(index, content, containers, revs) && fp in index
    ensures var c := index[fp].containerNumber;
            forall d :: d in revs && d != c ==>
              Laid(AfterCut(index, revs[c], fp), content - {fp}, d, revs[d], containers[d])
  {
    hide Cat, AfterCut;
    var c := index[fp].containerNumber;
    assert Laid(index, content, c, revs[c], containers[c]);
    forall d | d in revs && d != c
      ensures Laid(AfterCut(index, revs[c], fp), content - {fp}, d, revs[d], containers[d])
    {
      assert Laid(index, content, d, revs[d], containers[d]);
      LaidElsewhere(index, content, c, revs[c], containers[c], fp, d, revs[d], containers[d]);
    }
  }

  /** Removing the last reference to a chunk succeeds and keeps every container tiled; the
      container and its reverse list disappear together, exactly when it was the last chunk. */
  lemma ChunkRemoval(st: Store, content: Contents, fp: SHA1FP)
    requires Layout(st.index, content, st.containers, st.revs) && fp in st.index && |Content(content, fp)| < U16
    requires ContainerGoesThrough(st, st.index[fp])
    ensures var e := st.index[fp];
            var st' := RemoveChunk(st.(index := st.index - {fp}), e.containerNumber, fp, e.offset, e.chunkLength);
            && st'.Some?
            && st'.value.recipes == st.recipes
            && Layout(st'.value.index, content - {fp}, st'.value.containers, st'.value.revs)
            && (e.containerNumber !in st'.value.containers <==> st.revs[e.containerNumber] == [fp])
            && (e.containerNumber !in st'.value.revs <==> st.revs[e.containerNumber] == [fp])
            && st'.value.index.Keys == st.index.Keys - {fp}
            && (forall x :: x in st'.value.index ==> st'.value.index[x].refCnt == st.index[x].refCnt)
  {
    hide Cat, AfterCut, Laid, Layout, Content, NoDup, CutOut, ShiftOffsets, ShiftEach;
    var e := st.index[fp];
    RemovalFacts(st.index, content, st.containers, st.revs, fp);
    var rev := st.revs[e.containerNumber];
    LayoutAfterCut(st.index, content, st.containers, st.revs, fp, Position(rev, fp).value);
    AfterCutFacts(st.index, rev, fp);
    ShiftEachIsShiftOffsets(st.index - {fp}, rev, fp, e.offset, e.chunkLength);
  }

  lemma ShortChunk(index: Index, content: Contents, containers: map<nat, Bytes>, revs: map<nat, seq<SHA1FP>>,
                   fp: SHA1FP)
    requires Layout(index, content, containers, revs) && Short(content) && fp in index
    ensures |Content(content, fp)| < U16
  {}

  /** What is left of a container's list is shorter by the whole chunk. */
  lemma CutShortens(content: Contents, rev: seq<SHA1FP>, i: nat)
    requires NoDup(rev) && i < |rev|
    ensures |Cat(content - {rev[i]}, CutOut(rev, i, 1))| == |Cat(content, rev)| - |Content(content, rev[i])|
  {
    hide Cat, Content, NoDup;
    CatCut(content, rev, i);
    SplitAround(content, rev, i);
  }

  lemma Overlong(index: Index, content: Contents, containers: map<nat, Bytes>, revs: map<nat, seq<SHA1FP>>, fp: SHA1FP)
    requires Layout(index, content, containers, revs) && fp in index && |Content(content, fp)| >= U16
    ensures var e, c := index[fp], index[fp].containerNumber;
            && c in revs && c in containers && fp in revs[c] && NoDup(revs[c])
            && e.chunkLength < |Content(content, fp)| <= |containers[c]| && |containers[c]| == |Cat(content, revs[c])|
  {
    hide Cat;
    var c := index[fp].containerNumber;
    assert Laid(index, content, c, revs[c], containers[c]);
    var i :| 0 <= i < |revs[c]| && revs[c][i] == fp;
    SplitAround(content, revs[c], i);
  }

  /** A chunk too long for the 16-bit field loses only a part of its bytes: whatever the removal
      leaves is not tiled. */
  lemma OverlongRemoval(st: Store, content: Contents, fp: SHA1FP)
    requires Layout(st.index, content, st.containers, st.revs) && fp in st.index && |Content(content, fp)| >= U16
    ensures var e := st.index[fp];
            var st' := RemoveChunk(st.(index := st.index - {fp}), e.containerNumber, fp, e.offset, e.chunkLength);
            st'.Some? ==> !Layout(st'.value.index, content - {fp}, st'.value.containers, st'.value.revs)
  {
    hide Cat, Content, NoDup, Placed, ShiftEach;
    Overlong(st.index, content, st.containers, st.revs, fp);
    var e, c, rev := st.index[fp], st.index[fp].containerNumber, st.revs[st.index[fp].containerNumber];
    var st' := RemoveChunk(st.(index := st.index - {fp}), c, fp, e.offset, e.chunkLength);
    if st'.Some? && Layout(st'.value.index, content - {fp}, st'.value.containers, st'.value.revs) {
      assert |CutOut(st.containers[c], e.offset, e.chunkLength)| == |st.containers[c]| - e.chunkLength > 0;
      assert c in st'.value.containers;
      CutShortens(content, rev, Position(rev, fp).value);
    }
  }

  /** A list of several chunks goes through the buffer exactly when no more than 209715 stand in front
      of the removed one, and no more behind it. */
  lemma ListCutExactly(rev: seq<SHA1FP>, p: nat)
    requires NoDup(rev) && |rev| > 1 && p < |rev|
    ensures ListGoesThrough(rev, rev[p]) <==> p <= 209715 && |rev| - p - 1 <= 209715
  {
    assert Position(rev, rev[p]).value == p;
  }

  /** A container goes through when neither the stretch cut out of it nor what stands in front of it or
      behind it is longer than 4 MiB. */
  lemma ContainerCutExactly(st: Store, e: EntryValue)
    requires e.containerNumber in st.containers && e.offset + e.chunkLength <= |st.containers[e.containerNumber]|
    ensures ContainerGoesThrough(st, e) <==>
              && e.offset <= 0x40_0000 && e.chunkLength <= 0x40_0000
              && |st.containers[e.containerNumber][e.offset + e.chunkLength..]| <= 0x40_0000
  {}

  /** Removing a chunk succeeds and keeps the containers tiled exactly when its length fits the
      16-bit field, and its container and the reverse list go through the buffer. */
  lemma RemovalExactly(st: Store, content: Contents, fp: SHA1FP)
    requires Layout(st.index, content, st.containers, st.revs) && fp in st.index
    ensures st.index[fp].containerNumber in st.revs
    ensures var e := st.index[fp];
            var st' := ContainerDelChunk(st.(index := st.index - {fp}), e.containerNumber, fp, e.offset, e.chunkLength);
            (st'.Some? && Layout(st'.value.index, content - {fp}, st'.value.containers, st'.value.revs))
            <==> |Content(content, fp)| < U16 && ContainerGoesThrough(st, e)
                 && ListGoesThrough(st.revs[e.containerNumber], fp)
  {
    hide Layout, Content, ShiftEach, CutOut, OneRead;
    EntryListed(st.index, content, st.containers, st.revs, fp);
    if |Content(content, fp)| >= U16 {
      OverlongRemoval(st, content, fp);
    } else if ContainerGoesThrough(st, st.index[fp]) {
      ChunkRemoval(st, content, fp);
    }
  }

  lemma EntryListed(index: Index, content: Contents, containers: map<nat, Bytes>, revs: map<nat, seq<SHA1FP>>,
                    fp: SHA1FP)
    requires Layout(index, content, containers, revs) && fp in index
    ensures index[fp].containerNumber in revs && index[fp].containerNumber in containers
  {}

  lemma CountedLess(index: Index, index': Index, refs: multiset<SHA1FP>, fp: SHA1FP)
    requires Counted(index, refs) && fp in index
    requires forall x :: x in index && x != fp ==> x in index' && index'[x].refCnt == index[x].refCnt
    requires forall x :: x in index' ==> x in index
    requires if index[fp].refCnt > 1 then fp in index' && index'[fp].refCnt == index[fp].refCnt - 1 else fp !in index'
    ensures Counted(index', refs - multiset{fp})
  {}

  /** The chunks left after dropping one reference. */
  function ContentAfterDrop(index: Index, content: Contents, fp: SHA1FP): Contents
  {
    if fp in index && index[fp].refCnt <= 1 then content - {fp} else content
  }

  /** The steps of the delete loop for reverse lists of any length. */
  function DropFree(st: Store, fp: SHA1FP): Option<Store>
  {
    if fp !in st.index then None
    else
      var e := st.index[fp];
      if e.refCnt > 1 then Some(st.(index := st.index[fp := e.(refCnt := e.refCnt - 1)]))
      else RemoveChunk(st.(index := st.index - {fp}), e.containerNumber, fp, e.offset, e.chunkLength)
  }

  function DropAllFree(st: Store, fps: seq<SHA1FP>): Option<Store>
    decreases |fps|
  {
    if fps == [] then Some(st)
    else
      var st' := DropFree(st, fps[0]);
      if st' == None then None else DropAllFree(st'.value, fps[1..])
  }

  /** Lists that fit the buffer go through it, and what is left of them fits again. */
  lemma DropIsFree(st: Store, fp: SHA1FP)
    requires ListsHold(st.revs)
    ensures DropReference(st, fp) == DropFree(st, fp)
    ensures DropReference(st, fp).Some? ==> ListsHold(DropReference(st, fp).value.revs)
  {
    hide RemoveChunk, ListGoesThrough;
    DropBounds(st, fp);
    if fp in st.index && st.index[fp].containerNumber in st.revs {
      BoundedGoThrough(st.revs[st.index[fp].containerNumber], fp);
    }
  }

  lemma {:induction false} DropAllIsFree(st: Store, fps: seq<SHA1FP>)
    requires ListsHold(st.revs)
    ensures DropAll(st, fps) == DropAllFree(st, fps)
    ensures DropAll(st, fps).Some? ==> ListsHold(DropAll(st, fps).value.revs)
    decreases |fps|
  {
    hide DropReference, DropFree, ListsHold;
    if fps != [] {
      DropIsFree(st, fps[0]);
      if DropReference(st, fps[0]).Some? { DropAllIsFree(DropReference(st, fps[0]).value, fps[1..]); }
    }
  }

  lemma SmallGoesThrough(st: Store, e: EntryValue)
    requires Small(st.containers) && e.containerNumber in st.containers && e.chunkLength < U16
    requires e.offset + e.chunkLength <= |st.containers[e.containerNumber]|
    ensures ContainerGoesThrough(st, e)
  {}

  lemma EntryGoesThrough(st: Store, content: Contents, fp: SHA1FP)
    requires Layout(st.index, content, st.containers, st.revs) && Short(content) && Small(st.containers)
    requires fp in st.index
    ensures ContainerGoesThrough(st, st.index[fp])
  {
    hide Cat, Laid;
    SliceIsContent(st.index, content, st.containers, st.revs, fp);
    SmallGoesThrough(st, st.index[fp]);
  }

  /** One step of the delete loop never fails while the reference is still counted. */
  lemma DropKeepsInv(h: Bytes -> SHA1FP, universe: iset<Bytes>, st: Store, content: Contents, refs: multiset<SHA1FP>,
                     fp: SHA1FP)
    requires DropInv(h, universe, st, content, refs) && fp in refs && ListsHold(st.revs)
    ensures var st' := DropReference(st, fp);
            && st'.Some? && st'.value.recipes == st.recipes && ListsHold(st'.value.revs)
            && DropInv(h, universe, st'.value, ContentAfterDrop(st.index, content, fp), refs - multiset{fp})
  {
    hide DropInv, DropReference, DropFree, ListsHold;
    DropIsFree(st, fp);
    FreeDropKeepsInv(h, universe, st, content, refs, fp);
  }

  lemma FreeDropKeepsInv(h: Bytes -> SHA1FP, universe: iset<Bytes>, st: Store, content: Contents,
                         refs: multiset<SHA1FP>, fp: SHA1FP)
    requires DropInv(h, universe, st, content, refs) && fp in refs
    ensures var st' := DropFree(st, fp);
            && st'.Some? && st'.value.recipes == st.recipes
            && DropInv(h, universe, st'.value, ContentAfterDrop(st.index, content, fp), refs - multiset{fp})
  {
    hide Layout, RemoveChunk, Small, ContainerGoesThrough;
    var e := st.index[fp];
    if e.refCnt > 1 {
      LayoutIgnoresCounts(st.index, DropFree(st, fp).value.index, content, st.containers, st.revs);
    } else {
      ShortChunk(st.index, content, st.containers, st.revs, fp);
      EntryGoesThrough(st, content, fp);
      ChunkRemoval(st, content, fp);
      RemovalBounds(st.(index := st.index - {fp}), e.containerNumber, fp, e.offset, e.chunkLength);
    }
    CountedLess(st.index, DropFree(st, fp).value.index, refs, fp);
  }

  /** The whole loop never meets a missing fingerprint, whatever repeats the recipe holds; chunks
      that are still referenced keep their bytes. */
  lemma DropAllKeepsInv(h: Bytes -> SHA1FP, universe: iset<Bytes>, st: Store, content: Contents,
                        base: multiset<SHA1FP>, fps: seq<SHA1FP>) returns (content': Contents)
    requires DropInv(h, universe, st, content, base + multiset(fps)) && ListsHold(st.revs)
    ensures DropAll(st, fps).Some? && DropAll(st, fps).value.recipes == st.recipes
    ensures ListsHold(DropAll(st, fps).value.revs)
    ensures DropInv(h, universe, DropAll(st, fps).value, content', base)
    ensures Extends(content', content)
  {
    hide DropInv, DropAll, DropAllFree, Extends, ListsHold;
    DropAllIsFree(st, fps);
    content' := FreeDropAllKeepsInv(h, universe, st, content, base, fps);
  }

  lemma {:induction false} FreeDropAllKeepsInv(h: Bytes -> SHA1FP, universe: iset<Bytes>, st: Store, content: Contents,
                                               base: multiset<SHA1FP>, fps: seq<SHA1FP>) returns (content': Contents)
    requires DropInv(h, universe, st, content, base + multiset(fps))
    ensures DropAllFree(st, fps).Some? && DropAllFree(st, fps).value.recipes == st.recipes
    ensures DropInv(h, universe, DropAllFree(st, fps).value, content', base)
    ensures Extends(content', content)
    decreases |fps|
  {
    hide DropInv, DropFree, Extends;
    content' := content;
    ExtendsFacts(content, content, content);
    if fps == [] {
      assert base + multiset(fps) == base;
    } else {
      var content1 := ContentAfterDrop(st.index, content, fps[0]);
      RefsSplit(base, fps);
      FreeDropKeepsInv(h, universe, st, content, base + multiset(fps), fps[0]);
      content' := FreeDropAllKeepsInv(h, universe, DropFree(st, fps[0]).value, content1, base, fps[1..]);
      ExtendsDrop(st.index, content, fps[0]);
      ExtendsFacts(content', content1, content);
    }
  }

  lemma RefsSplit(base: multiset<SHA1FP>, fps: seq<SHA1FP>)
    requires fps != []
    ensures fps[0] in base + multiset(fps)
    ensures base + multiset(fps) - multiset{fps[0]} == base + multiset(fps[1..])
  {
    assert fps == [fps[0]] + fps[1..];
  }

  lemma ExtendsDrop(index: Index, content: Contents, fp: SHA1FP)
    ensures Extends(ContentAfterDrop(index, content, fp), content)
  {}

  /** The delete task for reverse lists of any length. */
  function DeleteFree(st: Store, version: nat): Option<Store>
  {
    var v := RecipeName(version);
    if v !in st.recipes then Some(st)
    else
      var st' := DropAllFree(st, st.recipes[v]);
      if st' == None then None else Some(st'.value.(recipes := st.recipes - {v}))
  }

  /** Deleting a version succeeds, keeps the invariant and removes the version that the number leads
      to, and no other. */
  lemma DeleteKeepsInv(h: Bytes -> SHA1FP, universe: iset<Bytes>, st: Store, content: Contents,
                       files: map<nat, Bytes>, version: nat) returns (content': Contents)
    requires Inv(h, universe, st, content, files) && Short(content) && Bounded(st)
    ensures Delete(st, version).Some? && Short(content') && Bounded(Delete(st, version).value)
    ensures Inv(h, universe, Delete(st, version).value, content', files - {RecipeName(version)})
  {
    hide Inv, Short, DropAll, DropAllFree, Small, ListsHold;
    var v := RecipeName(version);
    if v in st.recipes { DropAllIsFree(st, st.recipes[v]); }
    content' := FreeDeleteKeepsInv(h, universe, st, content, files, version);
  }

  lemma FreeDeleteKeepsInv(h: Bytes -> SHA1FP, universe: iset<Bytes>, st: Store, content: Contents,
                           files: map<nat, Bytes>, version: nat) returns (content': Contents)
    requires Inv(h, universe, st, content, files) && Short(content) && Small(st.containers)
    ensures DeleteFree(st, version).Some? && Short(content') && Small(DeleteFree(st, version).value.containers)
    ensures Inv(h, universe, DeleteFree(st, version).value, content', files - {RecipeName(version)})
  {
    hide Layout, Counted, Named, AllRefs, Cat, DropAllFree, Small;
    var v := RecipeName(version);
    if v !in st.recipes {
      assert files - {v} == files;
      return content;
    }
    AllRefsSplit(st.recipes, v);
    assert AllRefs(st.recipes) == AllRefs(st.recipes - {v}) + multiset(st.recipes[v]);
    content' := FreeDropAllKeepsInv(h, universe, st, content, AllRefs(st.recipes - {v}), st.recipes[v]);
    var st' := DropAllFree(st, st.recipes[v]).value;
    LayoutKeys(st'.index, content', st'.containers, st'.revs);
    HoldsAfterDelete(st'.index, content, content', st.recipes, files, v);
  }

  lemma LayoutKeys(index: Index, content: Contents, containers: map<nat, Bytes>, revs: map<nat, seq<SHA1FP>>)
    requires Layout(index, content, containers, revs)
    ensures index.Keys == content.Keys
  {}

  lemma HoldsAfterDelete(index: Index, content: Contents, content': Contents, recipes: map<nat, seq<SHA1FP>>,
                         files: map<nat, Bytes>, v: nat)
    requires Holds(content, recipes, files) && Extends(content', content)
    requires Counted(index, AllRefs(recipes - {v})) && index.Keys == content'.Keys
    ensures Holds(content', recipes - {v}, files - {v})
  {
    hide Cat, AllRefs, Counted;
    forall u | u in recipes - {v}
      ensures files[u] == Cat(content', recipes[u])
    {
      RecipesIndexed(index, recipes - {v}, u);
      CatExtends(content', content, recipes[u]);
    }
  }
}
