/** Restore by forward assembly: the recipe is taken window by window, and each window is filled
    in the order in which containers are read instead of in recipe order. */
module FAA {
  import opened Common
  import opened MetadataManager
  import opened StoreModel
  import opened StoreInvariant
  import opened RestoreCaches

  datatype BufferEntry = BufferEntry(cid: nat, length: nat, containerOffset: nat, faaStart: nat, used: bool)

  /** What looking up a fingerprint gives here: an unknown one is not noticed. */
  function EntryOf(index: Index, fp: SHA1FP): EntryValue
  {
    if fp in index then index[fp] else EntryValue(0, 0, 0, 0, 0)
  }

  function Entries(index: Index, recipe: seq<SHA1FP>): (evs: seq<EntryValue>)
    ensures |evs| == |recipe| && forall i :: 0 <= i < |recipe| ==> evs[i] == EntryOf(index, recipe[i])
  {
    seq(|recipe|, i requires 0 <= i < |recipe| => EntryOf(index, recipe[i]))
  }

  function TotalLength(evs: seq<EntryValue>): nat
  {
    if evs == [] then 0 else TotalLength(evs[..|evs| - 1]) + evs[|evs| - 1].chunkLength
  }

  /** The container buffer after a load: the bytes read, then zeros. */
  function LoadBuffer(containers: map<nat, Bytes>, cid: nat): (r: Bytes)
    ensures |r| == CONTAINER_SIZE
  {
    var read := ReadContainer(containers, cid);
    read + seq(CONTAINER_SIZE - |read|, _ => 0)
  }

  /** The copy inside the container buffer fits it. */
  predicate Loadable(e: EntryValue)
  {
    e.offset + e.chunkLength <= CONTAINER_SIZE
  }

  /** The bytes copied for an entry; zeros stand for a copy that would not fit. */
  function Piece(containers: map<nat, Bytes>, e: EntryValue): (r: Bytes)
    ensures |r| == e.chunkLength
  {
    if Loadable(e) then LoadBuffer(containers, e.containerNumber)[e.offset..e.offset + e.chunkLength]
    else seq(e.chunkLength, _ => 0)
  }

  /** Naive concatenation. */
  function Pieces(containers: map<nat, Bytes>, evs: seq<EntryValue>): (r: Bytes)
    ensures |r| == TotalLength(evs)
  {
    if evs == [] then []
    else Pieces(containers, evs[..|evs| - 1]) + Piece(containers, evs[|evs| - 1])
  }

  lemma {:induction false} PiecesConcat(containers: map<nat, Bytes>, a: seq<EntryValue>, b: seq<EntryValue>)
    ensures Pieces(containers, a + b) == Pieces(containers, a) + Pieces(containers, b)
    decreases |b|
  {
    hide Piece, Pieces, TotalLength;
    if b == [] {
      assert a + b == a;
      NoPieces(containers);
    } else {
      var init := b[..|b| - 1];
      PiecesConcat(containers, a, init);
      assert (a + b)[..|a + b| - 1] == a + init && (a + b)[|a + b| - 1] == b[|b| - 1];
      LastPiece(containers, a + b);
      LastPiece(containers, b);
    }
  }

  lemma PieceIsSlice(containers: map<nat, Bytes>, e: EntryValue)
    requires InReach(containers, e)
    ensures Loadable(e) && Slice(containers, e) == Some(Piece(containers, e))
  {
    ReadSlice(containers, e);
    var read := ReadContainer(containers, e.containerNumber);
    assert LoadBuffer(containers, e.containerNumber)[e.offset..e.offset + e.chunkLength]
        == read[e.offset..e.offset + e.chunkLength];
  }

  lemma PiecesOne(containers: map<nat, Bytes>, e: EntryValue)
    ensures Pieces(containers, [e]) == Piece(containers, e)
  {
    assert [e][..0] == [] && Pieces(containers, []) == [];
  }

  /** Forward assembly agrees with the caches exactly when every fingerprint is in the index:
      where they stop, it goes on and leaves the chunk out. */
  lemma PiecesAreAssembled(index: Index, containers: map<nat, Bytes>, recipe: seq<SHA1FP>)
    requires forall fp :: fp in recipe && fp in index ==> InReach(containers, index[fp])
    ensures Assemble(index, containers, recipe) == Some(Pieces(containers, Entries(index, recipe)))
       <==> forall fp :: fp in recipe ==> fp in index
  {
    hide InReach, Slice, Piece, Pieces, Assemble;
    AssembleAllOrNone(index, containers, recipe);
    if forall fp :: fp in recipe ==> fp in index { AllAssembled(index, containers, recipe); }
  }

  lemma {:induction false} AllAssembled(index: Index, containers: map<nat, Bytes>, recipe: seq<SHA1FP>)
    requires forall fp :: fp in recipe ==> fp in index && InReach(containers, index[fp])
    ensures Assemble(index, containers, recipe) == Some(Pieces(containers, Entries(index, recipe)))
  {
    hide InReach, Slice, Piece;
    if recipe != [] {
      var x, rest := EntryOf(index, recipe[0]), recipe[1..];
      AllAssembled(index, containers, rest);
      hide Pieces;
      assert Entries(index, recipe) == [x] + Entries(index, rest);
      PiecesConcat(containers, [x], Entries(index, rest));
      PiecesOne(containers, x);
      PieceIsSlice(containers, x);
    }
  }

  // ---------- One window ----------

  /** The window's entries with their places in the assembling buffer, none of them filled. */
  function Plan(evs: seq<EntryValue>): (r: seq<BufferEntry>)
    ensures |r| == |evs|
  {
    if evs == [] then []
    else
      var init, last := evs[..|evs| - 1], evs[|evs| - 1];
      Plan(init) + [BufferEntry(last.containerNumber, last.chunkLength, last.offset, TotalLength(init), false)]
  }

  lemma EmptyPlan()
    ensures Plan([]) == [] && TotalLength([]) == 0
  {}

  lemma PlanOneMore(evs: seq<EntryValue>, e: EntryValue)
    ensures Plan(evs + [e])
            == Plan(evs) + [BufferEntry(e.containerNumber, e.chunkLength, e.offset, TotalLength(evs), false)]
    ensures TotalLength(evs + [e]) == TotalLength(evs) + e.chunkLength
  {
    assert (evs + [e])[..|evs|] == evs;
  }

  lemma {:induction false} PlanEntry(evs: seq<EntryValue>, i: nat)
    requires i < |evs|
    ensures Plan(evs)[i]
            == BufferEntry(evs[i].containerNumber, evs[i].chunkLength, evs[i].offset, TotalLength(evs[..i]), false)
    decreases |evs|
  {
    if i < |evs| - 1 {
      PlanEntry(evs[..|evs| - 1], i);
      assert evs[..|evs| - 1][..i] == evs[..i];
    }
  }

  /** Places follow one another without overlap. */
  lemma {:induction false} PlanApart(evs: seq<EntryValue>, i: nat, j: nat)
    requires i < j <= |evs|
    ensures TotalLength(evs[..i]) + evs[i].chunkLength <= TotalLength(evs[..j])
  {
    assert evs[..j][..j - 1] == evs[..j - 1];
    if i < j - 1 { PlanApart(evs, i, j - 1); }
  }

  lemma EntriesOneMore(index: Index, recipe: seq<SHA1FP>, start: nat, next: nat)
    requires start <= next < |recipe|
    ensures Entries(index, recipe[start..next + 1])
            == Entries(index, recipe[start..next]) + [EntryOf(index, recipe[next])]
  {
    hide EntryOf;
  }

  /** Takes recipe entries while they fit the assembling buffer. */
  method FillWindow(m: Manager, recipe: seq<SHA1FP>, start: nat)
    returns (entries: seq<BufferEntry>, next: nat, total: nat, ghost evs: seq<EntryValue>)
    requires start < |recipe|
    requires forall fp :: fp in recipe ==> EntryOf(m.origin, fp).chunkLength <= FILE_CACHE
    modifies m`origin
    ensures forall fp :: EntryOf(m.origin, fp) == EntryOf(old(m.origin), fp)
    ensures start < next <= |recipe| && evs == Entries(old(m.origin), recipe[start..next])
    ensures entries == Plan(evs) && total == TotalLength(evs) <= FILE_CACHE
    ensures next < |recipe| ==> total + EntryOf(old(m.origin), recipe[next]).chunkLength > FILE_CACHE
  {
    hide Plan, TotalLength;
    entries, next, total, evs := [], start, 0, [];
    assert Plan([]) == [] && TotalLength([]) == 0 by { EmptyPlan(); }
    var faaStart := 0;
    while next < |recipe|
      invariant start <= next <= |recipe| && (next == start ==> total == 0)
      invariant forall fp :: EntryOf(m.origin, fp) == EntryOf(old(m.origin), fp)
      invariant evs == Entries(old(m.origin), recipe[start..next])
      invariant entries == Plan(evs) && faaStart == total == TotalLength(evs) <= FILE_CACHE
    {
      var ev := m.GetEntry(recipe[next]);
      assert recipe[next] in recipe && ev == EntryOf(old(m.origin), recipe[next]);
      if total + ev.chunkLength > FILE_CACHE {
        break;
      }
      entries := entries + [BufferEntry(ev.containerNumber, ev.chunkLength, ev.offset, faaStart, false)];
      PlanOneMore(evs, ev);
      EntriesOneMore(old(m.origin), recipe, start, next);
      evs := evs + [ev];
      faaStart, total, next := faaStart + ev.chunkLength, total + ev.chunkLength, next + 1;
    }
  }

  ghost predicate At(buf: Bytes, off: nat, bytes: Bytes)
  {
    off + |bytes| <= |buf| && buf[off..off + |bytes|] == bytes
  }

  lemma {:induction false} PrefixTotal(evs: seq<EntryValue>, i: nat)
    requires i < |evs|
    ensures TotalLength(evs[..i]) + evs[i].chunkLength <= TotalLength(evs)
  {
    PlanApart(evs, i, |evs|);
    assert evs[..|evs|] == evs;
  }

  /** The entries are those of the plan, and the used ones have their bytes in place. */
  ghost predicate Filled(containers: map<nat, Bytes>, evs: seq<EntryValue>, entries: seq<BufferEntry>, buf: Bytes)
  {
    |entries| == |evs| && forall i :: 0 <= i < |evs| ==> FilledAt(containers, evs, entries[i], buf, i)
  }

  ghost predicate FilledAt(containers: map<nat, Bytes>, evs: seq<EntryValue>, entry: BufferEntry, buf: Bytes, i: nat)
    requires i < |evs|
  {
    && entry == Plan(evs)[i].(used := entry.used)
    && (entry.used ==> At(buf, TotalLength(evs[..i]), Piece(containers, evs[i])))
  }

  lemma CopyAt(buf: Bytes, st: nat, data: Bytes)
    requires st + |data| <= |buf|
    ensures At(buf[..st] + data + buf[st + |data|..], st, data)
  {}

  lemma CopyElsewhere(buf: Bytes, st: nat, data: Bytes, off: nat, bytes: Bytes)
    requires st + |data| <= |buf| && At(buf, off, bytes)
    requires off + |bytes| <= st || st + |data| <= off
    ensures At(buf[..st] + data + buf[st + |data|..], off, bytes)
  {
    var buf' := buf[..st] + data + buf[st + |data|..];
    assert forall i :: off <= i < off + |bytes| ==> buf'[i] == buf[i];
  }

  /** Copying one chunk into its place leaves the others alone. */
  lemma CopyFills(containers: map<nat, Bytes>, evs: seq<EntryValue>, entries: seq<BufferEntry>, buf: Bytes, j: nat)
    requires Filled(containers, evs, entries, buf) && j < |evs| && TotalLength(evs) <= |buf|
    ensures var st, data := TotalLength(evs[..j]), Piece(containers, evs[j]);
            && st + |data| <= |buf|
            && Filled(containers, evs, entries[j := entries[j].(used := true)], buf[..st] + data + buf[st + |data|..])
  {
    hide At, Piece, TotalLength, Plan;
    var st, data := TotalLength(evs[..j]), Piece(containers, evs[j]);
    PrefixTotal(evs, j);
    CopyAt(buf, st, data);
    var buf' := buf[..st] + data + buf[st + |data|..];
    assert FilledAt(containers, evs, entries[j], buf, j);
    forall i | 0 <= i < |evs| && i != j ensures FilledAt(containers, evs, entries[i], buf', i) {
      assert FilledAt(containers, evs, entries[i], buf, i);
      if entries[i].used {
        if i < j { PlanApart(evs, i, j); } else { PlanApart(evs, j, i); }
        CopyElsewhere(buf, st, data, TotalLength(evs[..i]), Piece(containers, evs[i]));
      }
    }
  }

  lemma AtExtends(buf: Bytes, off: nat, bytes: Bytes)
    requires At(buf, off, bytes)
    ensures off + |bytes| <= |buf| && buf[..off + |bytes|] == buf[..off] + bytes
  {}

  lemma LastPiece(containers: map<nat, Bytes>, evs: seq<EntryValue>)
    requires evs != []
    ensures var init, last := evs[..|evs| - 1], evs[|evs| - 1];
            && Pieces(containers, evs) == Pieces(containers, init) + Piece(containers, last)
            && TotalLength(evs) == TotalLength(init) + |Piece(containers, last)|
  {
    hide Piece;
  }

  /** When every entry is used, the buffer holds the concatenation. */
  lemma {:induction false} AllUsed(containers: map<nat, Bytes>, evs: seq<EntryValue>, buf: Bytes)
    requires forall i :: 0 <= i < |evs| ==> At(buf, TotalLength(evs[..i]), Piece(containers, evs[i]))
    requires TotalLength(evs) <= |buf|
    ensures buf[..TotalLength(evs)] == Pieces(containers, evs)
  {
    hide Piece, Pieces, TotalLength, At;
    if evs == [] {
      EmptyPlan();
      NoPieces(containers);
    } else {
      var init := evs[..|evs| - 1];
      LastPiece(containers, evs);
      forall i | 0 <= i < |init| ensures At(buf, TotalLength(init[..i]), Piece(containers, init[i])) {
        assert init[..i] == evs[..i];
      }
      AtExtends(buf, TotalLength(init), Piece(containers, evs[|evs| - 1]));
      AllUsed(containers, init, buf);
    }
  }

  /** An entry is used exactly when its container has been loaded. */
  ghost predicate Done(evs: seq<EntryValue>, entries: seq<BufferEntry>, lo: nat, hi: nat, loads: seq<nat>)
  {
    |entries| == |evs| && hi <= |evs| &&
    forall i :: lo <= i < hi ==> (entries[i].used <==> evs[i].containerNumber in loads)
  }

  /** The inner loop's first half: an entry that is still empty. */
  method FirstUnused(entries: seq<BufferEntry>) returns (k: nat)
    ensures k <= |entries| && (forall i :: 0 <= i < k ==> entries[i].used)
    ensures k < |entries| ==> !entries[k].used
  {
    k := 0;
    while k < |entries| && entries[k].used
      invariant k <= |entries| && forall i :: 0 <= i < k ==> entries[i].used
    {
      k := k + 1;
    }
  }

  /** Its second half: every empty entry of the loaded container is copied. */
  method CopyFromContainer(assembling: array<byte>, entries: seq<BufferEntry>, cid: nat, containerReadBuffer: Bytes,
                           ghost containers: map<nat, Bytes>, ghost evs: seq<EntryValue>, ghost loads: seq<nat>)
    returns (entries': seq<BufferEntry>)
    requires containerReadBuffer == LoadBuffer(containers, cid) && cid !in loads
    requires forall e :: e in evs ==> Loadable(e)
    requires TotalLength(evs) <= assembling.Length
    requires Filled(containers, evs, entries, assembling[..]) && Done(evs, entries, 0, |evs|, loads)
    modifies assembling
    ensures Filled(containers, evs, entries', assembling[..]) && Done(evs, entries', 0, |evs|, loads + [cid])
  {
    hide Filled, TotalLength, Plan;
    entries' := entries;
    var j := 0;
    while j < |entries'|
      invariant j <= |entries'| == |evs|
      invariant Filled(containers, evs, entries', assembling[..])
      invariant Done(evs, entries', 0, j, loads + [cid]) && Done(evs, entries', j, |evs|, loads)
    {
      FilledEntry(containers, evs, entries', assembling[..], j);
      if !entries'[j].used && entries'[j].cid == cid {
        CopyFills(containers, evs, entries', assembling[..], j);
        var x := entries'[j];
        Memcpy(assembling, x.faaStart, containerReadBuffer[x.containerOffset..x.containerOffset + x.length]);
        entries' := entries'[j := x.(used := true)];
      }
      j := j + 1;
    }
  }

  lemma FilledEntry(containers: map<nat, Bytes>, evs: seq<EntryValue>, entries: seq<BufferEntry>, buf: Bytes, j: nat)
    requires Filled(containers, evs, entries, buf) && j < |evs| && Loadable(evs[j])
    ensures |entries| == |evs|
    ensures entries[j].cid == evs[j].containerNumber && entries[j].faaStart == TotalLength(evs[..j])
    ensures entries[j].containerOffset == evs[j].offset && entries[j].length == evs[j].chunkLength
    ensures Piece(containers, evs[j])
         == LoadBuffer(containers, evs[j].containerNumber)[evs[j].offset..evs[j].offset + evs[j].chunkLength]
  {
    assert FilledAt(containers, evs, entries[j], buf, j);
    PlanEntry(evs, j);
  }

  ghost function Cids(evs: seq<EntryValue>): set<nat>
  {
    set e | e in evs :: e.containerNumber
  }

  /** Fills one window. Each distinct container of the window is loaded exactly once. */
  method AssembleWindow(assembling: array<byte>, plan: seq<BufferEntry>, containers: map<nat, Bytes>,
                        ghost evs: seq<EntryValue>)
    returns (ghost loads: seq<nat>)
    requires forall e :: e in evs ==> Loadable(e)
    requires plan == Plan(evs) && TotalLength(evs) <= assembling.Length
    modifies assembling
    ensures assembling[..TotalLength(evs)] == Pieces(containers, evs)
    ensures NoDup(loads) && Members(loads) == Cids(evs)
  {
    hide Filled, TotalLength, Pieces;
    var entries := plan;
    loads := [];
    NothingUsed(containers, evs, assembling[..]);
    while true
      invariant Filled(containers, evs, entries, assembling[..])
      invariant Done(evs, entries, 0, |evs|, loads)
      invariant NoDup(loads) && Members(loads) <= Cids(evs)
      decreases Cids(evs) - Members(loads)
    {
      var k := FirstUnused(entries);
      if k == |entries| {
        break;
      }
      FilledEntry(containers, evs, entries, assembling[..], k);
      var cid := entries[k].cid;
      assert cid in Cids(evs) && cid !in Members(loads);
      PushBack(loads, cid);
      entries := CopyFromContainer(assembling, entries, cid, LoadBuffer(containers, cid), containers, evs, loads);
      loads := loads + [cid];
    }
    AllFilled(containers, evs, entries, assembling[..]);
    assert Cids(evs) <= Members(loads);
  }

  lemma NothingUsed(containers: map<nat, Bytes>, evs: seq<EntryValue>, buf: Bytes)
    ensures Filled(containers, evs, Plan(evs), buf) && Done(evs, Plan(evs), 0, |evs|, [])
  {
    forall i | 0 <= i < |evs| ensures !Plan(evs)[i].used { PlanEntry(evs, i); }
  }

  lemma AllFilled(containers: map<nat, Bytes>, evs: seq<EntryValue>, entries: seq<BufferEntry>, buf: Bytes)
    requires Filled(containers, evs, entries, buf) && TotalLength(evs) <= |buf|
    requires forall i :: 0 <= i < |entries| ==> entries[i].used
    ensures buf[..TotalLength(evs)] == Pieces(containers, evs)
  {
    hide At, Piece, TotalLength, Plan;
    forall i | 0 <= i < |evs| ensures At(buf, TotalLength(evs[..i]), Piece(containers, evs[i])) {
      assert FilledAt(containers, evs, entries[i], buf, i);
    }
    AllUsed(containers, evs, buf);
  }

  /** The whole recipe. The source tests an unsigned `size() - 1`, so an empty recipe would be
      read out of bounds. */
  method RestoreByAssembly(m: Manager, containers: map<nat, Bytes>, recipe: seq<SHA1FP>) returns (out: Bytes)
    requires recipe != []
    requires forall fp :: fp in recipe ==>
               EntryOf(m.origin, fp).chunkLength <= FILE_CACHE && Loadable(EntryOf(m.origin, fp))
    modifies m`origin
    ensures out == Pieces(containers, Entries(old(m.origin), recipe))
  {
    hide Pieces, Plan, TotalLength, Piece, EntryOf, Loadable;
    var assembling := new byte[FILE_CACHE];
    var recipeOffset := 0;
    ghost var index := m.origin;
    out := [];
    NoPieces(containers);
    while recipeOffset < |recipe|
      invariant recipeOffset <= |recipe|
      invariant forall fp :: EntryOf(m.origin, fp) == EntryOf(index, fp)
      invariant out == Pieces(containers, Entries(index, recipe[..recipeOffset]))
    {
      ghost var before := m.origin;
      var plan, next, total, evs := FillWindow(m, recipe, recipeOffset);
      SameEntries(before, index, recipe[recipeOffset..next]);
      ghost var loads := AssembleWindow(assembling, plan, containers, evs);
      out := out + assembling[..total];
      EntriesConcat(index, recipe, recipeOffset, next);
      PiecesConcat(containers, Entries(index, recipe[..recipeOffset]), evs);
      recipeOffset := next;
    }
    assert recipe[..recipeOffset] == recipe;
  }

  lemma NoPieces(containers: map<nat, Bytes>)
    ensures Pieces(containers, []) == []
  {}

  lemma SameEntries(a: Index, b: Index, recipe: seq<SHA1FP>)
    requires forall fp :: EntryOf(a, fp) == EntryOf(b, fp)
    ensures Entries(a, recipe) == Entries(b, recipe)
  {
    hide EntryOf;
  }

  lemma EntriesConcat(index: Index, recipe: seq<SHA1FP>, i: nat, j: nat)
    requires i <= j <= |recipe|
    ensures Entries(index, recipe[..j]) == Entries(index, recipe[..i]) + Entries(index, recipe[i..j])
  {
    hide EntryOf;
  }
}
