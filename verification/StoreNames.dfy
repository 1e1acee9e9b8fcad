/** Names come from counting files in a directory: when that is safe, and what it costs when it
    is not. */
module StoreNames {
  import opened Common
  import opened MetadataManager
  import opened StoreModel
  import opened StoreInvariant
  import opened StoreWrite
  import opened StoreFilling
  import opened StoreHistory
  import opened StoreIndexFile

  // ---------- Stored bytes ----------

  /** Bytes in all files of a directory. */
  ghost function Total(files: map<nat, Bytes>): nat
  {
    if files == map[] then 0
    else
      var k :| k in files;
      |files[k]| + Total(files - {k})
  }

  lemma {:induction false} TotalSplit(files: map<nat, Bytes>, k: nat)
    requires k in files
    ensures Total(files) == |files[k]| + Total(files - {k})
    decreases files
  {
    var j :| j in files && Total(files) == |files[j]| + Total(files - {j});
    if j != k {
      TotalSplit(files - {j}, k);
      TotalSplit(files - {k}, j);
      assert files - {j} - {k} == files - {k} - {j};
    }
  }

  ghost predicate NoEmptyFile(files: map<nat, Bytes>)
  {
    forall k :: k in files ==> files[k] != []
  }

  /** Saving under a free name adds its bytes; saving over an existing file loses some. */
  lemma TotalPut(files: map<nat, Bytes>, name: nat, data: Bytes)
    requires NoEmptyFile(files) && data != []
    ensures Total(Put(files, name, data)) <= Total(files) + |data|
    ensures Total(Put(files, name, data)) == Total(files) + |data| <==> name !in files
    ensures NoEmptyFile(Put(files, name, data))
  {
    var files' := Put(files, name, data);
    TotalSplit(files', name);
    assert files' - {name} == files - {name};
    if name in files {
      TotalSplit(files, name);
    } else {
      assert files - {name} == files;
    }
  }

  /** Bytes of the chunks a write stores anew. */
  function NewBytes(h: Bytes -> SHA1FP, w: Writer, cs: seq<Bytes>): nat
    decreases |cs|
  {
    if cs == [] then 0
    else (if h(cs[0]) in w.origin || h(cs[0]) in w.added then 0 else |cs[0]|)
         + NewBytes(h, WriteChunk(h, w, cs[0]), cs[1..])
  }

  /** Saved containers and the one in memory. */
  ghost function Held(w: Writer): nat
  {
    Total(w.containers) + |w.buf|
  }

  lemma HeldAfterChunk(h: Bytes -> SHA1FP, w: Writer, c: Bytes)
    requires NoEmptyFile(w.containers) && 0 < |c| < CONTAINER_SIZE
    ensures var w' := WriteChunk(h, w, c);
            var extra := if h(c) in w.origin || h(c) in w.added then 0 else |c|;
            && NoEmptyFile(w'.containers)
            && Held(w') <= Held(w) + extra
            && (Held(w') == Held(w) + extra <==> Unused(w.containers, w.ctr, w'.ctr))
            && w.ctr <= w'.ctr <= w.ctr + 1
            && (w'.ctr == w.ctr ==> w'.containers == w.containers)
            && forall d :: d != w.ctr ==> (d in w'.containers <==> d in w.containers)
  {
    hide Total;
    if |w.buf| + |c| >= CONTAINER_SIZE { TotalPut(w.containers, w.ctr, w.buf); }
  }

  lemma {:induction false} HeldAfterChunks(h: Bytes -> SHA1FP, w: Writer, cs: seq<Bytes>)
    requires NoEmptyFile(w.containers) && forall c :: c in cs ==> 0 < |c| < CONTAINER_SIZE
    ensures var w' := WriteChunks(h, w, cs);
            && NoEmptyFile(w'.containers)
            && w.ctr <= w'.ctr
            && Held(w') <= Held(w) + NewBytes(h, w, cs)
            && (Held(w') == Held(w) + NewBytes(h, w, cs) <==> Unused(w.containers, w.ctr, w'.ctr))
            && forall d :: d >= w'.ctr ==> (d in w'.containers <==> d in w.containers)
    decreases |cs|
  {
    hide Held, WriteChunk, NoEmptyFile, Unused;
    if cs == [] {
      UnusedJoin(w, w, w);
    } else {
      var w1 := WriteChunk(h, w, cs[0]);
      HeldAfterChunk(h, w, cs[0]);
      HeldAfterChunks(h, w1, cs[1..]);
      UnusedJoin(w, w1, WriteChunks(h, w, cs));
    }
  }

  lemma UnusedJoin(w: Writer, w1: Writer, w2: Writer)
    requires w.ctr <= w1.ctr <= w.ctr + 1 && w1.ctr <= w2.ctr
    requires w1.ctr == w.ctr ==> w1.containers == w.containers
    requires forall d :: d != w.ctr ==> (d in w1.containers <==> d in w.containers)
    ensures Unused(w.containers, w.ctr, w2.ctr)
       <==> Unused(w.containers, w.ctr, w1.ctr) && Unused(w1.containers, w1.ctr, w2.ctr)
    ensures Unused(w.containers, w.ctr, w.ctr)
  {}

  /** A write stores every new byte exactly when none of the container names it takes is in use: as
      many names as its new chunks fill containers, from the number of files on. */
  lemma WriteConservesBytes(h: Bytes -> SHA1FP, st: Store, cs: seq<Bytes>)
    requires NoEmptyFile(st.containers) && forall c :: c in cs ==> 0 < |c| < CONTAINER_SIZE
    ensures var w := StartWrite(st, true);
            Total(Write(h, st, cs, true).containers) == Total(st.containers) + NewBytes(h, w, cs)
            <==> Unused(st.containers, ContainerFiles(st), ContainerFiles(st) + Filled(NewLengths(h, Known(st), cs)))
  {
    hide Filled, NewLengths, Known, EndName;
    hide Total, Held, WriteChunks, NewBytes, StartAt, FinishWrite, NoEmptyFile, Unused;
    var w := StartWrite(st, true);
    var w' := WriteChunks(h, w, cs);
    StartHeld(st);
    HeldAfterChunks(h, w, cs);
    HeldAfterFinish(w', st.recipes);
    UnusedByOneMore(w.containers, w.ctr, w'.ctr);
    EndNameOf(w');
    NamesTaken(h, st, ContainerFiles(st), cs);
  }

  lemma EndNameOf(w: Writer)
    ensures EndName(w) == if w.buf == [] then w.ctr else w.ctr + 1
  {}

  lemma StartHeld(st: Store)
    ensures var w := StartWrite(st, true);
            w.containers == st.containers && w.ctr == ContainerFiles(st) && Held(w) == Total(st.containers)
  {
    hide Total;
  }

  lemma HeldAfterFinish(w: Writer, recipes: map<nat, seq<SHA1FP>>)
    requires NoEmptyFile(w.containers)
    ensures Total(FinishWrite(w, recipes).containers) <= Held(w)
    ensures Total(FinishWrite(w, recipes).containers) == Held(w) <==> w.buf == [] || w.ctr !in w.containers
  {
    hide Total;
    if w.buf != [] { TotalPut(w.containers, w.ctr, w.buf); }
  }

  lemma UnusedByOneMore(files: map<nat, Bytes>, lo: nat, hi: nat)
    requires lo <= hi
    ensures Unused(files, lo, hi + 1) <==> Unused(files, lo, hi) && hi !in files
  {}

  /** A write adds a version exactly when the number of recipes is not itself a live version. */
  /** Files are opened without being cut: what is written over a longer file leaves its tail. */
  lemma OldTailStays<T>(files: map<nat, seq<T>>, name: nat, data: seq<T>)
    requires name in files
    ensures var file := StoreModel.Put(files, name, data)[name];
            && |file| == (if |data| < |files[name]| then |files[name]| else |data|)
            && forall i :: 0 <= i < |file| ==> file[i] == if i < |data| then data[i] else files[name][i]
  {}

  lemma WriteAddsVersion(h: Bytes -> SHA1FP, st: Store, cs: seq<Bytes>)
    ensures |Write(h, st, cs, true).recipes| == |st.recipes| + 1 <==> |st.recipes| !in st.recipes
  {
    hide WriteChunks;
    var st' := Write(h, st, cs, true);
    assert st'.recipes.Keys == st.recipes.Keys + {|st.recipes|};
    assert |st'.recipes| == |st'.recipes.Keys|;
  }

  // ---------- Write-only histories ----------

  /** Every name in use is below the next one to be taken. */
  ghost predicate Below(st: Store)
  {
    && st.revs.Keys <= st.containers.Keys
    && (forall c :: c in st.containers ==> c < ContainerFiles(st))
    && Numbered(st.recipes)
  }

  /** During a write each saved container is one file more, or two with its list. */
  ghost predicate Growing(w: Writer)
  {
    && w.revs.Keys <= w.containers.Keys
    && (forall c :: c in w.containers ==> c < w.ctr)
    && |w.containers| + |w.revs| >= w.ctr
  }

  lemma GrowBySave(w: Writer)
    requires Growing(w)
    ensures Growing(SaveContainer(w).(ctr := w.ctr + 1))
  {
    var w' := SaveContainer(w);
    assert w.ctr !in w.containers && w.ctr !in w.revs;
    OneMoreKey(w.containers, w.ctr, w.buf);
    OneMoreKey(w.revs, w.ctr, w.rev);
    assert w'.containers == w.containers[w.ctr := w.buf];
  }

  lemma {:induction false} GrowByChunks(h: Bytes -> SHA1FP, w: Writer, cs: seq<Bytes>)
    requires Growing(w)
    ensures Growing(WriteChunks(h, w, cs))
    decreases |cs|
  {
    hide Growing, WriteChunk;
    if cs != [] {
      GrowByChunk(h, w, cs[0]);
      GrowByChunks(h, WriteChunk(h, w, cs[0]), cs[1..]);
    }
  }

  lemma GrowByChunk(h: Bytes -> SHA1FP, w: Writer, c: Bytes)
    requires Growing(w)
    ensures Growing(WriteChunk(h, w, c))
  {
    hide StoreModel.SaveContainer, OneMore;
    GrowBySave(w.(recipe := w.recipe + [h(c)]));
  }

  /** A directory numbered 0..n-1 gets n as the next name. */
  ghost predicate Numbered<T>(files: map<nat, T>)
  {
    forall v :: v in files <==> 0 <= v < |files|
  }

  lemma NumberedNext<T>(files: map<nat, T>, file: T)
    requires Numbered(files)
    ensures |files| !in files && |files[|files| := file]| == |files| + 1 && Numbered(files[|files| := file])
  {
    OneMoreKey(files, |files|, file);
  }

  lemma OneMoreKey<T>(files: map<nat, T>, k: nat, file: T)
    ensures files[k := file].Keys == files.Keys + {k}
    ensures k !in files ==> |files[k := file]| == |files| + 1
  {
    assert |files[k := file]| == |files[k := file].Keys| && |files| == |files.Keys|;
  }

  lemma EmptyBelow()
    ensures Below(EmptyStore) && Numbered<Bytes>(map[])
  {}

  /** A write from such a store, with or without lists, takes only free names and ends in such a
      store. */
  lemma WriteStaysBelow(h: Bytes -> SHA1FP, st: Store, cs: seq<Bytes>)
    requires Below(st)
    ensures FreshNames(h, st, cs) && Below(Write(h, st, cs, true)) && Below(Write(h, st, cs, false))
  {
    hide WriteChunks, Numbered, Growing, EndName, FinishWrite, StartAt;
    WriteGoesBelow(h, st, cs, true);
    WriteGoesBelow(h, st, cs, false);
    NothingAbove(st, EndName(WriteChunks(h, StartWrite(st, true), cs)));
    NumberedNext(st.recipes, []);
  }

  lemma NothingAbove(st: Store, hi: nat)
    requires Below(st)
    ensures Unused(st.containers, ContainerFiles(st), hi)
  {
    hide Numbered;
  }

  lemma WriteGoesBelow(h: Bytes -> SHA1FP, st: Store, cs: seq<Bytes>, keepRevs: bool)
    requires Below(st)
    ensures Below(Write(h, st, cs, keepRevs))
  {
    hide WriteChunks, Numbered;
    var w := StartWrite(st, keepRevs);
    GrowByChunks(h, w, cs);
    NumberedNext(st.recipes, WriteChunks(h, w, cs).recipe);
    FinishBelow(WriteChunks(h, w, cs), st.recipes);
  }

  lemma FinishBelow(w: Writer, recipes: map<nat, seq<SHA1FP>>)
    requires Growing(w) && Numbered(Put(recipes, |recipes|, w.recipe))
    ensures Below(FinishWrite(w, recipes))
  {
    hide Numbered;
    GrowBySave(w);
  }

  /** A write whose chunks fit the length field and are among the collision-free ones. */
  ghost predicate PlainWrite(universe: iset<Bytes>, op: Op)
  {
    && op.WriteFile? && op.ch.Valid()
    && forall c :: c in ChunksOf(op) ==> c in universe && |c| < U16
  }

  /** The history has a result, and its index can be loaded. */
  ghost predicate RunLoads(h: Bytes -> SHA1FP, st: Store, ops: seq<Op>)
  {
    Run(h, st, ops).Some? && IndexFits(Run(h, st, ops).value.index)
  }

  // ---------- The index of a write-only history ----------

  /** Entries stay; only their counts rise. */
  ghost predicate Grows(a: Index, b: Index)
  {
    forall fp :: fp in a ==> fp in b && a[fp].refCnt <= b[fp].refCnt && a[fp] == b[fp].(refCnt := a[fp].refCnt)
  }

  lemma GrowsFits(a: Index, b: Index)
    requires Grows(a, b) && IndexFits(b)
    ensures IndexFits(a)
  {
    FewerKeys(a, b);
    forall fp | fp in a ensures Fits((fp, a[fp])) { assert Fits((fp, b[fp])); }
  }

  lemma GrowsUpdate(m: Index, fp: SHA1FP, e: EntryValue)
    requires fp in m ==> e == m[fp].(refCnt := m[fp].refCnt + 1)
    ensures Grows(m, m[fp := e])
  {}

  lemma UpdateEither(a: Index, b: Index, fp: SHA1FP, e: EntryValue)
    ensures a + b[fp := e] == (a + b)[fp := e]
    ensures fp !in b ==> a[fp := e] + b == (a + b)[fp := e]
  {}

  lemma ReferenceGrows(w: Writer, fp: SHA1FP)
    requires fp in w.origin || fp in w.added
    ensures Grows(IndexOf(w), IndexOf(AddReference(w, fp)))
  {
    hide Grows;
    var m := if fp in w.added then w.added else w.origin;
    var e := m[fp].(refCnt := m[fp].refCnt + 1);
    UpdateEither(w.origin, w.added, fp, e);
    GrowsUpdate(IndexOf(w), fp, e);
  }

  lemma StoreGrows(w: Writer, fp: SHA1FP, c: Bytes)
    requires fp !in w.origin && fp !in w.added
    ensures Grows(IndexOf(w), IndexOf(StoreChunk(w, fp, c)))
  {
    hide StoreModel.Put, Grows;
    var w' := StoreChunk(w, fp, c);
    UpdateEither(w.origin, w.added, fp, w'.added[fp]);
    GrowsUpdate(IndexOf(w), fp, w'.added[fp]);
  }

  lemma ChunkGrows(h: Bytes -> SHA1FP, w: Writer, c: Bytes)
    ensures Grows(IndexOf(w), IndexOf(WriteChunk(h, w, c)))
  {
    hide AddReference, StoreChunk, Grows;
    var v := w.(recipe := w.recipe + [h(c)]);
    assert IndexOf(v) == IndexOf(w);
    if h(c) in w.origin || h(c) in w.added { ReferenceGrows(v, h(c)); } else { StoreGrows(v, h(c), c); }
  }

  lemma {:induction false} ChunksGrow(h: Bytes -> SHA1FP, w: Writer, cs: seq<Bytes>)
    ensures Grows(IndexOf(w), IndexOf(WriteChunks(h, w, cs)))
    decreases |cs|
  {
    hide IndexOf, WriteChunk;
    if cs != [] {
      ChunkGrows(h, w, cs[0]);
      ChunksGrow(h, WriteChunk(h, w, cs[0]), cs[1..]);
    }
  }

  lemma WriteGrows(h: Bytes -> SHA1FP, st: Store, cs: seq<Bytes>)
    requires |st.recipes| == 0 ==> st.index == map[]
    ensures var st' := Write(h, st, cs, true); Grows(st.index, st'.index) && |st'.recipes| > 0
  {
    hide WriteChunks, StoreModel.Put;
    ChunksGrow(h, StartWrite(st, true), cs);
    assert IndexOf(StartWrite(st, true)) == st.index;
    var st' := Write(h, st, cs, true);
    PutNamed(st.recipes, |st.recipes|, WriteChunks(h, StartWrite(st, true), cs).recipe);
    assert |st.recipes| in st'.recipes;
  }

  lemma PutNamed<T>(files: map<nat, seq<T>>, name: nat, data: seq<T>)
    ensures name in StoreModel.Put(files, name, data)
  {}

  /** In a history of writes only, a number gives back the file written under what it is modulo
      256, without any assumption about names, as long as the index the history ends with can be
      loaded: its own file exactly when it is below 256 or both files are the same. */
  lemma WritesRestore(h: Bytes -> SHA1FP, universe: iset<Bytes>, ops: seq<Op>, version: nat)
    requires CollisionFree(h, universe)
    requires forall op :: op in ops ==> PlainWrite(universe, op)
    requires RunLoads(h, EmptyStore, ops) && version < |ops|
    ensures ops[version].WriteFile? && ops[RecipeName(version)].WriteFile?
    ensures forall st :: Runs(h, EmptyStore, ops, st) ==>
              && Restore(st, version) == Some(ops[RecipeName(version)].file)
              && (Restore(st, version) == Some(ops[version].file) <==>
                    version < U8 || ops[RecipeName(version)].file == ops[version].file)
  {
    hide Run, Runs, Restore, ChunksOf, CollisionFree, RunStored, AdmissibleRun, RunLoads, PlainWrite, Below, Numbered;
    EmptyBelow();
    forall op | op in ops ensures op.WriteFile? { PlainIsWrite(universe, op); }
    WritesAdmissible(h, universe, EmptyStore, ops);
    HistoryRestores(h, universe, ops, RecipeName(version), version / 256);
    FilesInOrder(map[], ops, RecipeName(version));
  }

  lemma PlainIsWrite(universe: iset<Bytes>, op: Op)
    requires PlainWrite(universe, op)
    ensures op.WriteFile?
  {}

  lemma {:induction false} WritesAdmissible(h: Bytes -> SHA1FP, universe: iset<Bytes>, st: Store, ops: seq<Op>)
    requires Below(st) && (|st.recipes| == 0 ==> st.index == map[])
    requires forall op :: op in ops ==> PlainWrite(universe, op)
    requires RunLoads(h, st, ops)
    ensures AdmissibleRun(h, universe, st, ops) && Grows(st.index, Run(h, st, ops).value.index)
    decreases |ops|
  {
    hide Write, FreshNames, BuffersHold, Below, ChunksOf, IndexFits;
    if ops != [] {
      assert PlainWrite(universe, ops[0]);
      var st1 := Write(h, st, ChunksOf(ops[0]), true);
      WriteStaysBelow(h, st, ChunksOf(ops[0]));
      WriteGrows(h, st, ChunksOf(ops[0]));
      assert Run(h, st, ops) == Run(h, st1, ops[1..]);
      WritesAdmissible(h, universe, st1, ops[1..]);
      GrowsFits(st1.index, Run(h, st1, ops[1..]).value.index);
    }
  }

  lemma {:induction false} FilesInOrder(files: map<nat, Bytes>, ops: seq<Op>, v: nat)
    requires forall op :: op in ops ==> op.WriteFile?
    requires Numbered(files)
    requires v < |files| + |ops|
    ensures v in RunStored(files, ops)
    ensures RunStored(files, ops)[v] == if v < |files| then files[v] else ops[v - |files|].file
    decreases |ops|
  {
    if ops != [] {
      NumberedNext(files, ops[0].file);
      FilesInOrder(files[|files| := ops[0].file], ops[1..], v);
    }
  }

  // ---------- After a delete ----------

  /** A write of one chunk that the store has not seen. */
  lemma WriteOne(h: Bytes -> SHA1FP, st: Store, c: Bytes)
    requires h(c) !in st.index && 0 < |c| < U16
    requires |st.recipes| == 0 ==> st.index == map[]
    ensures var k := ContainerFiles(st);
            Write(h, st, [c], true) ==
            Store(st.index[h(c) := EntryValue(k, 0, |c|, 0, 1)], Put(st.containers, k, c), st.revs[k := [h(c)]],
                  Put(st.recipes, |st.recipes|, [h(c)]))
  {
    hide Put, WriteChunk, StartAt;
    var w := StartWrite(st, true);
    assert [c][1..] == [] && WriteChunks(h, WriteChunk(h, w, c), []) == WriteChunk(h, w, c);
    FirstChunkStored(h, st, c);
    var e := EntryValue(ContainerFiles(st), 0, |c|, 0, 1);
    assert st.index + map[h(c) := e] == st.index[h(c) := e];
  }

  lemma FirstChunkStored(h: Bytes -> SHA1FP, st: Store, c: Bytes)
    requires h(c) !in st.index && 0 < |c| < U16
    requires |st.recipes| == 0 ==> st.index == map[]
    ensures var k := ContainerFiles(st);
            WriteChunk(h, StartWrite(st, true), c) ==
            Writer(st.index, map[h(c) := EntryValue(k, 0, |c|, 0, 1)], st.containers, st.revs,
                   k, c, 1, [h(c)], [h(c)], true)
  {
    hide Put;
    assert [] + c == c && [] + [h(c)] == [h(c)];
  }

  /** Write two versions, delete the first, write a third: its recipe and its container take the
      names of the second version, which is then restored with the third one's bytes. */
  lemma DeleteThenWriteOverwrites(h: Bytes -> SHA1FP, a: Bytes, b: Bytes, c: Bytes)
    requires h(a) != h(b) && h(b) != h(c) && h(a) != h(c)
    requires |a| == |b| == |c| == 1 && b != c
    ensures var st2 := Write(h, Write(h, EmptyStore, [a], true), [b], true);
            && Restore(st2, 1) == Some(b)
            && Delete(st2, 0).Some?
            && Restore(Delete(st2, 0).value, 1) == Some(b)
            && Restore(Write(h, Delete(st2, 0).value, [c], true), 1) == Some(c)
  {
    hide Write, Restore, Delete;
    TwoWrites(h, a, b);
    var st2, st3 := AfterTwo(h(a), a, h(b), b), AfterDelete(h(b), b);
    DeleteFirst(st2, h(a), a, st3);
    ThirdWrite(h, b, c);
    OneChunkRestores(st2, 1, h(b), b);
    OneChunkRestores(st3, 1, h(b), b);
    OneChunkRestores(Write(h, st3, [c], true), 1, h(c), c);
  }

  function AfterTwo(x: SHA1FP, a: Bytes, y: SHA1FP, b: Bytes): Store
  {
    Store(map[x := EntryValue(0, 0, 1, 0, 1), y := EntryValue(2, 0, 1, 0, 1)],
          map[0 := a, 2 := b], map[0 := [x], 2 := [y]], map[0 := [x], 1 := [y]])
  }

  function AfterDelete(y: SHA1FP, b: Bytes): Store
  {
    Store(map[y := EntryValue(2, 0, 1, 0, 1)], map[2 := b], map[2 := [y]], map[1 := [y]])
  }

  lemma TwoWrites(h: Bytes -> SHA1FP, a: Bytes, b: Bytes)
    requires h(a) != h(b) && |a| == |b| == 1
    ensures Write(h, Write(h, EmptyStore, [a], true), [b], true) == AfterTwo(h(a), a, h(b), b)
  {
    hide Write;
    OneWrite(h, a);
    WriteOne(h, AfterOne(h(a), a), b);
  }

  function AfterOne(x: SHA1FP, a: Bytes): Store
  {
    Store(map[x := EntryValue(0, 0, 1, 0, 1)], map[0 := a], map[0 := [x]], map[0 := [x]])
  }

  lemma OneWrite(h: Bytes -> SHA1FP, a: Bytes)
    requires |a| == 1
    ensures Write(h, EmptyStore, [a], true) == AfterOne(h(a), a)
  {
    hide Write;
    WriteOne(h, EmptyStore, a);
  }

  lemma ThirdWrite(h: Bytes -> SHA1FP, b: Bytes, c: Bytes)
    requires h(b) != h(c) && |b| == |c| == 1
    ensures var st4 := Write(h, AfterDelete(h(b), b), [c], true);
            && 1 in st4.recipes && st4.recipes[1] == [h(c)]
            && h(c) in st4.index && st4.index[h(c)] == EntryValue(2, 0, 1, 0, 1)
            && 2 in st4.containers && st4.containers[2] == c
  {
    hide Write;
    WriteOne(h, AfterDelete(h(b), b), c);
  }

  lemma OneChunkRestores(st: Store, v: nat, fp: SHA1FP, c: Bytes)
    requires v < U8 && v in st.recipes && st.recipes[v] == [fp]
    requires fp in st.index && st.index[fp] == EntryValue(2, 0, 1, 0, 1)
    requires 2 in st.containers && st.containers[2] == c && |c| == 1
    ensures Restore(st, v) == Some(c)
  {
    assert c[0..1] == c && c + [] == c;
    assert Slice(st.containers, st.index[fp]) == Some(c);
    assert [fp][1..] == [];
    assert Assemble(st.index, st.containers, []) == Some([]);
    assert Assemble(st.index, st.containers, [fp]) == Some(c + []);
  }

  lemma DeleteFirst(st: Store, fp: SHA1FP, a: Bytes, st': Store)
    requires 0 in st.recipes && st.recipes[0] == [fp] && |a| == 1
    requires fp in st.index && st.index[fp] == EntryValue(0, 0, 1, 0, 1)
    requires 0 in st.containers && st.containers[0] == a && 0 in st.revs && st.revs[0] == [fp]
    requires st' == Store(st.index - {fp}, st.containers - {0}, st.revs - {0}, st.recipes - {0})
    ensures Delete(st, 0) == Some(st')
  {
    assert CutOut(a, 0, 1) == [];
    var st1 := st'.(recipes := st.recipes);
    assert ContainerDelChunk(st.(index := st.index - {fp}), 0, fp, 0, 1) == Some(st1);
    assert [fp][1..] == [];
    assert DropAll(st1, []) == Some(st1);
    assert DropAll(st, [fp]) == Some(st1);
  }
}
