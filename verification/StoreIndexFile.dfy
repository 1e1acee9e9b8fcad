/** The index between two runs: it is saved to a file and loaded again, and the file is read up to
    FILE_CACHE bytes only. */
module StoreIndexFile {
  import opened Common
  import opened MetadataManager
  import opened StoreModel
  import opened StoreInvariant

  /** Every field fits its width and one load reads all records. */
  ghost predicate IndexFits(index: Index)
  {
    AllFit(index) && |index| <= MAX_ENTRIES
  }

  /** What a later run may find of a saved index, whatever the order the entries were written in. */
  ghost predicate Reloaded(index: Index, loaded: Index)
  {
    exists rs :: Lists(rs, index) && loaded == LoadIndex(EncodeAll(rs))
  }

  /** Some order to write the entries in. */
  lemma {:induction false} SomeList(m: Index) returns (rs: seq<Record>)
    ensures Lists(rs, m)
    decreases |m|
  {
    rs := [];
    if m != map[] {
      var fp :| fp in m;
      assert (m - {fp})[fp := m[fp]] == m;
      FewerWithout(m, fp);
      rs := SomeList(m - {fp});
      ListOneMore(rs, m - {fp}, (fp, m[fp]));
      rs := rs + [(fp, m[fp])];
    }
  }

  lemma FewerWithout(m: Index, fp: SHA1FP)
    requires fp in m
    ensures |m - {fp}| < |m|
  {
    assert (m - {fp}).Keys == m.Keys - {fp};
    assert |m| == |m.Keys| && |m - {fp}| == |(m - {fp}).Keys|;
  }

  lemma ReloadsItself(index: Index)
    requires IndexFits(index)
    ensures Reloaded(index, index)
  {
    hide Lists, LoadIndex, EncodeAll, AllFit;
    var rs := SomeList(index);
    LoadAfterSave(rs, index);
  }

  lemma FittingReloads(index: Index, loaded: Index)
    requires IndexFits(index) && Reloaded(index, loaded)
    ensures loaded == index
  {
    hide Lists, LoadIndex, EncodeAll, AllFit;
    var rs :| Lists(rs, index) && loaded == LoadIndex(EncodeAll(rs));
    LoadAfterSave(rs, index);
  }

  // ---------- Delete ----------

  lemma {:induction false} ShiftEachFits(m: Index, rev: seq<SHA1FP>, gone: SHA1FP, off: nat, len: nat)
    requires IndexFits(m)
    ensures IndexFits(ShiftEach(m, rev, gone, off, len))
    decreases |rev|
  {
    hide IndexFits, ShiftOne;
    if rev != [] {
      ShiftOneFits(m, rev[0], off, len);
      ShiftEachFits(if rev[0] == gone then m else ShiftOne(m, rev[0], off, len), rev[1..], gone, off, len);
    }
  }

  lemma ShiftOneFits(m: Index, fp: SHA1FP, off: nat, len: nat)
    requires IndexFits(m)
    ensures IndexFits(ShiftOne(m, fp, off, len))
  {
    FewerKeys(ShiftOne(m, fp, off, len), m);
    assert fp in m ==> Fits((fp, m[fp]));
  }

  lemma RemoveFits(m: Index, fp: SHA1FP)
    requires IndexFits(m)
    ensures IndexFits(m - {fp})
  {
    hide Fits;
    FewerKeys(m - {fp}, m);
  }

  lemma DropFits(st: Store, fp: SHA1FP)
    requires IndexFits(st.index)
    ensures DropReference(st, fp).Some? ==> IndexFits(DropReference(st, fp).value.index)
  {
    hide ShiftEach, IndexFits, CutOut;
    if fp in st.index {
      var e := st.index[fp];
      RemoveFits(st.index, fp);
      if e.refCnt > 1 {
        CountDownFits(st.index, fp);
      } else if e.containerNumber in st.revs {
        ShiftEachFits(st.index - {fp}, st.revs[e.containerNumber], fp, e.offset, e.chunkLength);
      }
    }
  }

  lemma CountDownFits(m: Index, fp: SHA1FP)
    requires IndexFits(m) && fp in m && m[fp].refCnt > 1
    ensures IndexFits(m[fp := m[fp].(refCnt := m[fp].refCnt - 1)])
  {
    FewerKeys(m[fp := m[fp].(refCnt := m[fp].refCnt - 1)], m);
    assert Fits((fp, m[fp]));
  }

  lemma {:induction false} DropAllFits(st: Store, fps: seq<SHA1FP>)
    requires IndexFits(st.index)
    ensures DropAll(st, fps).Some? ==> IndexFits(DropAll(st, fps).value.index)
    decreases |fps|
  {
    hide DropReference, IndexFits;
    if fps != [] {
      DropFits(st, fps[0]);
      if DropReference(st, fps[0]).Some? { DropAllFits(DropReference(st, fps[0]).value, fps[1..]); }
    }
  }

  /** A delete never makes an index too large for its file. */
  lemma DeleteFits(st: Store, version: nat)
    requires IndexFits(st.index)
    ensures Delete(st, version).Some? ==> IndexFits(Delete(st, version).value.index)
  {
    hide DropAll, IndexFits;
    if RecipeName(version) in st.recipes { DropAllFits(st, st.recipes[RecipeName(version)]); }
  }

  // ---------- The entry limit ----------

  lemma LoadedSize(file: Bytes)
    ensures |LoadIndex(file)| <= MAX_ENTRIES
  {
    hide Parse, EmplaceAll;
    var read := file[..Min(|file|, FILE_CACHE)];
    assert |Parse(read)| == |read| / META_DATA_SIZE;
  }

  /** Every reference stands in some recipe. */
  lemma {:induction false} RefsSomewhere(recipes: map<nat, seq<SHA1FP>>, fp: SHA1FP) returns (v: nat)
    requires fp in AllRefs(recipes)
    ensures v in recipes && fp in recipes[v]
    decreases recipes
  {
    var u :| u in recipes && AllRefs(recipes) == multiset(recipes[u]) + AllRefs(recipes - {u});
    if fp in recipes[u] {
      v := u;
    } else {
      assert fp !in multiset(recipes[u]);
      v := RefsSomewhere(recipes - {u}, fp);
    }
  }

  /** Every live version comes back after the index has been saved and loaded, exactly when the
      index has at most FILE_CACHE / 36 entries: beyond that some version is no longer restored. */
  lemma ReloadedRestoresAll(h: Bytes -> SHA1FP, universe: iset<Bytes>, st: Store, content: Contents,
                            files: map<nat, Bytes>, loaded: Index)
    requires Inv(h, universe, st, content, files) && Short(content)
    requires AllFit(st.index) && Reloaded(st.index, loaded)
    ensures (forall v :: v in files ==> Assemble(loaded, st.containers, st.recipes[v]) == Some(files[v]))
       <==> |st.index| <= MAX_ENTRIES
  {
    hide Layout, Counted, Named, AllFit, LoadIndex, Lists, EncodeAll, Assemble, Cat, AllRefs, Stored, Short;
    if |st.index| <= MAX_ENTRIES {
      FittingReloads(st.index, loaded);
      forall v | v in files
        ensures Assemble(loaded, st.containers, st.recipes[v]) == Some(files[v])
      {
        LiveAssembles(h, universe, st, content, files, v);
      }
    } else {
      var fp := EntryLost(st.index, loaded);
      var v := ReferredFrom(st.index, st.recipes, fp);
      AssembleAllOrNone(loaded, st.containers, st.recipes[v]);
      assert Assemble(loaded, st.containers, st.recipes[v]) != Some(files[v]);
    }
  }

  lemma EntryLost(index: Index, loaded: Index) returns (fp: SHA1FP)
    requires Reloaded(index, loaded) && |index| > MAX_ENTRIES
    ensures fp in index && fp !in loaded
  {
    hide LoadIndex, Lists, EncodeAll;
    var rs :| Lists(rs, index) && loaded == LoadIndex(EncodeAll(rs));
    LoadedSize(EncodeAll(rs));
    if index.Keys <= loaded.Keys { FewerKeys(index, loaded); }
    fp :| fp in index && fp !in loaded;
  }

  lemma ReferredFrom(index: Index, recipes: map<nat, seq<SHA1FP>>, fp: SHA1FP) returns (v: nat)
    requires Counted(index, AllRefs(recipes)) && fp in index
    ensures v in recipes && fp in recipes[v]
  {
    v := RefsSomewhere(recipes, fp);
  }

  lemma LiveAssembles(h: Bytes -> SHA1FP, universe: iset<Bytes>, st: Store, content: Contents, files: map<nat, Bytes>,
                      v: nat)
    requires Inv(h, universe, st, content, files) && Short(content) && v in files
    ensures Assemble(st.index, st.containers, st.recipes[v]) == Some(files[v])
  {
    hide Layout, Named, Counted, Cat, Stored, Assemble;
    var recipe := st.recipes[v];
    RecipesIndexed(st.index, st.recipes, v);
    AssembleIsCat(st.index, content, st.containers, st.revs, recipe);
    StoredLength(content, recipe);
    assert ShortOn(content, recipe);
  }
}
