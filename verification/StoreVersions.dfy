/** 257 backups: the number of the last one has more than eight bits, and a restore or delete of it
    hits the first one. */
module StoreVersions {
  import opened Common
  import opened FastCDC
  import opened Chunking
  import opened StoreModel
  import opened StorePacking
  import opened StoreHistory
  import opened StoreNames

  /** The i-th backup: two bytes with its number. */
  function Tiny(i: nat): (r: Bytes)
    ensures |r| == 2
  {
    [i % 256, i / 256 % 256]
  }

  const LAST: nat := U8

  /** One backup after the other, with 4096-byte blocks. */
  function TinyWrites(i: nat, n: nat): (r: seq<Op>)
    requires i <= n
    ensures |r| == n - i
    decreases n - i
  {
    if i == n then [] else [WriteFile(Fixed(4096), Tiny(i))] + TinyWrites(i + 1, n)
  }

  /** The store after the first n of them. */
  function TinyStore(h: Bytes -> SHA1FP, n: nat): Store
  {
    if n == 0 then EmptyStore
    else
      var st, i, fp := TinyStore(h, n - 1), n - 1, h(Tiny(n - 1));
      Store(st.index[fp := EntryValue(2 * i, 0, 2, 0, 1)], st.containers[2 * i := Tiny(i)], st.revs[2 * i := [fp]],
            st.recipes[i := [fp]])
  }

  ghost predicate TiniesDiffer(h: Bytes -> SHA1FP, n: nat)
  {
    forall i, j :: 0 <= i < j < n ==> h(Tiny(i)) != h(Tiny(j))
  }

  function TinyPrints(h: Bytes -> SHA1FP, n: nat): set<SHA1FP>
  {
    if n == 0 then {} else TinyPrints(h, n - 1) + {h(Tiny(n - 1))}
  }

  ghost predicate EvenNames<T>(files: map<nat, T>, n: nat)
  {
    |files| == n && forall c :: c in files ==> c < 2 * n
  }

  lemma OneName<T>(files: map<nat, T>, n: nat, file: T)
    requires EvenNames(files, n)
    ensures EvenNames(files[2 * n := file], n + 1)
  {
    OneMoreKey(files, 2 * n, file);
  }

  /** Names and numbers in that store. */
  ghost predicate TinyNames(h: Bytes -> SHA1FP, st: Store, n: nat)
  {
    && EvenNames(st.containers, n) && EvenNames(st.revs, n) && Numbered(st.recipes) && |st.recipes| == n
    && st.index.Keys == TinyPrints(h, n)
  }

  /** The i-th backup in it. */
  ghost predicate Stands(h: Bytes -> SHA1FP, st: Store, i: nat)
  {
    var fp := h(Tiny(i));
    && fp in st.index && st.index[fp] == EntryValue(2 * i, 0, 2, 0, 1)
    && 2 * i in st.containers && st.containers[2 * i] == Tiny(i)
    && 2 * i in st.revs && st.revs[2 * i] == [fp]
    && i in st.recipes && st.recipes[i] == [fp]
  }

  lemma {:induction false} TinyNamed(h: Bytes -> SHA1FP, n: nat)
    ensures TinyNames(h, TinyStore(h, n), n)
  {
    hide Tiny, Numbered, EvenNames, TinyPrints;
    if n == 0 {
      NoPrint(h);
      NothingNamed<Bytes>();
      NothingNamed<seq<SHA1FP>>();
    } else {
      var st, i := TinyStore(h, n - 1), n - 1;
      TinyNamed(h, i);
      OneName(st.containers, i, Tiny(i));
      OneName(st.revs, i, [h(Tiny(i))]);
      NumberedNext(st.recipes, [h(Tiny(i))]);
      NamedStep(h, st, i, TinyStore(h, n));
    }
  }

  lemma NamedStep(h: Bytes -> SHA1FP, st: Store, i: nat, st': Store)
    requires TinyNames(h, st, i)
    requires st'.index == st.index[h(Tiny(i)) := EntryValue(2 * i, 0, 2, 0, 1)]
    requires EvenNames(st'.containers, i + 1) && EvenNames(st'.revs, i + 1) && Numbered(st'.recipes)
    requires |st'.recipes| == i + 1
    ensures TinyNames(h, st', i + 1)
  {
    hide Tiny, Numbered, EvenNames;
  }

  lemma NoPrint(h: Bytes -> SHA1FP)
    ensures TinyPrints(h, 0) == {}
  {}

  lemma NothingNamed<T>()
    ensures Numbered<T>(map[]) && EvenNames<T>(map[], 0)
  {}

  lemma {:induction false} NotBefore(h: Bytes -> SHA1FP, k: nat, n: nat)
    requires k <= n && TiniesDiffer(h, n + 1)
    ensures h(Tiny(n)) !in TinyPrints(h, k)
  {
    hide Tiny;
    if k > 0 { NotBefore(h, k - 1, n); }
  }

  lemma {:induction false} TinyStands(h: Bytes -> SHA1FP, i: nat, n: nat)
    requires i < n && TiniesDiffer(h, n)
    ensures Stands(h, TinyStore(h, n), i)
  {
    hide Tiny;
    if i < n - 1 {
      TinyStands(h, i, n - 1);
      assert h(Tiny(i)) != h(Tiny(n - 1));
    }
  }

  /** The next backup, as the program writes it. */
  lemma TinyStep(h: Bytes -> SHA1FP, n: nat)
    requires TiniesDiffer(h, n + 1)
    ensures Step(h, TinyStore(h, n), WriteFile(Fixed(4096), Tiny(n))) == Some(TinyStore(h, n + 1))
  {
    hide Tiny, WriteAt, BuffersHold, TinyNames;
    var st, c := TinyStore(h, n), Tiny(n);
    TinyNamed(h, n);
    TinyNew(h, st, n);
    OneChunk(c);
    FewChunksHold(h, StartWrite(st, true), [c]);
    WriteOne(h, st, c);
  }

  lemma TinyNew(h: Bytes -> SHA1FP, st: Store, n: nat)
    requires TinyNames(h, st, n) && TiniesDiffer(h, n + 1)
    ensures h(Tiny(n)) !in st.index && (|st.recipes| == 0 ==> st.index == map[])
    ensures ContainerFiles(st) == 2 * n && |st.recipes| == n
    ensures 2 * n !in st.containers && 2 * n !in st.revs && n !in st.recipes
  {
    hide Tiny;
    NotBefore(h, n, n);
    if n == 0 { assert st.index.Keys == {}; }
  }

  lemma OneChunk(c: Bytes)
    requires 0 < |c| <= 4096
    ensures ChunksOf(WriteFile(Fixed(4096), c)) == [c]
  {
    SmallFileIsOneBuffer(Fixed(4096), 4096, c);
    assert c[..|c|] == c && c[|c|..] == [];
    NothingLeft(Fixed(4096), NextAvg(Fixed(4096), 4096, c));
  }

  lemma {:induction false} TinyRun(h: Bytes -> SHA1FP, i: nat, n: nat)
    requires i <= n && TiniesDiffer(h, n)
    ensures Run(h, TinyStore(h, i), TinyWrites(i, n)) == Some(TinyStore(h, n))
    decreases n - i
  {
    hide Step, TinyStore, Tiny;
    if i < n {
      TinyStep(h, i);
      TinyRun(h, i + 1, n);
      assert TinyWrites(i, n)[1..] == TinyWrites(i + 1, n);
    }
  }

  lemma FirstAndLast()
    ensures Tiny(0) != Tiny(LAST)
  {}

  /** After 257 backups the number 256 gives back the backup 0, and a delete of 256 succeeds and
      removes the backup 0 instead. */
  lemma LastBackupLost(h: Bytes -> SHA1FP)
    requires TiniesDiffer(h, LAST + 1)
    ensures var st := TinyStore(h, LAST + 1);
            && Run(h, EmptyStore, TinyWrites(0, LAST + 1)) == Some(st)
            && Restore(st, LAST) == Some(Tiny(0)) && Tiny(0) != Tiny(LAST)
            && var st' := Delete(st, LAST);
               st'.Some? && 0 !in st'.value.recipes && LAST in st'.value.recipes && Restore(st'.value, 0) == None
  {
    hide Run, TinyWrites, TinyStore, Tiny;
    var st := TinyStore(h, LAST + 1);
    TinyRun(h, 0, LAST + 1);
    assert TinyStore(h, 0) == EmptyStore by { NoBackup(h); }
    TinyStands(h, 0, LAST + 1);
    TinyStands(h, LAST, LAST + 1);
    FirstAndLast();
    FirstRestored(h, st);
    FirstDeleted(h, st);
  }

  lemma NoBackup(h: Bytes -> SHA1FP)
    ensures TinyStore(h, 0) == EmptyStore
  {}

  lemma FirstRestored(h: Bytes -> SHA1FP, st: Store)
    requires Stands(h, st, 0)
    ensures Restore(st, LAST) == Some(Tiny(0))
  {
    hide Tiny;
    var fp := h(Tiny(0));
    assert st.recipes[0] == [fp] && [fp][1..] == [];
    assert Tiny(0)[0..2] == Tiny(0) && Tiny(0) + [] == Tiny(0);
    assert Slice(st.containers, st.index[fp]) == Some(Tiny(0));
    assert Assemble(st.index, st.containers, [fp]) == Some(Tiny(0));
  }

  lemma FirstDeleted(h: Bytes -> SHA1FP, st: Store)
    requires Stands(h, st, 0) && Stands(h, st, LAST)
    ensures var st' := Delete(st, LAST);
            st'.Some? && 0 !in st'.value.recipes && LAST in st'.value.recipes && Restore(st'.value, 0) == None
  {
    hide Tiny;
    var fp := h(Tiny(0));
    assert st.recipes[0] == [fp] && [fp][1..] == [];
    var dropped := DropReference(st, fp);
    assert dropped.Some? && dropped.value.recipes == st.recipes;
    assert DropAll(dropped.value, []) == dropped && DropAll(st, [fp]) == dropped;
    assert 0 in st.recipes && LAST in st.recipes;
    assert Delete(st, LAST) == Some(dropped.value.(recipes := st.recipes - {0}));
  }
}
