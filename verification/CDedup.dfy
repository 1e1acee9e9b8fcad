/** The write and delete tasks as main.cpp runs them, step by step on files, tables and buffers,
    proved against StoreModel. */
module CDedup {
  import opened Common
  import opened FastCDC
  import opened Chunking
  import opened MetadataManager
  import opened StoreModel
  import opened ReverseLists

  class Repository {
    // The directories and the index file.
    var containers: map<nat, Bytes>
    var revFiles: map<nat, Bytes>
    var recipes: map<nat, seq<SHA1FP>>
    var indexFile: Bytes

    // Globals and locals of a run.
    var mm: Manager
    var containerBuf: array<byte>
    var containerBufPointer: nat
    var containerIndex: nat
    var containerInnerOffset: nat
    var containerInnerIndex: nat
    var revContainerBuf: array<SHA1FP>
    var revContainerCnt: nat
    var fileRecipe: seq<SHA1FP>

    /** What the next task will find. */
    ghost function View(): Store
      reads this
    {
      Store(LoadIndex(indexFile), containers, ReadLists(revFiles), recipes)
    }

    /** Every reverse-list file holds the fingerprints it counts. */
    ghost predicate Sound()
      reads this
    {
      AllWhole(revFiles)
    }

    ghost predicate Valid()
      reads this, mm, containerBuf
    {
      && mm.Valid() && Sound()
      && containerBuf.Length == CONTAINER_SIZE && revContainerBuf.Length == REV_CAPACITY
      && containerBufPointer == containerInnerOffset <= CONTAINER_SIZE
      && revContainerCnt <= REV_CAPACITY
    }

    ghost function Running(): Writer
      reads this, mm, containerBuf, revContainerBuf
      requires Valid()
    {
      Writer(mm.origin, mm.added, containers, ReadLists(revFiles), containerIndex, containerBuf[..containerBufPointer],
             containerInnerIndex, revContainerBuf[..revContainerCnt], fileRecipe, true)
    }

    constructor ()
      ensures View() == EmptyStore && Sound()
    {
      containers, revFiles, recipes, indexFile := map[], map[], map[], [];
      mm := new Manager();
      containerBuf, revContainerBuf := new byte[CONTAINER_SIZE], new SHA1FP[REV_CAPACITY];
      containerBufPointer, containerIndex, containerInnerOffset, containerInnerIndex := 0, 0, 0, 0;
      revContainerCnt, fileRecipe := 0, [];
      new;
      assert LoadIndex([]) == map[];
    }

    /** A new process: the index is loaded when there is a recipe. */
    method Start()
      modifies this`mm, this`revContainerCnt
      ensures fresh(mm) && mm.Valid() && mm.added == map[] && revContainerCnt == 0
      ensures mm.origin == if |recipes| == 0 then map[] else LoadIndex(indexFile)
    {
      mm := new Manager();
      revContainerCnt := 0;
      if |recipes| != 0 {
        mm.Load(indexFile);
      }
    }

    method SaveContainer()
      requires Valid()
      modifies this`containers, this`revFiles
      ensures Valid() && Running() == StoreModel.SaveContainer(old(Running()))
    {
      hide StoreModel.Put, ReadLists, AllWhole, ListFile;
      ListSaved(revFiles, containerIndex, revContainerBuf[..revContainerCnt]);
      containers := Put(containers, containerIndex, containerBuf[..containerBufPointer]);
      revFiles := Put(revFiles, containerIndex, ListFile(revContainerBuf[..revContainerCnt]));
    }

    /** Saves the container in memory and starts the next one when the chunk does not fit. */
    method FlushIfFull(length: nat)
      requires Valid()
      modifies this`containers, this`revFiles, this`containerIndex, this`containerInnerOffset, this`containerInnerIndex,
               this`containerBufPointer, this`revContainerCnt
      ensures Valid() && (length <= CONTAINER_SIZE ==> containerBufPointer + length <= CONTAINER_SIZE)
      ensures Running()
                == if |old(Running()).buf| + length >= CONTAINER_SIZE
                   then FlushContainer(old(Running()))
                   else old(Running())
    {
      hide StoreModel.SaveContainer, ReadLists, AllWhole;
      if containerBufPointer + length >= CONTAINER_SIZE {
        SaveContainer();
        containerIndex := containerIndex + 1;
        containerInnerOffset, containerBufPointer, containerInnerIndex := 0, 0, 0;
        revContainerCnt := 0;
      }
    }

    /** The chunk goes into the container buffer, its fingerprint into the list buffer. */
    method SaveChunkToContainer(fp: SHA1FP, chunk: Bytes)
      requires Valid() && RoomFor(Running(), fp, chunk) && fp !in mm.origin && fp !in mm.added
      modifies this`containers, this`revFiles, this`containerIndex, this`containerInnerOffset, this`containerInnerIndex,
               this`containerBufPointer, this`revContainerCnt, containerBuf, revContainerBuf
      ensures Valid() && containerBufPointer + |chunk| <= CONTAINER_SIZE && revContainerCnt < REV_CAPACITY
      ensures Running() ==
              if |old(Running()).buf| + |chunk| >= CONTAINER_SIZE
              then FlushContainer(old(Running()))
              else old(Running())
      ensures containerBuf[..containerBufPointer + |chunk|] == Running().buf + chunk
      ensures revContainerBuf[..revContainerCnt + 1] == Running().rev + [fp]
    {
      hide FlushContainer, ReadLists, AllWhole;
      RoomLeft(Running(), fp, chunk);
      FlushIfFull(|chunk|);
      ghost var held, listed := containerBuf[..containerBufPointer], revContainerBuf[..revContainerCnt];
      Memcpy(containerBuf, containerBufPointer, chunk);
      revContainerBuf[revContainerCnt] := fp;
      assert containerBuf[..containerBufPointer] == held && revContainerBuf[..revContainerCnt] == listed;
      assert containerBuf[..containerBufPointer + |chunk|] == held + chunk;
      assert revContainerBuf[..revContainerCnt + 1] == listed + [fp];
    }

    /** The entry of a chunk that has been copied, and the counters of the container. */
    method NoteChunk(fp: SHA1FP, length: nat)
      requires Valid() && containerBufPointer + length <= CONTAINER_SIZE && revContainerCnt < REV_CAPACITY
      requires fp !in mm.origin && fp !in mm.added
      modifies this`containerInnerOffset, this`containerInnerIndex, this`containerBufPointer, this`revContainerCnt,
               mm`added
      ensures Valid()
      ensures var w := old(Running());
              Running() == w.(added := w.added[fp := EntryValue(w.ctr, |w.buf|, length % U16, w.inner, 1)],
                              buf := old(containerBuf[..containerBufPointer + length]),
                              inner := (w.inner + 1) % U16,
                              rev := old(revContainerBuf[..revContainerCnt + 1]))
    {
      hide ReadLists, AllWhole;
      mm.AddNewEntry(fp, EntryValue(containerIndex, containerInnerOffset, length % U16, containerInnerIndex, 1));
      containerInnerOffset := containerInnerOffset + length;
      containerBufPointer := containerBufPointer + length;
      containerInnerIndex := (containerInnerIndex + 1) % U16;
      revContainerCnt := revContainerCnt + 1;
    }

    /** A chunk the index does not know: its bytes, its entry, its place on the reverse list. */
    method StoreUnique(fp: SHA1FP, chunk: Bytes)
      requires Valid() && RoomFor(Running(), fp, chunk) && fp !in mm.origin && fp !in mm.added
      modifies this`containers, this`revFiles, this`containerIndex, this`containerInnerOffset, this`containerInnerIndex,
               this`containerBufPointer, this`revContainerCnt, containerBuf, revContainerBuf, mm`added
      ensures Valid() && Running() == StoreChunk(old(Running()), fp, chunk)
    {
      hide FlushContainer, ReadLists, AllWhole, RoomFor, StoreChunk;
      StoreChunkIs(Running(), fp, chunk);
      SaveChunkToContainer(fp, chunk);
      NoteChunk(fp, |chunk|);
    }

    method WriteOneChunk(h: Bytes -> SHA1FP, chunk: Bytes)
      requires Valid() && RoomFor(Running(), h(chunk), chunk)
      modifies this`containers, this`revFiles, this`containerIndex, this`containerInnerOffset, this`containerInnerIndex,
               this`containerBufPointer, this`revContainerCnt, this`fileRecipe, containerBuf, revContainerBuf, mm
      ensures Valid() && Running() == WriteChunk(h, old(Running()), chunk)
    {
      hide StoreChunk, OneMore, ReadLists, AllWhole;
      RoomAside(Running(), h(chunk), chunk);
      var fp := h(chunk);
      fileRecipe := fileRecipe + [fp];
      var lookup := mm.DedupLookup(fp);
      if lookup == Unique {
        StoreUnique(fp, chunk);
      } else {
        var _ := mm.AddRefCnt(fp);
        assert mm.origin.Keys == old(mm.origin).Keys && mm.added.Keys == old(mm.added).Keys by {
          OneMoreKeys(old(mm.origin), fp);
          OneMoreKeys(old(mm.added), fp);
        }
      }
    }

    /** The inner loop of a write: one read's worth of the file. */
    method WriteSegment(h: Bytes -> SHA1FP, g: Globals, cache: Bytes)
      requires Valid() && g.Valid() && |cache| <= FILE_CACHE
      requires BuffersHold(h, Running(), Chunks(g.ch, g.avg, cache))
      modifies this`containers, this`revFiles, this`containerIndex, this`containerInnerOffset, this`containerInnerIndex,
               this`containerBufPointer, this`revContainerCnt, this`fileRecipe, containerBuf, revContainerBuf, mm, g`avg
      ensures Valid() && g.Valid()
      ensures Running() == WriteChunks(h, old(Running()), Chunks(g.ch, old(g.avg), cache))
      ensures g.avg == AvgAfter(g.ch, old(g.avg), cache)
    {
      hide WriteChunk, WriteChunks, Chunks, AvgAfter, Cut, NextAvg, RoomFor, BuffersHold, ReadLists, AllWhole;
      var fileOffset := 0;
      assert cache[0..] == cache;
      while fileOffset < |cache|
        invariant fileOffset <= |cache| && Valid() && g.Valid()
        invariant mm == old(mm) && containerBuf == old(containerBuf) && revContainerBuf == old(revContainerBuf)
        invariant BuffersHold(h, Running(), Chunks(g.ch, g.avg, cache[fileOffset..]))
        invariant WriteChunks(h, Running(), Chunks(g.ch, g.avg, cache[fileOffset..]))
               == WriteChunks(h, old(Running()), Chunks(g.ch, old(g.avg), cache))
        invariant AvgAfter(g.ch, g.avg, cache[fileOffset..]) == AvgAfter(g.ch, old(g.avg), cache)
      {
        ghost var rest := cache[fileOffset..];
        WriteFirstChunk(h, Running(), g.ch, g.avg, rest);
        var chunkLength := g.Chunking(cache[fileOffset..]);
        assert rest[..chunkLength] == cache[fileOffset..fileOffset + chunkLength];
        WriteOneChunk(h, cache[fileOffset..fileOffset + chunkLength]);
        fileOffset := fileOffset + chunkLength;
        assert rest[chunkLength..] == cache[fileOffset..];
      }
      assert cache[fileOffset..] == [];
      NothingLeft(g.ch, g.avg);
      WriteNothing(h, Running());
    }

    method NewBuffers()
      modifies this`containerBuf, this`revContainerBuf
      ensures fresh(containerBuf) && fresh(revContainerBuf)
      ensures containerBuf.Length == CONTAINER_SIZE && revContainerBuf.Length == REV_CAPACITY
    {
      containerBuf, revContainerBuf := new byte[CONTAINER_SIZE], new SHA1FP[REV_CAPACITY];
    }

    /** The state a write starts from. */
    method Begin()
      modifies this`mm, this`revContainerCnt, this`containerIndex, this`containerInnerOffset, this`containerInnerIndex,
               this`containerBufPointer, this`containerBuf, this`revContainerBuf, this`fileRecipe
      requires Sound()
      ensures fresh(mm) && fresh(containerBuf) && fresh(revContainerBuf) && Valid()
      ensures Running() == StartWrite(View(), true)
    {
      hide LoadIndex, ReadLists, AllWhole;
      ghost var st := View();
      NewBuffers();
      containerInnerOffset, containerInnerIndex, containerBufPointer := 0, 0, 0;
      containerIndex := |containers| + |revFiles|;
      SameNames(revFiles);
      fileRecipe := [];
      Start();
      assert View() == st && containerBuf[..containerBufPointer] == [];
      assert Running() == Writer(mm.origin, map[], st.containers, st.revs, containerIndex, [], 0, [], [], true);
    }

    /** The outer loop of a write: FILE_CACHE bytes at a time until nothing is read. */
    method WriteReads(h: Bytes -> SHA1FP, g: Globals, file: Bytes)
      requires Valid() && g.Valid() && BuffersHold(h, Running(), FileChunks(g.ch, g.avg, file))
      modifies this`containers, this`revFiles, this`containerIndex, this`containerInnerOffset, this`containerInnerIndex,
               this`containerBufPointer, this`revContainerCnt, this`fileRecipe, containerBuf, revContainerBuf, mm, g`avg
      ensures Valid() && Running() == WriteChunks(h, old(Running()), FileChunks(g.ch, old(g.avg), file))
    {
      hide WriteChunks, Chunks, AvgAfter, BuffersHold, ReadLists, AllWhole;
      var rest := file;
      while rest != []
        invariant Valid() && g.Valid() && mm == old(mm) && containerBuf == old(containerBuf)
        invariant revContainerBuf == old(revContainerBuf)
        invariant BuffersHold(h, Running(), FileChunks(g.ch, g.avg, rest))
        invariant WriteChunks(h, Running(), FileChunks(g.ch, g.avg, rest))
               == WriteChunks(h, old(Running()), FileChunks(g.ch, old(g.avg), file))
        decreases |rest|
      {
        var n := Min(|rest|, FILE_CACHE);
        ghost var first := Chunks(g.ch, g.avg, rest[..n]);
        ghost var later := FileChunks(g.ch, AvgAfter(g.ch, g.avg, rest[..n]), rest[n..]);
        WriteChunksConcat(h, Running(), first, later);
        BuffersHoldConcat(h, Running(), first, later);
        WriteSegment(h, g, rest[..n]);
        rest := rest[n..];
      }
      NoChunks(h, g.ch, g.avg, Running());
    }

    /** The write task: store the chunks of the file, then save the last container, the recipe and
        the index. */
    method WriteTask(h: Bytes -> SHA1FP, g: Globals, file: Bytes)
      requires Sound() && g.Valid() && Written(h, View(), FileChunks(g.ch, g.avg, file)).Some?
      modifies this, g`avg
      ensures Sound()
      ensures var st' := Written(h, old(View()), FileChunks(g.ch, old(g.avg), file)).value;
              && containers == st'.containers && ReadLists(revFiles) == st'.revs && recipes == st'.recipes
              && (AllFit(st'.index) ==> (View() == st' <==> |st'.index| <= MAX_ENTRIES))
    {
      hide WriteChunks, FileChunks, LoadIndex, AllFit, FinishWrite, StartAt, BuffersHold, ReadLists, AllWhole;
      Begin();
      WriteReads(h, g, file);
      Finish();
    }

    method Finish()
      requires Valid()
      modifies this`containers, this`revFiles, this`recipes, this`indexFile
      ensures Sound()
      ensures var st' := FinishWrite(old(Running()), old(recipes));
              && containers == st'.containers && ReadLists(revFiles) == st'.revs && recipes == st'.recipes
              && (AllFit(st'.index) ==> (LoadIndex(indexFile) == st'.index <==> |st'.index| <= MAX_ENTRIES))
    {
      hide LoadIndex, AllFit, ReadLists, AllWhole;
      if containerBufPointer > 0 {
        SaveContainer();
      }
      recipes := Put(recipes, |recipes|, fileRecipe);
      indexFile := mm.Save();
    }

    // ---------- Delete ----------

    /** The state of a delete run; nothing is ever added to the index during one. */
    ghost function Deleting(): Store
      reads this, mm
    {
      Store(mm.origin, containers, ReadLists(revFiles), recipes)
    }

    /** Rewrites a file without one stretch of bytes, with one read of at most CONTAINER_SIZE bytes
        for everything behind it; None when nothing is left and the file is removed. */
    static method DelSeg(file: Bytes, off: nat, len: nat) returns (r: Option<Bytes>)
      requires off + len <= |file| && off <= CONTAINER_SIZE && len <= CONTAINER_SIZE
      ensures var tail := file[off + len..][..Min(|file| - off - len, CONTAINER_SIZE)];
              r == if off == 0 && tail == [] then None else Some(file[..off] + tail)
      ensures OneRead(|file|, off, len) ==>
                r == if CutOut(file, off, len) == [] then None else Some(CutOut(file, off, len))
    {
      var head, tail := file[..off], file[off + len..][..Min(|file| - off - len, CONTAINER_SIZE)];
      assert |file| - off - len <= CONTAINER_SIZE ==> tail == file[off + len..];
      r := if off == 0 && |tail| == 0 then None else Some(head + tail);
    }

    /** Reads the list of a file, one fingerprint after the other. */
    static method ReadRecords(file: Bytes) returns (rev: seq<SHA1FP>)
      requires Whole(file)
      ensures rev == ReadList(file)
    {
      hide ReadList, Whole, CountIn;
      WholeLength(file);
      var a, cnt := 0, CountIn(file);
      rev := [];
      while a < cnt
        invariant a <= cnt && rev == ReadList(file)[..a]
      {
        ListAt(file, a);
        rev := rev + [DecodeFp(file[ListSize(a)..ListSize(a) + SHA1_LENGTH])];
        a := a + 1;
      }
    }

    /** Takes the fingerprint at a position off a list file: a smaller count, then the cut. */
    method DelRecord(c: nat, dPos: nat)
      requires Sound() && c in revFiles && CountIn(revFiles[c]) > 1 && dPos < |ReadList(revFiles[c])|
      requires OneRead(ListSize(CountIn(revFiles[c])), ListSize(dPos), SHA1_LENGTH)
      modifies this`revFiles
      ensures Sound()
      ensures ReadLists(revFiles) == ReadLists(old(revFiles))[c := CutOut(ReadList(old(revFiles)[c]), dPos, 1)]
    {
      hide ReadList, LittleEndian, CountIn, AllWhole, ReadLists;
      ghost var was := revFiles[c];
      assert Whole(was) by { WholeOne(revFiles, c); }
      WholeLength(was);
      var file := LittleEndian(CountIn(revFiles[c]) - 1, 4) + revFiles[c][4..];
      var r := DelSeg(file, ListSize(dPos), SHA1_LENGTH);
      ghost var tail := was[ListSize(dPos) + SHA1_LENGTH..]
                        [..Min(|was| - ListSize(dPos) - SHA1_LENGTH, CONTAINER_SIZE)];
      assert file[ListSize(dPos) + SHA1_LENGTH..] == was[ListSize(dPos) + SHA1_LENGTH..];
      assert file[..ListSize(dPos)] == LittleEndian(CountIn(was) - 1, 4) + was[4..ListSize(dPos)];
      ListCut(was, dPos, tail);
      ListsUpdated(revFiles, c, r.value);
      revFiles := revFiles[c := r.value];
    }

    /** The loop that repairs the offsets of the other chunks on a reverse list; -1 while the
        removed chunk has not been met. */
    method RepairOffsets(rev: seq<SHA1FP>, fp: SHA1FP, off: nat, len: nat) returns (ok: bool, dPos: int)
      requires mm.Valid() && mm.added == map[]
      modifies mm
      ensures mm.Valid() && mm.added == map[]
      ensures ok <==> forall x :: x in rev && x != fp ==> x in old(mm.origin)
      ensures ok ==> mm.origin == ShiftEach(old(mm.origin), rev, fp, off, len)
      ensures ok ==> if dPos < 0 then Position(rev, fp) == None else Position(rev, fp) == Some(dPos)
    {
      hide ShiftOne;
      dPos := -1;
      var a := 0;
      while a < |rev|
        invariant a <= |rev| && mm.Valid() && mm.added == map[] && mm.origin.Keys == old(mm.origin).Keys
        invariant ShiftEach(mm.origin, rev[a..], fp, off, len) == ShiftEach(old(mm.origin), rev, fp, off, len)
        invariant if dPos < 0 then Position(rev[..a], fp) == None else Position(rev[..a], fp) == Some(dPos)
        invariant forall k :: 0 <= k < a && rev[k] != fp ==> rev[k] in old(mm.origin)
      {
        assert rev[..a + 1][..a] == rev[..a] && rev[a..][1..] == rev[a + 1..];
        if rev[a] == fp {
          dPos := a;
        } else {
          ShiftOneKeys(mm.origin, rev[a], off, len);
          ShiftOneKeys(mm.added, rev[a], off, len);
          ok := mm.ChunkOffsetDec(rev[a], off, len);
          if !ok {
            return;
          }
        }
        a := a + 1;
      }
      ok := true;
      assert rev[..|rev|] == rev;
    }

    /** Takes a chunk out of its container and off the reverse list. False stands for the places
        where the program exits or works on a missing file. */
    method ContainerDelChunk(c: nat, fp: SHA1FP, off: nat, len: nat) returns (ok: bool)
      requires mm.Valid() && mm.added == map[] && Sound()
      modifies this`containers, this`revFiles, mm
      ensures mm.Valid() && mm.added == map[] && Sound()
      ensures ok <==> StoreModel.ContainerDelChunk(old(Deleting()), c, fp, off, len).Some?
      ensures ok ==> Deleting() == StoreModel.ContainerDelChunk(old(Deleting()), c, fp, off, len).value
    {
      hide ShiftEach, CutOut, ReadList, AllWhole, CountIn;
      if c !in containers || c !in revFiles || !OneRead(|containers[c]|, off, len) {
        return false;
      }
      WholeOne(revFiles, c);
      var left := DelSeg(containers[c], off, len);
      containers := if left.None? then containers - {c} else containers[c := left.value];
      var rev := ReadRecords(revFiles[c]);
      if |rev| == 1 {
        ListsUpdated(revFiles, c, revFiles[c]);
        revFiles := revFiles - {c};
        return true;
      }
      var dPos;
      ok, dPos := RepairOffsets(rev, fp, off, len);
      if !ok || dPos < 0 || !OneRead(ListSize(|rev|), ListSize(dPos), SHA1_LENGTH) {
        return false;
      }
      WholeLength(revFiles[c]);
      DelRecord(c, dPos);
    }

    /** One step of the delete loop; false stands for its fatal error. */
    method DropOne(fp: SHA1FP) returns (ok: bool)
      requires mm.Valid() && mm.added == map[] && Sound()
      modifies this`containers, this`revFiles, mm
      ensures mm.Valid() && mm.added == map[] && Sound()
      ensures ok <==> DropReference(old(Deleting()), fp).Some?
      ensures ok ==> Deleting() == DropReference(old(Deleting()), fp).value
    {
      hide StoreModel.ContainerDelChunk, ReadLists, AllWhole;
      var lookup := mm.DedupLookup(fp);
      if lookup == Unique {
        return false;
      }
      var ev := mm.GetEntry(fp);
      var left := mm.DecRefCnt(fp);
      ok := true;
      if left == Some(0) {
        ok := ContainerDelChunk(ev.containerNumber, fp, ev.offset, ev.chunkLength);
      }
    }

    method DropRecipe(fileRecipe: seq<SHA1FP>) returns (ok: bool)
      requires mm.Valid() && mm.added == map[] && Sound()
      modifies this`containers, this`revFiles, mm
      ensures mm.Valid() && mm.added == map[] && Sound()
      ensures ok <==> DropAll(old(Deleting()), fileRecipe).Some?
      ensures ok ==> Deleting() == DropAll(old(Deleting()), fileRecipe).value
    {
      hide DropReference, ReadLists, AllWhole;
      var i := 0;
      while i < |fileRecipe|
        invariant i <= |fileRecipe| && mm.Valid() && mm.added == map[] && Sound()
        invariant DropAll(Deleting(), fileRecipe[i..]) == DropAll(old(Deleting()), fileRecipe)
      {
        assert fileRecipe[i..][1..] == fileRecipe[i + 1..];
        ok := DropOne(fileRecipe[i]);
        if !ok {
          return;
        }
        i := i + 1;
      }
      ok := true;
    }

    /** The delete task. False stands for the fatal error on a fingerprint that is not in the
        index; an unknown version changes nothing. */
    method DeleteTask(version: nat) returns (ok: bool)
      requires Sound()
      modifies this
      ensures Sound()
      ensures ok <==> Delete(old(View()), version).Some?
      ensures ok ==>
                var st' := Delete(old(View()), version).value;
                && containers == st'.containers && ReadLists(revFiles) == st'.revs && recipes == st'.recipes
                && (AllFit(st'.index) && |st'.index| <= MAX_ENTRIES ==> View() == st')
    {
      hide LoadIndex, AllFit, DropAll, ReadLists, AllWhole;
      var name := RecipeName(version);
      if name !in recipes {
        return true;
      }
      assert |recipes| != 0;
      Start();
      assert Deleting() == old(View());
      ok := DropRecipe(recipes[name]);
      if ok {
        recipes := recipes - {name};
        assert mm.Both() == mm.origin;
        indexFile := mm.Save();
      }
    }
  }

  lemma ShiftOneKeys(m: Index, fp: SHA1FP, off: nat, len: nat)
    ensures ShiftOne(m, fp, off, len).Keys == m.Keys
  {}

  lemma WriteFirstChunk(h: Bytes -> SHA1FP, w: Writer, ch: Chunker, avg: nat, p: Bytes)
    requires ch.Valid() && p != []
    ensures var k, avg' := Cut(ch, avg, p), NextAvg(ch, avg, p);
            && WriteChunks(h, w, Chunks(ch, avg, p))
               == WriteChunks(h, WriteChunk(h, w, p[..k]), Chunks(ch, avg', p[k..]))
            && AvgAfter(ch, avg, p) == AvgAfter(ch, avg', p[k..])
            && (BuffersHold(h, w, Chunks(ch, avg, p)) ==>
                  RoomFor(w, h(p[..k]), p[..k]) && BuffersHold(h, WriteChunk(h, w, p[..k]), Chunks(ch, avg', p[k..])))
  {
    hide WriteChunk, Cut, NextAvg, RoomFor;
  }

  lemma RoomLeft(w: Writer, fp: SHA1FP, c: Bytes)
    requires RoomFor(w, fp, c) && fp !in w.origin && fp !in w.added && w.keepRevs
    ensures |c| <= CONTAINER_SIZE && |if |w.buf| + |c| >= CONTAINER_SIZE then [] else w.rev| < REV_CAPACITY
  {
    hide StoreModel.Put;
  }

  lemma StoreChunkIs(w: Writer, fp: SHA1FP, c: Bytes)
    requires w.keepRevs
    ensures var v := if |w.buf| + |c| >= CONTAINER_SIZE then FlushContainer(w) else w;
            StoreChunk(w, fp, c) ==
            v.(added := v.added[fp := EntryValue(v.ctr, |v.buf|, |c| % U16, v.inner, 1)],
               buf := v.buf + c, inner := (v.inner + 1) % U16, rev := v.rev + [fp])
  {
    hide StoreModel.Put;
  }

  /** The recipe has no part in it. */
  lemma RoomAside(w: Writer, fp: SHA1FP, c: Bytes)
    ensures RoomFor(w.(recipe := w.recipe + [fp]), fp, c) <==> RoomFor(w, fp, c)
  {
    hide StoreModel.Put;
  }

  lemma {:induction false} BuffersHoldConcat(h: Bytes -> SHA1FP, w: Writer, a: seq<Bytes>, b: seq<Bytes>)
    ensures BuffersHold(h, w, a + b) <==> BuffersHold(h, w, a) && BuffersHold(h, WriteChunks(h, w, a), b)
    decreases |a|
  {
    hide WriteChunk, RoomFor;
    if a == [] {
      assert a + b == b;
    } else {
      assert (a + b)[1..] == a[1..] + b;
      BuffersHoldConcat(h, WriteChunk(h, w, a[0]), a[1..], b);
    }
  }

  lemma WholeOne(files: map<nat, Bytes>, c: nat)
    requires AllWhole(files) && c in files
    ensures Whole(files[c]) && c in ReadLists(files) && ReadLists(files)[c] == ReadList(files[c])
  {}

  lemma WriteNothing(h: Bytes -> SHA1FP, w: Writer)
    ensures WriteChunks(h, w, []) == w
  {}

  lemma NoChunks(h: Bytes -> SHA1FP, ch: Chunker, avg: nat, w: Writer)
    requires ch.Valid()
    ensures WriteChunks(h, w, FileChunks(ch, avg, [])) == w
  {}

  lemma {:induction false} WriteChunksConcat(h: Bytes -> SHA1FP, w: Writer, a: seq<Bytes>, b: seq<Bytes>)
    ensures WriteChunks(h, w, a + b) == WriteChunks(h, WriteChunks(h, w, a), b)
    decreases |a|
  {
    hide WriteChunk;
    if a == [] {
      assert a + b == b;
    } else {
      assert (a + b)[1..] == a[1..] + b;
      WriteChunksConcat(h, WriteChunk(h, w, a[0]), a[1..], b);
    }
  }
}
