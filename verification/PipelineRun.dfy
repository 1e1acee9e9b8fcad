/** Whole runs of the pipeline: every schedule is finite, none gets stuck, and all end with the
    files the sequential writer leaves. */
module PipelineRun {
  import opened Common
  import opened FastCDC
  import opened Chunking
  import opened MetadataManager
  import opened StoreModel
  import opened Queue
  import opened Pipeline
  import opened PipelineInvariant

  // ---------- Termination ----------

  function ReadWeight(items: seq<Chunk>): nat
  {
    if items == [] then 0
    else (if items[0].Normal? then 5 * |items[0].data| else 5) + ReadWeight(items[1..])
  }

  lemma {:induction false} WeightAppend(items: seq<Chunk>, c: Chunk)
    ensures ReadWeight(items + [c]) == ReadWeight(items) + if c.Normal? then 5 * |c.data| else 5
  {
    if items == [] {
      assert [c][1..] == [];
    } else {
      assert (items + [c])[1..] == items[1..] + [c];
      WeightAppend(items[1..], c);
    }
  }

  function PhaseWeight(s: State): nat
  {
    (match s.rpc case ReadOpen => 13 case ReadBody => 7 case ReadClose => 1 case ReadStop => 0)
    + (match s.kpc case CutForward => 6 case CutClose => 1 case CutStop => 0 case _ => 2) + (if s.ended then 4 else 0)
    + (match s.apc case HashAwait => 2 case HashHand(_) => 4 case HashClose => 1 case HashStop => 0)
    + (match s.dpc case DedupAwait => 2 case DedupSave => 1 case DedupStop => 0)
  }

  /** Bytes weigh less the further they have come, and so do marks and chunks. */
  function Measure(s: State): nat
  {
    6 * |s.rest| + ReadWeight(s.readQ.items) + 4 * |s.buf| + 3 * |s.chunkQ.items| + |s.hashQ.items| + PhaseWeight(s)
  }

  lemma ReadDecreases(cfg: Config, file: Bytes, s: State, n: nat)
    requires Good(cfg, file, s) && FireRead(s, n).Some?
    ensures Measure(FireRead(s, n).value) < Measure(s)
  {
    hide Link, Flow, Printed, NoEmptyBlock, ReadWeight;
    if !s.rpc.ReadClose? {
      var c := if s.rpc.ReadOpen? then FileStart else if s.rest == [] then FileEnd else Normal(s.rest[..n], None);
      LinkPush(s.readQ, ReadSent(s.rpc), s.kGot, c);
      WeightAppend(s.readQ.items, c);
    }
  }

  lemma TakeDecreases(s: State)
    requires Links(s) && TakeBlock(s).Some? && NoEmptyBlock(s.readQ.items) && s.kGot == 1 && !s.ended
    requires s.kpc.CutFirst? || s.kpc.CutBody?
    ensures Measure(TakeBlock(s).value) < Measure(s)
  {
    hide Link;
    if s.readQ.items == [] { LinkNullUnless(s); } else { LinkPop(s.readQ, ReadSent(s.rpc), s.kGot); }
  }

  lemma CutterDecreases(cfg: Config, s: State)
    requires cfg.ch.Valid() && FireCut(cfg, s).Some? && !s.chunkQ.term
    requires s.kpc.CutBody? && (|s.buf| >= MaxChunkSize(cfg.ch) || s.ended)
    ensures Measure(FireCut(cfg, s).value) < Measure(s)
  {
    hide NextAvg, Cut, ReadWeight;
  }

  lemma CutterMarks(cfg: Config, s: State)
    requires cfg.ch.Valid() && FireCut(cfg, s).Some? && !s.chunkQ.term
    requires s.kpc.CutForward? || s.kpc.CutClose?
    ensures Measure(FireCut(cfg, s).value) < Measure(s)
  {
    hide ReadWeight, MaxChunkSize;
  }

  lemma CutterAwaits(cfg: Config, s: State)
    requires cfg.ch.Valid() && FireCut(cfg, s).Some? && Links(s) && s.kGot != 1
    requires s.kpc.CutAwait?
    ensures Measure(FireCut(cfg, s).value) < Measure(s)
  {
    hide Link, MaxChunkSize;
    if s.readQ.items != [] { LinkPop(s.readQ, ReadSent(s.rpc), s.kGot); }
  }

  lemma CutDecreases(cfg: Config, file: Bytes, s: State)
    requires Good(cfg, file, s) && FireCut(cfg, s).Some?
    ensures Measure(FireCut(cfg, s).value) < Measure(s)
  {
    hide Link, Flow, Printed, NoEmptyBlock, FireCut, TakeBlock, Measure, MaxChunkSize;
    LinkPushUnless(s);
    CutStopped(cfg, s);
    if s.kpc.CutFirst? || (s.kpc.CutBody? && |s.buf| < MaxChunkSize(cfg.ch) && !s.ended) {
      TakeDecreases(s);
    } else if s.kpc.CutBody? {
      CutterDecreases(cfg, s);
    } else if s.kpc.CutAwait? {
      CutterAwaits(cfg, s);
    } else {
      CutterMarks(cfg, s);
    }
  }

  lemma CutStopped(cfg: Config, s: State)
    requires cfg.ch.Valid()
    ensures s.kpc.CutStop? ==> FireCut(cfg, s) == None
    ensures s.kpc.CutFirst? || (s.kpc.CutBody? && |s.buf| < MaxChunkSize(cfg.ch) && !s.ended) ==>
            FireCut(cfg, s) == TakeBlock(s)
  {
    hide TakeBlock, MaxChunkSize, Cut, NextAvg;
  }

  /** The chunker finds a terminated read queue only where it expects one, and its own queue is
      not terminated while it pushes. */
  lemma LinkNullUnless(s: State)
    requires Links(s) && s.readQ.items == []
    ensures s.readQ.term ==> s.kGot >= 2
  {}

  lemma LinkPushUnless(s: State)
    requires Links(s)
    ensures s.kSent < 3 ==> !s.chunkQ.term
    ensures s.aSent < 3 ==> !s.hashQ.term
  {}

  lemma HasherTakes(cfg: Config, s: State)
    requires s.apc.HashAwait? && FireHash(cfg, s).Some?
    ensures Measure(FireHash(cfg, s).value) < Measure(s)
  {
    hide ReadWeight, Hashed, Mark;
  }

  lemma HasherGives(cfg: Config, s: State)
    requires !s.apc.HashAwait? && FireHash(cfg, s).Some? && !s.hashQ.term
    ensures Measure(FireHash(cfg, s).value) < Measure(s)
  {
    hide ReadWeight, Mark;
  }

  lemma HashDecreases(cfg: Config, file: Bytes, s: State)
    requires Good(cfg, file, s) && FireHash(cfg, s).Some?
    ensures Measure(FireHash(cfg, s).value) < Measure(s)
  {
    LinkPushUnless(s);
    assert s.apc.HashStop? || !s.hashQ.term;
    hide Good, Measure, FireHash;
    if s.apc.HashAwait? { HasherTakes(cfg, s); } else { HasherGives(cfg, s); }
  }

  lemma DedupDecreases(cfg: Config, file: Bytes, s: State)
    requires Good(cfg, file, s) && FireDedup(cfg, s).Some?
    ensures Measure(FireDedup(cfg, s).value) < Measure(s)
  {
    hide Flow, Phases, Links, Printed, NoEmptyBlock, Measure, Ingest, RoomFor, FinishWrite;
    DedupPhase(s);
    if s.dpc.DedupAwait? && s.hashQ.items != [] {
      PrintedTake(cfg.h, s.hashQ.items);
      PopDecreases(s, FireDedup(cfg, s).value);
    } else {
      if s.hashQ.items == [] { LinkNullHash(s); }
      SaveDecreases(s, FireDedup(cfg, s).value);
    }
  }

  lemma DedupPhase(s: State)
    requires Phases(s)
    ensures s.dpc.DedupAwait? ==> s.dGot <= 1
  {}

  lemma PopDecreases(s: State, s': State)
    requires s.hashQ.items != [] && s'.hashQ.items == s.hashQ.items[1..] && s'.rpc == s.rpc && s'.rest == s.rest
    requires s'.readQ == s.readQ && s'.kpc == s.kpc && s'.buf == s.buf && s'.ended == s.ended && s'.chunkQ == s.chunkQ
    requires s'.apc == s.apc && (s'.dpc == s.dpc || s.dpc.DedupAwait?)
    ensures Measure(s') < Measure(s)
  {
    hide ReadWeight;
  }

  lemma SaveDecreases(s: State, s': State)
    requires s.dpc.DedupSave? && s'.dpc.DedupStop? && s' == s.(result := s'.result, dpc := DedupStop)
    ensures Measure(s') < Measure(s)
  {
    hide ReadWeight;
  }

  lemma LinkNullHash(s: State)
    requires Links(s) && s.hashQ.items == []
    ensures s.hashQ.term ==> s.dGot >= 2
  {}

  lemma FireDecreases(cfg: Config, file: Bytes, s: State, mv: Move)
    requires Good(cfg, file, s) && Fire(cfg, s, mv).Some?
    ensures Measure(Fire(cfg, s, mv).value) < Measure(s)
  {
    hide Good, Measure, FireRead, FireCut, FireHash, FireDedup;
    match mv
    case Reader(n) => ReadDecreases(cfg, file, s, n);
    case Cutter => CutDecreases(cfg, file, s);
    case Hasher => HashDecreases(cfg, file, s);
    case Deduper => DedupDecreases(cfg, file, s);
  }

  /** Every schedule keeps the invariant or runs into the overrun, and its length is bounded. */
  lemma {:induction false} ExecKeeps(cfg: Config, file: Bytes, s: State, moves: seq<Move>)
    requires Good(cfg, file, s) && Exec(cfg, s, moves).Some?
    ensures Good(cfg, file, Exec(cfg, s, moves).value) || Overrun(cfg, file, Exec(cfg, s, moves).value)
    ensures |moves| + Measure(Exec(cfg, s, moves).value) <= Measure(s)
    decreases |moves|
  {
    assert cfg.ch.Valid();
    hide Good, Overrun, Fire, Measure;
    if moves != [] {
      var s' := Fire(cfg, s, moves[0]).value;
      FireKeeps(cfg, file, s, moves[0]);
      FireDecreases(cfg, file, s, moves[0]);
      if Good(cfg, file, s') {
        ExecKeeps(cfg, file, s', moves[1..]);
      } else {
        CrashStays(cfg, file, s');
        assert moves[1..] == [];
      }
    }
  }

  lemma CrashStays(cfg: Config, file: Bytes, s: State)
    requires Overrun(cfg, file, s)
    ensures cfg.ch.Valid() && s.crashed && !Finished(s) && forall mv :: Fire(cfg, s, mv) == None
  {
    hide BufferSuffices;
  }

  // ---------- No deadlock ----------

  lemma RoomWhenEmpty(q: Chan<Chunk>, sent: nat, got: nat)
    requires Link(q, sent, got)
    ensures q.items == [] ==> !q.Full()
    ensures got >= 2 ==> q.items == []
    ensures sent == 3 ==> q.term
  {}

  lemma DedupCanMove(cfg: Config, file: Bytes, s: State)
    requires Good(cfg, file, s) && s.hashQ.items != []
    ensures FireDedup(cfg, s).Some?
  {
    hide Link, Flow, Printed, NoEmptyBlock;
    RoomWhenEmpty(s.hashQ, s.aSent, s.dGot);
  }

  lemma HashCanMove(cfg: Config, file: Bytes, s: State)
    requires Good(cfg, file, s) && s.hashQ.items == []
    requires s.chunkQ.items != [] || s.chunkQ.term || !s.apc.HashAwait?
    ensures FireHash(cfg, s).Some? || s.apc.HashStop?
  {
    hide Link, Flow, Printed, NoEmptyBlock;
    RoomWhenEmpty(s.hashQ, s.aSent, s.dGot);
  }

  lemma CutCanMove(cfg: Config, file: Bytes, s: State)
    requires Good(cfg, file, s) && s.chunkQ.items == []
    requires s.readQ.items != [] || s.readQ.term
    ensures FireCut(cfg, s).Some? || s.kpc.CutStop?
  {
    hide Link, Flow, Printed, NoEmptyBlock, Cut, NextAvg;
    RoomWhenEmpty(s.chunkQ, s.kSent, s.aGot);
  }

  lemma ReadCanMove(cfg: Config, file: Bytes, s: State) returns (n: nat)
    requires Good(cfg, file, s) && s.readQ.items == []
    ensures FireRead(s, n).Some? || s.rpc.ReadStop?
  {
    hide Link, Flow, Printed, NoEmptyBlock;
    RoomWhenEmpty(s.readQ, ReadSent(s.rpc), s.kGot);
    n := Min(|s.rest|, DEFAULT_BLOCK_SIZE);
  }

  /** A stopped thread has left its queue drained or terminated behind it. */
  lemma StoppedThreads(cfg: Config, file: Bytes, s: State)
    requires Good(cfg, file, s)
    ensures s.rpc.ReadStop? ==> s.readQ.term
    ensures s.kpc.CutStop? ==> s.chunkQ.term && s.readQ.items == []
    ensures s.apc.HashStop? ==> s.hashQ.term && s.chunkQ.items == [] && s.kpc.CutStop?
    ensures s.kpc.CutStop? ==> s.rpc.ReadStop?
  {
    hide Shape, Flow, Printed, NoEmptyBlock;
  }

  /** Some thread can move until all have stopped. */
  lemma NoDeadlock(cfg: Config, file: Bytes, s: State) returns (mv: Move)
    requires Good(cfg, file, s) && !Finished(s)
    ensures Fire(cfg, s, mv).Some?
  {
    hide Good, FireRead, FireCut, FireHash, FireDedup;
    StoppedThreads(cfg, file, s);
    NotCrashed(cfg, file, s);
    if s.hashQ.items != [] {
      DedupCanMove(cfg, file, s);
      return Deduper;
    }
    if s.apc.HashStop? {
      LastMove(cfg, file, s);
      return Deduper;
    }
    if s.chunkQ.items != [] || s.chunkQ.term || !s.apc.HashAwait? {
      HashCanMove(cfg, file, s);
      return Hasher;
    }
    if s.readQ.items != [] || s.readQ.term {
      CutCanMove(cfg, file, s);
      return Cutter;
    }
    var n := ReadCanMove(cfg, file, s);
    return Reader(n);
  }

  lemma NotCrashed(cfg: Config, file: Bytes, s: State)
    requires Good(cfg, file, s)
    ensures cfg.ch.Valid() && !s.crashed && (s.dpc.DedupStop? ==> s.result.Some?)
  {
    hide Links, Flow;
  }

  lemma LastMove(cfg: Config, file: Bytes, s: State)
    requires Good(cfg, file, s) && s.hashQ.items == [] && s.hashQ.term && !s.dpc.DedupStop?
    ensures FireDedup(cfg, s).Some?
  {}

  // ---------- The result ----------

  /** When dedup_thread has seen the end mark, nothing is left anywhere before it. */
  lemma NothingRemains(cfg: Config, file: Bytes, s: State)
    requires Good(cfg, file, s) && s.dGot == 2
    ensures Remaining(cfg, s) == []
  {
    hide Flow, Printed, NoEmptyBlock, Shape;
    assert s.hashQ.items == [] && s.aSent >= 2;
    assert s.chunkQ.items == [] && s.kSent >= 2 && Hand(s.apc) == [];
    assert s.buf == [] && s.readQ.items == [] && s.rest == [];
    assert [] + ([] + []) == s.rest;
    NothingLeft(cfg.ch, s.avg);
  }

  lemma ResultIsGoal(cfg: Config, file: Bytes, s: State)
    requires Good(cfg, file, s) && s.result.Some?
    ensures s.result.value == FinishWrite(Goal(cfg, file), cfg.st.recipes)
  {
    hide Remaining, Links, FinishWrite, Goal;
    NothingRemains(cfg, file, s);
  }

  // ---------- Against the sequential writer ----------

  /** The two writers differ in the reverse lists only. */
  predicate Twins(a: Writer, b: Writer)
  {
    b.keepRevs && a == b.(revs := a.revs, rev := [], keepRevs := false)
  }

  lemma TwinChunk(w: Writer, v: Writer, fp: SHA1FP, c: Bytes)
    requires Twins(w, v)
    ensures Twins(Ingest(w, fp, c), Ingest(v, fp, c)) && Ingest(w, fp, c).revs == w.revs
  {
    hide StoreModel.Put, OneMore;
  }

  lemma {:induction false} TwinChunks(h: Bytes -> SHA1FP, w: Writer, v: Writer, cs: seq<Bytes>)
    requires Twins(w, v)
    ensures Twins(WriteChunks(h, w, cs), WriteChunks(h, v, cs)) && WriteChunks(h, w, cs).revs == w.revs
    decreases |cs|
  {
    hide Ingest, Twins;
    if cs != [] {
      TwinChunk(w, v, h(cs[0]), cs[0]);
      TwinChunks(h, Ingest(w, h(cs[0]), cs[0]), Ingest(v, h(cs[0]), cs[0]), cs[1..]);
    }
  }

  lemma TwinWrites(h: Bytes -> SHA1FP, st: Store, cs: seq<Bytes>)
    ensures Write(h, st, cs, false) == Write(h, st, cs, true).(revs := st.revs)
  {
    hide WriteChunks, StoreModel.Put;
    TwinChunks(h, StartWrite(st, false), StartWrite(st, true), cs);
  }

  /** A schedule after which no thread can move any more. */
  ghost predicate Ends(cfg: Config, file: Bytes, moves: seq<Move>)
    requires cfg.ch.Valid()
  {
    && Exec(cfg, Init(cfg, file), moves).Some?
    && forall mv :: Fire(cfg, Exec(cfg, Init(cfg, file), moves).value, mv) == None
  }

  /** What waits between the threads stays bounded, however long the file is: 20 blocks of at most
      1 MiB behind the reader, 200 chunks behind each of the next two threads, and in the chunker's
      buffer 1 MiB more than four times the average size. */
  lemma PendingBounded(cfg: Config, file: Bytes, moves: seq<Move>)
    requires cfg.ch.Valid() && Exec(cfg, Init(cfg, file), moves).Some?
    ensures var s := Exec(cfg, Init(cfg, file), moves).value;
            !s.crashed ==>
              && |s.readQ.items| <= 20 && |s.chunkQ.items| <= 200 && |s.hashQ.items| <= 200
              && |DataOf(s.readQ.items)| <= 20 * 0x10_0000
              && |s.buf| <= 0x10_0000 + 4 * cfg.ch.InitialAvg()
  {
    hide Exec, Fire, Init, Flow, Phases, Printed, DataOf, BufferSuffices;
    var s := Exec(cfg, Init(cfg, file), moves).value;
    InitGood(cfg, file);
    ExecKeeps(cfg, file, Init(cfg, file), moves);
    if Good(cfg, file, s) { BlocksBounded(s.readQ.items); }
  }

  lemma {:induction false} BlocksBounded(items: seq<Chunk>)
    requires NoEmptyBlock(items)
    ensures |DataOf(items)| <= 0x10_0000 * |items|
  {
    if items != [] { BlocksBounded(items[1..]); }
  }

  /** Whatever the schedule and however the file, of any length, arrives in blocks: it comes to its
      end after a bounded number of moves. If the container buffer holds the new chunks of the whole
      file then all threads have stopped, and index, containers and recipes are those of writing the
      chunks one after another; only the reverse lists are missing. If it does not, one of them has
      been copied past its end. */
  lemma EverySchedule(cfg: Config, file: Bytes, moves: seq<Move>)
    requires cfg.ch.Valid() && Ends(cfg, file, moves)
    ensures var s := Exec(cfg, Init(cfg, file), moves).value;
            && |moves| <= 6 * |file| + 19 && (Finished(s) <==> BufferSuffices(cfg, file))
            && (s.crashed <==> !BufferSuffices(cfg, file))
            && (Finished(s) ==>
                  s.result.value ==
                  Write(cfg.h, cfg.st, Chunks(cfg.ch, cfg.ch.InitialAvg(), file), true).(revs := cfg.st.revs))
  {
    hide Good, Overrun, BufferSuffices, Exec, Fire, Measure, Chunks, WriteAt, WriteChunks, StartAt, FinishWrite;
    var s := Exec(cfg, Init(cfg, file), moves).value;
    InitGood(cfg, file);
    InitMeasure(cfg, file);
    ExecKeeps(cfg, file, Init(cfg, file), moves);
    if Good(cfg, file, s) {
      if !Finished(s) {
        var mv := NoDeadlock(cfg, file, s);
        assert false;
      }
      FinishedHolds(cfg, file, s);
      ResultIsGoal(cfg, file, s);
    } else {
      CrashStays(cfg, file, s);
      assert !BufferSuffices(cfg, file) by { OverrunMeans(cfg, file, s); }
    }
    TwinWrites(cfg.h, cfg.st, Chunks(cfg.ch, cfg.ch.InitialAvg(), file));
    GoalIsWrite(cfg, file);
  }

  lemma OverrunMeans(cfg: Config, file: Bytes, s: State)
    requires Overrun(cfg, file, s)
    ensures cfg.ch.Valid() && !BufferSuffices(cfg, file)
  {}

  /** A pipeline that has come to its regular end has held every new chunk. */
  lemma FinishedHolds(cfg: Config, file: Bytes, s: State)
    requires Good(cfg, file, s) && Finished(s)
    ensures cfg.ch.Valid() && BufferSuffices(cfg, file) && !s.crashed
  {
    hide Remaining, Links, Goal, BufferSuffices, WriteChunks, FinishWrite;
    NothingRemains(cfg, file, s);
  }

  lemma InitMeasure(cfg: Config, file: Bytes)
    ensures Measure(Init(cfg, file)) == 6 * |file| + 19
  {}

  lemma GoalIsWrite(cfg: Config, file: Bytes)
    requires cfg.ch.Valid()
    ensures FinishWrite(Goal(cfg, file), cfg.st.recipes)
         == Write(cfg.h, cfg.st, Chunks(cfg.ch, cfg.ch.InitialAvg(), file), false)
  {
    hide Chunks, WriteChunks, StartAt, FinishWrite;
  }

  /** From every reachable state some schedule runs to the end, and there it stays. */
  lemma {:induction false} SomeSchedule(cfg: Config, file: Bytes, s: State) returns (moves: seq<Move>)
    requires Good(cfg, file, s)
    ensures Exec(cfg, s, moves).Some?
    ensures Finished(Exec(cfg, s, moves).value) || Overrun(cfg, file, Exec(cfg, s, moves).value)
    ensures forall mv :: Fire(cfg, Exec(cfg, s, moves).value, mv) == None
    decreases Measure(s)
  {
    assert cfg.ch.Valid();
    moves := [];
    if Finished(s) {
      FinishedStays(cfg, s);
    } else {
      hide Good, Overrun, Fire, Finished, Measure;
      var mv := NoDeadlock(cfg, file, s);
      var s' := Fire(cfg, s, mv).value;
      FireKeeps(cfg, file, s, mv);
      FireDecreases(cfg, file, s, mv);
      var rest := [];
      if Good(cfg, file, s') { rest := SomeSchedule(cfg, file, s'); } else { CrashStays(cfg, file, s'); }
      moves := [mv] + rest;
      assert moves[0] == mv && moves[1..] == rest;
    }
  }

  lemma FinishedStays(cfg: Config, s: State)
    requires cfg.ch.Valid() && Finished(s)
    ensures forall mv :: Fire(cfg, s, mv) == None
  {}

  /** Some schedule ends, for every file. */
  lemma ScheduleExists(cfg: Config, file: Bytes) returns (moves: seq<Move>)
    requires cfg.ch.Valid()
    ensures Ends(cfg, file, moves)
  {
    hide Good, Overrun, Exec, Fire, Init;
    InitGood(cfg, file);
    moves := SomeSchedule(cfg, file, Init(cfg, file));
  }
}
