/** What every reachable state of the pipeline satisfies: the marks in the queues, and the chunks
    that are still to be written. */
module PipelineInvariant {
  import opened Common
  import opened FastCDC
  import opened Chunking
  import opened StoreModel
  import opened Queue
  import opened Pipeline

  // ---------- A queue between two threads ----------

  /** A start mark, data, an end mark. */
  ghost predicate Shape(items: seq<Chunk>, start: bool, end: bool)
  {
    var lo, hi := if start then 1 else 0, |items| - if end then 1 else 0;
    && lo <= hi
    && (start ==> items[0].FileStart?) && (end ==> items[hi].FileEnd?)
    && forall k :: lo <= k < hi ==> items[k].Normal?
  }

  /** The producer has sent mark number `sent`, the consumer has received `got`. */
  ghost predicate Link(q: Chan<Chunk>, sent: nat, got: nat)
  {
    && 0 < q.maxSize && |q.items| <= q.maxSize
    && got <= sent <= 3
    && (q.term <==> sent == 3)
    && Shape(q.items, sent >= 1 && got == 0, sent >= 2 && got <= 1)
    && (sent == 0 || got >= 2 ==> q.items == [])
  }

  lemma LinkPush(q: Chan<Chunk>, sent: nat, got: nat, c: Chunk)
    requires Link(q, sent, got) && sent == if c.FileStart? then 0 else 1
    ensures TryPush(q, c, false) == if q.Full() then MustWait else Left(q.(items := q.items + [c]))
    ensures !q.Full() ==> Link(q.(items := q.items + [c]), Mark(c, sent), got)
  {
    var items := q.items + [c];
    assert forall k :: 0 <= k < |q.items| ==> items[k] == q.items[k];
  }

  lemma LinkTerm(q: Chan<Chunk>, got: nat)
    requires Link(q, 2, got)
    ensures Link(q.(term := true), 3, got)
  {}

  /** What comes next is what the consumer expects. */
  lemma LinkPop(q: Chan<Chunk>, sent: nat, got: nat)
    requires Link(q, sent, got) && q.items != []
    ensures got <= 1
    ensures if got == 0 then q.items[0].FileStart? else !q.items[0].FileStart?
    ensures Link(q.(items := q.items[1..]), sent, Mark(q.items[0], got))
  {
    assert forall k :: 0 <= k < |q.items| - 1 ==> q.items[1..][k] == q.items[k + 1];
  }

  lemma LinkNull(q: Chan<Chunk>, sent: nat, got: nat)
    requires Link(q, sent, got) && q.items == [] && q.term
    ensures got >= 2 && Link(q, sent, 3)
  {}

  // ---------- What the queues carry ----------

  function Data(c: Chunk): Bytes
  {
    if c.Normal? then c.data else []
  }

  function ChunkOf(c: Chunk): seq<Bytes>
  {
    if c.Normal? then [c.data] else []
  }

  /** Bytes of the blocks in a queue. */
  function DataOf(items: seq<Chunk>): Bytes
  {
    if items == [] then [] else Data(items[0]) + DataOf(items[1..])
  }

  /** Chunks in a queue, or in hand. */
  function ChunksOf(items: seq<Chunk>): seq<Bytes>
  {
    if items == [] then [] else ChunkOf(items[0]) + ChunksOf(items[1..])
  }

  lemma {:induction false} DataAppend(items: seq<Chunk>, c: Chunk)
    ensures DataOf(items + [c]) == DataOf(items) + Data(c)
  {
    hide Data;
    if items == [] {
      assert [c][1..] == [];
    } else {
      assert (items + [c])[1..] == items[1..] + [c];
      DataAppend(items[1..], c);
    }
  }

  lemma {:induction false} ChunksAppend(items: seq<Chunk>, c: Chunk)
    ensures ChunksOf(items + [c]) == ChunksOf(items) + ChunkOf(c)
  {
    hide ChunkOf;
    if items == [] {
      assert [c][1..] == [];
    } else {
      assert (items + [c])[1..] == items[1..] + [c];
      ChunksAppend(items[1..], c);
    }
  }

  function Hand(apc: HashPC): seq<Chunk>
  {
    if apc.HashHand? then [apc.c] else []
  }

  /** The chunks dedup_thread has still to see, oldest first: those on their way, then those the
      chunker will cut from the bytes in its buffer, in the read queue and in the file. */
  function Remaining(cfg: Config, s: State): seq<Bytes>
    requires cfg.ch.Valid()
  {
    ChunksOf(s.hashQ.items) + ChunksOf(Hand(s.apc)) + ChunksOf(s.chunkQ.items)
    + Chunks(cfg.ch, s.avg, s.buf + (DataOf(s.readQ.items) + s.rest))
  }

  /** The writer at the end of a sequential run. */
  function Goal(cfg: Config, file: Bytes): Writer
    requires cfg.ch.Valid()
  {
    WriteChunks(cfg.h, StartWrite(cfg.st, false), Chunks(cfg.ch, cfg.ch.InitialAvg(), file))
  }

  /** The container buffer holds every new chunk of the file. */
  predicate BufferSuffices(cfg: Config, file: Bytes)
    requires cfg.ch.Valid()
  {
    BuffersHold(cfg.h, StartWrite(cfg.st, false), Chunks(cfg.ch, cfg.ch.InitialAvg(), file))
  }

  // ---------- The invariant ----------

  function ReadSent(rpc: ReadPC): nat
  {
    match rpc
    case ReadOpen => 0
    case ReadBody => 1
    case ReadClose => 2
    case ReadStop => 3
  }

  /** Program counters against the marks each thread has received and sent. */
  ghost predicate Phases(s: State)
  {
    && (ReadSent(s.rpc) >= 2 ==> s.rest == [])
    && (match s.kpc
        case CutAwait => s.kGot == s.kSent && (s.kGot == 0 || s.kGot == 2)
        case CutForward => s.kGot == 1 && s.kSent == 0
        case CutFirst => s.kGot == 1 && s.kSent == 1
        case CutBody => s.kGot == (if s.ended then 2 else 1) && s.kSent == 1
        case CutClose => s.kGot == 3 && s.kSent == 2
        case CutStop => s.kGot == 3 && s.kSent == 3)
    && (!s.kpc.CutBody? ==> s.buf == [] && !s.ended)
    && (match s.apc
        case HashAwait => s.aGot == s.aSent <= 2
        case HashHand(c) => s.aSent == (if c.FileStart? then 0 else 1) && s.aGot == Mark(c, s.aSent)
        case HashClose => s.aGot == 3 && s.aSent == 2
        case HashStop => s.aGot == 3 && s.aSent == 3)
    && (if s.dpc.DedupAwait? then s.dGot <= 1 else s.dGot == 2)
    && (s.dpc.DedupStop? <==> s.result.Some?)
  }

  /** Blocks are never empty; hashed chunks carry their fingerprints. */
  ghost predicate NoEmptyBlock(items: seq<Chunk>)
  {
    forall k :: 0 <= k < |items| && items[k].Normal? ==> 0 < |items[k].data| <= DEFAULT_BLOCK_SIZE
  }

  ghost predicate Printed(h: Bytes -> SHA1FP, items: seq<Chunk>)
  {
    forall k :: 0 <= k < |items| && items[k].Normal? ==> items[k].fp == Some(h(items[k].data))
  }

  ghost predicate Flow(cfg: Config, file: Bytes, s: State)
    requires cfg.ch.Valid()
  {
    && WriteChunks(cfg.h, s.w, Remaining(cfg, s)) == Goal(cfg, file)
    && (BuffersHold(cfg.h, s.w, Remaining(cfg, s)) <==> BufferSuffices(cfg, file))
    && (s.result.Some? ==> s.result.value == FinishWrite(s.w, cfg.st.recipes))
  }

  ghost predicate Links(s: State)
  {
    && Link(s.readQ, ReadSent(s.rpc), s.kGot)
    && Link(s.chunkQ, s.kSent, s.aGot)
    && Link(s.hashQ, s.aSent, s.dGot)
    && s.readQ.maxSize == 20 && s.chunkQ.maxSize == 200 && s.hashQ.maxSize == 200
  }

  ghost predicate Good(cfg: Config, file: Bytes, s: State)
  {
    && !s.crashed && cfg.ch.Valid() && cfg.ch.AvgOk(s.avg)
    && Links(s) && Phases(s)
    && NoEmptyBlock(s.readQ.items)
    && Printed(cfg.h, s.hashQ.items) && Printed(cfg.h, Hand(s.apc))
    // The chunker's buffer never overflows.
    && |s.buf| <= 0x10_0000 + 4 * cfg.ch.InitialAvg()
    && Flow(cfg, file, s)
  }

  /** The only way to crash: the file has a new chunk that the container buffer does not hold. */
  ghost predicate Overrun(cfg: Config, file: Bytes, s: State)
  {
    s.crashed && cfg.ch.Valid() && !BufferSuffices(cfg, file)
  }

  lemma InitGood(cfg: Config, file: Bytes)
    requires cfg.ch.Valid()
    ensures Good(cfg, file, Init(cfg, file))
  {
    hide Chunks, WriteChunks, BuffersHold, StartAt;
    assert [] + ([] + file) == file;
    assert Remaining(cfg, Init(cfg, file)) == Chunks(cfg.ch, cfg.ch.InitialAvg(), file);
  }

  // ---------- Reader ----------

  lemma ReadKeeps(cfg: Config, file: Bytes, s: State, n: nat)
    requires Good(cfg, file, s) && FireRead(s, n).Some?
    ensures Good(cfg, file, FireRead(s, n).value)
  {
    hide Link, Chunks, WriteChunks, BuffersHold, BufferSuffices, Goal, DataOf, ChunksOf, Printed, NoEmptyBlock;
    var s' := FireRead(s, n).value;
    if s.rpc.ReadClose? {
      LinkTerm(s.readQ, s.kGot);
    } else {
      var c := if s.rpc.ReadOpen? then FileStart else if s.rest == [] then FileEnd else Normal(s.rest[..n], None);
      LinkPush(s.readQ, ReadSent(s.rpc), s.kGot, c);
      DataAppend(s.readQ.items, c);
      BlockAdded(s.readQ.items, c);
      assert DataOf(s'.readQ.items) + s'.rest == DataOf(s.readQ.items) + s.rest;
    }
  }

  lemma BlockAdded(items: seq<Chunk>, c: Chunk)
    requires NoEmptyBlock(items) && (c.Normal? ==> 0 < |c.data| <= DEFAULT_BLOCK_SIZE)
    ensures NoEmptyBlock(items + [c])
  {}

  // ---------- Chunker ----------

  lemma BlockTaken(items: seq<Chunk>)
    requires NoEmptyBlock(items) && items != []
    ensures NoEmptyBlock(items[1..])
    ensures items[0].Normal? ==> 0 < |items[0].data| <= DEFAULT_BLOCK_SIZE
  {}

  lemma DataTaken(items: seq<Chunk>, buf: Bytes, rest: Bytes)
    requires items != []
    ensures (buf + Data(items[0])) + (DataOf(items[1..]) + rest) == buf + (DataOf(items) + rest)
    ensures !items[0].Normal? ==> DataOf(items[1..]) == DataOf(items)
  {
    assert DataOf(items) == Data(items[0]) + DataOf(items[1..]);
    hide DataOf, Data;
    Reassociate(buf, Data(items[0]), DataOf(items[1..]), rest);
  }

  lemma Reassociate(a: Bytes, b: Bytes, c: Bytes, d: Bytes)
    ensures (a + b) + (c + d) == a + ((b + c) + d)
  {}

  lemma TakeKeeps(cfg: Config, file: Bytes, s: State)
    requires Good(cfg, file, s) && TakeBlock(s).Some?
    requires s.kpc.CutFirst? || (s.kpc.CutBody? && |s.buf| < MaxChunkSize(cfg.ch) && !s.ended)
    ensures Good(cfg, file, TakeBlock(s).value)
  {
    hide Link, Chunks, WriteChunks, BuffersHold, BufferSuffices, Goal, DataOf, ChunksOf, Printed, NoEmptyBlock,
         MaxChunkSize;
    if s.readQ.items == [] {
      LinkNull(s.readQ, ReadSent(s.rpc), s.kGot);
    } else {
      LinkPop(s.readQ, ReadSent(s.rpc), s.kGot);
      DataTaken(s.readQ.items, s.buf, s.rest);
      BlockTaken(s.readQ.items);
      WhenToTake(cfg.ch);
    }
  }

  lemma WhenToTake(ch: Chunker)
    ensures MaxChunkSize(ch) <= 4 * ch.InitialAvg()
  {}

  lemma AwaitKeeps(cfg: Config, file: Bytes, s: State)
    requires Good(cfg, file, s) && s.kpc.CutAwait? && FireCut(cfg, s).Some?
    ensures Good(cfg, file, FireCut(cfg, s).value)
  {
    hide Link, Chunks, WriteChunks, BuffersHold, BufferSuffices, Goal, DataOf, ChunksOf, Printed, NoEmptyBlock,
         MaxChunkSize;
    if s.readQ.items == [] {
      LinkNull(s.readQ, ReadSent(s.rpc), s.kGot);
    } else {
      LinkPop(s.readQ, ReadSent(s.rpc), s.kGot);
      DataTaken(s.readQ.items, s.buf, s.rest);
      BlockTaken(s.readQ.items);
    }
  }

  /** A mark goes from the chunker to the chunk queue. */
  lemma MarkKeeps(cfg: Config, file: Bytes, s: State)
    requires Good(cfg, file, s) && FireCut(cfg, s).Some?
    requires s.kpc.CutForward? || s.kpc.CutClose? || (s.kpc.CutBody? && s.ended && s.buf == [])
    ensures Good(cfg, file, FireCut(cfg, s).value)
  {
    hide Link, Chunks, WriteChunks, BuffersHold, BufferSuffices, Goal, DataOf, ChunksOf, Printed, NoEmptyBlock;
    if s.kpc.CutClose? {
      LinkTerm(s.chunkQ, s.aGot);
    } else {
      var c := if s.kpc.CutForward? then FileStart else FileEnd;
      LinkPush(s.chunkQ, s.kSent, s.aGot, c);
      ChunksAppend(s.chunkQ.items, c);
      assert ChunksOf(s.chunkQ.items + [c]) == ChunksOf(s.chunkQ.items);
    }
  }

  /** With the end mark in hand nothing is left behind the buffer. */
  lemma NothingBehind(s: State)
    requires Links(s) && Phases(s) && s.kGot >= 2
    ensures DataOf(s.readQ.items) + s.rest == []
  {}

  lemma CutKeeps(cfg: Config, file: Bytes, s: State)
    requires Good(cfg, file, s) && FireCut(cfg, s).Some?
    requires s.kpc.CutBody? && s.buf != [] && (|s.buf| >= MaxChunkSize(cfg.ch) || s.ended)
    ensures Good(cfg, file, FireCut(cfg, s).value)
  {
    hide Link, Chunks, WriteChunks, BuffersHold, BufferSuffices, Goal, DataOf, ChunksOf, Printed, NoEmptyBlock,
         MaxChunkSize, Cut, NextAvg;
    var more := DataOf(s.readQ.items) + s.rest;
    if s.ended { NothingBehind(s); }
    CutPending(cfg.ch, s.avg, s.buf, more);
    var k := Cut(cfg.ch, s.avg, s.buf);
    var c := Normal(s.buf[..k], None);
    LinkPush(s.chunkQ, s.kSent, s.aGot, c);
    ChunksAppend(s.chunkQ.items, c);
    Shift(ChunksOf(s.hashQ.items) + ChunksOf(Hand(s.apc)), ChunksOf(s.chunkQ.items), [s.buf[..k]],
          Chunks(cfg.ch, NextAvg(cfg.ch, s.avg, s.buf), s.buf[k..] + more));
  }

  lemma Shift(a: seq<Bytes>, b: seq<Bytes>, c: seq<Bytes>, d: seq<Bytes>)
    ensures a + (b + c) + d == a + b + (c + d)
  {}

  lemma CutterKeeps(cfg: Config, file: Bytes, s: State)
    requires Good(cfg, file, s) && FireCut(cfg, s).Some?
    ensures Good(cfg, file, FireCut(cfg, s).value)
  {
    BufferPositive(cfg);
    hide Good, MaxChunkSize;
    if s.kpc.CutAwait? {
      AwaitKeeps(cfg, file, s);
    } else if s.kpc.CutFirst? || (s.kpc.CutBody? && |s.buf| < MaxChunkSize(cfg.ch) && !s.ended) {
      TakeKeeps(cfg, file, s);
    } else if s.kpc.CutBody? && s.buf != [] {
      CutKeeps(cfg, file, s);
    } else {
      MarkKeeps(cfg, file, s);
    }
  }

  lemma BufferPositive(cfg: Config)
    requires cfg.ch.Valid()
    ensures MaxChunkSize(cfg.ch) > 0
  {}

  // ---------- Hasher ----------

  lemma ChunksTaken(items: seq<Chunk>)
    requires items != []
    ensures ChunksOf(items) == ChunksOf([items[0]]) + ChunksOf(items[1..])
  {
    assert [items[0]][1..] == [];
  }

  lemma HashedSame(h: Bytes -> SHA1FP, c: Chunk)
    ensures ChunksOf([Hashed(h, c)]) == ChunksOf([c]) && Printed(h, [Hashed(h, c)])
  {
    assert [c][1..] == [] && [Hashed(h, c)][1..] == [];
  }

  lemma HashTakes(cfg: Config, file: Bytes, s: State)
    requires Good(cfg, file, s) && s.apc.HashAwait? && FireHash(cfg, s).Some?
    ensures Good(cfg, file, FireHash(cfg, s).value)
  {
    hide Link, Chunks, WriteChunks, BuffersHold, BufferSuffices, Goal, DataOf, ChunksOf, Printed, NoEmptyBlock,
         MaxChunkSize;
    if s.chunkQ.items == [] {
      LinkNull(s.chunkQ, s.kSent, s.aGot);
    } else {
      var c := s.chunkQ.items[0];
      LinkPop(s.chunkQ, s.kSent, s.aGot);
      ChunksTaken(s.chunkQ.items);
      HashedSame(cfg.h, c);
      NoChunks();
      var s' := FireHash(cfg, s).value;
      assert ChunksOf(Hand(s'.apc)) + ChunksOf(s'.chunkQ.items) == ChunksOf(Hand(s.apc)) + ChunksOf(s.chunkQ.items);
      assert Remaining(cfg, s') == Remaining(cfg, s);
    }
  }

  lemma NoChunks()
    ensures ChunksOf([]) == []
  {}

  lemma HashGives(cfg: Config, file: Bytes, s: State)
    requires Good(cfg, file, s) && !s.apc.HashAwait? && FireHash(cfg, s).Some?
    ensures Good(cfg, file, FireHash(cfg, s).value)
  {
    hide Link, Chunks, WriteChunks, BuffersHold, BufferSuffices, Goal, DataOf, ChunksOf, Printed, NoEmptyBlock,
         MaxChunkSize;
    if s.apc.HashClose? {
      LinkTerm(s.hashQ, s.dGot);
    } else {
      LinkPush(s.hashQ, s.aSent, s.dGot, s.apc.c);
      ChunksAppend(s.hashQ.items, s.apc.c);
      OneChunk(s.apc.c);
      NoChunks();
      PrintedAdd(cfg.h, s.hashQ.items, s.apc.c);
      var s' := FireHash(cfg, s).value;
      assert ChunksOf(s'.hashQ.items) + ChunksOf(Hand(s'.apc)) == ChunksOf(s.hashQ.items) + ChunksOf(Hand(s.apc));
      assert Remaining(cfg, s') == Remaining(cfg, s);
    }
  }

  lemma OneChunk(c: Chunk)
    ensures ChunksOf([c]) == ChunkOf(c)
  {
    assert [c][1..] == [];
  }

  lemma PrintedAdd(h: Bytes -> SHA1FP, items: seq<Chunk>, c: Chunk)
    requires Printed(h, items) && Printed(h, [c])
    ensures Printed(h, items + [c]) && Printed(h, [])
  {
    assert [c][0] == c;
  }

  // ---------- Deduper ----------

  lemma PrintedTake(h: Bytes -> SHA1FP, items: seq<Chunk>)
    requires Printed(h, items) && items != []
    ensures Printed(h, items[1..]) && (items[0].Normal? ==> items[0].fp == Some(h(items[0].data)))
  {}

  lemma WriteFirst(h: Bytes -> SHA1FP, w: Writer, a: seq<Bytes>, b: seq<Bytes>)
    requires a != []
    ensures WriteChunks(h, w, a + b) == WriteChunks(h, Ingest(w, h(a[0]), a[0]), a[1..] + b)
    ensures BuffersHold(h, w, a + b) <==>
              RoomFor(w, h(a[0]), a[0]) && BuffersHold(h, Ingest(w, h(a[0]), a[0]), a[1..] + b)
  {
    hide Ingest, RoomFor;
    assert (a + b)[1..] == a[1..] + b;
  }

  /** The chunk dedup_thread takes is the first of those it has still to see. */
  lemma FirstRemaining(cfg: Config, s: State, s': State)
    requires cfg.ch.Valid() && s.hashQ.items != [] && s'.hashQ.items == s.hashQ.items[1..]
    requires s'.apc == s.apc && s'.chunkQ == s.chunkQ && s'.avg == s.avg && s'.buf == s.buf
    requires s'.readQ == s.readQ && s'.rest == s.rest
    ensures Remaining(cfg, s) == ChunkOf(s.hashQ.items[0]) + Remaining(cfg, s')
  {
    hide Chunks, DataOf, ChunksOf, ChunkOf;
    ChunksTaken(s.hashQ.items);
    OneChunk(s.hashQ.items[0]);
    var tail := ChunksOf(Hand(s.apc)) + ChunksOf(s.chunkQ.items)
                + Chunks(cfg.ch, s.avg, s.buf + (DataOf(s.readQ.items) + s.rest));
    assert Remaining(cfg, s) == ChunksOf(s.hashQ.items) + tail
        && Remaining(cfg, s') == ChunksOf(s.hashQ.items[1..]) + tail;
    assert ChunkOf(s.hashQ.items[0]) + ChunksOf(s.hashQ.items[1..]) + tail
        == ChunkOf(s.hashQ.items[0]) + (ChunksOf(s.hashQ.items[1..]) + tail);
  }

  /** Consuming a chunk keeps the writer on its way, or shows that the buffer does not hold it. */
  lemma ChunkFlows(cfg: Config, file: Bytes, s: State)
    requires Good(cfg, file, s) && s.dpc.DedupAwait? && s.hashQ.items != [] && s.hashQ.items[0].Normal?
    ensures var s' := FireDedup(cfg, s);
            s'.Some? && if s'.value.crashed then !BufferSuffices(cfg, file) else Flow(cfg, file, s'.value)
  {
    hide Links, Chunks, WriteChunks, BuffersHold, BufferSuffices, Goal, Remaining, NoEmptyBlock, MaxChunkSize, Ingest,
         RoomFor;
    var s', data := FireDedup(cfg, s).value, s.hashQ.items[0].data;
    PrintedTake(cfg.h, s.hashQ.items);
    FirstRemaining(cfg, s, s');
    var rest := Remaining(cfg, s');
    assert ChunkOf(s.hashQ.items[0]) == [data] && [data][1..] + rest == rest;
    WriteFirst(cfg.h, s.w, [data], rest);
  }

  lemma MarkFlows(cfg: Config, file: Bytes, s: State)
    requires Good(cfg, file, s) && s.dpc.DedupAwait? && s.hashQ.items != [] && !s.hashQ.items[0].Normal?
    ensures FireDedup(cfg, s).Some? && Flow(cfg, file, FireDedup(cfg, s).value)
  {
    hide Links, Chunks, WriteChunks, BuffersHold, BufferSuffices, Goal, Remaining, NoEmptyBlock, Printed, MaxChunkSize;
    FirstRemaining(cfg, s, FireDedup(cfg, s).value);
    assert [] + Remaining(cfg, FireDedup(cfg, s).value) == Remaining(cfg, FireDedup(cfg, s).value);
  }

  lemma DedupTakes(cfg: Config, file: Bytes, s: State)
    requires Good(cfg, file, s) && s.dpc.DedupAwait? && FireDedup(cfg, s).Some?
    ensures Good(cfg, file, FireDedup(cfg, s).value) || Overrun(cfg, file, FireDedup(cfg, s).value)
  {
    hide Link, BufferSuffices, Flow, Printed, NoEmptyBlock, MaxChunkSize, Ingest, RoomFor;
    if s.hashQ.items == [] {
      LinkNull(s.hashQ, s.aSent, s.dGot);
    } else {
      LinkPop(s.hashQ, s.aSent, s.dGot);
      PrintedTake(cfg.h, s.hashQ.items);
      if s.hashQ.items[0].Normal? { ChunkFlows(cfg, file, s); } else { MarkFlows(cfg, file, s); }
    }
  }

  lemma DeduperKeeps(cfg: Config, file: Bytes, s: State)
    requires Good(cfg, file, s) && FireDedup(cfg, s).Some?
    ensures Good(cfg, file, FireDedup(cfg, s).value) || Overrun(cfg, file, FireDedup(cfg, s).value)
  {
    if s.dpc.DedupAwait? {
      DedupTakes(cfg, file, s);
    } else {
      hide Link, Chunks, WriteChunks, BuffersHold, BufferSuffices, Goal, DataOf, ChunksOf, Printed, NoEmptyBlock,
           MaxChunkSize, FinishWrite;
    }
  }

  // ---------- All threads ----------

  lemma FireKeeps(cfg: Config, file: Bytes, s: State, mv: Move)
    requires Good(cfg, file, s) && Fire(cfg, s, mv).Some?
    ensures Good(cfg, file, Fire(cfg, s, mv).value) || Overrun(cfg, file, Fire(cfg, s, mv).value)
  {
    hide Good, BufferSuffices, FireRead, FireCut, FireHash, FireDedup;
    match mv
    case Reader(n) => ReadKeeps(cfg, file, s, n);
    case Cutter => CutterKeeps(cfg, file, s);
    case Hasher => if s.apc.HashAwait? { HashTakes(cfg, file, s); } else { HashGives(cfg, file, s); }
    case Deduper => DeduperKeeps(cfg, file, s);
  }
}
