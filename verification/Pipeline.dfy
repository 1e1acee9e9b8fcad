/** The four threads of the parallel writer and the three queues between them, as a state machine:
    one move is one pass of one thread through a queue operation, with the thread's own
    computation before it. */
module Pipeline {
  import opened Common
  import opened FastCDC
  import opened Chunking
  import opened StoreModel
  import opened Queue

  /** struct chunk: a mark or data, with the fingerprint once it has been computed. */
  datatype Chunk = FileStart | Normal(data: Bytes, fp: Option<SHA1FP>) | FileEnd

  datatype ReadPC = ReadOpen | ReadBody | ReadClose | ReadStop
  datatype CutPC = CutAwait | CutForward | CutFirst | CutBody | CutClose | CutStop
  datatype HashPC = HashAwait | HashHand(c: Chunk) | HashClose | HashStop
  datatype DedupPC = DedupAwait | DedupSave | DedupStop

  datatype Config = Config(h: Bytes -> SHA1FP, ch: Chunker, st: Store)

  datatype State = State(
    // read_thread: what is left of the file
    rpc: ReadPC, rest: Bytes,
    readQ: Chan<Chunk>,
    // chunk_thread: the buffered bytes, and whether the end mark is in hand
    kpc: CutPC, buf: Bytes, ended: bool, avg: nat,
    chunkQ: Chan<Chunk>,
    // sha1_thread
    apc: HashPC,
    hashQ: Chan<Chunk>,
    // dedup_thread
    dpc: DedupPC, w: Writer,
    // what the saved files amount to, once saved
    result: Option<Store>,
    // a null pointer or an unexpected item has been used, or a chunk has been copied past the end
    // of the container buffer
    crashed: bool,
    // History: marks received and sent (0 none, 1 start, 2 end, 3 termination); no move reads it.
    kGot: nat, kSent: nat, aGot: nat, aSent: nat, dGot: nat)

  datatype Move = Reader(n: nat) | Cutter | Hasher | Deduper

  function Mark(c: Chunk, before: nat): nat
  {
    match c
    case FileStart => 1
    case FileEnd => 2
    case Normal(_, _) => before
  }

  function Init(cfg: Config, file: Bytes): State
  {
    State(ReadOpen, file, Chan([], false, 20),
          CutAwait, [], false, cfg.ch.InitialAvg(), Chan([], false, 200),
          HashAwait, Chan([], false, 200),
          DedupAwait, StartWrite(cfg.st, false), None, false, 0, 0, 0, 0, 0)
  }

  /** read_thread: the start mark, blocks of at most DEFAULT_BLOCK_SIZE bytes, the end mark. */
  function FireRead(s: State, n: nat): Option<State>
  {
    match s.rpc
    case ReadOpen =>
      (match TryPush(s.readQ, FileStart, false)
       case MustWait => None
       case Left(q) => Some(s.(readQ := q, rpc := ReadBody)))
    case ReadBody =>
      if s.rest == [] then
        (match TryPush(s.readQ, FileEnd, false)
         case MustWait => None
         case Left(q) => Some(s.(readQ := q, rpc := ReadClose)))
      else if 0 < n <= Min(|s.rest|, DEFAULT_BLOCK_SIZE) then
        (match TryPush(s.readQ, Normal(s.rest[..n], None), false)
         case MustWait => None
         case Left(q) => Some(s.(readQ := q, rest := s.rest[n..])))
      else None
    case ReadClose => Some(s.(readQ := s.readQ.(term := true), rpc := ReadStop))
    case ReadStop => None
  }

  /** chunk_thread takes one block, or the end mark, into its buffer. */
  function TakeBlock(s: State): Option<State>
  {
    match TryPop(s.readQ)
    case Blocked => None
    case Null => Some(s.(crashed := true))
    case Got(c, q) =>
      match c
      case FileStart => Some(s.(crashed := true))
      case FileEnd => Some(s.(readQ := q, kpc := CutBody, ended := true, kGot := 2))
      case Normal(data, _) => Some(s.(readQ := q, kpc := CutBody, buf := s.buf + data))
  }

  function FireCut(cfg: Config, s: State): Option<State>
    requires cfg.ch.Valid()
  {
    match s.kpc
    case CutAwait =>
      (match TryPop(s.readQ)
       case Blocked => None
       case Null => Some(s.(kpc := CutClose, kGot := 3))
       case Got(c, q) => Some(
         if c.FileStart? then s.(readQ := q, kpc := CutForward, kGot := 1) else s.(crashed := true)))
    case CutForward =>
      (match TryPush(s.chunkQ, FileStart, false)
       case MustWait => None
       case Left(q) => Some(s.(chunkQ := q, kpc := CutFirst, kSent := 1)))
    case CutFirst => TakeBlock(s)
    case CutBody =>
      if |s.buf| < MaxChunkSize(cfg.ch) && !s.ended then TakeBlock(s)
      else if s.buf == [] then
        (match TryPush(s.chunkQ, FileEnd, false)
         case MustWait => None
         case Left(q) => Some(s.(chunkQ := q, kpc := CutAwait, ended := false, kSent := 2)))
      else
        var k := Cut(cfg.ch, s.avg, s.buf);
        (match TryPush(s.chunkQ, Normal(s.buf[..k], None), false)
         case MustWait => None
         case Left(q) => Some(s.(chunkQ := q, buf := s.buf[k..], avg := NextAvg(cfg.ch, s.avg, s.buf))))
    case CutClose => Some(s.(chunkQ := s.chunkQ.(term := true), kpc := CutStop, kSent := 3))
    case CutStop => None
  }

  function Hashed(h: Bytes -> SHA1FP, c: Chunk): Chunk
  {
    if c.Normal? then Normal(c.data, Some(h(c.data))) else c
  }

  function FireHash(cfg: Config, s: State): Option<State>
  {
    match s.apc
    case HashAwait =>
      (match TryPop(s.chunkQ)
       case Blocked => None
       case Null => Some(s.(apc := HashClose, aGot := 3))
       case Got(c, q) => Some(s.(chunkQ := q, apc := HashHand(Hashed(cfg.h, c)), aGot := Mark(c, s.aGot))))
    case HashHand(c) =>
      (match TryPush(s.hashQ, c, false)
       case MustWait => None
       case Left(q) => Some(s.(hashQ := q, apc := HashAwait, aSent := Mark(c, s.aSent))))
    case HashClose => Some(s.(hashQ := s.hashQ.(term := true), apc := HashStop, aSent := 3))
    case HashStop => None
  }

  function FireDedup(cfg: Config, s: State): Option<State>
  {
    match s.dpc
    case DedupAwait =>
      (match TryPop(s.hashQ)
       case Blocked => None
       case Null => Some(s.(crashed := true))
       case Got(c, q) =>
         match c
         case FileStart => Some(s.(hashQ := q, dGot := 1))
         case FileEnd => Some(s.(hashQ := q, dGot := 2, dpc := DedupSave))
         case Normal(data, fp) =>
           if fp.Some? && RoomFor(s.w, fp.value, data) then Some(s.(hashQ := q, w := Ingest(s.w, fp.value, data)))
           else Some(s.(hashQ := q, crashed := true)))
    case DedupSave => Some(s.(result := Some(FinishWrite(s.w, cfg.st.recipes)), dpc := DedupStop))
    case DedupStop => None
  }

  /** One move of the named thread; None when it has to wait or has stopped. */
  function Fire(cfg: Config, s: State, mv: Move): Option<State>
    requires cfg.ch.Valid()
  {
    if s.crashed then None
    else
      match mv
      case Reader(n) => FireRead(s, n)
      case Cutter => FireCut(cfg, s)
      case Hasher => FireHash(cfg, s)
      case Deduper => FireDedup(cfg, s)
  }

  /** A schedule; None when it asks a waiting thread to move. */
  function Exec(cfg: Config, s: State, moves: seq<Move>): Option<State>
    requires cfg.ch.Valid()
    decreases |moves|
  {
    if moves == [] then Some(s)
    else
      var s' := Fire(cfg, s, moves[0]);
      if s' == None then None else Exec(cfg, s'.value, moves[1..])
  }

  /** All four threads have stopped and the job is done. */
  predicate Finished(s: State)
  {
    !s.crashed && s.rpc.ReadStop? && s.kpc.CutStop? && s.apc.HashStop? && s.dpc.DedupStop? && s.result.Some?
  }
}
