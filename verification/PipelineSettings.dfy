/** The chunkers that the sequential writer and the pipeline set up from the same configuration, and
    when both leave the same files. */
module PipelineSettings {
  import opened Common
  import opened FastCDC
  import opened Chunking
  import opened StoreModel
  import opened StorePacking
  import opened StoreFilling
  import opened StoreOverlong
  import opened ZeroRuns
  import opened Pipeline
  import opened PipelineInvariant
  import opened PipelineRun

  /** Chunking method, average size and normalization level of the configuration file. */
  datatype Settings = FSC(size: nat) | CDC(fas: nat, level: nat)

  /** None stands for a size the program refuses, or a level that leaves no chunker. */
  function SequentialChunker(c: Settings): Option<Chunker>
  {
    match c
    case FSC(size) => if size in {512, 4096, 8192, 16384} then Some(Fixed(size)) else None
    case CDC(fas, level) => InitNC(fas, level)
  }

  /** The pipeline always takes FastCDC_with_NC; a level without masks leaves both at zero. */
  function PipelineChunker(c: Settings): Option<Chunker>
  {
    match c
    case FSC(size) => if size in {4096, 8192, 16384} then Some(Fixed(size)) else None
    case CDC(fas, level) => if 1 <= level <= 3 then InitNC(fas, level) else Some(Normalized(fas, 0, 0))
  }

  /** A configuration with which both writers work: chunks never exceed the container buffer, that is
      an average of at most 1 MiB. */
  predicate BothRun(c: Settings)
  {
    && SequentialChunker(c).Some? && PipelineChunker(c).Some?
    && SequentialChunker(c).value.Valid() && SequentialChunker(c).value.MaxSize() <= CONTAINER_SIZE
  }

  /** Index, containers and recipes are those of the sequential writer. */
  ghost predicate SameFiles(h: Bytes -> SHA1FP, st: Store, c: Settings, file: Bytes, result: Option<Store>)
    requires BothRun(c)
  {
    var ch := SequentialChunker(c).value;
    var st' := Write(h, st, FileChunks(ch, ch.InitialAvg(), file), true);
    result.Some? && result.value.index == st'.index
    && result.value.containers == st'.containers && result.value.recipes == st'.recipes
  }

  /** What the pipeline with this configuration leaves after a schedule that ends. */
  ghost function PipelineOutcome(h: Bytes -> SHA1FP, st: Store, c: Settings, file: Bytes,
                                 moves: seq<Move>): Option<Store>
    requires BothRun(c) && Ends(Config(h, PipelineChunker(c).value, st), file, moves)
  {
    var cfg := Config(h, PipelineChunker(c).value, st);
    Exec(cfg, Init(cfg, file), moves).value.result
  }

  /** The sequential writer has a result: its list buffer holds the chunks. */
  predicate SequentialWrites(h: Bytes -> SHA1FP, st: Store, c: Settings, file: Bytes)
    requires BothRun(c)
  {
    var ch := SequentialChunker(c).value;
    Written(h, st, FileChunks(ch, ch.InitialAvg(), file)).Some?
  }

  /** For every file of at most FILE_CACHE bytes that the sequential writer can write, every schedule
      of the pipeline leaves its files. */
  ghost predicate PathsAgree(h: Bytes -> SHA1FP, c: Settings)
    requires BothRun(c)
  {
    forall st, file, moves ::
      && |file| <= FILE_CACHE && Ends(Config(h, PipelineChunker(c).value, st), file, moves)
      && SequentialWrites(h, st, c, file) ==>
      SameFiles(h, st, c, file, PipelineOutcome(h, st, c, file, moves))
  }

  /** What one schedule leaves, when both chunkers cut the file alike. */
  lemma PipelineResult(h: Bytes -> SHA1FP, st: Store, c: Settings, file: Bytes, moves: seq<Move>)
    requires BothRun(c) && |file| <= FILE_CACHE && Ends(Config(h, PipelineChunker(c).value, st), file, moves)
    requires var p, q := PipelineChunker(c).value, SequentialChunker(c).value;
             Chunks(p, p.InitialAvg(), file) == Chunks(q, q.InitialAvg(), file)
    ensures SameFiles(h, st, c, file, PipelineOutcome(h, st, c, file, moves))
  {
    hide Chunks, FileChunks, Write, Exec, Init, Fire, Ends, SequentialChunker, PipelineChunker, BothRun;
    BothValid(c);
    AlikeOutcome(Config(h, PipelineChunker(c).value, st), SequentialChunker(c).value, file, moves);
  }

  lemma BothValid(c: Settings)
    requires BothRun(c)
    ensures PipelineChunker(c).Some? && SequentialChunker(c).Some?
    ensures PipelineChunker(c).value.Valid() && SequentialChunker(c).value.Valid()
    ensures SequentialChunker(c).value.MaxSize() <= CONTAINER_SIZE
  {}

  lemma AlikeOutcome(cfg: Config, q: Chunker, file: Bytes, moves: seq<Move>)
    requires cfg.ch.Valid() && q.Valid() && q.MaxSize() <= CONTAINER_SIZE && |file| <= FILE_CACHE
    requires Ends(cfg, file, moves)
    requires Chunks(cfg.ch, cfg.ch.InitialAvg(), file) == Chunks(q, q.InitialAvg(), file)
    ensures Exec(cfg, Init(cfg, file), moves).value.result ==
            Some(Write(cfg.h, cfg.st, FileChunks(q, q.InitialAvg(), file), true).(revs := cfg.st.revs))
  {
    hide Chunks, FileChunks, Write, Exec, Init, Fire, BufferSuffices;
    ChunksPartition(q, q.InitialAvg(), file);
    FittingSuffices(cfg, file);
    HeldOutcome(cfg, file, moves);
    SmallFileIsOneBuffer(q, q.InitialAvg(), file);
  }

  lemma FittingSuffices(cfg: Config, file: Bytes)
    requires cfg.ch.Valid() && forall c :: c in Chunks(cfg.ch, cfg.ch.InitialAvg(), file) ==> |c| <= CONTAINER_SIZE
    ensures BufferSuffices(cfg, file)
  {
    hide Chunks, BuffersHold;
    FittingHold(cfg.h, StartWrite(cfg.st, false), Chunks(cfg.ch, cfg.ch.InitialAvg(), file));
  }

  lemma HeldOutcome(cfg: Config, file: Bytes, moves: seq<Move>)
    requires cfg.ch.Valid() && Ends(cfg, file, moves) && BufferSuffices(cfg, file)
    ensures Exec(cfg, Init(cfg, file), moves).value.result ==
            Some(Write(cfg.h, cfg.st, Chunks(cfg.ch, cfg.ch.InitialAvg(), file), true).(revs := cfg.st.revs))
  {
    hide Chunks, WriteAt, Exec, Init, Fire, BufferSuffices;
    EverySchedule(cfg, file, moves);
  }

  /** The configurations the program works with: fixed blocks of 512 bytes with the sequential writer
      only, blocks of 4, 8 and 16 KiB and the levels 0 to 3 of FastCDC with both. */
  lemma Accepted(c: Settings)
    ensures SequentialChunker(c).Some? <==>
              if c.FSC? then c.size == 512 || c.size in {0x1000, 0x2000, 0x4000} else c.level <= 3
    ensures PipelineChunker(c).Some? <==> c.CDC? || c.size in {0x1000, 0x2000, 0x4000}
    ensures SequentialChunker(c).Some? && PipelineChunker(c).Some? && !(c.CDC? && c.level == 0) ==>
              SequentialChunker(c) == PipelineChunker(c)
    ensures c.FSC? && SequentialChunker(c).Some? ==> SequentialChunker(c).value == Fixed(c.size)
  {}

  // ---------- Level 0 ----------

  /** One byte more than the minimum size, all zeros. */
  function LevelZeroFile(fas: nat): (r: Bytes)
    ensures |r| == fas / 4 + 1 && Zeros(r, 0, |r|)
  {
    seq(fas / 4 + 1, _ => 0)
  }

  /** Without masks every position is a hit: the pipeline cuts at the minimum size. */
  lemma MasklessChunks(fas: nat, p: Bytes)
    requires Plain(fas).Valid() && |p| == fas / 4 + 1
    ensures Chunks(Normalized(fas, 0, 0), fas, p) == [p[..fas / 4], p[fas / 4..]]
  {
    hide Roll;
    var ch, min := Normalized(fas, 0, 0), fas / 4;
    assert Cut(ch, fas, p) == min by { assert BitAnd(Roll(0, p[min]), 0) == 0; }
    var rest, avg := p[min..], NextAvg(ch, fas, p);
    assert rest[..1] == rest && rest[1..] == [];
    assert Chunks(ch, NextAvg(ch, avg, rest), []) == [];
    assert Chunks(ch, avg, rest) == [rest];
  }

  /** The sequential writer scans the last byte, a zero, and does not cut before it. */
  lemma PlainChunk(fas: nat)
    requires Plain(fas).Valid()
    ensures Chunks(Plain(fas), fas, LevelZeroFile(fas)) == [LevelZeroFile(fas)]
  {
    hide LevelZeroFile, Cut;
    var ch, p := Plain(fas), LevelZeroFile(fas);
    ZerosCut(ch, fas, p);
    assert p[..|p|] == p && p[|p|..] == [];
    NothingLeft(ch, NextAvg(ch, fas, p));
  }

  /** At level 0 the two writers disagree on that file: the recipes have different lengths. */
  lemma LevelZeroDiffers(h: Bytes -> SHA1FP, fas: nat)
    requires BothRun(CDC(fas, 0))
    ensures !PathsAgree(h, CDC(fas, 0))
  {
    hide Chunks, FileChunks, Write, Exec, Init, Fire, LevelZeroFile, Ends, BuffersHold;
    var c, p, q, file := CDC(fas, 0), Normalized(fas, 0, 0), Plain(fas), LevelZeroFile(fas);
    var cfg := Config(h, p, EmptyStore);
    var moves := ScheduleExists(cfg, file);
    EverySchedule(cfg, file, moves);
    SmallFileIsOneBuffer(q, fas, file);
    MasklessChunks(fas, file);
    PlainChunk(fas);
    FewChunksHold(h, StartWrite(EmptyStore, true), [file]);
    FittingHold(h, StartWrite(EmptyStore, false), Chunks(p, fas, file));
    WrittenRecipe(h, EmptyStore, Chunks(p, fas, file));
    WrittenRecipe(h, EmptyStore, Chunks(q, fas, file));
    assert !SameFiles(h, EmptyStore, c, file, PipelineOutcome(h, EmptyStore, c, file, moves));
  }

  /** Both writers end with the same index, containers and recipes for all files up to FILE_CACHE
      bytes and all schedules, exactly when the configuration is not FastCDC at level 0. */
  lemma PathsAgreeExactly(h: Bytes -> SHA1FP, c: Settings)
    requires BothRun(c)
    ensures PathsAgree(h, c) <==> !(c.CDC? && c.level == 0)
  {
    hide Chunks, Exec, Init, Fire, SameFiles, Ends, PipelineOutcome, SequentialWrites;
    if c.CDC? && c.level == 0 {
      LevelZeroDiffers(h, c.fas);
    } else {
      forall st, file, moves | |file| <= FILE_CACHE && Ends(Config(h, PipelineChunker(c).value, st), file, moves)
        ensures SameFiles(h, st, c, file, PipelineOutcome(h, st, c, file, moves))
      {
        PipelineResult(h, st, c, file, moves);
      }
    }
  }

  // ---------- Chunks that do not fit ----------

  /** The container buffer of the pipeline suffices exactly when no chunk it stores is longer than a
      container. */
  lemma BufferSufficesExactly(cfg: Config, file: Bytes)
    requires cfg.ch.Valid()
    ensures BufferSuffices(cfg, file) <==>
              AllAtMost(NewLengths(cfg.h, Known(cfg.st), Chunks(cfg.ch, cfg.ch.InitialAvg(), file)), CONTAINER_SIZE)
  {
    hide Chunks, BuffersHold, Known, KnownTo, NewLengths;
    var w := StartWrite(cfg.st, false);
    StartKnows(cfg.st, w.ctr, false);
    ContainerHoldsExactly(cfg.h, w, Chunks(cfg.ch, cfg.ch.InitialAvg(), file));
  }

  /** 8 MiB of zeros. */
  function WideFile(): (r: Bytes)
    ensures |r| == 0x80_0000 && Zeros(r, 0, 0x80_0000)
  {
    seq(0x80_0000, _ => 0)
  }

  /** With an average of 2 MiB at level 2 this file is one chunk, twice as long as the container
      buffer: every schedule crashes. */
  lemma WideChunkCrashes(h: Bytes -> SHA1FP, moves: seq<Move>)
    requires Ends(Config(h, InitNC(0x20_0000, 2).value, EmptyStore), WideFile(), moves)
    ensures var cfg := Config(h, InitNC(0x20_0000, 2).value, EmptyStore);
            Exec(cfg, Init(cfg, WideFile()), moves).value.crashed
  {
    hide WideFile, Cut, NextAvg, Exec, Init, Fire, Ends;
    var ch, p := InitNC(0x20_0000, 2).value, WideFile();
    assert ch.MaxSize() == 0x80_0000;
    ZerosCut(ch, 0x20_0000, p);
    assert p[..|p|] == p && p[|p|..] == [];
    NothingLeft(ch, NextAvg(ch, 0x20_0000, p));
    assert Chunks(ch, 0x20_0000, p) == [p];
    assert !RoomFor(StartWrite(EmptyStore, false), h(p), p);
    EverySchedule(Config(h, ch, EmptyStore), p, moves);
  }
}
