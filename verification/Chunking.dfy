/** Chunk sequences of buffers and files, and the sliding buffer of the chunk thread. */
module Chunking {
  import opened Common
  import opened FastCDC

  /** Chunks of a buffer, cut one after another until nothing is left. */
  function Chunks(ch: Chunker, avg: nat, p: Bytes): (r: seq<Bytes>)
    requires ch.Valid()
    decreases |p|
  {
    if p == [] then []
    else
      var k := Cut(ch, avg, p);
      [p[..k]] + Chunks(ch, NextAvg(ch, avg, p), p[k..])
  }

  /** The average size left behind by that run. */
  function AvgAfter(ch: Chunker, avg: nat, p: Bytes): nat
    requires ch.Valid()
    decreases |p|
  {
    if p == [] then avg
    else AvgAfter(ch, NextAvg(ch, avg, p), p[Cut(ch, avg, p)..])
  }

  /** Chunks of a file as the sequential writer reads it: FILE_CACHE bytes at a time, each read
      chunked on its own, the average size carried over. */
  function FileChunks(ch: Chunker, avg: nat, file: Bytes): seq<Bytes>
    requires ch.Valid()
    decreases |file|
  {
    if file == [] then []
    else
      var n := Min(|file|, FILE_CACHE);
      Chunks(ch, avg, file[..n]) + FileChunks(ch, AvgAfter(ch, avg, file[..n]), file[n..])
  }

  /** Chunking a buffer partitions it. */
  lemma {:induction false} ChunksPartition(ch: Chunker, avg: nat, p: Bytes)
    requires ch.Valid()
    ensures Flatten(Chunks(ch, avg, p)) == p
    ensures forall c :: c in Chunks(ch, avg, p) ==> 0 < |c| <= ch.MaxSize()
    ensures ch.AvgOk(avg) ==> ch.AvgOk(AvgAfter(ch, avg, p)) && AvgAfter(ch, avg, p) <= avg
    decreases |p|
  {
    hide Cut, NextAvg, Flatten;
    if p == [] {
      FlattenNone([], 0);
    } else {
      var k, avg' := Cut(ch, avg, p), NextAvg(ch, avg, p);
      ChunksPartition(ch, avg', p[k..]);
      FlattenCons(p[..k], Chunks(ch, avg', p[k..]));
      assert p[..k] + p[k..] == p;
    }
  }

  /** All chunks but the last reach the minimum size; fixed-size chunks reach it exactly. */
  predicate LongEnough(ch: Chunker, cs: seq<Bytes>)
  {
    forall i :: 0 <= i < |cs| - 1 ==> |cs[i]| >= ch.MinSize() && (ch.Fixed? ==> |cs[i]| == ch.size)
  }

  lemma {:induction false} ChunksLongEnough(ch: Chunker, avg: nat, p: Bytes)
    requires ch.Valid()
    ensures LongEnough(ch, Chunks(ch, avg, p))
    decreases |p|
  {
    hide Cut, NextAvg;
    if p != [] {
      var k := Cut(ch, avg, p);
      ChunksLongEnough(ch, NextAvg(ch, avg, p), p[k..]);
      assert |p| <= ch.MinSize() ==> p[k..] == [];
    }
  }

  /** Chunking a file of any size partitions it. */
  lemma {:induction false} FileChunksPartition(ch: Chunker, avg: nat, file: Bytes)
    requires ch.Valid()
    ensures Flatten(FileChunks(ch, avg, file)) == file
    ensures forall c :: c in FileChunks(ch, avg, file) ==> 0 < |c| <= ch.MaxSize()
    decreases |file|
  {
    hide Chunks, AvgAfter;
    if file != [] {
      var n := Min(|file|, FILE_CACHE);
      var a, b := file[..n], file[n..];
      ChunksPartition(ch, avg, a);
      FileChunksPartition(ch, AvgAfter(ch, avg, a), b);
      FlattenConcat(Chunks(ch, avg, a), FileChunks(ch, AvgAfter(ch, avg, a), b));
      assert a + b == file;
    }
  }

  /** Everything read in full comes before the rest: the chunks of whole reads, however many, are
      those of the bytes they returned, and what follows is chunked as a file of its own with the
      average size they have left. */
  lemma {:induction false} WholeReadsFirst(ch: Chunker, avg: nat, a: Bytes, b: Bytes)
    requires ch.Valid() && |a| % FILE_CACHE == 0
    ensures FileChunks(ch, avg, a + b) == FileChunks(ch, avg, a) + FileChunks(ch, AvgAfterReads(ch, avg, a), b)
    decreases |a|
  {
    hide Chunks, AvgAfter;
    if a == [] {
      assert a + b == b;
    } else {
      var head, tail := a[..FILE_CACHE], a[FILE_CACHE..];
      assert (a + b)[..FILE_CACHE] == head && (a + b)[FILE_CACHE..] == tail + b;
      WholeReadsFirst(ch, AvgAfter(ch, avg, head), tail, b);
    }
  }

  /** The average size after whole reads. */
  function AvgAfterReads(ch: Chunker, avg: nat, a: Bytes): nat
    requires ch.Valid()
    decreases |a|
  {
    if |a| < FILE_CACHE then avg else AvgAfterReads(ch, AvgAfter(ch, avg, a[..FILE_CACHE]), a[FILE_CACHE..])
  }

  /** One read is chunked as one buffer, and what follows it as a file of its own. */
  lemma OneReadFirst(ch: Chunker, avg: nat, a: Bytes, b: Bytes)
    requires ch.Valid() && |a| == FILE_CACHE
    ensures FileChunks(ch, avg, a + b) == Chunks(ch, avg, a) + FileChunks(ch, AvgAfter(ch, avg, a), b)
  {
    hide Chunks, AvgAfter;
    assert (a + b)[..FILE_CACHE] == a && (a + b)[FILE_CACHE..] == b;
  }

  /** No chunk reaches across the end of a read: every multiple of FILE_CACHE in a file is the end of
      one of its chunks. */
  lemma ReadsEndChunks(ch: Chunker, avg: nat, file: Bytes, k: nat)
    requires ch.Valid() && FILE_CACHE * k <= |file|
    ensures var cs := FileChunks(ch, avg, file);
            exists i :: 0 <= i <= |cs| && Flatten(cs[..i]) == file[..FILE_CACHE * k]
  {
    hide FileChunks, AvgAfterReads;
    var a, b := file[..FILE_CACHE * k], file[FILE_CACHE * k..];
    assert a + b == file;
    WholeReadsFirst(ch, avg, a, b);
    FileChunksPartition(ch, avg, a);
    var cs, first := FileChunks(ch, avg, file), FileChunks(ch, avg, a);
    assert cs[..|first|] == first;
  }

  /** A file that fits in one read is chunked as one buffer. */
  lemma SmallFileIsOneBuffer(ch: Chunker, avg: nat, file: Bytes)
    requires ch.Valid() && |file| <= FILE_CACHE
    ensures FileChunks(ch, avg, file) == Chunks(ch, avg, file)
  {
    if file != [] {
      assert file[..|file|] == file && file[|file|..] == [];
      assert FileChunks(ch, AvgAfter(ch, avg, file), []) == [];
    }
  }

  /** The least of the average and of the lengths above the minimum size that were left where a chunk
      began. */
  ghost predicate LeastLeft(ch: Chunker, avg: nat, cs: seq<Bytes>, least: nat)
  {
    && least <= avg
    && (forall i :: 0 <= i < |cs| && |Flatten(cs[i..])| > ch.MinSize() ==> least <= |Flatten(cs[i..])|)
    && (least == avg || exists i :: 0 <= i < |cs| && least == |Flatten(cs[i..])| > ch.MinSize())
  }

  /** What the global average has become when a buffer has been chunked. */
  lemma {:induction false} AvgAfterExactly(ch: Chunker, avg: nat, p: Bytes)
    requires ch.Valid() && ch.Normalized? && ch.AvgOk(avg)
    ensures LeastLeft(ch, avg, Chunks(ch, avg, p), AvgAfter(ch, avg, p))
    decreases |p|
  {
    hide Cut, NextAvg, LeastLeft;
    if p == [] {
      NothingLeast(ch, avg);
    } else {
      var k, avg' := Cut(ch, avg, p), NextAvg(ch, avg, p);
      AvgAfterExactly(ch, avg', p[k..]);
      ChunksPartition(ch, avg, p);
      NextAvgIs(ch, avg, p);
      LeastNext(ch, avg, avg', p[..k], Chunks(ch, avg', p[k..]), AvgAfter(ch, avg', p[k..]));
    }
  }

  lemma NothingLeast(ch: Chunker, avg: nat)
    ensures LeastLeft(ch, avg, [], avg)
  {}

  lemma LeastNext(ch: Chunker, avg: nat, avg': nat, c: Bytes, rest: seq<Bytes>, least: nat)
    requires LeastLeft(ch, avg', rest, least)
    requires var n := |Flatten([c] + rest)|; avg' == if n > ch.MinSize() then Min(avg, n) else avg
    ensures LeastLeft(ch, avg, [c] + rest, least)
  {
    hide Flatten;
    var cs := [c] + rest;
    assert cs[0..] == cs;
    forall i | 1 <= i <= |cs| ensures cs[i..] == rest[i - 1..] {}
    if least != avg' {
      var i :| 0 <= i < |rest| && least == |Flatten(rest[i..])| > ch.MinSize();
      assert least == |Flatten(cs[i + 1..])|;
    } else if least != avg {
      assert least == |Flatten(cs[0..])|;
    }
    forall i | 0 <= i < |cs| && |Flatten(cs[i..])| > ch.MinSize() ensures least <= |Flatten(cs[i..])| {
      if i > 0 { assert Flatten(cs[i..]) == Flatten(rest[i - 1..]); }
    }
  }

  lemma NextAvgIs(ch: Chunker, avg: nat, p: Bytes)
    requires ch.Normalized? && ch.AvgOk(avg)
    ensures NextAvg(ch, avg, p) == if |p| > ch.MinSize() then Min(avg, |p|) else avg
  {}

  // ---------- The sliding buffer ----------

  lemma {:induction false} FirstHitPrefix(p: Bytes, q: Bytes, i: nat, split: nat, n: nat, front: nat, back: nat,
                                          fp: nat)
    requires i <= n <= |p| && n <= |q| && p[..n] == q[..n]
    ensures FirstHit(p, i, split, n, front, back, fp) == FirstHit(q, i, split, n, front, back, fp)
    decreases n - i
  {
    hide Roll, BitAnd;
    if i < n {
      assert p[i] == p[..n][i] == q[..n][i] == q[i];
      FirstHitPrefix(p, q, i + 1, split, n, front, back, Roll(fp, p[i]));
    }
  }

  /** Once the buffer holds a maximum-size chunk, the bytes that have not arrived yet change
      neither the cut nor the average size. */
  lemma FullBufferCuts(ch: Chunker, avg: nat, rest: Bytes, more: Bytes)
    requires ch.Valid() && ch.AvgOk(avg)
    requires |rest| >= ch.MaxSize() || more == []
    ensures Cut(ch, avg, rest + more) == Cut(ch, avg, rest)
    ensures NextAvg(ch, avg, rest + more) == NextAvg(ch, avg, rest)
  {
    if more == [] {
      assert rest + more == rest;
    } else if !ch.Fixed? {
      var n := ch.MaxSize();
      assert (rest + more)[..n] == rest[..n];
      var split := if ch.Plain? then 0 else avg;
      FirstHitPrefix(rest + more, rest, ch.MinSize(), split, n, Front(ch), Back(ch), 0);
    }
  }

  /** Cutting the buffer cuts the whole remaining file. */
  lemma CutPending(ch: Chunker, avg: nat, rest: Bytes, more: Bytes)
    requires ch.Valid() && ch.AvgOk(avg) && rest != []
    requires |rest| >= ch.MaxSize() || more == []
    ensures var k, avg' := Cut(ch, avg, rest), NextAvg(ch, avg, rest);
            && Chunks(ch, avg, rest + more) == [rest[..k]] + Chunks(ch, avg', rest[k..] + more)
            && AvgAfter(ch, avg, rest + more) == AvgAfter(ch, avg', rest[k..] + more)
  {
    hide Cut, NextAvg;
    var k := Cut(ch, avg, rest);
    FullBufferCuts(ch, avg, rest, more);
    assert (rest + more)[..k] == rest[..k];
    assert (rest + more)[k..] == rest[k..] + more;
  }

  /** chunk_thread's size for the tail of its buffer: four times the configured average. */
  function MaxChunkSize(ch: Chunker): (r: nat)
    ensures r >= ch.MaxSize()
    ensures ch.Valid() ==> r > 0
  {
    4 * (if ch.Fixed? then ch.size else ch.fas)
  }

  lemma NothingLeft(ch: Chunker, avg: nat)
    requires ch.Valid()
    ensures Chunks(ch, avg, []) == [] && AvgAfter(ch, avg, []) == avg
  {}

  /** Moves the unread bytes to the front and appends a block. */
  method Receive(blockBuf: array<byte>, bufOff: nat, restSize: nat, block: Bytes)
    requires bufOff + restSize <= blockBuf.Length && restSize + |block| <= blockBuf.Length
    modifies blockBuf
    ensures blockBuf[..restSize + |block|] == old(blockBuf[bufOff..bufOff + restSize]) + block
  {
    MoveToFront(blockBuf, bufOff, restSize);
    assert blockBuf[..restSize] == old(blockBuf[bufOff..bufOff + restSize]);
    Memcpy(blockBuf, restSize, block);
  }

  /** Pops blocks until the buffer holds a maximum-size chunk or the end of the file arrives. */
  method Refill(blockBuf: array<byte>, maxChunkSize: nat, blocks: seq<Bytes>, off: nat, size: nat, popped: nat,
                end: bool)
    returns (bufOff: nat, restSize: nat, next: nat, ended: bool)
    requires blockBuf.Length == DEFAULT_BLOCK_SIZE + maxChunkSize && off + size <= blockBuf.Length
    requires popped <= |blocks| && (end ==> popped == |blocks|)
    requires forall b :: b in blocks ==> |b| <= DEFAULT_BLOCK_SIZE
    modifies blockBuf
    ensures bufOff + restSize <= blockBuf.Length
    ensures next <= |blocks| && (ended ==> next == |blocks|)
    ensures restSize >= maxChunkSize || ended
    ensures blockBuf[bufOff..bufOff + restSize] + Flatten(blocks[next..])
         == old(blockBuf[off..off + size]) + Flatten(blocks[popped..])
  {
    hide Flatten;
    bufOff, restSize, next, ended := off, size, popped, end;
    ghost var pending := blockBuf[off..off + size] + Flatten(blocks[popped..]);
    while restSize < maxChunkSize && !ended
      invariant bufOff + restSize <= blockBuf.Length && next <= |blocks| && (ended ==> next == |blocks|)
      invariant blockBuf[bufOff..bufOff + restSize] + Flatten(blocks[next..]) == pending
      decreases |blocks| - next, !ended
    {
      if next < |blocks| {
        ghost var unread := blockBuf[bufOff..bufOff + restSize];
        FlattenFrom(blocks, next);
        Reassociate(unread, blocks[next], Flatten(blocks[next + 1..]));
        assert blocks[next] in blocks;
        Receive(blockBuf, bufOff, restSize, blocks[next]);
        bufOff, restSize, next := 0, restSize + |blocks[next]|, next + 1;
      } else {
        ended := true;
      }
    }
  }

  /** One file through chunk_thread: blocks are popped from the read queue into a sliding
      buffer, and a chunk is cut whenever the buffer holds a maximum-size chunk or the file has
      ended. The buffer is invisible: the chunks are those of the whole file. */
  method ChunkThread(g: Globals, blocks: seq<Bytes>) returns (chunks: seq<Bytes>)
    requires g.Valid()
    requires forall b :: b in blocks ==> |b| <= DEFAULT_BLOCK_SIZE
    modifies g`avg
    ensures g.Valid()
    ensures chunks == Chunks(g.ch, old(g.avg), Flatten(blocks))
    ensures g.avg == AvgAfter(g.ch, old(g.avg), Flatten(blocks))
  {
    hide Cut, NextAvg, Chunks, AvgAfter, Flatten, MaxChunkSize;
    var maxChunkSize := MaxChunkSize(g.ch);
    var blockBuf := new byte[DEFAULT_BLOCK_SIZE + maxChunkSize];
    var bufOff: nat, restSize: nat, next: nat, ended := 0, 0, 0, false;
    chunks := [];
    ghost var pending := Flatten(blocks);
    assert blocks[0..] == blocks;
    while true
      invariant g.Valid()
      invariant bufOff + restSize <= blockBuf.Length && next <= |blocks| && (ended ==> next == |blocks|)
      invariant pending == blockBuf[bufOff..bufOff + restSize] + Flatten(blocks[next..])
      invariant chunks + Chunks(g.ch, g.avg, pending) == Chunks(g.ch, old(g.avg), Flatten(blocks))
      invariant AvgAfter(g.ch, g.avg, pending) == AvgAfter(g.ch, old(g.avg), Flatten(blocks))
      decreases |pending|
    {
      bufOff, restSize, next, ended := Refill(blockBuf, maxChunkSize, blocks, bufOff, restSize, next, ended);
      FlattenNone(blocks, next);
      if restSize == 0 {
        assert pending == [];
        NothingLeft(g.ch, g.avg);
        break;
      }
      ghost var more := Flatten(blocks[next..]);
      var rest := blockBuf[bufOff..bufOff + restSize];
      CutPending(g.ch, g.avg, rest, more);
      var chunkSize := g.Chunking(rest);
      pending := rest[chunkSize..] + more;
      AppendOne(chunks, rest[..chunkSize], Chunks(g.ch, g.avg, pending));
      chunks := chunks + [rest[..chunkSize]];
      restSize, bufOff := restSize - chunkSize, bufOff + chunkSize;
      assert blockBuf[bufOff..bufOff + restSize] == rest[chunkSize..];
    }
  }

  lemma FlattenFrom(blocks: seq<Bytes>, next: nat)
    requires next < |blocks|
    ensures Flatten(blocks[next..]) == blocks[next] + Flatten(blocks[next + 1..])
  {
    assert blocks[next..] == [blocks[next]] + blocks[next + 1..];
    FlattenCons(blocks[next], blocks[next + 1..]);
  }

  lemma Reassociate(a: Bytes, b: Bytes, c: Bytes)
    ensures a + b + c == a + (b + c)
  {}

  lemma AppendOne<T>(a: seq<T>, x: T, b: seq<T>)
    ensures a + ([x] + b) == a + [x] + b
  {}

  lemma FlattenNone(blocks: seq<Bytes>, next: nat)
    requires next <= |blocks|
    ensures next == |blocks| ==> Flatten(blocks[next..]) == []
  {}
}
