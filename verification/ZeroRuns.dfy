/** Runs of zero bytes never make a cut: the inputs on which some of the program's limits are
    reached. */
module ZeroRuns {
  import opened Common
  import opened FastCDC

  /** Low 26 bits of the fingerprint of n zero bytes. */
  function Low(n: nat): (r: nat)
    ensures r < 0x400_0000
  {
    if n == 0 then 0 else (2 * Low(n - 1) + 0x13c_5d43) % 0x400_0000
  }

  /** Some bit of 0x353 is set in t. */
  predicate Hits(t: nat)
  {
    t / 256 != 0 || t / 16 % 16 % 2 == 1 || t / 16 % 16 / 4 % 2 == 1 || t % 16 % 4 != 0
  }

  lemma FirstZeros()
    ensures forall n :: 1 <= n <= 26 ==> Hits(Low(n) / 0x1_0000)
    ensures Low(26) == 0x2c3_a2bd
  {
    assert Low(1) == 0x13c5d43;
    assert Low(2) == 0x3b517c9;
    assert Low(3) == 0xa68cd5;
    assert Low(4) == 0x28976ed;
    assert Low(5) == 0x24f4b1d;
    assert Low(6) == 0x1daf37d;
    assert Low(7) == 0xf2443d;
    assert Low(8) == 0x320e5bd;
    assert Low(9) == 0x37e28bd;
    assert Low(10) == 0x38aebd;
    assert Low(11) == 0x1adbabd;
    assert Low(12) == 0x97d2bd;
    assert Low(13) == 0x26c02bd;
    assert Low(14) == 0x21462bd;
    assert Low(15) == 0x16522bd;
    assert Low(16) == 0x6a2bd;
    assert Low(17) == 0x149a2bd;
    assert Low(18) == 0x3cfa2bd;
    assert Low(19) == 0xdba2bd;
    assert Low(20) == 0x2f3a2bd;
    assert Low(21) == 0x323a2bd;
    assert Low(22) == 0x383a2bd;
    assert Low(23) == 0x43a2bd;
    assert Low(24) == 0x1c3a2bd;
    assert Low(25) == 0xc3a2bd;
    assert Low(26) == 0x2c3a2bd;
  }

  lemma {:induction false} ZerosHit(n: nat)
    requires n >= 1
    ensures Hits(Low(n) / 0x1_0000)
    ensures n >= 26 ==> Low(n) == 0x2c3_a2bd
  {
    hide Low, Hits;
    if n <= 26 {
      FirstZeros();
    } else {
      ZerosHit(n - 1);
      LowFixed(n);
    }
  }

  lemma LowFixed(n: nat)
    requires n > 0 && Low(n - 1) == 0x2c3_a2bd
    ensures Low(n) == 0x2c3_a2bd && Hits(Low(n) / 0x1_0000)
  {}

  lemma NibbleHit(x: nat)
    requires x < 16
    ensures x % 4 != 0 ==> BitAnd(x, 3) != 0
    ensures x % 2 == 1 || x / 4 % 2 == 1 ==> BitAnd(x, 5) != 0
  {
    hide BitAnd;
    AndDigits();
    AndStep(x / 2, 1, x % 2, 1);
    AndStep(x / 4, 0, x / 2 % 2, 1);
    AndStep(x / 2, 2, x % 2, 1);
    AndStep(x / 4, 1, x / 2 % 2, 0);
    AndStep(x / 8, 0, x / 4 % 2, 1);
  }

  /** The bits 16 to 25 of the masks in question are 0x353. */
  lemma MaskHit(a: nat, m: nat)
    requires Hits(a % 0x400)
    ensures BitAnd(a, 0x400 * m + 0x353) != 0
  {
    hide BitAnd, Hits;
    var t := a % 0x400;
    DigitsHit(t);
    AndDigits3(a / 0x400, t, m);
    assert a == 0x400 * (a / 0x400) + t;
  }

  lemma DigitsHit(t: nat)
    requires t < 0x400 && Hits(t)
    ensures BitAnd(t / 256, 3) != 0 || BitAnd(t / 16 % 16, 5) != 0 || BitAnd(t % 16, 3) != 0
  {
    hide BitAnd;
    NibbleHit(t % 16);
    NibbleHit(t / 16 % 16);
    NibbleHit(t / 256);
    assert t / 256 % 4 == t / 256;
  }

  lemma AndDigits3(b: nat, t: nat, m: nat)
    requires t < 0x400
    ensures BitAnd(0x400 * b + t, 0x400 * m + 0x353)
         == 0x400 * BitAnd(b, m) + 0x100 * BitAnd(t / 256, 3) + 0x10 * BitAnd(t / 16 % 16, 5) + BitAnd(t % 16, 3)
  {
    hide BitAnd;
    var x2, x1, x0 := t / 256, t / 16 % 16, t % 16;
    AndDigit(16 * (4 * b + x2) + x1, 16 * (4 * m + 3) + 5, x0, 3);
    AndDigit(4 * b + x2, 4 * m + 3, x1, 5);
    AndPair(b, m, x2, 3);
  }

  lemma GearZero()
    ensures Gear(0) == 0xdc37_7e20_7d3c_5d43
  {}

  lemma SameLow(a: nat, b: nat, q: nat)
    requires a == b + 0x400_0000 * q
    ensures a % 0x400_0000 == b % 0x400_0000
  {}

  lemma LowStep(fp: nat, low: nat)
    requires fp % 0x400_0000 == low
    ensures (2 * fp + 0xdc37_7e20_7d3c_5d43) % U64 % 0x400_0000 == (2 * low + 0x13c_5d43) % 0x400_0000
  {
    var q := fp / 0x400_0000;
    var s := 2 * fp + 0xdc37_7e20_7d3c_5d43;
    SameLow(s, 2 * low + 0x13c_5d43, 2 * q + 0x370ddf881f);
    SameLow(s, s % U64, s / U64 * 0x40_0000_0000);
  }

  ghost predicate Zeros(p: Bytes, lo: nat, hi: nat)
  {
    lo <= hi <= |p| && forall i :: lo <= i < hi ==> p[i] == 0
  }

  lemma {:induction false} RollZeros(p: Bytes, lo: nat, hi: nat)
    requires Zeros(p, lo, hi)
    ensures RollOver(p, lo, hi) % 0x400_0000 == Low(hi - lo)
    decreases hi - lo
  {
    hide Gear;
    if lo < hi {
      GearZero();
      RollZeros(p, lo, hi - 1);
      LowStep(RollOver(p, lo, hi - 1), Low(hi - 1 - lo));
    }
  }

  lemma Parts(q: nat, t: nat, l: nat)
    requires t < 0x400 && l < 0x1_0000
    ensures (0x400_0000 * q + 0x1_0000 * t + l) / 0x1_0000 == 0x400 * q + t
    ensures (0x400_0000 * q + 0x1_0000 * t + l) % 0x400_0000 == 0x1_0000 * t + l
    ensures (0x400 * q + t) % 0x400 == t && (0x1_0000 * t + l) / 0x1_0000 == t
  {}

  lemma MiddleBits(fp: nat)
    ensures fp / 0x1_0000 % 0x400 == fp % 0x400_0000 / 0x1_0000
  {
    var q, low := fp / 0x400_0000, fp % 0x400_0000;
    assert fp == 0x400_0000 * q + low;
    Parts(q, low / 0x1_0000, low % 0x1_0000);
  }

  /** The masks of level 2 and of plain chunking. */
  predicate CommonMask(mask: nat)
  {
    mask == MASK_15 || mask == MASK_11 || mask == MASK_08KB
  }

  /** No run of zero bytes passes one of these masks. */
  lemma ZerosNeverPass(p: Bytes, lo: nat, hi: nat, mask: nat)
    requires lo < hi && Zeros(p, lo, hi) && CommonMask(mask)
    ensures BitAnd(RollOver(p, lo, hi), mask) != 0
  {
    hide BitAnd, Low, Hits, RollOver;
    var fp := RollOver(p, lo, hi);
    RollZeros(p, lo, hi);
    ZerosHit(hi - lo);
    MiddleBits(fp);
    var a, m := fp / 0x1_0000, mask / 0x400_0000;
    MaskHit(a, m);
    AndAbove16(a, 0x400 * m + 0x353, fp % 0x1_0000);
    assert mask == 0x1_0000 * (0x400 * m + 0x353);
  }

  lemma {:induction false} ZerosRunThrough(p: Bytes, lo: nat, i: nat, split: nat, n: nat, front: nat, back: nat)
    requires lo <= i <= n && Zeros(p, lo, n) && CommonMask(front) && CommonMask(back)
    ensures FirstHit(p, i, split, n, front, back, RollOver(p, lo, i)) == n
    decreases n - i
  {
    hide BitAnd, Gear, CommonMask;
    if i < n {
      ZerosNeverPass(p, lo, i + 1, if i < split then front else back);
      ZerosRunThrough(p, lo, i + 1, split, n, front, back);
    }
  }

  /** When the bytes that are scanned are zeros the chunk is as long as it can be. */
  lemma ZerosCut(ch: Chunker, avg: nat, p: Bytes)
    requires ch.Valid() && !ch.Fixed? && CommonMask(Front(ch)) && CommonMask(Back(ch))
    requires ch.MinSize() <= Min(|p|, ch.MaxSize()) ==> Zeros(p, ch.MinSize(), Min(|p|, ch.MaxSize()))
    ensures Cut(ch, avg, p) == Min(|p|, ch.MaxSize())
  {
    hide CommonMask, FirstHit;
    if |p| > ch.MinSize() {
      var split := if ch.Plain? then 0 else NextAvg(ch, avg, p);
      ZerosRunThrough(p, ch.MinSize(), ch.MinSize(), split, Min(|p|, ch.MaxSize()), Front(ch), Back(ch));
    }
  }
}
