/** The spellings of a JSON text as RFC 8259 has them, with any blanks and any escapes: the parser
    reads every one of them as what it means, and accepts hardly anything else. */
module JsonSpelling {
  import opened Common
  import opened Json

  // ---------- Strings ----------

  type CodePoint = v: int | 0 <= v <= 0x10FFFF

  /** A digit of either case. */
  predicate HexFor(d: byte, v: nat)
  {
    || (v < 10 && d == '0' as int + v)
    || (10 <= v < 16 && (d == 'A' as int + v - 10 || d == 'a' as int + v - 10))
  }

  predicate Hex4For(digits: Bytes, v: nat)
  {
    && |digits| == 4 && v < 0x10000
    && HexFor(digits[0], v / 0x1000) && HexFor(digits[1], v / 0x100 % 16)
    && HexFor(digits[2], v / 0x10 % 16) && HexFor(digits[3], v % 16)
  }

  /** The letter of a short escape and the character it stands for (section 7 of RFC 8259). */
  predicate ShortFor(letter: byte, b: byte)
  {
    (letter, b) in {('"' as int, 0x22), ('\\' as int, 0x5C), ('/' as int, 0x2F), ('b' as int, 0x08),
                    ('f' as int, 0x0C), ('n' as int, 0x0A), ('r' as int, 0x0D), ('t' as int, 0x09)}
  }

  predicate Surrogate(v: int) { 0xD800 <= v <= 0xDFFF }

  /** A character of a string: as itself, as a short escape, or as a code point in one literal or in
      the two of a surrogate pair. */
  datatype Unit =
    | Raw(b: byte)
    | Short(letter: byte, b: byte)
    | Code(digits: Bytes, v: CodePoint)
    | Pair(high: Bytes, low: Bytes, v: CodePoint)
  {
    function Spelling(): Bytes
    {
      match this
      case Raw(b) => [b]
      case Short(letter, _) => ['\\' as int, letter]
      case Code(digits, _) => ['\\' as int, 'u' as int] + digits
      case Pair(high, low, _) => (['\\' as int, 'u' as int] + high) + (['\\' as int, 'u' as int] + low)
    }

    function Meaning(): Bytes
    {
      match this
      case Raw(b) => [b]
      case Short(_, b) => [b]
      case Code(_, v) => Utf8(v)
      case Pair(_, _, v) => Utf8(v)
    }

    /** What the program takes for a character: a literal with something that is no digit is one of
        the code point 0. */
    ghost predicate Loose()
    {
      match this
      case Raw(b) => b != BACKSLASH
      case Short(letter, b) => ShortFor(letter, b)
      case Code(digits, v) =>
        !Surrogate(v) && (Hex4For(digits, v) || (|digits| == 4 && v == 0 && forall x :: !Hex4For(digits, x)))
      case Pair(high, low, v) =>
        v >= 0x10000 && Hex4For(high, 0xD800 + (v - 0x10000) / 0x400) && Hex4For(low, 0xDC00 + (v - 0x10000) % 0x400)
    }

    /** A character that is not NUL, spelled as it should be. */
    ghost predicate Proper()
    {
      Loose() && (Raw? ==> b != QUOTE && b != 0) && (Code? ==> Hex4For(digits, v) && v > 0)
    }
  }

  function Spell(us: seq<Unit>): Bytes
  {
    if us == [] then [] else us[0].Spelling() + Spell(us[1..])
  }

  function Mean(us: seq<Unit>): Bytes
  {
    if us == [] then [] else us[0].Meaning() + Mean(us[1..])
  }

  ghost predicate AllLoose(us: seq<Unit>)
  {
    forall u :: u in us ==> u.Loose()
  }

  ghost predicate AllProper(us: seq<Unit>)
  {
    forall u :: u in us ==> u.Proper()
  }

  // ---------- Texts inside the buffer ----------

  lemma HasSplit(c: Bytes, off: nat, a: Bytes, b: Bytes)
    requires Has(c, off, a + b)
    ensures Has(c, off, a) && Has(c, off + |a|, b)
  {
    assert c[off..off + |a|] == (a + b)[..|a|];
    assert c[off + |a|..off + |a + b|] == (a + b)[|a|..];
  }

  lemma HasJoin(c: Bytes, off: nat, a: Bytes, b: Bytes)
    requires Has(c, off, a) && Has(c, off + |a|, b)
    ensures Has(c, off, a + b)
  {
    assert c[off..off + |a + b|] == c[off..off + |a|] + c[off + |a|..off + |a| + |b|];
  }

  lemma HasFirst(c: Bytes, off: nat, b: byte, rest: Bytes)
    requires Has(c, off, [b] + rest)
    ensures off < |c| && c[off] == b && Has(c, off + 1, rest)
  {
    HasSplit(c, off, [b], rest);
    assert c[off..off + 1][0] == b;
  }

  lemma HasByte(c: Bytes, off: nat, text: Bytes, i: nat)
    requires Has(c, off, text) && i < |text|
    ensures off + i < |c| && c[off + i] == text[i]
  {}

  lemma HasOne(c: Bytes, off: nat)
    requires off < |c|
    ensures Has(c, off, [c[off]])
  {}

  // ---------- Digits and literals ----------

  lemma HexValueExactly(d: byte, v: nat)
    ensures HexValue(d) == Some(v) <==> HexFor(d, v)
  {}

  lemma Hex4Exactly(c: Bytes, i: nat, digits: Bytes)
    requires |digits| == 4 && Has(c, i, digits)
    ensures forall v :: Hex4For(digits, v) ==> Hex4(c, i) == v
    ensures (forall v :: !Hex4For(digits, v)) ==> Hex4(c, i) == 0
  {
    hide HexValue, HexFor, Has;
    HasByte(c, i, digits, 0);
    HasByte(c, i, digits, 1);
    HasByte(c, i, digits, 2);
    HasByte(c, i, digits, 3);
    forall v: nat | Hex4For(digits, v) ensures Hex4(c, i) == v {
      Nibbles(v);
      HexValueExactly(digits[0], v / 4096);
      HexValueExactly(digits[1], v / 256 % 16);
      HexValueExactly(digits[2], v / 16 % 16);
      HexValueExactly(digits[3], v % 16);
    }
    var a, b, x, y := HexValue(digits[0]), HexValue(digits[1]), HexValue(digits[2]), HexValue(digits[3]);
    if a.Some? && b.Some? && x.Some? && y.Some? && a.value < 16 && b.value < 16 && x.value < 16 && y.value < 16 {
      FromNibbles(a.value, b.value, x.value, y.value);
      HexValueExactly(digits[0], a.value);
      HexValueExactly(digits[1], b.value);
      HexValueExactly(digits[2], x.value);
      HexValueExactly(digits[3], y.value);
      assert Hex4For(digits, Hex4(c, i));
    }
  }

  lemma Nibbles(v: nat)
    requires v < U16
    ensures v / 4096 < 16
    ensures v / 4096 * 4096 + v / 256 % 16 * 256 + v / 16 % 16 * 16 + v % 16 == v
  {
    assert v / 16 / 16 == v / 256 && v / 256 / 16 == v / 4096;
  }

  lemma FromNibbles(a: nat, b: nat, x: nat, y: nat)
    requires a < 16 && b < 16 && x < 16 && y < 16
    ensures var v := a * 4096 + b * 256 + x * 16 + y;
            v < U16 && v / 4096 == a && v / 256 % 16 == b && v / 16 % 16 == x && v % 16 == y
  {
    var v := a * 4096 + b * 256 + x * 16 + y;
    assert v / 16 == a * 256 + b * 16 + x && v / 16 / 16 == a * 16 + b && v / 16 / 16 / 16 == a;
    assert v / 256 == v / 16 / 16 && v / 4096 == v / 16 / 16 / 16;
  }

  lemma LiteralAt(c: Bytes, i: nat, digits: Bytes)
    requires |digits| == 4 && Has(c, i, [BACKSLASH, LOWER_U] + digits)
    ensures i + 6 <= |c| && c[i] == BACKSLASH && c[i + 1] == LOWER_U
    ensures forall v :: Hex4For(digits, v) ==> Hex4(c, i + 2) == v
    ensures (forall v :: !Hex4For(digits, v)) ==> Hex4(c, i + 2) == 0
  {
    hide Hex4, Hex4For;
    HasSplit(c, i, [BACKSLASH, LOWER_U], digits);
    HasByte(c, i, [BACKSLASH, LOWER_U], 0);
    HasByte(c, i, [BACKSLASH, LOWER_U], 1);
    Hex4Exactly(c, i + 2, digits);
  }

  /** The code point that a UTF-16 surrogate pair encodes. */
  function SurrogatePair(high: nat, low: nat): (r: nat)
    requires 0xD800 <= high <= 0xDBFF && 0xDC00 <= low <= 0xDFFF
    ensures 0x10000 <= r <= 0x10FFFF
  {
    0x10000 + (high - 0xD800) * 1024 + (low - 0xDC00)
  }

  /** What follows a high surrogate makes it a pair: a second literal with a low surrogate. */
  predicate LowFollows(c: Bytes, i: nat, end: nat)
    requires i <= end <= |c|
  {
    end - i >= 12 && c[i + 6] == BACKSLASH && c[i + 7] == LOWER_U && 0xDC00 <= Hex4(c, i + 8) <= 0xDFFF
  }

  /** Every code point of four digits but a surrogate comes through its literal as its UTF-8 bytes; a
      low surrogate is rejected, and a high one exactly when no low one follows. */
  lemma LiteralDecodes(c: Bytes, i: nat, end: nat, digits: Bytes, v: nat)
    requires Hex4For(digits, v) && Has(c, i, [BACKSLASH, LOWER_U] + digits) && i + 6 <= end <= |c|
    ensures !Surrogate(v) ==> Utf16Literal(c, i, end) == Some((Utf8(v), 6)) && Utf8Value(Utf8(v)) == Some(v)
    ensures 0xDC00 <= v <= 0xDFFF ==> Utf16Literal(c, i, end) == None
    ensures 0xD800 <= v <= 0xDBFF ==>
              var r := Utf16Literal(c, i, end);
              && (r.Some? <==> LowFollows(c, i, end))
              && (r.Some? ==> r.value.1 == 12 && Utf8Value(r.value.0) == Some(SurrogatePair(v, Hex4(c, i + 8))))
  {
    hide Hex4, Has, Hex4For, Utf8, Utf8Value;
    HexBound(digits, v);
    LiteralAt(c, i, digits);
    Utf8RoundTrip(v);
    if 0xD800 <= v <= 0xDBFF && LowFollows(c, i, end) { Utf8RoundTrip(SurrogatePair(v, Hex4(c, i + 8))); }
  }

  lemma HexBound(digits: Bytes, v: nat)
    requires Hex4For(digits, v)
    ensures |digits| == 4 && v < U16
    ensures forall d :: d in digits ==> d != QUOTE && d != BACKSLASH
  {}

  /** Payload of a continuation byte. */
  function Low6(b: byte): int
  {
    b as int - 0x80
  }

  predicate Continues(s: Bytes)
  {
    forall i :: 1 <= i < |s| ==> 0x80 <= s[i] < 0xC0
  }

  /** Reading UTF-8, as section 3 of RFC 3629 defines it: the shortest form of a code point. */
  function Utf8Value(s: Bytes): Option<int>
  {
    if !Continues(s) then None
    else if |s| == 1 && s[0] < 0x80 then Some(s[0] as int)
    else if |s| == 2 && 0xC0 <= s[0] < 0xE0 then AtLeast(0x80, (s[0] as int - 0xC0) * 64 + Low6(s[1]))
    else if |s| == 3 && 0xE0 <= s[0] < 0xF0 then
      AtLeast(0x800, (s[0] as int - 0xE0) * 4096 + Low6(s[1]) * 64 + Low6(s[2]))
    else if |s| == 4 && 0xF0 <= s[0] < 0xF8 then
      AtLeast(0x10000, (s[0] as int - 0xF0) * 262144 + Low6(s[1]) * 4096 + Low6(s[2]) * 64 + Low6(s[3]))
    else None
  }

  function AtLeast(least: int, v: int): Option<int>
  {
    if v < least then None else Some(v)
  }

  lemma Utf8RoundTrip(cp: nat)
    requires cp <= 0x10FFFF
    ensures Utf8Value(Utf8(cp)) == Some(cp)
  {
    var a, b, d := cp / 64, cp / 4096, cp / 262144;
    assert cp == 64 * a + cp % 64 && a == 64 * (a / 64) + a % 64 && b == 64 * (b / 64) + b % 64;
    assert b == a / 64 && d == b / 64;
  }

  // ---------- Reading a string ----------

  ghost predicate NulFree(s: Bytes)
  {
    0 !in s
  }

  lemma {:induction false} CStringNulFree(s: Bytes)
    requires NulFree(s)
    ensures CString(s) == s
  {
    if s != [] { CStringNulFree(s[1..]); }
  }

  /** A C string ends at the first NUL. */
  lemma {:induction false} CStringCut(s: Bytes, rest: Bytes)
    requires NulFree(s)
    ensures CString(s + [0] + rest) == s
  {
    if s == [] {
      assert (s + [0] + rest)[0] == 0;
    } else {
      CStringCut(s[1..], rest);
      assert (s + [0] + rest)[1..] == s[1..] + [0] + rest;
    }
  }

  lemma EndStep(c: Bytes, i: nat)
    requires i < |c|
    ensures c[i] != QUOTE && c[i] != BACKSLASH ==> StringEnd(c, i) == StringEnd(c, i + 1)
    ensures c[i] == BACKSLASH && i + 1 < |c| ==> StringEnd(c, i) == StringEnd(c, i + 2)
  {}

  /** The scan for the closing quote passes over plain characters. */
  lemma {:induction false} EndPassesPlain(c: Bytes, i: nat, s: Bytes)
    requires Has(c, i, s) && forall b :: b in s ==> b != QUOTE && b != BACKSLASH
    ensures StringEnd(c, i) == StringEnd(c, i + |s|)
    decreases |s|
  {
    hide Has, StringEnd;
    if s != [] {
      assert s == [s[0]] + s[1..];
      HasFirst(c, i, s[0], s[1..]);
      assert s[0] in s && forall b :: b in s[1..] ==> b in s;
      EndStep(c, i);
      EndPassesPlain(c, i + 1, s[1..]);
    }
  }

  /** It passes over one character, however spelled. */
  lemma EndPasses(c: Bytes, i: nat, u: Unit)
    requires u.Proper() && Has(c, i, u.Spelling())
    ensures StringEnd(c, i) == StringEnd(c, i + |u.Spelling()|)
  {
    hide Has, StringEnd, Hex4For;
    match u
    case Raw(b) => EndPassesPlain(c, i, [b]);
    case Short(letter, b) =>
      HasByte(c, i, u.Spelling(), 0);
      HasByte(c, i, u.Spelling(), 1);
      EndStep(c, i);
    case Code(digits, v) => LiteralPasses(c, i, digits, v);
    case Pair(high, low, v) =>
      HasSplit(c, i, [BACKSLASH, LOWER_U] + high, [BACKSLASH, LOWER_U] + low);
      LiteralPasses(c, i, high, 0xD800 + (v - 0x10000) / 0x400);
      LiteralPasses(c, i + |[BACKSLASH, LOWER_U] + high|, low, 0xDC00 + (v - 0x10000) % 0x400);
  }

  lemma LiteralPasses(c: Bytes, i: nat, digits: Bytes, v: nat)
    requires Hex4For(digits, v) && Has(c, i, [BACKSLASH, LOWER_U] + digits)
    ensures StringEnd(c, i) == StringEnd(c, i + |[BACKSLASH, LOWER_U] + digits|)
  {
    hide Has, StringEnd, Hex4For;
    HexBound(digits, v);
    HasSplit(c, i, [BACKSLASH, LOWER_U], digits);
    HasByte(c, i, [BACKSLASH, LOWER_U], 0);
    HasByte(c, i, [BACKSLASH, LOWER_U], 1);
    EndStep(c, i);
    EndPassesPlain(c, i + 2, digits);
  }

  lemma {:induction false} EndPassesAll(c: Bytes, i: nat, us: seq<Unit>)
    requires AllProper(us) && Has(c, i, Spell(us))
    ensures StringEnd(c, i) == StringEnd(c, i + |Spell(us)|)
    decreases |us|
  {
    hide Has, StringEnd, Unit.Proper, Unit.Spelling;
    if us != [] {
      HasSplit(c, i, us[0].Spelling(), Spell(us[1..]));
      EndPasses(c, i, us[0]);
      EndPassesAll(c, i + |us[0].Spelling()|, us[1..]);
    }
  }

  lemma EndAtQuote(c: Bytes, i: nat)
    requires i < |c| && c[i] == QUOTE
    ensures StringEnd(c, i) == Some(i)
  {}

  lemma UnescapeStep(c: Bytes, i: nat, end: nat)
    requires i < end < |c|
    ensures c[i] != BACKSLASH ==> Unescape(c, i, end) == Prepend([c[i]], Unescape(c, i + 1, end))
    ensures c[i] == BACKSLASH && c[i + 1] != LOWER_U && Unescape2(c[i + 1]).Some? && i + 2 <= end ==>
              Unescape(c, i, end) == Prepend([Unescape2(c[i + 1]).value], Unescape(c, i + 2, end))
    ensures c[i] == BACKSLASH && c[i + 1] != LOWER_U && (Unescape2(c[i + 1]).None? || i + 2 > end) ==>
              Unescape(c, i, end) == None
    ensures c[i] == BACKSLASH && c[i + 1] == LOWER_U ==>
              var u := Utf16Literal(c, i, end);
              Unescape(c, i, end) == if u.None? then None else Prepend(u.value.0, Unescape(c, i + u.value.1, end))
  {
    hide Utf16Literal, Unescape2;
  }

  /** A short escape stands for its character, and no other letter makes one. */
  lemma Unescape2Exactly(letter: byte, b: byte)
    ensures Unescape2(letter) == Some(b) <==> ShortFor(letter, b)
  {}

  lemma UnescapeOne(c: Bytes, i: nat, end: nat, u: Unit)
    requires u.Loose() && Has(c, i, u.Spelling()) && i + |u.Spelling()| <= end < |c|
    ensures Unescape(c, i, end) == Prepend(u.Meaning(), Unescape(c, i + |u.Spelling()|, end))
  {
    hide Has, Unescape, Utf16Literal, Hex4For, Utf8, ShortFor, Unescape2;
    HasByte(c, i, u.Spelling(), 0);
    UnescapeStep(c, i, end);
    match u
    case Raw(b) =>
    case Short(letter, b) =>
      HasByte(c, i, u.Spelling(), 1);
      Unescape2Exactly(letter, b);
      ShortNotU(letter, b);
    case Code(digits, v) => CodeTaken(c, i, end, digits, v);
    case Pair(high, low, v) => PairTaken(c, i, end, high, low, v);
  }

  lemma ShortNotU(letter: byte, b: byte)
    requires ShortFor(letter, b)
    ensures letter != LOWER_U
  {}

  lemma CodeTaken(c: Bytes, i: nat, end: nat, digits: Bytes, v: CodePoint)
    requires Code(digits, v).Loose() && Has(c, i, [BACKSLASH, LOWER_U] + digits)
    requires i + |[BACKSLASH, LOWER_U] + digits| <= end < |c|
    ensures |digits| == 4 && c[i + 1] == LOWER_U && Utf16Literal(c, i, end) == Some((Utf8(v), 6))
  {
    hide Hex4, Has, Utf8;
    LiteralAt(c, i, digits);
  }

  lemma PairTaken(c: Bytes, i: nat, end: nat, high: Bytes, low: Bytes, v: CodePoint)
    requires Pair(high, low, v).Loose() && Has(c, i, Pair(high, low, v).Spelling())
    requires i + |Pair(high, low, v).Spelling()| <= end < |c|
    ensures |high| == |low| == 4 && c[i + 1] == LOWER_U && Utf16Literal(c, i, end) == Some((Utf8(v), 12))
  {
    hide Hex4, Has, Utf8, Hex4For;
    var h, l := 0xD800 + (v - 0x10000) / 0x400, 0xDC00 + (v - 0x10000) % 0x400;
    HexBound(high, h);
    HexBound(low, l);
    HasSplit(c, i, [BACKSLASH, LOWER_U] + high, [BACKSLASH, LOWER_U] + low);
    LiteralAt(c, i, high);
    LiteralAt(c, i + 6, low);
    assert 0x10000 + (h - 0xD800) * 1024 + (l - 0xDC00) == v;
  }

  lemma UnescapeNothing(c: Bytes, i: nat)
    requires i < |c|
    ensures Unescape(c, i, i) == Some([])
  {}

  lemma {:induction false} UnescapeAll(c: Bytes, i: nat, us: seq<Unit>, end: nat)
    requires AllLoose(us) && Has(c, i, Spell(us)) && i + |Spell(us)| <= end < |c|
    ensures Unescape(c, i, end) == Prepend(Mean(us), Unescape(c, i + |Spell(us)|, end))
    decreases |us|
  {
    hide Unescape, Has;
    if us == [] {
      PrependNothing(Unescape(c, i, end));
    } else {
      HasSplit(c, i, us[0].Spelling(), Spell(us[1..]));
      UnescapeOne(c, i, end, us[0]);
      UnescapeAll(c, i + |us[0].Spelling()|, us[1..], end);
      PrependTwice(us[0].Meaning(), Mean(us[1..]), Unescape(c, i + |Spell(us)|, end));
    }
  }

  lemma PrependNothing(s: Option<Bytes>)
    ensures Prepend([], s) == s
  {
    if s.Some? { assert [] + s.value == s.value; }
  }

  lemma PrependTwice(a: Bytes, b: Bytes, s: Option<Bytes>)
    ensures Prepend(a, Prepend(b, s)) == Prepend(a + b, s)
  {
    if s.Some? { assert a + (b + s.value) == (a + b) + s.value; }
  }

  function QuotedText(us: seq<Unit>): Bytes
  {
    ['"' as int] + (Spell(us) + ['"' as int])
  }

  lemma ProperIsLoose(us: seq<Unit>)
    requires AllProper(us)
    ensures AllLoose(us)
  {}

  /** Every spelling of a string is read as the string. */
  lemma StringParses(c: Bytes, off: nat, us: seq<Unit>)
    requires AllProper(us) && Has(c, off, QuotedText(us))
    ensures ParseString(c, off) == Some((Mean(us), off + |QuotedText(us)|))
  {
    hide StringEnd, Unescape, Spell, Mean, CString, Has, AllProper, AllLoose;
    HasFirst(c, off, QUOTE, Spell(us) + [QUOTE]);
    HasSplit(c, off + 1, Spell(us), [QUOTE]);
    var end := off + 1 + |Spell(us)|;
    HasByte(c, end, [QUOTE], 0);
    EndPassesAll(c, off + 1, us);
    EndAtQuote(c, end);
    ProperIsLoose(us);
    UnescapeAll(c, off + 1, us, end);
    UnescapeNothing(c, end);
    assert Mean(us) + [] == Mean(us);
    ProperNulFree(us);
    CStringNulFree(Mean(us));
  }

  lemma {:induction false} ProperNulFree(us: seq<Unit>)
    requires AllProper(us)
    ensures NulFree(Mean(us))
  {
    if us != [] {
      MeaningNulFree(us[0]);
      ProperNulFree(us[1..]);
    }
  }

  lemma MeaningNulFree(u: Unit)
    requires u.Proper()
    ensures NulFree(u.Meaning())
  {
    hide Hex4For;
  }

  // ---------- What is no string ----------

  /** A backslash that begins no escape: before another letter, or before a literal with a lone
      surrogate. */
  ghost predicate BadEscape(s: Bytes)
  {
    || (|s| >= 2 && s[0] == BACKSLASH && s[1] != LOWER_U && forall b :: !ShortFor(s[1], b))
    || (|s| >= 6 && s[0] == BACKSLASH && s[1] == LOWER_U && exists v :: Hex4For(s[2..6], v) && 0xDC00 <= v <= 0xDFFF)
    || (|s| >= 12 && s[0] == BACKSLASH && s[1] == LOWER_U && LoneHigh(s))
  }

  /** A high surrogate, and no low one behind it. */
  ghost predicate LoneHigh(s: Bytes)
    requires |s| >= 12
  {
    && (exists v :: Hex4For(s[2..6], v) && 0xD800 <= v <= 0xDBFF)
    && (s[6] != BACKSLASH || s[7] != LOWER_U || forall v :: 0xDC00 <= v <= 0xDFFF ==> !Hex4For(s[8..12], v))
  }

  /** A string with such an escape behind proper characters is rejected. */
  lemma BadEscapeRejected(c: Bytes, off: nat, us: seq<Unit>, bad: Bytes)
    requires AllProper(us) && BadEscape(bad) && Has(c, off, [QUOTE] + (Spell(us) + bad))
    ensures ParseString(c, off) == None
  {
    hide StringEnd, Unescape, Spell, Has, AllProper, AllLoose, BadEscape;
    HasFirst(c, off, QUOTE, Spell(us) + bad);
    HasSplit(c, off + 1, Spell(us), bad);
    var i := off + 1 + |Spell(us)|;
    EndPassesAll(c, off + 1, us);
    if StringEnd(c, off + 1).Some? {
      var end := StringEnd(c, off + 1).value;
      ProperIsLoose(us);
      UnescapeAll(c, off + 1, us, end);
      BadEscapeFails(c, i, end, bad);
    }
  }

  lemma BadEscapeFails(c: Bytes, i: nat, end: nat, bad: Bytes)
    requires BadEscape(bad) && Has(c, i, bad) && StringEnd(c, i) == Some(end) && end < |c|
    ensures i < end && Unescape(c, i, end) == None
  {
    hide Unescape, Has, Hex4For, Hex4, Unescape2, ShortFor;
    HasByte(c, i, bad, 0);
    HasByte(c, i, bad, 1);
    UnescapeStep(c, i, end);
    if bad[1] != LOWER_U {
      if Unescape2(bad[1]).Some? { Unescape2Exactly(bad[1], Unescape2(bad[1]).value); }
    } else if end - i >= 6 {
      BadLiteral(c, i, end, bad);
    }
  }

  lemma BadLiteral(c: Bytes, i: nat, end: nat, bad: Bytes)
    requires BadEscape(bad) && |bad| >= 6 && bad[1] == LOWER_U && Has(c, i, bad) && i + 6 <= end <= |c|
    ensures Utf16Literal(c, i, end) == None
  {
    hide Hex4, Hex4For, Has, Utf8, Utf8Value;
    assert bad == ([BACKSLASH, LOWER_U] + bad[2..6]) + bad[6..];
    HasSplit(c, i, [BACKSLASH, LOWER_U] + bad[2..6], bad[6..]);
    var v :| Hex4For(bad[2..6], v)
             && (0xDC00 <= v <= 0xDFFF || (|bad| >= 12 && LoneHigh(bad) && 0xD800 <= v <= 0xDBFF));
    LiteralDecodes(c, i, end, bad[2..6], v);
    if 0xD800 <= v <= 0xDBFF {
      HasByte(c, i, bad, 6);
      HasByte(c, i, bad, 7);
      HasDigits(c, i, bad);
      assert LoneHigh(bad);
      LowOrNot(c, i, end, bad);
    }
  }

  lemma LowOrNot(c: Bytes, i: nat, end: nat, bad: Bytes)
    requires |bad| >= 12 && LoneHigh(bad) && i <= end <= |c| && i + 12 <= |c|
    requires c[i + 6] == bad[6] && c[i + 7] == bad[7] && Has(c, i + 8, bad[8..12])
    ensures !LowFollows(c, i, end)
  {
    hide Hex4, Hex4For, Has;
    if 0xDC00 <= Hex4(c, i + 8) <= 0xDFFF { SomeHex(c, i + 8, bad[8..12]); }
  }

  lemma HasDigits(c: Bytes, i: nat, s: Bytes)
    requires Has(c, i, s) && |s| >= 12
    ensures Has(c, i + 8, s[8..12])
  {
    assert s == s[..8] + (s[8..12] + s[12..]);
    HasSplit(c, i, s[..8], s[8..12] + s[12..]);
    HasSplit(c, i + 8, s[8..12], s[12..]);
  }

  /** A value that is not 0 has been read from digits. */
  lemma SomeHex(c: Bytes, i: nat, digits: Bytes)
    requires |digits| == 4 && Has(c, i, digits) && Hex4(c, i) > 0
    ensures Hex4For(digits, Hex4(c, i))
  {
    hide Hex4, Hex4For, Has;
    Hex4Exactly(c, i, digits);
  }

  /** Digits that are none, but no quote or backslash either, cut the string: the literal is taken for
      the code point 0. */
  lemma BadDigitsCut(c: Bytes, off: nat, us: seq<Unit>, digits: Bytes, vs: seq<Unit>)
    requires AllProper(us) && AllProper(vs) && |digits| == 4 && (forall v :: !Hex4For(digits, v))
    requires forall d :: d in digits ==> d != QUOTE && d != BACKSLASH
    requires Has(c, off, [QUOTE] + (Spell(us) + (([BACKSLASH, LOWER_U] + digits) + (Spell(vs) + [QUOTE]))))
    ensures ParseString(c, off) == Some((Mean(us), off + 8 + |Spell(us)| + |Spell(vs)|))
  {
    hide StringEnd, Unescape, Spell, Mean, CString, Has, AllProper, AllLoose, Hex4For, Utf8;
    var zero := Code(digits, 0);
    assert zero.Meaning() == [0] by { ZeroMeans(digits); }
    var tail := ([BACKSLASH, LOWER_U] + digits) + (Spell(vs) + [QUOTE]);
    HasFirst(c, off, QUOTE, Spell(us) + tail);
    var i := off + 1 + |Spell(us)|;
    var j, end := i + 6, i + 6 + |Spell(vs)|;
    HasSplit(c, off + 1, Spell(us), tail);
    HasSplit(c, i, [BACKSLASH, LOWER_U] + digits, Spell(vs) + [QUOTE]);
    HasSplit(c, j, Spell(vs), [QUOTE]);
    HasByte(c, end, [QUOTE], 0);
    EndPassesAll(c, off + 1, us);
    BadDigitsPass(c, i, digits);
    EndPassesAll(c, j, vs);
    EndAtQuote(c, end);
    ProperIsLoose(us);
    ProperIsLoose(vs);
    UnescapeAll(c, off + 1, us, end);
    UnescapeOne(c, i, end, zero);
    UnescapeAll(c, j, vs, end);
    UnescapeNothing(c, end);
    ProperNulFree(us);
    CStringCut(Mean(us), Mean(vs) + []);
    assert Mean(us) + ([0] + (Mean(vs) + [])) == Mean(us) + [0] + (Mean(vs) + []);
  }

  lemma ZeroMeans(digits: Bytes)
    ensures Code(digits, 0).Meaning() == [0]
  {}

  lemma BadDigitsPass(c: Bytes, i: nat, digits: Bytes)
    requires |digits| == 4 && Has(c, i, [BACKSLASH, LOWER_U] + digits)
    requires forall d :: d in digits ==> d != QUOTE && d != BACKSLASH
    ensures StringEnd(c, i) == StringEnd(c, i + 6)
  {
    hide Has, StringEnd;
    HasSplit(c, i, [BACKSLASH, LOWER_U], digits);
    HasByte(c, i, [BACKSLASH, LOWER_U], 0);
    HasByte(c, i, [BACKSLASH, LOWER_U], 1);
    EndStep(c, i);
    EndPassesPlain(c, i + 2, digits);
  }

  // ---------- Only strings are read as strings ----------

  lemma LiteralTaken(c: Bytes, i: nat, end: nat) returns (u: Unit)
    requires i + 1 < end < |c| && c[i] == BACKSLASH && c[i + 1] == LOWER_U && Utf16Literal(c, i, end).Some?
    ensures u.Loose() && Utf16Literal(c, i, end).value == (u.Meaning(), |u.Spelling()|)
    ensures (u.Code? || u.Pair?) && Has(c, i, u.Spelling())
  {
    hide Hex4, Utf8, Hex4For;
    var digits := c[i + 2..i + 6];
    Hex4Exactly(c, i + 2, digits);
    var first := Hex4(c, i + 2);
    if 0xD800 <= first <= 0xDBFF {
      var low := c[i + 8..i + 12];
      Hex4Exactly(c, i + 8, low);
      SomeHex(c, i + 2, digits);
      SomeHex(c, i + 8, low);
      var second := Hex4(c, i + 8);
      u := Pair(digits, low, 0x10000 + (first - 0xD800) * 1024 + (second - 0xDC00));
      assert (u.v - 0x10000) / 0x400 == first - 0xD800 && (u.v - 0x10000) % 0x400 == second - 0xDC00;
      HexBound(digits, first);
      HexBound(low, second);
      assert u.Spelling() == c[i..i + 12];
    } else {
      u := Code(digits, first);
      if first > 0 { SomeHex(c, i + 2, digits); }
      if Hex4For(digits, 0) || first > 0 {} else { NoHex(c, i + 2, digits); }
      assert u.Spelling() == c[i..i + 6];
    }
  }

  lemma NoHex(c: Bytes, i: nat, digits: Bytes)
    requires |digits| == 4 && Has(c, i, digits) && Hex4(c, i) == 0 && !Hex4For(digits, 0)
    ensures forall v :: !Hex4For(digits, v)
  {
    hide Hex4, Hex4For;
    Hex4Exactly(c, i, digits);
  }

  lemma {:induction false} StringTaken(c: Bytes, i: nat, end: nat) returns (us: seq<Unit>)
    requires i <= end < |c| && Unescape(c, i, end).Some?
    ensures AllLoose(us) && c[i..end] == Spell(us) && Unescape(c, i, end) == Some(Mean(us))
    decreases end - i
  {
    hide Utf16Literal, Unescape, Has, Unescape2, ShortFor;
    if i == end {
      UnescapeNothing(c, i);
      us := [];
    } else {
      UnescapeStep(c, i, end);
      var u;
      if c[i] != BACKSLASH {
        u := Raw(c[i]);
      } else if c[i + 1] != LOWER_U {
        Unescape2Exactly(c[i + 1], Unescape2(c[i + 1]).value);
        u := Short(c[i + 1], Unescape2(c[i + 1]).value);
      } else {
        assert i + 1 < end by { LiteralFits(c, i, end); }
        u := LiteralTaken(c, i, end);
      }
      UnitTaken(c, i, end, u);
      var rest := StringTaken(c, i + |u.Spelling()|, end);
      us := [u] + rest;
      assert us[0] == u && us[1..] == rest;
      assert c[i..end] == c[i..i + |u.Spelling()|] + c[i + |u.Spelling()|..end];
    }
  }

  lemma LiteralFits(c: Bytes, i: nat, end: nat)
    requires i <= end < |c| && Utf16Literal(c, i, end).Some?
    ensures i + 6 <= end
  {}

  lemma UnitTaken(c: Bytes, i: nat, end: nat, u: Unit)
    requires i < end < |c| && u.Loose()
    requires match u
             case Raw(b) => c[i] == b
             case Short(letter, _) => c[i] == BACKSLASH && c[i + 1] == letter && i + 2 <= end
             case _ => i + |u.Spelling()| <= end && Has(c, i, u.Spelling())
    ensures i < i + |u.Spelling()| <= end && c[i..i + |u.Spelling()|] == u.Spelling()
    ensures Unescape(c, i, end) == Prepend(u.Meaning(), Unescape(c, i + |u.Spelling()|, end))
  {
    hide Unescape, Hex4For, ShortFor, Utf8;
    var s := u.Spelling();
    match u {
      case Raw(b) => assert s == [b] && c[i..i + 1] == s;
      case Short(letter, _) => assert s == [BACKSLASH, letter] && c[i..i + 2] == s;
      case _ => assert |s| > 0;
    }
    assert Has(c, i, s);
    UnescapeOne(c, i, end, u);
  }

  /** Whatever is read as a string is spelled like one, and the value is what comes before the first
      NUL in it. */
  lemma OnlyStringsParse(c: Bytes, off: nat) returns (us: seq<Unit>)
    requires ParseString(c, off).Some?
    ensures AllLoose(us) && Has(c, off, QuotedText(us))
    ensures ParseString(c, off) == Some((CString(Mean(us)), off + |QuotedText(us)|))
  {
    hide StringEnd, Unescape, Spell, Mean, CString, AllLoose;
    var end := StringEnd(c, off + 1).value;
    us := StringTaken(c, off + 1, end);
    assert QuotedText(us) == c[off..end + 1];
  }
}
