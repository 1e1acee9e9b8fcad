/** The bundled JSON printer and parser on trees of null, booleans, integers, strings, arrays and
    objects. */
module Json {
  import opened Common

  const NESTING_LIMIT: nat := 1000
  const INT_MIN: int := -0x8000_0000
  const INT_MAX: int := 0x7fff_ffff

  // Characters.
  const TAB: byte := 9
  const NEWLINE: byte := 10
  const SPACE: byte := 32
  const QUOTE: byte := 34
  const PLUS: byte := 43
  const COMMA: byte := 44
  const MINUS: byte := 45
  const DOT: byte := 46
  const COLON: byte := 58
  const UPPER_E: byte := 69
  const OPEN_BRACKET: byte := 91
  const BACKSLASH: byte := 92
  const CLOSE_BRACKET: byte := 93
  const LOWER_E: byte := 101
  const LOWER_U: byte := 117
  const OPEN_BRACE: byte := 123
  const CLOSE_BRACE: byte := 125

  const TEXT_NULL: Bytes := [110, 117, 108, 108]
  const TEXT_TRUE: Bytes := [116, 114, 117, 101]
  const TEXT_FALSE: Bytes := [102, 97, 108, 115, 101]

  /** A cJSON item; children are linked through `next`. */
  datatype Json = Null | Bool(b: bool) | Number(n: int) | Text(s: Bytes)
      | Array(items: Items) | Object(members: Members)

  datatype Items = NoItems | Item(value: Json, next: Items)

  datatype Members = NoMembers | Member(key: Bytes, value: Json, next: Members)

  // ---------- Printing ----------

  function HexDigit(v: nat): byte
    requires v < 16
  {
    if v < 10 then 48 + v else 87 + v
  }

  /** One character of a printed string, as section 7 of RFC 8259 escapes it. */
  function Escape(b: byte): Bytes
  {
    if b > 31 && b != QUOTE && b != BACKSLASH then [b]
    else if b == BACKSLASH then [BACKSLASH, BACKSLASH]
    else if b == QUOTE then [BACKSLASH, QUOTE]
    else if b == 8 then [BACKSLASH, 98]
    else if b == 12 then [BACKSLASH, 102]
    else if b == NEWLINE then [BACKSLASH, 110]
    else if b == 13 then [BACKSLASH, 114]
    else if b == TAB then [BACKSLASH, 116]
    else [BACKSLASH, LOWER_U, 48, 48, HexDigit(b / 16), HexDigit(b % 16)]
  }

  function Escaped(s: Bytes): Bytes
  {
    if s == [] then [] else Escape(s[0]) + Escaped(s[1..])
  }

  function PrintString(s: Bytes): Bytes
  {
    [QUOTE] + Escaped(s) + [QUOTE]
  }

  function Digits(n: nat): (r: Bytes)
    ensures r != []
  {
    if n < 10 then [48 + n] else Digits(n / 10) + [48 + n % 10]
  }

  function PrintNumber(n: int): Bytes
  {
    if n < 0 then [MINUS] + Digits(-n) else Digits(n)
  }

  function Tabs(format: bool, n: nat): Bytes
  {
    if format then seq(n, _ => TAB) else []
  }

  function NewLine(format: bool): Bytes
  {
    if format then [NEWLINE] else []
  }

  /** `depth` counts the arrays and objects around the value. */
  function Print(t: Json, format: bool, depth: nat): Bytes
    decreases t
  {
    match t
    case Null => TEXT_NULL
    case Bool(b) => if b then TEXT_TRUE else TEXT_FALSE
    case Number(n) => PrintNumber(n)
    case Text(s) => PrintString(s)
    case Array(items) => [OPEN_BRACKET] + PrintItems(items, format, depth + 1) + [CLOSE_BRACKET]
    case Object(members) =>
      [OPEN_BRACE] + (NewLine(format) + PrintMembers(members, format, depth + 1) + Tabs(format, depth)) + [CLOSE_BRACE]
  }

  function Separator(format: bool): Bytes
  {
    if format then [COMMA, SPACE] else [COMMA]
  }

  function PrintItems(items: Items, format: bool, depth: nat): Bytes
    decreases items
  {
    match items
    case NoItems => []
    case Item(value, next) =>
      Print(value, format, depth) + if next.Item? then Separator(format) + PrintItems(next, format, depth) else []
  }

  function AfterKey(format: bool): Bytes
  {
    if format then [COLON, TAB] else [COLON]
  }

  function PrintMembers(members: Members, format: bool, depth: nat): Bytes
    decreases members
  {
    match members
    case NoMembers => []
    case Member(key, value, next) =>
      (Tabs(format, depth) + PrintString(key) + AfterKey(format) + Print(value, format, depth))
      + ((if next.Member? then [COMMA] else []) + NewLine(format) + PrintMembers(next, format, depth))
  }

  // ---------- Parsing ----------

  function NonBlank(c: Bytes, off: nat): (r: nat)
    requires off <= |c|
    ensures off <= r <= |c| && (r < |c| ==> c[r] > 32) && forall k :: off <= k < r ==> c[k] <= 32
    decreases |c| - off
  {
    if off < |c| && c[off] <= 32 then NonBlank(c, off + 1) else off
  }

  /** Skips control characters and blanks; a buffer that ends with them leaves the last one. */
  function Skip(c: Bytes, off: nat): (r: nat)
    ensures off <= |c| ==> off <= r <= |c|
    ensures off < |c| ==> r < |c|
  {
    if off >= |c| then off
    else
      var k := NonBlank(c, off);
      if k == |c| then k - 1 else k
  }

  /** Position of the closing quote. */
  function StringEnd(c: Bytes, i: nat): (r: Option<nat>)
    requires i <= |c|
    ensures r.Some? ==> i <= r.value < |c| && c[r.value] == QUOTE
    decreases |c| - i
  {
    if i >= |c| then None
    else if c[i] == QUOTE then Some(i)
    else if c[i] != BACKSLASH then StringEnd(c, i + 1)
    else if i + 1 >= |c| then None
    else StringEnd(c, i + 2)
  }

  function HexValue(b: byte): Option<nat>
  {
    if 48 <= b <= 57 then Some(b - 48)
    else if 65 <= b <= 70 then Some(b - 55)
    else if 97 <= b <= 102 then Some(b - 87)
    else None
  }

  /** Four hexadecimal digits; 0 when one of them is none. */
  function Hex4(c: Bytes, i: nat): (r: nat)
    requires i + 4 <= |c|
    ensures r < U16
  {
    var a, b, x, y := HexValue(c[i]), HexValue(c[i + 1]), HexValue(c[i + 2]), HexValue(c[i + 3]);
    if a.Some? && b.Some? && x.Some? && y.Some? && a.value < 16 && b.value < 16 && x.value < 16 && y.value < 16
    then a.value * 4096 + b.value * 256 + x.value * 16 + y.value else 0
  }

  /** A code point as UTF-8. */
  function Utf8(cp: nat): Bytes
    requires cp <= 0x10FFFF
  {
    if cp < 0x80 then [cp]
    else if cp < 0x800 then [0xC0 + cp / 64, 0x80 + cp % 64]
    else if cp < 0x10000 then [0xE0 + cp / 4096, 0x80 + cp / 64 % 64, 0x80 + cp % 64]
    else [0xF0 + cp / 262144, 0x80 + cp / 4096 % 64, 0x80 + cp / 64 % 64, 0x80 + cp % 64]
  }

  /** A \uXXXX literal, or two that form a surrogate pair: its bytes and its length. */
  function Utf16Literal(c: Bytes, i: nat, end: nat): (r: Option<(Bytes, nat)>)
    requires i <= end <= |c|
    ensures r.Some? ==> r.value.1 > 0 && i + r.value.1 <= end
  {
    if end - i < 6 then None
    else
      var first := Hex4(c, i + 2);
      if 0xDC00 <= first <= 0xDFFF then None
      else if 0xD800 <= first <= 0xDBFF then
        if end - i < 12 || c[i + 6] != BACKSLASH || c[i + 7] != LOWER_U then None
        else
          var second := Hex4(c, i + 8);
          if second < 0xDC00 || second > 0xDFFF then None
          else Some((Utf8(0x10000 + (first - 0xD800) * 1024 + (second - 0xDC00)), 12))
      else Some((Utf8(first), 6))
  }

  /** What one escape of two characters stands for. */
  function Unescape2(b: byte): Option<byte>
  {
    if b == 98 then Some(8)
    else if b == 102 then Some(12)
    else if b == 110 then Some(10)
    else if b == 114 then Some(13)
    else if b == 116 then Some(9)
    else if b == QUOTE || b == BACKSLASH || b == 47 then Some(b)
    else None
  }

  function Unescape(c: Bytes, i: nat, end: nat): Option<Bytes>
    requires i <= end < |c|
    decreases end - i
  {
    if i == end then Some([])
    else if c[i] != BACKSLASH then Prepend([c[i]], Unescape(c, i + 1, end))
    else if c[i + 1] == LOWER_U then
      var u := Utf16Literal(c, i, end);
      if u == None then None else Prepend(u.value.0, Unescape(c, i + u.value.1, end))
    else if Unescape2(c[i + 1]) == None then None
    // A backslash is never the last character before the closing quote.
    else if i + 2 > end then None
    else Prepend([Unescape2(c[i + 1]).value], Unescape(c, i + 2, end))
  }

  function Prepend(a: Bytes, b: Option<Bytes>): Option<Bytes>
  {
    if b.Some? then Some(a + b.value) else None
  }

  /** What C makes of the bytes: the string ends at the first NUL. */
  function CString(s: Bytes): Bytes
  {
    if s == [] || s[0] == 0 then [] else [s[0]] + CString(s[1..])
  }

  function ParseString(c: Bytes, off: nat): (r: Option<(Bytes, nat)>)
    ensures r.Some? ==> off < r.value.1 <= |c|
  {
    if off >= |c| || c[off] != QUOTE then None
    else
      var end := StringEnd(c, off + 1);
      if end == None then None
      else
        var s := Unescape(c, off + 1, end.value);
        if s == None then None else Some((CString(s.value), end.value + 1))
  }

  predicate IsDigit(b: byte) { 48 <= b <= 57 }

  predicate NumberChar(b: byte)
  {
    IsDigit(b) || b == PLUS || b == MINUS || b == LOWER_E || b == UPPER_E || b == DOT
  }

  /** Length of the run of number characters, at most `max`. */
  function NumberRun(c: Bytes, off: nat, max: nat): (r: nat)
    requires off <= |c|
    ensures off + r <= |c| && r <= max
    decreases max
  {
    if max > 0 && off < |c| && NumberChar(c[off]) then 1 + NumberRun(c, off + 1, max - 1) else 0
  }

  function DigitRun(s: Bytes, i: nat): (r: nat)
    requires i <= |s|
    ensures i + r <= |s| && forall k :: i <= k < i + r ==> IsDigit(s[k])
    decreases |s| - i
  {
    if i < |s| && IsDigit(s[i]) then 1 + DigitRun(s, i + 1) else 0
  }

  function DigitsValue(s: Bytes): int
  {
    if s == [] then 0 else 10 * DigitsValue(s[..|s| - 1]) + (s[|s| - 1] as int - 48)
  }

  /** strtod on integers: the value and how much of the text it takes. A fraction, an exponent or
      a value that is not an `int` is not part of this model. */
  function Strtod(lit: Bytes): (r: Option<(int, nat)>)
    ensures r.Some? ==> 0 < r.value.1 <= |lit|
  {
    if lit == [] then None
    else
      var sign := if lit[0] == MINUS then 1 else 0;
      var k := DigitRun(lit, sign);
      var n := DigitsValue(lit[sign..sign + k]);
      var value := if sign == 1 then -n else n;
      if k == 0 || !(INT_MIN <= value <= INT_MAX) then None
      else if sign + k < |lit| && lit[sign + k] in [DOT, LOWER_E, UPPER_E] then None
      else Some((value, sign + k))
  }

  // The number is copied to a buffer of 64 characters.
  const LONGEST_NUMBER: nat := 63

  function ParseNumber(c: Bytes, off: nat): (r: Option<(int, nat)>)
    requires off < |c|
    ensures r.Some? ==> off < r.value.1 <= |c|
  {
    var n := Strtod(c[off..off + NumberRun(c, off, LONGEST_NUMBER)]);
    if n == None then None else Some((n.value.0, off + n.value.1))
  }

  predicate Has(c: Bytes, off: nat, text: Bytes)
  {
    off + |text| <= |c| && c[off..off + |text|] == text
  }

  /** The value at `off` and the position behind it; `depth` arrays and objects are open. */
  function ParseValue(c: Bytes, off: nat, depth: nat): (r: Option<(Json, nat)>)
    requires off <= |c|
    ensures r.Some? ==> off < r.value.1 <= |c|
    decreases |c| - off, 2
  {
    if Has(c, off, TEXT_NULL) then Some((Null, off + 4))
    else if Has(c, off, TEXT_FALSE) then Some((Bool(false), off + 5))
    else if Has(c, off, TEXT_TRUE) then Some((Bool(true), off + 4))
    else if off == |c| then None
    else if c[off] == QUOTE then
      var s := ParseString(c, off);
      if s == None then None else Some((Text(s.value.0), s.value.1))
    else if c[off] == MINUS || IsDigit(c[off]) then
      var n := ParseNumber(c, off);
      if n == None then None else Some((Number(n.value.0), n.value.1))
    else if c[off] == OPEN_BRACKET then
      var a := ParseArray(c, off, depth);
      if a == None then None else Some((Array(a.value.0), a.value.1))
    else if c[off] == OPEN_BRACE then
      var o := ParseObject(c, off, depth);
      if o == None then None else Some((Object(o.value.0), o.value.1))
    else None
  }

  function ParseArray(c: Bytes, off: nat, depth: nat): (r: Option<(Items, nat)>)
    requires off < |c|
    ensures r.Some? ==> off < r.value.1 <= |c|
    decreases |c| - off, 1
  {
    if depth >= NESTING_LIMIT then None
    else
      var o := Skip(c, off + 1);
      if o >= |c| then None
      else if c[o] == CLOSE_BRACKET then Some((NoItems, o + 1))
      else
        var items := ParseItems(c, o - 1, depth + 1);
        if items == None then None else Some((items.value.0, items.value.1 + 1))
  }

  /** The elements behind `off` and the position of the closing bracket. */
  function ParseItems(c: Bytes, off: nat, depth: nat): (r: Option<(Items, nat)>)
    requires off < |c|
    ensures r.Some? ==> off < r.value.1 < |c|
    decreases |c| - off, 0
  {
    var v := ParseValue(c, Skip(c, off + 1), depth);
    if v == None then None
    else
      var p := Skip(c, v.value.1);
      if p < |c| && c[p] == COMMA then
        var rest := ParseItems(c, p, depth);
        if rest == None then None else Some((Item(v.value.0, rest.value.0), rest.value.1))
      else if p < |c| && c[p] == CLOSE_BRACKET then Some((Item(v.value.0, NoItems), p))
      else None
  }

  function ParseObject(c: Bytes, off: nat, depth: nat): (r: Option<(Members, nat)>)
    requires off < |c|
    ensures r.Some? ==> off < r.value.1 <= |c|
    decreases |c| - off, 1
  {
    if depth >= NESTING_LIMIT then None
    else
      var o := Skip(c, off + 1);
      if o >= |c| then None
      else if c[o] == CLOSE_BRACE then Some((NoMembers, o + 1))
      else
        var members := ParseMembers(c, o - 1, depth + 1);
        if members == None then None else Some((members.value.0, members.value.1 + 1))
  }

  /** A key and the position of its value. */
  function ParseKey(c: Bytes, off: nat): (r: Option<(Bytes, nat)>)
    requires off < |c|
    ensures r.Some? ==> off + 1 < r.value.1 <= |c|
  {
    var key := ParseString(c, Skip(c, off + 1));
    if key == None then None
    else
      var p := Skip(c, key.value.1);
      if p < |c| && c[p] == COLON then Some((key.value.0, Skip(c, p + 1))) else None
  }

  function ParseMembers(c: Bytes, off: nat, depth: nat): (r: Option<(Members, nat)>)
    requires off < |c|
    ensures r.Some? ==> off < r.value.1 < |c|
    decreases |c| - off, 0
  {
    var key := ParseKey(c, off);
    if key == None then None
    else
      var v := ParseValue(c, key.value.1, depth);
      if v == None then None
      else
        var p := Skip(c, v.value.1);
        if p < |c| && c[p] == COMMA then
          var rest := ParseMembers(c, p, depth);
          if rest == None then None else Some((Member(key.value.0, v.value.0, rest.value.0), rest.value.1))
        else if p < |c| && c[p] == CLOSE_BRACE then Some((Member(key.value.0, v.value.0, NoMembers), p))
        else None
  }

  /** A byte order mark is skipped when more text follows it. */
  function SkipBom(c: Bytes): nat
  {
    if 4 < |c| && c[..3] == [0xEF, 0xBB, 0xBF] then 3 else 0
  }

  /** cJSON_ParseWithOpts on a C string. `strict` allows nothing but blanks behind the value. */
  function Parse(text: Bytes, strict: bool): Option<Json>
  {
    var c := text + [0];
    var v := ParseValue(c, Skip(c, SkipBom(c)), 0);
    if v == None then None
    else if !strict then Some(v.value.0)
    else
      var p := Skip(c, v.value.1);
      if p < |c| && c[p] == 0 then Some(v.value.0) else None
  }
}
