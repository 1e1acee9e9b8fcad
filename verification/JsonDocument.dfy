/** JSON documents with any blanks, escapes and digits: the parser reads every one of them, up to the
    nesting limit, as the tree it spells, and what it reads is one of them. */
module JsonDocument {
  import opened Common
  import opened Json
  import opened JsonSpelling

  /** A spelled value: blanks stand in front of and behind elements, keys, colons and values. */
  datatype Doc =
    | NullWord
    | BoolWord(b: bool)
    | Numeral(minus: bool, digits: Bytes)
    | Quoted(units: seq<Unit>)
    | Brackets(lead: Bytes, elements: Elements)
    | Braces(lead: Bytes, fields: Fields)

  datatype Elements = NoElements | Element(before: Bytes, value: Doc, behind: Bytes, next: Elements)

  datatype Fields =
    | NoFields
    | Field(before: Bytes, key: seq<Unit>, gap: Bytes, after: Bytes, value: Doc, behind: Bytes, next: Fields)

  function Ascii(s: string): Bytes
    requires forall i :: 0 <= i < |s| ==> s[i] as int < 128
  {
    seq(|s|, i requires 0 <= i < |s| => s[i] as int)
  }

  function NumeralText(minus: bool, digits: Bytes): Bytes
  {
    (if minus then Ascii("-") else []) + digits
  }

  function DocText(d: Doc): Bytes
    decreases d
  {
    match d
    case NullWord => Ascii("null")
    case BoolWord(b) => if b then Ascii("true") else Ascii("false")
    case Numeral(minus, digits) => NumeralText(minus, digits)
    case Quoted(units) => QuotedText(units)
    case Brackets(lead, elements) => Ascii("[") + (lead + (ElementsText(elements) + Ascii("]")))
    case Braces(lead, fields) => Ascii("{") + (lead + (FieldsText(fields) + Ascii("}")))
  }

  function ElementsText(es: Elements): Bytes
    decreases es, 0
  {
    match es
    case NoElements => []
    case Element(before, value, behind, next) => before + (DocText(value) + (behind + MoreElements(next)))
  }

  function MoreElements(next: Elements): Bytes
    decreases next, 1
  {
    if next.Element? then Ascii(",") + ElementsText(next) else []
  }

  function FieldsText(fs: Fields): Bytes
    decreases fs, 0
  {
    match fs
    case NoFields => []
    case Field(before, key, gap, after, value, behind, next) =>
      before + (QuotedText(key) + (gap + (Ascii(":") + (after + (DocText(value) + (behind + MoreFields(next)))))))
  }

  function MoreFields(next: Fields): Bytes
    decreases next, 1
  {
    if next.Field? then Ascii(",") + FieldsText(next) else []
  }

  function NumeralValue(minus: bool, digits: Bytes): int
  {
    if minus then -DigitsValue(digits) else DigitsValue(digits)
  }

  /** The tree it spells; strings end at their first NUL. */
  function DocValue(d: Doc): Json
    decreases d
  {
    match d
    case NullWord => Null
    case BoolWord(b) => Bool(b)
    case Numeral(minus, digits) => Number(NumeralValue(minus, digits))
    case Quoted(units) => Text(CString(Mean(units)))
    case Brackets(_, elements) => Array(ElementsValue(elements))
    case Braces(_, fields) => Object(FieldsValue(fields))
  }

  function ElementsValue(es: Elements): Items
    decreases es
  {
    match es
    case NoElements => NoItems
    case Element(_, value, _, next) => Item(DocValue(value), ElementsValue(next))
  }

  function FieldsValue(fs: Fields): Members
    decreases fs
  {
    match fs
    case NoFields => NoMembers
    case Field(_, key, _, _, value, _, next) => Member(CString(Mean(key)), DocValue(value), FieldsValue(next))
  }

  // ---------- Well-spelled documents ----------

  ghost predicate Blank(s: Bytes)
  {
    forall i :: 0 <= i < |s| ==> s[i] <= 32
  }

  predicate AllDigits(s: Bytes)
  {
    forall k :: 0 <= k < |s| ==> '0' as int <= s[k] <= '9' as int
  }

  /** A number is an int of at most 63 characters. */
  predicate FineNumeral(minus: bool, digits: Bytes)
  {
    && digits != [] && AllDigits(digits) && |NumeralText(minus, digits)| <= 63
    && -0x8000_0000 <= NumeralValue(minus, digits) <= 0x7fff_ffff
  }

  ghost predicate FineString(us: seq<Unit>, loose: bool)
  {
    if loose then AllLoose(us) else AllProper(us)
  }

  /** With all strings spelled properly, or in a way the program lets pass. */
  ghost predicate Fine(d: Doc, loose: bool)
    decreases d
  {
    match d
    case NullWord => true
    case BoolWord(_) => true
    case Numeral(minus, digits) => FineNumeral(minus, digits)
    case Quoted(units) => FineString(units, loose)
    case Brackets(lead, elements) => Blank(lead) && (elements.Element? ==> lead == []) && FineElements(elements, loose)
    case Braces(lead, fields) => Blank(lead) && (fields.Field? ==> lead == []) && FineFields(fields, loose)
  }

  ghost predicate FineElements(es: Elements, loose: bool)
    decreases es
  {
    match es
    case NoElements => true
    case Element(before, value, behind, next) =>
      Blank(before) && Fine(value, loose) && Blank(behind) && FineElements(next, loose)
  }

  ghost predicate FineFields(fs: Fields, loose: bool)
    decreases fs
  {
    match fs
    case NoFields => true
    case Field(before, key, gap, after, value, behind, next) =>
      && Blank(before) && FineString(key, loose) && Blank(gap) && Blank(after)
      && Fine(value, loose) && Blank(behind) && FineFields(next, loose)
  }

  // ---------- Nesting ----------

  function Depth(t: Json): nat
    decreases t
  {
    match t
    case Array(items) => 1 + ItemsDepth(items)
    case Object(members) => 1 + MembersDepth(members)
    case _ => 0
  }

  function Max(a: nat, b: nat): nat { if a < b then b else a }

  function ItemsDepth(items: Items): nat
    decreases items
  {
    match items
    case NoItems => 0
    case Item(value, next) => Max(Depth(value), ItemsDepth(next))
  }

  function MembersDepth(members: Members): nat
    decreases members
  {
    match members
    case NoMembers => 0
    case Member(_, value, next) => Max(Depth(value), MembersDepth(next))
  }

  /** What a parser may answer for a spelled value: the tree, unless it is nested too deeply. */
  function Expected<T>(t: T, end: nat, deep: bool): Option<(T, nat)>
  {
    if deep then None else Some((t, end))
  }

  // ---------- Blanks ----------

  lemma {:induction false} NonBlankAfter(c: Bytes, off: nat, n: nat)
    requires off + n < |c| && c[off + n] > 32 && forall k :: off <= k < off + n ==> c[k] <= 32
    ensures NonBlank(c, off) == off + n
    decreases n
  {
    if n > 0 { NonBlankAfter(c, off + 1, n - 1); }
  }

  /** Blanks are skipped up to the next visible character. */
  lemma SkipBlanks(c: Bytes, off: nat, blanks: Bytes)
    requires Has(c, off, blanks) && Blank(blanks)
    requires off + |blanks| < |c| && c[off + |blanks|] > 32
    ensures Skip(c, off) == off + |blanks|
  {
    forall k | off <= k < off + |blanks| ensures c[k] <= 32 { HasByte(c, off, blanks, k - off); }
    NonBlankAfter(c, off, |blanks|);
  }

  lemma SkipAgain(c: Bytes, off: nat)
    ensures off < |c| ==> Skip(c, Skip(c, off)) == Skip(c, off)
  {
    if off < |c| && NonBlank(c, off) == |c| { assert c[|c| - 1] <= 32; }
  }

  // ---------- Numbers ----------

  lemma {:induction false} RunOf(c: Bytes, off: nat, text: Bytes, max: nat)
    requires Has(c, off, text) && |text| <= max
    requires forall k :: 0 <= k < |text| ==> NumberChar(text[k])
    requires |text| == max || (off + |text| < |c| && !NumberChar(c[off + |text|]))
    ensures NumberRun(c, off, max) == |text|
    decreases |text|
  {
    if text != [] {
      HasByte(c, off, text, 0);
      assert text == [text[0]] + text[1..];
      HasSplit(c, off, [text[0]], text[1..]);
      RunOf(c, off + 1, text[1..], max - 1);
    }
  }

  lemma {:induction false} DigitRunAll(s: Bytes, i: nat)
    requires i <= |s| && forall k :: i <= k < |s| ==> IsDigit(s[k])
    ensures DigitRun(s, i) == |s| - i
    decreases |s| - i
  {
    if i < |s| { DigitRunAll(s, i + 1); }
  }

  lemma NumeralRead(minus: bool, digits: Bytes)
    requires FineNumeral(minus, digits)
    ensures Strtod(NumeralText(minus, digits)) == Some((NumeralValue(minus, digits), |NumeralText(minus, digits)|))
    ensures forall k :: 0 <= k < |NumeralText(minus, digits)| ==> NumberChar(NumeralText(minus, digits)[k])
  {
    hide DigitRun, DigitsValue;
    var text, sign := NumeralText(minus, digits), if minus then 1 else 0;
    DigitRunAll(text, sign);
    assert text[sign..sign + DigitRun(text, sign)] == digits;
  }

  lemma NumberParses(c: Bytes, off: nat, minus: bool, digits: Bytes)
    requires FineNumeral(minus, digits) && Stands(c, off, NumeralText(minus, digits))
    ensures ParseNumber(c, off) == Some((NumeralValue(minus, digits), off + |NumeralText(minus, digits)|))
  {
    hide NumberRun, Strtod, DigitsValue;
    var text := NumeralText(minus, digits);
    NumeralRead(minus, digits);
    RunOf(c, off, text, LONGEST_NUMBER);
    assert c[off..off + |text|] == text;
  }

  /** Of a longer number the first 63 characters are read, and nothing else. */
  lemma LongNumberCut(c: Bytes, off: nat, minus: bool, digits: Bytes)
    requires FineNumeral(minus, digits) && |NumeralText(minus, digits)| == 63 && Has(c, off, NumeralText(minus, digits))
    ensures ParseNumber(c, off) == Some((NumeralValue(minus, digits), off + 63))
  {
    hide NumberRun, Strtod, DigitsValue;
    var text := NumeralText(minus, digits);
    NumeralRead(minus, digits);
    RunOf(c, off, text, LONGEST_NUMBER);
    assert c[off..off + |text|] == text;
  }

  /** A number that goes on with a fraction or an exponent is none of the numbers read here. */
  lemma FractionsLeftOut(c: Bytes, off: nat, minus: bool, digits: Bytes, mark: byte)
    requires FineNumeral(minus, digits) && |NumeralText(minus, digits)| < 63
    requires mark in {'.' as int, 'e' as int, 'E' as int} && Has(c, off, NumeralText(minus, digits) + [mark])
    ensures ParseNumber(c, off) == None
  {
    hide DigitsValue, NumberRun, DigitRun;
    var text, sign := NumeralText(minus, digits), if minus then 1 else 0;
    var n := NumberRun(c, off, LONGEST_NUMBER);
    var lit := c[off..off + n];
    NumeralRead(minus, digits);
    RunAtLeast(c, off, text + [mark], LONGEST_NUMBER);
    HasPart(c, off, text + [mark], n);
    assert lit[..|text|] == text && lit[|text|] == mark;
    DigitsUpTo(lit, sign, |text|);
  }

  lemma HasPart(c: Bytes, off: nat, s: Bytes, n: nat)
    requires Has(c, off, s) && |s| <= n && off + n <= |c|
    ensures c[off..off + n][..|s|] == s
  {}

  lemma {:induction false} RunAtLeast(c: Bytes, off: nat, text: Bytes, max: nat)
    requires Has(c, off, text) && |text| <= max
    requires forall k :: 0 <= k < |text| ==> NumberChar(text[k])
    ensures NumberRun(c, off, max) >= |text|
    decreases |text|
  {
    if text != [] {
      HasByte(c, off, text, 0);
      assert text == [text[0]] + text[1..];
      HasSplit(c, off, [text[0]], text[1..]);
      RunAtLeast(c, off + 1, text[1..], max - 1);
    }
  }

  lemma {:induction false} DigitsUpTo(s: Bytes, i: nat, end: nat)
    requires i <= end < |s| && (forall k :: i <= k < end ==> IsDigit(s[k])) && !IsDigit(s[end])
    ensures DigitRun(s, i) == end - i
    decreases end - i
  {
    if i < end { DigitsUpTo(s, i + 1, end); }
  }

  // ---------- Values ----------

  /** The text stands at `off`, followed by something that ends a number. */
  ghost predicate Stands(c: Bytes, off: nat, text: Bytes)
  {
    Has(c, off, text) && off + |text| < |c| && !NumberChar(c[off + |text|])
  }

  /** The first character of a value tells its kind. */
  lemma FirstChar(d: Doc, loose: bool)
    requires Fine(d, loose)
    ensures var text := DocText(d);
            && text != [] && text[0] > 32 && text[0] < 128
            && match d
               case NullWord => text[0] == 'n' as int
               case BoolWord(b) => text[0] == if b then 't' as int else 'f' as int
               case Numeral(_, _) => text[0] == MINUS || IsDigit(text[0])
               case Quoted(_) => text[0] == QUOTE
               case Brackets(_, _) => text[0] == OPEN_BRACKET
               case Braces(_, _) => text[0] == OPEN_BRACE
  {
    hide ElementsText, FieldsText, Spell, FineElements, FineFields, FineString;
  }

  lemma NotWord(c: Bytes, off: nat, b: byte)
    requires off < |c| && c[off] == b
    ensures b != 110 ==> !Has(c, off, TEXT_NULL)
    ensures b != 102 ==> !Has(c, off, TEXT_FALSE)
    ensures b != 116 ==> !Has(c, off, TEXT_TRUE)
  {
    if Has(c, off, TEXT_NULL) { HasByte(c, off, TEXT_NULL, 0); }
    if Has(c, off, TEXT_FALSE) { HasByte(c, off, TEXT_FALSE, 0); }
    if Has(c, off, TEXT_TRUE) { HasByte(c, off, TEXT_TRUE, 0); }
  }

  lemma Words()
    ensures Ascii("null") == TEXT_NULL && Ascii("true") == TEXT_TRUE && Ascii("false") == TEXT_FALSE
  {}

  /** Which parser the first character leads to. */
  lemma Dispatch(c: Bytes, off: nat, depth: nat)
    requires off < |c|
    ensures c[off] == 110 && Has(c, off, TEXT_NULL) ==> ParseValue(c, off, depth) == Some((Null, off + 4))
    ensures c[off] == 102 && Has(c, off, TEXT_FALSE) ==> ParseValue(c, off, depth) == Some((Bool(false), off + 5))
    ensures c[off] == 116 && Has(c, off, TEXT_TRUE) ==> ParseValue(c, off, depth) == Some((Bool(true), off + 4))
    ensures c[off] == QUOTE ==>
              var s := ParseString(c, off);
              ParseValue(c, off, depth) == if s == None then None else Some((Text(s.value.0), s.value.1))
    ensures c[off] == MINUS || IsDigit(c[off]) ==>
              var n := ParseNumber(c, off);
              ParseValue(c, off, depth) == if n == None then None else Some((Number(n.value.0), n.value.1))
    ensures c[off] == OPEN_BRACKET ==>
              var a := ParseArray(c, off, depth);
              ParseValue(c, off, depth) == if a == None then None else Some((Array(a.value.0), a.value.1))
    ensures c[off] == OPEN_BRACE ==>
              var o := ParseObject(c, off, depth);
              ParseValue(c, off, depth) == if o == None then None else Some((Object(o.value.0), o.value.1))
  {
    hide ParseString, ParseNumber, ParseArray, ParseObject, Has;
    NotWord(c, off, c[off]);
  }

  /** Every spelling of a value is read as the value, up to the nesting limit. */
  lemma {:induction false} ValueParses(c: Bytes, off: nat, d: Doc, depth: nat)
    requires Fine(d, false) && Stands(c, off, DocText(d)) && depth <= NESTING_LIMIT
    ensures ParseValue(c, off, depth)
         == Expected(DocValue(d), off + |DocText(d)|, depth + Depth(DocValue(d)) > NESTING_LIMIT)
    decreases d, 1
  {
    hide ParseValue, ParseString, ParseNumber, ParseArray, ParseObject, DocText, Has;
    FirstChar(d, false);
    HasByte(c, off, DocText(d), 0);
    Dispatch(c, off, depth);
    match d
    case Brackets(lead, elements) => ArrayParses(c, off, lead, elements, depth);
    case Braces(lead, fields) => ObjectParses(c, off, lead, fields, depth);
    case _ => LeafParses(c, off, d, depth);
  }

  lemma LeafParses(c: Bytes, off: nat, d: Doc, depth: nat)
    requires Fine(d, false) && Stands(c, off, DocText(d)) && !d.Brackets? && !d.Braces?
    ensures ParseValue(c, off, depth) == Some((DocValue(d), off + |DocText(d)|))
  {
    hide ParseValue, ParseString, ParseNumber, ParseArray, ParseObject, QuotedText, NumeralText, Has, Ascii, Mean,
         NumeralValue, FineNumeral, AllProper;
    FirstChar(d, false);
    HasByte(c, off, DocText(d), 0);
    Dispatch(c, off, depth);
    Words();
    match d
    case Numeral(minus, digits) => NumberParses(c, off, minus, digits);
    case Quoted(units) =>
      StringParses(c, off, units);
      ProperNulFree(units);
      CStringNulFree(Mean(units));
    case _ =>
  }

  lemma Marks()
    ensures Ascii("[") == [OPEN_BRACKET] && Ascii("]") == [CLOSE_BRACKET] && Ascii(",") == [COMMA]
    ensures Ascii("{") == [OPEN_BRACE] && Ascii("}") == [CLOSE_BRACE] && Ascii(":") == [COLON]
  {}

  lemma {:induction false} ArrayParses(c: Bytes, off: nat, lead: Bytes, es: Elements, depth: nat)
    requires Fine(Brackets(lead, es), false) && Has(c, off, DocText(Brackets(lead, es))) && depth <= NESTING_LIMIT
    ensures off < |c|
    ensures ParseArray(c, off, depth)
         == Expected(ElementsValue(es), off + |DocText(Brackets(lead, es))|,
                     depth + 1 + ItemsDepth(ElementsValue(es)) > NESTING_LIMIT)
    decreases es, 2
  {
    hide Has, ElementsText, Skip, ParseItems, ItemsDepth, ElementsValue, FineElements, Ascii, Blank;
    Marks();
    Enclosed(c, off, OPEN_BRACKET, lead, ElementsText(es), CLOSE_BRACKET);
    if es.NoElements? {
      NothingSpelled();
      SkipBlanks(c, off + 1, lead);
    } else {
      assert lead == [];
      ElementBegins(c, off, es);
      if depth < NESTING_LIMIT {
        ElementsParse(c, off, es, depth + 1);
        SkipAgain(c, off + 1);
        ItemsFrom(c, off, Skip(c, off + 1) - 1, depth + 1);
      }
    }
  }

  lemma Enclosed(c: Bytes, off: nat, open: byte, lead: Bytes, inner: Bytes, close: byte)
    requires Has(c, off, [open] + (lead + (inner + [close])))
    ensures off < |c| && c[off] == open && Has(c, off + 1, lead) && Has(c, off + 1 + |lead|, inner)
    ensures off + 1 + |lead| + |inner| < |c| && c[off + 1 + |lead| + |inner|] == close
    ensures |[open] + (lead + (inner + [close]))| == 1 + |lead| + |inner| + 1
  {
    hide Has;
    HasFirst(c, off, open, lead + (inner + [close]));
    HasSplit(c, off + 1, lead, inner + [close]);
    HasSplit(c, off + 1 + |lead|, inner, [close]);
    HasByte(c, off + 1 + |lead| + |inner|, [close], 0);
  }

  lemma NothingSpelled()
    ensures ElementsText(NoElements) == [] && FieldsText(NoFields) == []
    ensures ElementsValue(NoElements) == NoItems && FieldsValue(NoFields) == NoMembers
    ensures ItemsDepth(NoItems) == 0 && MembersDepth(NoMembers) == 0
  {}

  /** Behind blanks the first visible character is that of the first element. */
  lemma ElementBegins(c: Bytes, off: nat, es: Elements)
    requires es.Element? && FineElements(es, false) && off < |c| && Has(c, off + 1, ElementsText(es))
    ensures Skip(c, off + 1) == off + 1 + |es.before| < |c|
    ensures c[Skip(c, off + 1)] > 32 && c[Skip(c, off + 1)] != CLOSE_BRACKET
  {
    hide Has, Skip, Blank, DocText, Fine;
    var tail := es.behind + MoreElements(es.next);
    HasSplit(c, off + 1, es.before, DocText(es.value) + tail);
    FirstChar(es.value, false);
    HasByte(c, off + 1 + |es.before|, DocText(es.value) + tail, 0);
    SkipBlanks(c, off + 1, es.before);
  }

  /** Only what follows the position counts, and blanks there do not. */
  lemma ItemsFrom(c: Bytes, off: nat, o: nat, depth: nat)
    requires off < |c| && o < |c| && Skip(c, o + 1) == Skip(c, off + 1)
    ensures ParseItems(c, o, depth) == ParseItems(c, off, depth)
  {
    hide Skip, ParseValue;
  }

  lemma MembersFrom(c: Bytes, off: nat, o: nat, depth: nat)
    requires off < |c| && o < |c| && Skip(c, o + 1) == Skip(c, off + 1)
    ensures ParseMembers(c, o, depth) == ParseMembers(c, off, depth)
  {
    hide Skip, ParseString;
    assert ParseKey(c, o) == ParseKey(c, off);
  }

  /** What stands behind a value: blanks, then one of the marks, which ends a number. */
  lemma Behind(c: Bytes, e: nat, behind: Bytes, mark: byte)
    requires Has(c, e, behind) && Blank(behind) && e + |behind| < |c| && c[e + |behind|] == mark
    requires mark in {COMMA, CLOSE_BRACKET, CLOSE_BRACE}
    ensures e < |c| && !NumberChar(c[e]) && Skip(c, e) == e + |behind|
  {
    hide Has, Skip;
    if behind != [] { HasByte(c, e, behind, 0); }
    SkipBlanks(c, e, behind);
  }

  /** The parts of an element. */
  lemma ElementLayout(c: Bytes, off: nat, es: Elements)
    requires es.Element? && FineElements(es, false) && off < |c| && Has(c, off + 1, ElementsText(es))
    ensures var s, text := off + 1 + |es.before|, DocText(es.value);
            && Skip(c, off + 1) == s && Has(c, s, text)
            && Has(c, s + |text|, es.behind) && Has(c, s + |text| + |es.behind|, MoreElements(es.next))
            && s + |text| + |es.behind| + |MoreElements(es.next)| == off + 1 + |ElementsText(es)|
  {
    hide Has, Skip, DocText, ElementsText, Depth, Fine, FineElements, Blank, DocValue, MoreElements;
    ElementsFacts(es);
    ElementBegins(c, off, es);
    var text, tail := DocText(es.value), es.behind + MoreElements(es.next);
    HasSplit(c, off + 1, es.before, text + tail);
    HasSplit(c, off + 1 + |es.before|, text, tail);
    HasSplit(c, off + 1 + |es.before| + |text|, es.behind, MoreElements(es.next));
  }

  /** The elements stand behind the bracket or comma at `off`. */
  lemma {:induction false} ElementsParse(c: Bytes, off: nat, es: Elements, depth: nat)
    requires es.Element? && FineElements(es, false) && depth <= NESTING_LIMIT
    requires off < |c| && Has(c, off + 1, ElementsText(es))
    requires off + 1 + |ElementsText(es)| < |c| && c[off + 1 + |ElementsText(es)|] == CLOSE_BRACKET
    ensures ParseItems(c, off, depth)
         == Expected(ElementsValue(es), off + 1 + |ElementsText(es)|,
                     depth + ItemsDepth(ElementsValue(es)) > NESTING_LIMIT)
    decreases es, 0
  {
    hide Has, Skip, DocText, ElementsText, ParseValue, Depth, ItemsDepth, Fine, FineElements, Blank, Ascii, DocValue;
    ElementsFacts(es);
    ElementLayout(c, off, es);
    var s := off + 1 + |es.before|;
    var e := s + |DocText(es.value)|;
    var p := e + |es.behind|;
    Marks();
    if es.next.Element? {
      HasFirst(c, p, COMMA, ElementsText(es.next));
      Behind(c, e, es.behind, COMMA);
      ValueParses(c, s, es.value, depth);
      if depth + Depth(DocValue(es.value)) <= NESTING_LIMIT { ElementsParse(c, p, es.next, depth); }
    } else {
      Behind(c, e, es.behind, CLOSE_BRACKET);
      ValueParses(c, s, es.value, depth);
      NothingSpelled();
    }
  }

  lemma ElementsFacts(es: Elements)
    requires es.Element?
    ensures ElementsText(es) == es.before + (DocText(es.value) + (es.behind + MoreElements(es.next)))
    ensures ElementsValue(es) == Item(DocValue(es.value), ElementsValue(es.next))
    ensures ItemsDepth(ElementsValue(es)) == Max(Depth(DocValue(es.value)), ItemsDepth(ElementsValue(es.next)))
    ensures forall loose :: FineElements(es, loose) <==>
              Blank(es.before) && Fine(es.value, loose) && Blank(es.behind) && FineElements(es.next, loose)
  {
    hide DocText, Depth, Fine, Blank, DocValue, MoreElements;
  }

  lemma {:induction false} ObjectParses(c: Bytes, off: nat, lead: Bytes, fs: Fields, depth: nat)
    requires Fine(Braces(lead, fs), false) && Has(c, off, DocText(Braces(lead, fs))) && depth <= NESTING_LIMIT
    ensures off < |c|
    ensures ParseObject(c, off, depth)
         == Expected(FieldsValue(fs), off + |DocText(Braces(lead, fs))|,
                     depth + 1 + MembersDepth(FieldsValue(fs)) > NESTING_LIMIT)
    decreases fs, 2
  {
    hide Has, FieldsText, Skip, ParseMembers, MembersDepth, FieldsValue, FineFields, Ascii, Blank;
    Marks();
    Enclosed(c, off, OPEN_BRACE, lead, FieldsText(fs), CLOSE_BRACE);
    if fs.NoFields? {
      NothingSpelled();
      SkipBlanks(c, off + 1, lead);
    } else {
      assert lead == [];
      KeyBegins(c, off, fs);
      if depth < NESTING_LIMIT {
        FieldsParse(c, off, fs, depth + 1);
        SkipAgain(c, off + 1);
        MembersFrom(c, off, Skip(c, off + 1) - 1, depth + 1);
      }
    }
  }

  lemma KeyBegins(c: Bytes, off: nat, fs: Fields)
    requires fs.Field? && FineFields(fs, false) && off < |c| && Has(c, off + 1, FieldsText(fs))
    ensures Skip(c, off + 1) == off + 1 + |fs.before| < |c| && c[Skip(c, off + 1)] == QUOTE
  {
    hide Has, Skip, Blank, DocText, Fine, Spell, Ascii, MoreFields;
    var tail := fs.gap + (Ascii(":") + (fs.after + (DocText(fs.value) + (fs.behind + MoreFields(fs.next)))));
    HasSplit(c, off + 1, fs.before, QuotedText(fs.key) + tail);
    HasByte(c, off + 1 + |fs.before|, QuotedText(fs.key) + tail, 0);
    SkipBlanks(c, off + 1, fs.before);
  }

  /** A key, the colon and the blanks around it. */
  lemma KeyParses(c: Bytes, s: nat, off: nat, key: seq<Unit>, gap: Bytes, after: Bytes, value: Bytes)
    requires AllProper(key) && Blank(gap) && Blank(after) && value != [] && value[0] > 32
    requires off < |c| && Skip(c, off + 1) == s && Has(c, s, QuotedText(key) + (gap + ([COLON] + (after + value))))
    ensures var v := s + |QuotedText(key)| + |gap| + 1 + |after|;
            ParseKey(c, off) == Some((Mean(key), v)) && Has(c, v, value)
  {
    hide Has, Skip, ParseString, QuotedText, Mean, AllProper, Blank;
    HasSplit(c, s, QuotedText(key), gap + ([COLON] + (after + value)));
    StringParses(c, s, key);
    var e := s + |QuotedText(key)|;
    HasSplit(c, e, gap, [COLON] + (after + value));
    HasFirst(c, e + |gap|, COLON, after + value);
    SkipBlanks(c, e, gap);
    HasSplit(c, e + |gap| + 1, after, value);
    HasByte(c, e + |gap| + 1 + |after|, value, 0);
    SkipBlanks(c, e + |gap| + 1, after);
  }

  /** Where the value of the first field begins. */
  function ValueAt(off: nat, fs: Fields): nat
    requires fs.Field?
  {
    off + 1 + |fs.before| + |QuotedText(fs.key)| + |fs.gap| + 1 + |fs.after|
  }

  /** The parts of a field, and its key as the parser reads it. */
  lemma FieldLayout(c: Bytes, off: nat, fs: Fields)
    requires fs.Field? && FineFields(fs, false) && off < |c| && Has(c, off + 1, FieldsText(fs))
    ensures var v, text := ValueAt(off, fs), DocText(fs.value);
            && ParseKey(c, off) == Some((CString(Mean(fs.key)), v)) && Has(c, v, text)
            && Has(c, v + |text|, fs.behind) && Has(c, v + |text| + |fs.behind|, MoreFields(fs.next))
            && v + |text| + |fs.behind| + |MoreFields(fs.next)| == off + 1 + |FieldsText(fs)|
  {
    hide Has, Skip, DocText, FieldsText, ParseKey, Fine, FineFields, Blank, Ascii, QuotedText, Mean, CString,
         MoreFields;
    FieldsFacts(fs);
    var text, more := DocText(fs.value), MoreFields(fs.next);
    var s, v := off + 1 + |fs.before|, ValueAt(off, fs);
    KeyBegins(c, off, fs);
    Marks();
    var value := text + (fs.behind + more);
    HasSplit(c, off + 1, fs.before, QuotedText(fs.key) + (fs.gap + ([COLON] + (fs.after + value))));
    FirstChar(fs.value, false);
    KeyParses(c, s, off, fs.key, fs.gap, fs.after, value);
    ProperNulFree(fs.key);
    CStringNulFree(Mean(fs.key));
    HasSplit(c, v, text, fs.behind + more);
    HasSplit(c, v + |text|, fs.behind, more);
  }

  /** The fields stand behind the brace or comma at `off`. */
  lemma {:induction false} FieldsParse(c: Bytes, off: nat, fs: Fields, depth: nat)
    requires fs.Field? && FineFields(fs, false) && depth <= NESTING_LIMIT
    requires off < |c| && Has(c, off + 1, FieldsText(fs))
    requires off + 1 + |FieldsText(fs)| < |c| && c[off + 1 + |FieldsText(fs)|] == CLOSE_BRACE
    ensures ParseMembers(c, off, depth)
         == Expected(FieldsValue(fs), off + 1 + |FieldsText(fs)|,
                     depth + MembersDepth(FieldsValue(fs)) > NESTING_LIMIT)
    decreases fs, 0
  {
    hide Has, Skip, DocText, FieldsText, ParseKey, ParseValue, Depth, MembersDepth, Fine, FineFields, Blank, Ascii,
         DocValue, QuotedText, Mean, CString;
    FieldsFacts(fs);
    var v := ValueAt(off, fs);
    var e := v + |DocText(fs.value)|;
    var p := e + |fs.behind|;
    FieldLayout(c, off, fs);
    Marks();
    if fs.next.Field? {
      HasFirst(c, p, COMMA, FieldsText(fs.next));
      Behind(c, e, fs.behind, COMMA);
      ValueParses(c, v, fs.value, depth);
      if depth + Depth(DocValue(fs.value)) <= NESTING_LIMIT { FieldsParse(c, p, fs.next, depth); }
    } else {
      Behind(c, e, fs.behind, CLOSE_BRACE);
      ValueParses(c, v, fs.value, depth);
      NothingSpelled();
    }
  }

  lemma FieldsFacts(fs: Fields)
    requires fs.Field?
    ensures FieldsText(fs)
         == fs.before + (QuotedText(fs.key)
            + (fs.gap + (Ascii(":") + (fs.after + (DocText(fs.value) + (fs.behind + MoreFields(fs.next)))))))
    ensures FieldsValue(fs) == Member(CString(Mean(fs.key)), DocValue(fs.value), FieldsValue(fs.next))
    ensures MembersDepth(FieldsValue(fs)) == Max(Depth(DocValue(fs.value)), MembersDepth(FieldsValue(fs.next)))
    ensures forall loose :: FineFields(fs, loose) <==>
              && Blank(fs.before) && FineString(fs.key, loose) && Blank(fs.gap) && Blank(fs.after)
              && Fine(fs.value, loose) && Blank(fs.behind) && FineFields(fs.next, loose)
  {
    hide DocText, Depth, Fine, Blank, DocValue, MoreFields, FineString, Mean, CString, QuotedText, Ascii;
  }

  // ---------- Whole texts ----------

  /** A byte order mark, or nothing. */
  function Bom(present: bool): Bytes
  {
    if present then [0xEF, 0xBB, 0xBF] else []
  }

  lemma BomSkipped(present: bool, s: Bytes)
    requires s != [] && s[0] < 128
    ensures SkipBom(Bom(present) + s + [0]) == |Bom(present)|
  {
    var c := Bom(present) + s + [0];
    if present {
      assert c[..3] == Bom(true);
    } else if 4 < |c| {
      assert c[..3][0] == s[0];
    }
  }

  /** Every text that spells a document, with a byte order mark or blanks in front of it, is parsed to
      its tree unless that is nested too deeply; what follows is passed over, or not accepted when
      nothing but blanks may follow. */
  lemma AnySpellingParses(bom: bool, lead: Bytes, d: Doc, trail: Bytes, rest: Bytes, strict: bool)
    requires Fine(d, false) && Blank(lead) && Blank(trail)
    requires rest != [] ==> rest[0] > 32 && (trail == [] ==> !NumberChar(rest[0]))
    ensures Parse(Bom(bom) + (lead + (DocText(d) + (trail + rest))), strict)
         == if Depth(DocValue(d)) > NESTING_LIMIT || (strict && rest != []) then None else Some(DocValue(d))
  {
    hide Has, DocText, Fine, Skip, ParseValue, DocValue, Depth, SkipBom, Bom, Blank;
    var s := lead + (DocText(d) + (trail + rest));
    var c := Bom(bom) + s + [0];
    var k := |Bom(bom)|;
    FirstChar(d, false);
    LeadFirst(lead, DocText(d), trail + rest);
    BomSkipped(bom, s);
    SplitText(c, Bom(bom), lead, DocText(d), trail, rest);
    var v := k + |lead|;
    var e := v + |DocText(d)|;
    HasByte(c, v, DocText(d), 0);
    SkipBlanks(c, k, lead);
    NextChar(c, e, trail, rest);
    ValueParses(c, v, d, 0);
    Ending(c, e, trail, rest);
    assert Bom(bom) + (lead + (DocText(d) + (trail + rest))) + [0] == c;
  }

  lemma LeadFirst(lead: Bytes, text: Bytes, rest: Bytes)
    requires Blank(lead) && text != [] && text[0] < 128
    ensures lead + (text + rest) != [] && (lead + (text + rest))[0] < 128
  {}

  lemma SplitText(c: Bytes, a: Bytes, lead: Bytes, text: Bytes, trail: Bytes, rest: Bytes)
    requires c == a + (lead + (text + (trail + rest))) + [0]
    ensures Has(c, |a|, lead) && Has(c, |a| + |lead|, text)
    ensures Has(c, |a| + |lead| + |text|, trail + (rest + [0]))
    ensures |c| == |a| + |lead| + |text| + |trail + (rest + [0])|
  {
    assert c == a + (lead + (text + (trail + (rest + [0]))));
    assert Has(c, 0, a + (lead + (text + (trail + (rest + [0])))));
    HasSplit(c, 0, a, lead + (text + (trail + (rest + [0]))));
    HasSplit(c, |a|, lead, text + (trail + (rest + [0])));
    HasSplit(c, |a| + |lead|, text, trail + (rest + [0]));
  }

  /** The character behind the value ends a number. */
  lemma NextChar(c: Bytes, e: nat, trail: Bytes, rest: Bytes)
    requires Has(c, e, trail + (rest + [0])) && Blank(trail)
    requires rest != [] ==> rest[0] > 32 && (trail == [] ==> !NumberChar(rest[0]))
    ensures e < |c| && !NumberChar(c[e])
  {
    hide Has;
    HasByte(c, e, trail + (rest + [0]), 0);
  }

  /** Skipping what may follow: onto the terminating NUL, or onto something else. */
  lemma Ending(c: Bytes, e: nat, trail: Bytes, rest: Bytes)
    requires Has(c, e, trail + (rest + [0])) && Blank(trail) && |c| == e + |trail + (rest + [0])|
    requires rest != [] ==> rest[0] > 32
    ensures Skip(c, e) < |c| && (c[Skip(c, e)] == 0 <==> rest == [])
  {
    hide Has, Skip;
    HasSplit(c, e, trail, rest + [0]);
    HasByte(c, e + |trail|, rest + [0], 0);
    if rest == [] {
      AllBlank(c, e, trail);
    } else {
      SkipBlanks(c, e, trail);
    }
  }

  /** Skipping the terminating NUL steps back onto it. */
  lemma AllBlank(c: Bytes, e: nat, trail: Bytes)
    requires Has(c, e, trail) && Blank(trail) && |c| == e + |trail| + 1 && c[e + |trail|] == 0
    ensures Skip(c, e) == e + |trail|
  {
    hide Has;
    forall k | e <= k < |c| ensures c[k] <= 32 {
      if k < e + |trail| { HasByte(c, e, trail, k - e); }
    }
    var r := NonBlank(c, e);
    assert r == |c|;
  }

  // ---------- Only documents are parsed ----------

  lemma SkipTaken(c: Bytes, off: nat) returns (blanks: Bytes)
    requires off < |c| && c[Skip(c, off)] > 32
    ensures Blank(blanks) && Has(c, off, blanks) && Skip(c, off) == off + |blanks|
  {
    blanks := c[off..Skip(c, off)];
  }

  lemma NumberTaken(c: Bytes, off: nat) returns (minus: bool, digits: Bytes)
    requires off < |c| && ParseNumber(c, off).Some?
    ensures FineNumeral(minus, digits) && Has(c, off, NumeralText(minus, digits))
    ensures ParseNumber(c, off) == Some((NumeralValue(minus, digits), off + |NumeralText(minus, digits)|))
  {
    hide NumberRun, DigitsValue, DigitRun;
    var lit := c[off..off + NumberRun(c, off, LONGEST_NUMBER)];
    minus := lit[0] == MINUS;
    var sign := if minus then 1 else 0;
    digits := lit[sign..sign + DigitRun(lit, sign)];
    assert NumeralText(minus, digits) == lit[..sign + DigitRun(lit, sign)];
    assert c[off..off + |NumeralText(minus, digits)|] == lit[..|NumeralText(minus, digits)|];
  }

  /** Whatever is parsed as a value is spelled as a document with that value, nested within the limit;
      only its strings may be spelled loosely. */
  lemma {:induction false} OnlyValuesParse(c: Bytes, off: nat, depth: nat) returns (d: Doc)
    requires off <= |c| && depth <= NESTING_LIMIT && ParseValue(c, off, depth).Some?
    ensures Fine(d, true) && Has(c, off, DocText(d)) && depth + Depth(DocValue(d)) <= NESTING_LIMIT
    ensures ParseValue(c, off, depth) == Some((DocValue(d), off + |DocText(d)|))
    decreases |c| - off, 2
  {
    hide ParseString, ParseNumber, ParseArray, ParseObject, QuotedText, NumeralText, Ascii, Mean, NumeralValue, CString,
         FineNumeral, AllLoose, ElementsText, FieldsText, Has;
    Words();
    if Has(c, off, TEXT_NULL) {
      d := NullWord;
    } else if Has(c, off, TEXT_FALSE) {
      d := BoolWord(false);
    } else if Has(c, off, TEXT_TRUE) {
      d := BoolWord(true);
    } else if c[off] == QUOTE {
      var us := OnlyStringsParse(c, off);
      d := Quoted(us);
    } else if c[off] == MINUS || IsDigit(c[off]) {
      var minus, digits := NumberTaken(c, off);
      d := Numeral(minus, digits);
    } else if c[off] == OPEN_BRACKET {
      d := OnlyArraysParse(c, off, depth);
    } else {
      d := OnlyObjectsParse(c, off, depth);
    }
  }

  lemma {:induction false} OnlyArraysParse(c: Bytes, off: nat, depth: nat) returns (d: Doc)
    requires off < |c| && c[off] == OPEN_BRACKET && depth <= NESTING_LIMIT && ParseArray(c, off, depth).Some?
    ensures d.Brackets? && Fine(d, true) && Has(c, off, DocText(d))
    ensures depth + 1 + ItemsDepth(ElementsValue(d.elements)) <= NESTING_LIMIT
    ensures ParseArray(c, off, depth) == Some((ElementsValue(d.elements), off + |DocText(d)|))
    decreases |c| - off, 1
  {
    hide Has, Skip, ParseItems, ItemsDepth, ElementsValue, ElementsText, Ascii, FineElements, Blank;
    Marks();
    NothingSpelled();
    var o := Skip(c, off + 1);
    var lead, es := [], NoElements;
    if c[o] == CLOSE_BRACKET {
      lead := SkipTaken(c, off + 1);
      NoBlanks(c, o);
    } else {
      SkipAgain(c, off + 1);
      ItemsFrom(c, off, o - 1, depth + 1);
      es := OnlyElementsParse(c, off, depth + 1);
      NoBlanks(c, off + 1);
    }
    d := Brackets(lead, es);
    ClosedText(c, off, OPEN_BRACKET, lead, ElementsText(es), CLOSE_BRACKET);
    assert FineElements(es, true) by { if es.NoElements? { NothingFine(); } }
  }

  lemma NoBlanks(c: Bytes, off: nat)
    requires off <= |c|
    ensures Blank([]) && Has(c, off, [])
  {}

  lemma NothingFine()
    ensures FineElements(NoElements, true) && FineFields(NoFields, true)
  {}

  lemma ClosedText(c: Bytes, off: nat, open: byte, lead: Bytes, inner: Bytes, close: byte)
    requires off < |c| && c[off] == open && Has(c, off + 1, lead) && Has(c, off + 1 + |lead|, inner)
    requires off + 1 + |lead| + |inner| < |c| && c[off + 1 + |lead| + |inner|] == close
    ensures Has(c, off, [open] + (lead + (inner + [close])))
  {
    hide Has;
    var e := off + 1 + |lead| + |inner|;
    HasOne(c, off);
    HasOne(c, e);
    HasJoin(c, off + 1 + |lead|, inner, [close]);
    HasJoin(c, off + 1, lead, inner + [close]);
    HasJoin(c, off, [open], lead + (inner + [close]));
  }

  lemma {:induction false} OnlyElementsParse(c: Bytes, off: nat, depth: nat) returns (es: Elements)
    requires off < |c| && depth <= NESTING_LIMIT && ParseItems(c, off, depth).Some?
    ensures es.Element? && FineElements(es, true) && Has(c, off + 1, ElementsText(es))
    ensures depth + ItemsDepth(ElementsValue(es)) <= NESTING_LIMIT
    ensures off + 1 + |ElementsText(es)| < |c| && c[off + 1 + |ElementsText(es)|] == CLOSE_BRACKET
    ensures ParseItems(c, off, depth) == Some((ElementsValue(es), off + 1 + |ElementsText(es)|))
    decreases |c| - off, 0
  {
    hide Has, Skip, DocText, ElementsText, ParseValue, Depth, ItemsDepth, Fine, FineElements, Blank, Ascii, DocValue;
    var s := Skip(c, off + 1);
    var d := OnlyValuesParse(c, s, depth);
    FirstChar(d, true);
    HasByte(c, s, DocText(d), 0);
    var before := SkipTaken(c, off + 1);
    var e := s + |DocText(d)|;
    var p := Skip(c, e);
    var behind := SkipTaken(c, e);
    var next := NoElements;
    Marks();
    NothingSpelled();
    NothingFine();
    if c[p] == COMMA {
      next := OnlyElementsParse(c, p, depth);
      HasOne(c, p);
      HasJoin(c, p, [COMMA], ElementsText(next));
    } else {
      NoBlanks(c, p);
    }
    es := Element(before, d, behind, next);
    ElementsFacts(es);
    ElementJoined(c, off, es);
  }

  lemma ElementJoined(c: Bytes, off: nat, es: Elements)
    requires es.Element?
    requires var s, text := off + 1 + |es.before|, DocText(es.value);
             && Has(c, off + 1, es.before) && Has(c, s, text) && Has(c, s + |text|, es.behind)
             && Has(c, s + |text| + |es.behind|, MoreElements(es.next))
    ensures Has(c, off + 1, ElementsText(es))
    ensures off + 1 + |es.before| + |DocText(es.value)| + |es.behind| + |MoreElements(es.next)|
         == off + 1 + |ElementsText(es)|
  {
    hide Has, DocText, ElementsText, MoreElements, Fine, FineElements, Depth, DocValue, Blank;
    ElementsFacts(es);
    var s, text, tail := off + 1 + |es.before|, DocText(es.value), es.behind + MoreElements(es.next);
    HasJoin(c, s + |text|, es.behind, MoreElements(es.next));
    HasJoin(c, s, text, tail);
    HasJoin(c, off + 1, es.before, text + tail);
  }

  lemma {:induction false} OnlyObjectsParse(c: Bytes, off: nat, depth: nat) returns (d: Doc)
    requires off < |c| && c[off] == OPEN_BRACE && depth <= NESTING_LIMIT && ParseObject(c, off, depth).Some?
    ensures d.Braces? && Fine(d, true) && Has(c, off, DocText(d))
    ensures depth + 1 + MembersDepth(FieldsValue(d.fields)) <= NESTING_LIMIT
    ensures ParseObject(c, off, depth) == Some((FieldsValue(d.fields), off + |DocText(d)|))
    decreases |c| - off, 1
  {
    hide Has, Skip, ParseMembers, MembersDepth, FieldsValue, FieldsText, Ascii, FineFields, Blank;
    Marks();
    NothingSpelled();
    var o := Skip(c, off + 1);
    var lead, fs := [], NoFields;
    if c[o] == CLOSE_BRACE {
      lead := SkipTaken(c, off + 1);
      NoBlanks(c, o);
    } else {
      SkipAgain(c, off + 1);
      MembersFrom(c, off, o - 1, depth + 1);
      fs := OnlyFieldsParse(c, off, depth + 1);
      NoBlanks(c, off + 1);
    }
    d := Braces(lead, fs);
    ClosedText(c, off, OPEN_BRACE, lead, FieldsText(fs), CLOSE_BRACE);
    assert FineFields(fs, true) by { if fs.NoFields? { NothingFine(); } }
  }

  lemma OnlyKeysParse(c: Bytes, off: nat)
    returns (before: Bytes, key: seq<Unit>, gap: Bytes, after: Bytes)
    requires off < |c| && ParseKey(c, off).Some?
    requires var v := ParseKey(c, off).value.1; v < |c| && c[v] > 32
    ensures Blank(before) && AllLoose(key) && Blank(gap) && Blank(after)
    ensures var s := off + 1 + |before|;
            var e := s + |QuotedText(key)|;
            && Has(c, off + 1, before) && Has(c, s, QuotedText(key)) && Has(c, e, gap)
            && Has(c, e + |gap|, [COLON]) && Has(c, e + |gap| + 1, after)
            && ParseKey(c, off) == Some((CString(Mean(key)), e + |gap| + 1 + |after|))
  {
    hide Has, Skip, ParseString, Spell, Mean, CString, AllLoose, Blank;
    var s := Skip(c, off + 1);
    key := OnlyStringsParse(c, s);
    HasByte(c, s, QuotedText(key), 0);
    before := SkipTaken(c, off + 1);
    var e := s + |QuotedText(key)|;
    gap := SkipTaken(c, e);
    HasOne(c, e + |gap|);
    after := SkipTaken(c, e + |gap| + 1);
  }

  lemma {:induction false} OnlyFieldsParse(c: Bytes, off: nat, depth: nat) returns (fs: Fields)
    requires off < |c| && depth <= NESTING_LIMIT && ParseMembers(c, off, depth).Some?
    ensures fs.Field? && FineFields(fs, true) && Has(c, off + 1, FieldsText(fs))
    ensures depth + MembersDepth(FieldsValue(fs)) <= NESTING_LIMIT
    ensures off + 1 + |FieldsText(fs)| < |c| && c[off + 1 + |FieldsText(fs)|] == CLOSE_BRACE
    ensures ParseMembers(c, off, depth) == Some((FieldsValue(fs), off + 1 + |FieldsText(fs)|))
    decreases |c| - off, 0
  {
    hide Has, Skip, DocText, FieldsText, ParseKey, ParseValue, Depth, MembersDepth, Fine, FineFields, Blank, Ascii,
         DocValue, QuotedText, Mean, CString, AllLoose;
    var v := ParseKey(c, off).value.1;
    var d := OnlyValuesParse(c, v, depth);
    FirstChar(d, true);
    HasByte(c, v, DocText(d), 0);
    var before, key, gap, after := OnlyKeysParse(c, off);
    var e := v + |DocText(d)|;
    var p := Skip(c, e);
    var behind := SkipTaken(c, e);
    var next := NoFields;
    Marks();
    NothingSpelled();
    NothingFine();
    if c[p] == COMMA {
      next := OnlyFieldsParse(c, p, depth);
      HasOne(c, p);
      HasJoin(c, p, [COMMA], FieldsText(next));
    } else {
      NoBlanks(c, p);
    }
    fs := Field(before, key, gap, after, d, behind, next);
    FieldsFacts(fs);
    FieldJoined(c, off, fs);
  }

  lemma FieldJoined(c: Bytes, off: nat, fs: Fields)
    requires fs.Field?
    requires var s := off + 1 + |fs.before|;
             var g := s + |QuotedText(fs.key)|;
             && Has(c, off + 1, fs.before) && Has(c, s, QuotedText(fs.key)) && Has(c, g, fs.gap)
             && Has(c, g + |fs.gap|, [COLON]) && Has(c, g + |fs.gap| + 1, fs.after)
    requires var v := ValueAt(off, fs);
             && Has(c, v, DocText(fs.value)) && Has(c, v + |DocText(fs.value)|, fs.behind)
             && Has(c, v + |DocText(fs.value)| + |fs.behind|, MoreFields(fs.next))
    ensures Has(c, off + 1, FieldsText(fs))
    ensures ValueAt(off, fs) + |DocText(fs.value)| + |fs.behind| + |MoreFields(fs.next)| == off + 1 + |FieldsText(fs)|
  {
    hide Has, DocText, FieldsText, Ascii, QuotedText, MoreFields, Fine, FineFields, Depth, DocValue;
    FieldsFacts(fs);
    Marks();
    var s, v := off + 1 + |fs.before|, ValueAt(off, fs);
    var g := s + |QuotedText(fs.key)|;
    var rest := fs.behind + MoreFields(fs.next);
    var value := DocText(fs.value) + rest;
    HasJoin(c, v + |DocText(fs.value)|, fs.behind, MoreFields(fs.next));
    HasJoin(c, v, DocText(fs.value), rest);
    HasJoin(c, g + |fs.gap| + 1, fs.after, value);
    HasJoin(c, g + |fs.gap|, [COLON], fs.after + value);
    HasJoin(c, g, fs.gap, [COLON] + (fs.after + value));
    HasJoin(c, s, QuotedText(fs.key), fs.gap + ([COLON] + (fs.after + value)));
    HasJoin(c, off + 1, fs.before, QuotedText(fs.key) + (fs.gap + ([COLON] + (fs.after + value))));
  }

  /** A C string that is parsed spells a document of that value, nested within the limit, behind a byte
      order mark or blanks; when nothing may follow, only blanks do. */
  lemma OnlySpellingsParse(text: Bytes, strict: bool) returns (bom: bool, lead: Bytes, d: Doc, rest: Bytes)
    requires NulFree(text) && Parse(text, strict).Some?
    ensures text == Bom(bom) + (lead + (DocText(d) + rest)) && Blank(lead) && (strict ==> Blank(rest))
    ensures Fine(d, true) && Depth(DocValue(d)) <= NESTING_LIMIT && Parse(text, strict) == Some(DocValue(d))
  {
    hide Has, Skip, ParseValue, Parse, DocText, DocValue, Depth, Fine, Blank, SkipBom, NulFree, Bom;
    var c := text + [0];
    var k := SkipBom(c);
    bom := k == 3;
    BomTaken(text);
    ParseSteps(text, strict);
    var v := Skip(c, k);
    d := OnlyValuesParse(c, v, 0);
    FirstChar(d, true);
    HasByte(c, v, DocText(d), 0);
    lead := SkipTaken(c, k);
    var e := v + |DocText(d)|;
    EndsBefore(c, v, d);
    rest := text[e..];
    CutText(text, k, lead, DocText(d));
    if strict { RestBlank(text, e); }
  }

  lemma ParseSteps(text: Bytes, strict: bool)
    requires Parse(text, strict).Some?
    ensures var c := text + [0];
            var v := ParseValue(c, Skip(c, SkipBom(c)), 0);
            && v.Some? && Parse(text, strict) == Some(v.value.0)
            && (strict ==> Skip(c, v.value.1) < |c| && c[Skip(c, v.value.1)] == 0)
  {
    hide Skip, ParseValue, SkipBom;
  }

  lemma BomTaken(text: Bytes)
    ensures var k := SkipBom(text + [0]); k <= |text| && text[..k] == Bom(k == 3)
  {
    var c := text + [0];
    if SkipBom(c) == 3 { assert text[..3] == c[..3]; }
  }

  lemma CutText(text: Bytes, k: nat, lead: Bytes, body: Bytes)
    requires k + |lead| + |body| <= |text|
    requires Has(text + [0], k, lead) && Has(text + [0], k + |lead|, body)
    ensures text == text[..k] + (lead + (body + text[k + |lead| + |body|..]))
  {
    hide Has;
    InFront(text, k, lead);
    InFront(text, k + |lead|, body);
    InFour(text, k, k + |lead|, k + |lead| + |body|);
  }

  lemma InFront(text: Bytes, i: nat, s: Bytes)
    requires i + |s| <= |text| && Has(text + [0], i, s)
    ensures text[i..i + |s|] == s
  {
    assert (text + [0])[i..i + |s|] == text[i..i + |s|];
  }

  lemma InFour(s: Bytes, a: nat, b: nat, c: nat)
    requires a <= b <= c <= |s|
    ensures s == s[..a] + (s[a..b] + (s[b..c] + s[c..]))
  {}

  /** A value ends with a visible character, so in front of the terminating NUL. */
  lemma EndsBefore(c: Bytes, v: nat, d: Doc)
    requires Fine(d, true) && Has(c, v, DocText(d)) && c != [] && c[|c| - 1] == 0
    ensures v + |DocText(d)| < |c|
  {
    hide Has, DocText, Fine;
    LastChar(d);
    HasByte(c, v, DocText(d), |DocText(d)| - 1);
  }

  lemma LastChar(d: Doc)
    requires Fine(d, true)
    ensures DocText(d) != [] && DocText(d)[|DocText(d)| - 1] > 32
  {
    hide ElementsText, FieldsText, Spell, FineElements, FineFields, FineString;
  }

  lemma RestBlank(text: Bytes, e: nat)
    requires NulFree(text) && e <= |text|
    requires var c := text + [0]; Skip(c, e) < |c| && c[Skip(c, e)] == 0
    ensures Blank(text[e..])
  {
    var c := text + [0];
    var p := Skip(c, e);
    assert forall i :: 0 <= i < |text| ==> text[i] in text;
    assert NonBlank(c, e) == |c|;
    forall i | 0 <= i < |text[e..]| ensures text[e..][i] <= 32 { assert c[e + i] == text[e..][i]; }
  }
}
