/** What is printed spells the tree it was printed from, so that parsing it gives back the same tree,
    exactly up to the nesting limit. */
module JsonRoundTrip {
  import opened Common
  import opened Json
  import opened JsonSpelling
  import opened JsonDocument

  // ---------- Printed strings and numbers ----------

  /** How one character is printed. */
  function PrintedUnit(b: byte): Unit
  {
    if b > 31 && b != QUOTE && b != BACKSLASH then Raw(b)
    else if b in {BACKSLASH, QUOTE} then Short(b, b)
    else if b == 8 then Short('b' as int, b)
    else if b == 12 then Short('f' as int, b)
    else if b == 10 then Short('n' as int, b)
    else if b == 13 then Short('r' as int, b)
    else if b == 9 then Short('t' as int, b)
    else Code([48, 48, HexDigit(b / 16), HexDigit(b % 16)], b)
  }

  lemma HexPrinted(v: nat)
    requires v < 16
    ensures HexFor(HexDigit(v), v)
  {}

  lemma UnitPrinted(b: byte)
    ensures PrintedUnit(b).Spelling() == Escape(b) && PrintedUnit(b).Meaning() == [b]
    ensures b != 0 ==> PrintedUnit(b).Proper()
  {
    hide HexDigit, HexFor;
    HexPrinted(0);
    HexPrinted(b / 16);
    HexPrinted(b % 16);
    assert HexDigit(0) == 48 by { ZeroDigit(); }
  }

  lemma ZeroDigit()
    ensures HexDigit(0) == 48
  {}

  function PrintedUnits(s: Bytes): seq<Unit>
  {
    if s == [] then [] else [PrintedUnit(s[0])] + PrintedUnits(s[1..])
  }

  /** A printed string spells the string. */
  lemma {:induction false} StringPrinted(s: Bytes)
    ensures Spell(PrintedUnits(s)) == Escaped(s) && Mean(PrintedUnits(s)) == s
    ensures NulFree(s) ==> AllProper(PrintedUnits(s))
  {
    hide PrintedUnit, Escape, Unit.Spelling, Unit.Meaning, Unit.Proper;
    if s != [] {
      UnitPrinted(s[0]);
      StringPrinted(s[1..]);
      assert PrintedUnits(s)[1..] == PrintedUnits(s[1..]);
    }
  }

  lemma {:induction false} DigitsAreDigits(n: nat)
    ensures AllDigits(Digits(n)) && DigitsValue(Digits(n)) == n
  {
    if n >= 10 {
      DigitsAreDigits(n / 10);
      assert Digits(n)[..|Digits(n)| - 1] == Digits(n / 10);
    } else {
      assert [48 + n][..0] == [] && DigitsValue([]) == 0;
    }
  }

  /** At most ten digits for an int. */
  lemma DigitCount(n: nat)
    requires n <= 0x8000_0000
    ensures |Digits(n)| <= 10
  {
    Fewer(n / 10, 9);
  }

  lemma {:induction false} Fewer(n: nat, k: nat)
    requires k >= 1 && n < Ten(k)
    ensures |Digits(n)| <= k
    decreases k
  {
    if k > 1 && n >= 10 { Fewer(n / 10, k - 1); }
  }

  function Ten(k: nat): nat
  {
    if k == 0 then 1 else 10 * Ten(k - 1)
  }

  function Magnitude(n: int): nat { if n < 0 then -n else n }

  /** A printed int spells the int, without leading zeros. */
  lemma NumberPrinted(n: int)
    requires INT_MIN <= n <= INT_MAX
    ensures FineNumeral(n < 0, Digits(Magnitude(n))) && NumeralText(n < 0, Digits(Magnitude(n))) == PrintNumber(n)
    ensures NumeralValue(n < 0, Digits(Magnitude(n))) == n
    ensures n != 0 ==> Digits(Magnitude(n))[0] != '0' as int
  {
    hide Digits, DigitsValue;
    DigitsAreDigits(Magnitude(n));
    DigitCount(Magnitude(n));
    if n != 0 { NoLeadingZero(Magnitude(n)); }
  }

  lemma {:induction false} NoLeadingZero(n: nat)
    requires n > 0
    ensures Digits(n)[0] != '0' as int
  {
    if n >= 10 { NoLeadingZero(n / 10); }
  }

  // ---------- Printed documents ----------

  /** Numbers are ints, strings and keys are C strings. */
  ghost predicate Printable(t: Json)
    decreases t
  {
    match t
    case Number(n) => INT_MIN <= n <= INT_MAX
    case Text(s) => NulFree(s)
    case Array(items) => ItemsPrintable(items)
    case Object(members) => MembersPrintable(members)
    case _ => true
  }

  ghost predicate ItemsPrintable(items: Items)
    decreases items
  {
    items.Item? ==> Printable(items.value) && ItemsPrintable(items.next)
  }

  ghost predicate MembersPrintable(members: Members)
    decreases members
  {
    members.Member? ==> NulFree(members.key) && Printable(members.value) && MembersPrintable(members.next)
  }

  /** The document that is printed: formatted, a blank stands in front of every element but the first,
      a tab in front of every member's value, and every member and the closing brace stand on a line of
      their own behind as many tabs as there are arrays and objects around them. */
  function Printed(t: Json, format: bool, depth: nat): Doc
    decreases t
  {
    match t
    case Null => NullWord
    case Bool(b) => BoolWord(b)
    case Number(n) => Numeral(n < 0, Digits(Magnitude(n)))
    case Text(s) => Quoted(PrintedUnits(s))
    case Array(items) => Brackets([], PrintedItems(items, format, depth + 1, []))
    case Object(members) =>
      Braces(if members.NoMembers? then Indent(format, depth) else [], PrintedMembers(members, format, depth))
  }

  function Indent(format: bool, depth: nat): Bytes
  {
    if format then ['\n' as int] + seq(depth, _ => '\t' as int) else []
  }

  function PrintedItems(items: Items, format: bool, depth: nat, before: Bytes): Elements
    decreases items
  {
    match items
    case NoItems => NoElements
    case Item(value, next) =>
      Element(before, Printed(value, format, depth), [],
              PrintedItems(next, format, depth, Ascii(if format then " " else "")))
  }

  /** The members of an object at this depth. */
  function PrintedMembers(members: Members, format: bool, depth: nat): Fields
    decreases members
  {
    match members
    case NoMembers => NoFields
    case Member(key, value, next) =>
      Field(Indent(format, depth + 1), PrintedUnits(key), [], Ascii(if format then "\t" else ""),
            Printed(value, format, depth + 1), if next.NoMembers? then Indent(format, depth) else [],
            PrintedMembers(next, format, depth))
  }

  lemma IndentIs(format: bool, depth: nat)
    ensures Indent(format, depth) == NewLine(format) + Tabs(format, depth) && Blank(Indent(format, depth))
  {}

  /** What is printed is a spelling of the tree. */
  lemma {:induction false} PrintedSpells(t: Json, format: bool, depth: nat)
    requires Printable(t)
    ensures var d := Printed(t, format, depth);
            Fine(d, false) && DocValue(d) == t && DocText(d) == Print(t, format, depth)
    decreases t
  {
    hide PrintNumber, PrintedUnits, Escaped, Spell, Mean, NumeralText, FineNumeral, NumeralValue, Digits, AllProper,
         Indent, NewLine, Tabs, Blank, ElementsText, FieldsText, FineElements, FineFields, CString;
    Marks();
    match t
    case Number(n) => NumberPrinted(n);
    case Text(s) =>
      StringPrinted(s);
      CStringNulFree(s);
      assert [QUOTE] + (Escaped(s) + [QUOTE]) == [QUOTE] + Escaped(s) + [QUOTE];
    case Array(items) =>
      NothingBlank();
      ItemsPrinted(items, format, depth + 1, []);
      assert [] + PrintItems(items, format, depth + 1) == PrintItems(items, format, depth + 1);
      ArrayText(items, format, depth);
    case Object(members) =>
      NothingBlank();
      IndentIs(format, depth);
      MembersPrinted(members, format, depth);
      ObjectText(members, format, depth);
      ObjectSpelled(members, format, depth);
    case _ => Words();
  }

  lemma NothingBlank()
    ensures Blank([]) && FineElements(NoElements, false) && FineFields(NoFields, false)
    ensures forall s: Bytes :: [] + s == s && s + [] == s
    ensures Blank(Ascii("")) && Blank(Ascii(" ")) && Blank(Ascii("\t"))
  {}

  lemma {:induction false} ItemsPrinted(items: Items, format: bool, depth: nat, before: Bytes)
    requires ItemsPrintable(items) && Blank(before)
    ensures var es := PrintedItems(items, format, depth, before);
            && FineElements(es, false) && ElementsValue(es) == items
            && ElementsText(es) == (if items.Item? then before else []) + PrintItems(items, format, depth)
            && (es.Element? <==> items.Item?) && (es.Element? ==> es.before == before)
    decreases items
  {
    hide Print, Printed, Printable, DocText, DocValue, Fine, Blank, Ascii;
    Marks();
    NothingBlank();
    if items.Item? {
      var blank := Ascii(if format then " " else "");
      PrintedSpells(items.value, format, depth);
      ItemsPrinted(items.next, format, depth, blank);
      SeparatorIs(format);
      var text, rest := Print(items.value, format, depth), PrintItems(items.next, format, depth);
      assert [COMMA] + (blank + rest) == [COMMA] + blank + rest;
      assert before + (text + ([] + MoreElements(PrintedItems(items.next, format, depth, blank))))
          == before + (text + MoreElements(PrintedItems(items.next, format, depth, blank)));
    }
  }

  lemma SeparatorIs(format: bool)
    ensures Separator(format) == [COMMA] + Ascii(if format then " " else "")
    ensures AfterKey(format) == [COLON] + Ascii(if format then "\t" else "")
  {}

  /** What is printed between the braces of an object. */
  function InBraces(members: Members, format: bool, depth: nat): Bytes
  {
    NewLine(format) + PrintMembers(members, format, depth + 1) + Tabs(format, depth)
  }

  lemma {:induction false} MembersPrinted(members: Members, format: bool, depth: nat)
    requires MembersPrintable(members)
    ensures var fs := PrintedMembers(members, format, depth);
            && FineFields(fs, false) && FieldsValue(fs) == members && (fs.Field? <==> members.Member?)
            && (members.Member? ==> FieldsText(fs) == InBraces(members, format, depth))
    decreases members
  {
    hide Print, Printed, Printable, DocText, DocValue, Fine, Blank, Ascii, NewLine, Tabs, Indent, PrintedUnits, Escaped,
         Spell, Mean, CString, AllProper;
    Marks();
    NothingBlank();
    if members.Member? {
      IndentIs(format, depth);
      IndentIs(format, depth + 1);
      SeparatorIs(format);
      StringPrinted(members.key);
      CStringNulFree(members.key);
      PrintedSpells(members.value, format, depth + 1);
      MembersPrinted(members.next, format, depth);
      MemberText(members, format, depth);
    }
  }

  lemma MemberText(members: Members, format: bool, depth: nat)
    requires members.Member? && Spell(PrintedUnits(members.key)) == Escaped(members.key)
    requires DocText(Printed(members.value, format, depth + 1)) == Print(members.value, format, depth + 1)
    requires members.next.Member? ==>
               FieldsText(PrintedMembers(members.next, format, depth)) == InBraces(members.next, format, depth)
    ensures FieldsText(PrintedMembers(members, format, depth)) == InBraces(members, format, depth)
  {
    hide Print, Printed, DocText, Ascii, NewLine, Tabs, Indent, PrintedUnits, Escaped, Spell, FieldsText;
    Marks();
    IndentIs(format, depth);
    IndentIs(format, depth + 1);
    SeparatorIs(format);
    NothingSpelled();
    var fs, next := PrintedMembers(members, format, depth), PrintedMembers(members.next, format, depth);
    FieldsText1(fs);
    var text, nl := Print(members.value, format, depth + 1), NewLine(format);
    var lead := nl + Tabs(format, depth + 1);
    var key := QuotedText(PrintedUnits(members.key));
    assert key == PrintString(members.key);
    var tab := fs.after;
    var tail := fs.behind + MoreFields(next);
    var end := (if members.next.Member? then [COMMA] else []) + nl + PrintMembers(members.next, format, depth + 1)
               + Tabs(format, depth);
    assert tail == end by { TailText(members.next, format, depth); }
    Regroup(nl, Tabs(format, depth + 1), key, [COLON], tab, text, end);
    assert PrintMembers(members, format, depth + 1)
        == (Tabs(format, depth + 1) + PrintString(members.key) + AfterKey(format) + text)
           + ((if members.next.Member? then [COMMA] else []) + nl + PrintMembers(members.next, format, depth + 1));
  }

  lemma FieldsText1(fs: Fields)
    requires fs.Field?
    ensures FieldsText(fs)
         == fs.before + (QuotedText(fs.key)
            + (fs.gap + (Ascii(":") + (fs.after + (DocText(fs.value) + (fs.behind + MoreFields(fs.next)))))))
  {}

  lemma TailText(next: Members, format: bool, depth: nat)
    requires next.Member? ==> FieldsText(PrintedMembers(next, format, depth)) == InBraces(next, format, depth)
    ensures (if next.NoMembers? then Indent(format, depth) else []) + MoreFields(PrintedMembers(next, format, depth))
         == (if next.Member? then [COMMA] else []) + NewLine(format) + PrintMembers(next, format, depth + 1)
            + Tabs(format, depth)
  {
    hide NewLine, Tabs, Indent, FieldsText, Ascii;
    Marks();
    IndentIs(format, depth);
    if next.NoMembers? {
      assert PrintedMembers(next, format, depth) == NoFields && PrintMembers(next, format, depth + 1) == [];
    }
  }

  lemma Regroup(nl: Bytes, tabs: Bytes, key: Bytes, colon: Bytes, tab: Bytes, text: Bytes, end: Bytes)
    ensures (nl + tabs) + (key + ([] + (colon + (tab + (text + end)))))
         == nl + (tabs + key + (colon + tab) + text + end)
  {}

  lemma ObjectSpelled(members: Members, format: bool, depth: nat)
    requires members.Member? ==>
               FieldsText(PrintedMembers(members, format, depth)) == InBraces(members, format, depth)
    ensures DocText(Printed(Object(members), format, depth)) == Print(Object(members), format, depth)
  {
    hide NewLine, Tabs, Indent, FieldsText, Ascii;
    Marks();
    IndentIs(format, depth);
    ObjectText(members, format, depth);
    NothingSpelled();
  }

  lemma ArrayText(items: Items, format: bool, depth: nat)
    ensures Print(Array(items), format, depth)
         == [OPEN_BRACKET] + (PrintItems(items, format, depth + 1) + [CLOSE_BRACKET])
  {
    hide PrintItems;
  }

  lemma ObjectText(members: Members, format: bool, depth: nat)
    ensures Print(Object(members), format, depth)
         == [OPEN_BRACE] + ((NewLine(format) + PrintMembers(members, format, depth + 1))
                            + (Tabs(format, depth) + [CLOSE_BRACE]))
  {
    hide PrintMembers;
  }

  // ---------- The round trip ----------

  /** Parsing what was printed, formatted or not, gives back the same tree exactly when it is
      nested no deeper than the limit; nothing is left behind the value. */
  lemma RoundTrip(t: Json, format: bool, strict: bool)
    requires Printable(t)
    ensures Parse(Print(t, format, 0), strict) == if Depth(t) <= NESTING_LIMIT then Some(t) else None
  {
    hide Parse, Print, Printed, Depth, DocText, DocValue, Fine, Blank;
    var text := Print(t, format, 0);
    PrintedSpells(t, format, 0);
    NothingBlank();
    AnySpellingParses(false, [], Printed(t, format, 0), [], [], strict);
    assert Bom(false) + ([] + (text + ([] + []))) == text;
  }

  /** A document without its blanks. */
  function Bare(d: Doc): Doc
    decreases d
  {
    match d
    case Brackets(_, elements) => Brackets([], BareElements(elements))
    case Braces(_, fields) => Braces([], BareFields(fields))
    case _ => d
  }

  function BareElements(es: Elements): Elements
    decreases es
  {
    match es
    case NoElements => es
    case Element(_, value, _, next) => Element([], Bare(value), [], BareElements(next))
  }

  function BareFields(fs: Fields): Fields
    decreases fs
  {
    match fs
    case NoFields => fs
    case Field(_, key, _, _, value, _, next) => Field([], key, [], [], Bare(value), [], BareFields(next))
  }

  /** Formatted and unformatted printing differ in blanks only, and the latter prints none. */
  lemma {:induction false} FormatAddsBlanks(t: Json, format: bool, a: nat, b: nat)
    ensures Bare(Printed(t, format, a)) == Printed(t, false, b)
    decreases t
  {
    hide PrintedUnits, Digits, Ascii;
    match t
    case Array(items) => ItemsAddBlanks(items, format, a + 1, b + 1, []);
    case Object(members) => MembersAddBlanks(members, format, a, b);
    case _ =>
  }

  lemma {:induction false} ItemsAddBlanks(items: Items, format: bool, a: nat, b: nat, before: Bytes)
    ensures BareElements(PrintedItems(items, format, a, before)) == PrintedItems(items, false, b, [])
    decreases items
  {
    hide Printed;
    if items.Item? {
      FormatAddsBlanks(items.value, format, a, b);
      ItemsAddBlanks(items.next, format, a, b, Ascii(if format then " " else ""));
      assert Ascii("") == [];
    }
  }

  lemma {:induction false} MembersAddBlanks(members: Members, format: bool, a: nat, b: nat)
    ensures BareFields(PrintedMembers(members, format, a)) == PrintedMembers(members, false, b)
    decreases members
  {
    hide Printed, PrintedUnits;
    if members.Member? {
      FormatAddsBlanks(members.value, format, a + 1, b + 1);
      MembersAddBlanks(members.next, format, a, b);
      assert Ascii("") == [];
    }
  }

  /** Arrays in arrays, n of them. */
  function Nested(n: nat): Json
  {
    if n == 0 then Null else Array(Item(Nested(n - 1), NoItems))
  }

  lemma {:induction false} NestedDepth(n: nat)
    ensures Depth(Nested(n)) == n && Printable(Nested(n))
  {
    if n > 0 { NestedDepth(n - 1); }
  }

  /** Nested arrays come back up to 1000 deep; those 1001 deep are printed and not parsed. */
  lemma DeepArray(n: nat, format: bool, strict: bool)
    ensures Parse(Print(Nested(n), format, 0), strict) == if n <= 1000 then Some(Nested(n)) else None
  {
    hide Print, Parse, Depth, Printable, Nested;
    NestedDepth(n);
    RoundTrip(Nested(n), format, strict);
  }
}
