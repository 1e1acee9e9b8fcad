/** The JSON printer and parser as the program runs them, on a buffer with an offset, proved
    against the functions of module Json. */
module JsonProgram {
  import opened Common
  import J = Json
  import Documents = JsonDocument
  import RoundTrips = JsonRoundTrip

  /** A parsed prefix of a list in front of its rest. */
  function Chain(values: seq<J.Json>, rest: J.Items): J.Items
    decreases |values|
  {
    if values == [] then rest else Chain(values[..|values| - 1], J.Item(values[|values| - 1], rest))
  }

  function Link(members: seq<(Bytes, J.Json)>, rest: J.Members): J.Members
    decreases |members|
  {
    if members == [] then rest
    else
      var last := members[|members| - 1];
      Link(members[..|members| - 1], J.Member(last.0, last.1, rest))
  }

  lemma ChainLast(values: seq<J.Json>, v: J.Json, rest: J.Items)
    ensures Chain(values + [v], rest) == Chain(values, J.Item(v, rest))
  {
    assert (values + [v])[..|values|] == values;
  }

  lemma LinkLast(members: seq<(Bytes, J.Json)>, m: (Bytes, J.Json), rest: J.Members)
    ensures Link(members + [m], rest) == Link(members, J.Member(m.0, m.1, rest))
  {
    assert (members + [m])[..|members|] == members;
  }

  class ParseBuffer {
    const content: Bytes
    var offset: nat
    var depth: nat

    constructor (content: Bytes)
      ensures this.content == content && offset == 0 && depth == 0
    {
      this.content, offset, depth := content, 0, 0;
    }

    method SkipWhitespace()
      requires offset <= |content|
      modifies this`offset
      ensures offset == J.Skip(content, old(offset)) <= |content|
    {
      if offset >= |content| {
        return;
      }
      while offset < |content| && content[offset] <= 32
        invariant old(offset) <= offset <= |content|
        invariant J.NonBlank(content, offset) == J.NonBlank(content, old(offset))
      {
        offset := offset + 1;
      }
      if offset == |content| {
        offset := offset - 1;
      }
    }

    /** The scan for the closing quote. */
    method FindQuote(start: nat) returns (end: Option<nat>)
      requires start <= |content|
      ensures end == J.StringEnd(content, start)
    {
      var i := start;
      while i < |content| && content[i] != J.QUOTE
        invariant start <= i <= |content| && J.StringEnd(content, i) == J.StringEnd(content, start)
      {
        if content[i] == J.BACKSLASH {
          if i + 1 >= |content| {
            return None;
          }
          i := i + 1;
        }
        i := i + 1;
      }
      return if i >= |content| then None else Some(i);
    }

    /** The copying loop between the quotes. */
    method CopyUnescaped(start: nat, end: nat) returns (r: Option<Bytes>)
      requires start <= end < |content|
      ensures r == J.Unescape(content, start, end)
    {
      hide J.Utf16Literal, J.Unescape2;
      var i, out: Bytes := start, [];
      PrependNothing([], J.Unescape(content, start, end));
      while i < end
        invariant start <= i <= end
        invariant J.Unescape(content, start, end) == J.Prepend(out, J.Unescape(content, i, end))
      {
        var piece: Bytes, length := [content[i]], 1;
        if content[i] == J.BACKSLASH {
          if content[i + 1] == J.LOWER_U {
            var u := J.Utf16Literal(content, i, end);
            if u == None {
              return None;
            }
            piece, length := u.value.0, u.value.1;
          } else {
            var b := J.Unescape2(content[i + 1]);
            if b == None || i + 2 > end {
              return None;
            }
            piece, length := [b.value], 2;
          }
        }
        PrependTwice(out, piece, J.Unescape(content, i + length, end));
        out, i := out + piece, i + length;
      }
      PrependNothing(out, None);
      return Some(out);
    }

    /** None is a parse failure, after which the offset only serves the error message. */
    method ParseString() returns (r: Option<Bytes>)
      requires offset <= |content|
      modifies this`offset
      ensures match J.ParseString(content, old(offset))
              case None => r == None
              case Some(result) => r == Some(result.0) && offset == result.1 <= |content|
    {
      hide J.StringEnd, J.Unescape, J.CString;
      if offset >= |content| || content[offset] != J.QUOTE {
        return None;
      }
      var end := FindQuote(offset + 1);
      if end == None {
        return None;
      }
      var s := CopyUnescaped(offset + 1, end.value);
      if s == None {
        return None;
      }
      offset := end.value + 1;
      return Some(J.CString(s.value));
    }

    method ParseNumber() returns (r: Option<int>)
      requires offset < |content|
      modifies this`offset
      ensures match J.ParseNumber(content, old(offset))
              case None => r == None
              case Some(result) => r == Some(result.0) && offset == result.1 <= |content|
    {
      hide J.Strtod, J.NumberChar;
      var i := 0;
      while i < J.LONGEST_NUMBER && offset + i < |content| && J.NumberChar(content[offset + i])
        invariant i <= J.LONGEST_NUMBER && offset + i <= |content|
        invariant i + J.NumberRun(content, offset + i, J.LONGEST_NUMBER - i)
                  == J.NumberRun(content, offset, J.LONGEST_NUMBER)
      {
        i := i + 1;
      }
      var n := J.Strtod(content[offset..offset + i]);
      if n == None {
        return None;
      }
      offset := offset + n.value.1;
      return Some(n.value.0);
    }

    method ParseValue() returns (r: Option<J.Json>)
      requires offset <= |content|
      modifies this
      ensures match J.ParseValue(content, old(offset), old(depth))
              case None => r == None
              case Some(result) => r == Some(result.0) && offset == result.1 <= |content| && depth == old(depth)
      decreases |content| - offset, 2
    {
      hide J.ParseString, J.ParseNumber, J.ParseArray, J.ParseObject, J.Has;
      if J.Has(content, offset, J.TEXT_NULL) {
        LongEnough(content, offset, J.TEXT_NULL);
        offset := offset + 4;
        return Some(J.Null);
      }
      if J.Has(content, offset, J.TEXT_FALSE) {
        LongEnough(content, offset, J.TEXT_FALSE);
        offset := offset + 5;
        return Some(J.Bool(false));
      }
      if J.Has(content, offset, J.TEXT_TRUE) {
        LongEnough(content, offset, J.TEXT_TRUE);
        offset := offset + 4;
        return Some(J.Bool(true));
      }
      if offset == |content| {
        return None;
      }
      if content[offset] == J.QUOTE {
        var s := ParseString();
        return if s == None then None else Some(J.Text(s.value));
      }
      if content[offset] == J.MINUS || J.IsDigit(content[offset]) {
        var n := ParseNumber();
        return if n == None then None else Some(J.Number(n.value));
      }
      if content[offset] == J.OPEN_BRACKET {
        var items := ParseArray();
        return if items == None then None else Some(J.Array(items.value));
      }
      if content[offset] == J.OPEN_BRACE {
        var members := ParseObject();
        return if members == None then None else Some(J.Object(members.value));
      }
      return None;
    }

    method ParseArray() returns (r: Option<J.Items>)
      requires offset < |content|
      modifies this
      ensures match J.ParseArray(content, old(offset), old(depth))
              case None => r == None
              case Some(result) => r == Some(result.0) && offset == result.1 <= |content| && depth == old(depth)
      decreases |content| - offset, 1
    {
      hide J.ParseItems, J.Skip;
      if depth >= J.NESTING_LIMIT {
        return None;
      }
      depth := depth + 1;
      offset := offset + 1;
      SkipWhitespace();
      if offset >= |content| {
        return None;
      }
      var values := [];
      if content[offset] != J.CLOSE_BRACKET {
        offset := offset - 1;
        var list := ParseItems();
        if list == None {
          return None;
        }
        values := list.value;
      }
      depth := depth - 1;
      offset := offset + 1;
      return Some(Chain(values, J.NoItems));
    }

    /** The loop over the elements: from the character before the first to the closing bracket. */
    method ParseItems() returns (r: Option<seq<J.Json>>)
      requires offset < |content|
      modifies this
      ensures match J.ParseItems(content, old(offset), old(depth))
              case None => r == None
              case Some(result) =>
                r.Some? && Chain(r.value, J.NoItems) == result.0 &&
                offset == result.1 < |content| && depth == old(depth)
      decreases |content| - offset, 0
    {
      hide J.ParseValue, J.Skip, Chain;
      var values: seq<J.Json> := [];
      ghost var start, whole := offset, J.ParseItems(content, offset, depth);
      var more := true;
      ChainNothing(whole);
      while more
        invariant start <= offset < |content| && depth == old(depth)
        invariant more ==> whole == After(values, J.ParseItems(content, offset, depth))
        invariant !more ==> whole == After(values, Some((J.NoItems, offset)))
        decreases |content| - offset, more
      {
        offset := offset + 1;
        SkipWhitespace();
        var v := ParseValue();
        if v == None {
          return None;
        }
        SkipWhitespace();
        if offset >= |content| || (content[offset] != J.COMMA && content[offset] != J.CLOSE_BRACKET) {
          return None;
        }
        more := content[offset] == J.COMMA;
        AfterOneMore(values, v.value, if more then J.ParseItems(content, offset, depth) else Some((J.NoItems, offset)));
        values := values + [v.value];
      }
      return Some(values);
    }

    method ParseObject() returns (r: Option<J.Members>)
      requires offset < |content|
      modifies this
      ensures match J.ParseObject(content, old(offset), old(depth))
              case None => r == None
              case Some(result) => r == Some(result.0) && offset == result.1 <= |content| && depth == old(depth)
      decreases |content| - offset, 1
    {
      hide J.ParseMembers, J.Skip;
      if depth >= J.NESTING_LIMIT {
        return None;
      }
      depth := depth + 1;
      offset := offset + 1;
      SkipWhitespace();
      if offset >= |content| {
        return None;
      }
      var members := [];
      if content[offset] != J.CLOSE_BRACE {
        offset := offset - 1;
        var list := ParseMembers();
        if list == None {
          return None;
        }
        members := list.value;
      }
      depth := depth - 1;
      offset := offset + 1;
      return Some(Link(members, J.NoMembers));
    }

    /** A key and its colon, up to the value. */
    method ParseKey() returns (r: Option<Bytes>)
      requires offset < |content|
      modifies this`offset
      ensures match J.ParseKey(content, old(offset))
              case None => r == None
              case Some(result) => r == Some(result.0) && offset == result.1 <= |content|
    {
      hide J.ParseString, J.Skip;
      offset := offset + 1;
      SkipWhitespace();
      r := ParseString();
      if r == None {
        return;
      }
      SkipWhitespace();
      if offset >= |content| || content[offset] != J.COLON {
        return None;
      }
      offset := offset + 1;
      SkipWhitespace();
    }

    method ParseMembers() returns (r: Option<seq<(Bytes, J.Json)>>)
      requires offset < |content|
      modifies this
      ensures match J.ParseMembers(content, old(offset), old(depth))
              case None => r == None
              case Some(result) =>
                r.Some? && Link(r.value, J.NoMembers) == result.0 &&
                offset == result.1 < |content| && depth == old(depth)
      decreases |content| - offset, 0
    {
      hide J.ParseValue, J.ParseKey, J.Skip, Link;
      var members: seq<(Bytes, J.Json)> := [];
      ghost var start, whole := offset, J.ParseMembers(content, offset, depth);
      var more := true;
      LinkNothing(whole);
      while more
        invariant start <= offset < |content| && depth == old(depth)
        invariant more ==> whole == Behind(members, J.ParseMembers(content, offset, depth))
        invariant !more ==> whole == Behind(members, Some((J.NoMembers, offset)))
        decreases |content| - offset, more
      {
        var key := ParseKey();
        if key == None {
          return None;
        }
        var v := ParseValue();
        if v == None {
          return None;
        }
        SkipWhitespace();
        if offset >= |content| || (content[offset] != J.COMMA && content[offset] != J.CLOSE_BRACE) {
          return None;
        }
        more := content[offset] == J.COMMA;
        BehindOneMore(members, (key.value, v.value),
                      if more then J.ParseMembers(content, offset, depth) else Some((J.NoMembers, offset)));
        members := members + [(key.value, v.value)];
      }
      return Some(members);
    }
  }

  function After(values: seq<J.Json>, rest: Option<(J.Items, nat)>): Option<(J.Items, nat)>
  {
    if rest == None then None else Some((Chain(values, rest.value.0), rest.value.1))
  }

  lemma AfterOneMore(values: seq<J.Json>, v: J.Json, rest: Option<(J.Items, nat)>)
    ensures After(values + [v], rest)
         == After(values, if rest == None then None else Some((J.Item(v, rest.value.0), rest.value.1)))
  {
    if rest.Some? { ChainLast(values, v, rest.value.0); }
  }

  function Behind(members: seq<(Bytes, J.Json)>, rest: Option<(J.Members, nat)>): Option<(J.Members, nat)>
  {
    if rest == None then None else Some((Link(members, rest.value.0), rest.value.1))
  }

  lemma BehindOneMore(members: seq<(Bytes, J.Json)>, m: (Bytes, J.Json), rest: Option<(J.Members, nat)>)
    ensures Behind(members + [m], rest)
         == Behind(members, if rest == None then None else Some((J.Member(m.0, m.1, rest.value.0), rest.value.1)))
  {
    if rest.Some? { LinkLast(members, m, rest.value.0); }
  }

  lemma ChainNothing(rest: Option<(J.Items, nat)>)
    ensures After([], rest) == rest
  {}

  lemma LinkNothing(rest: Option<(J.Members, nat)>)
    ensures Behind([], rest) == rest
  {}

  lemma PrependNothing(a: Bytes, b: Option<Bytes>)
    ensures J.Prepend([], b) == b && J.Prepend(a, Some([])) == Some(a)
  {
    assert a + [] == a;
    if b.Some? { assert [] + b.value == b.value; }
  }

  lemma PrependTwice(a: Bytes, b: Bytes, c: Option<Bytes>)
    ensures J.Prepend(a, J.Prepend(b, c)) == J.Prepend(a + b, c)
  {
    if c.Some? { assert a + (b + c.value) == a + b + c.value; }
  }

  lemma LongEnough(c: Bytes, off: nat, text: Bytes)
    requires J.Has(c, off, text)
    ensures off + |text| <= |c|
  {}

  /** Parsing a C string from the start. */
  method ParseText(text: Bytes, strict: bool) returns (r: Option<J.Json>)
    ensures r == J.Parse(text, strict)
  {
    hide J.ParseValue, J.Skip;
    var buffer := new ParseBuffer(text + [0]);
    if 4 < |buffer.content| && buffer.content[..3] == [0xEF, 0xBB, 0xBF] {
      buffer.offset := 3;
    }
    buffer.SkipWhitespace();
    r := buffer.ParseValue();
    if r != None && strict {
      buffer.SkipWhitespace();
      if buffer.offset >= |buffer.content| || buffer.content[buffer.offset] != 0 {
        r := None;
      }
    }
  }

  // ---------- Printing ----------

  /** Characters an escape adds. */
  function Extra(b: byte): nat
  {
    if b == J.QUOTE || b == J.BACKSLASH || b == 8 || b == 12 || b == J.NEWLINE || b == 13 || b == J.TAB then 1
    else if b < 32 then 5
    else 0
  }

  function Extras(s: Bytes): nat
  {
    if s == [] then 0 else Extra(s[0]) + Extras(s[1..])
  }

  /** The space reserved for a string is exactly what its escaped form takes. */
  lemma {:induction false} EscapedLength(s: Bytes)
    ensures |J.Escaped(s)| == |s| + Extras(s)
    ensures Extras(s) == 0 ==> J.Escaped(s) == s
  {
    if s != [] {
      EscapedLength(s[1..]);
      assert |J.Escape(s[0])| == 1 + Extra(s[0]);
      assert Extra(s[0]) == 0 ==> J.Escape(s[0]) == [s[0]];
      assert [s[0]] + s[1..] == s;
    }
  }

  lemma ExtrasStep(s: Bytes, i: nat)
    requires i < |s|
    ensures Extras(s[i..]) == Extra(s[i]) + Extras(s[i + 1..])
    ensures J.Escaped(s[i..]) == J.Escape(s[i]) + J.Escaped(s[i + 1..])
  {
    assert s[i..][1..] == s[i + 1..];
  }

  lemma NothingEscaped(s: Bytes)
    ensures s == [] ==> J.Escaped(s) == []
  {}

  class PrintBuffer {
    var out: Bytes
    var depth: nat
    const format: bool

    constructor (format: bool)
      ensures this.format == format && out == [] && depth == 0
    {
      this.format, out, depth := format, [], 0;
    }

    method CountEscapes(s: Bytes) returns (n: nat)
      ensures n == Extras(s)
    {
      hide Extra;
      n := 0;
      var i := 0;
      assert s[0..] == s;
      while i < |s|
        invariant i <= |s| && n + Extras(s[i..]) == Extras(s)
      {
        ExtrasStep(s, i);
        n, i := n + Extra(s[i]), i + 1;
      }
    }

    /** Writes the escaped characters behind the opening quote. */
    static method CopyEscaped(output: array<byte>, s: Bytes)
      requires output.Length == |J.Escaped(s)| + 2
      modifies output
      ensures output[1..|J.Escaped(s)| + 1] == J.Escaped(s)
    {
      hide J.Escape, J.Escaped;
      var i, at := 0, 1;
      assert s[0..] == s && output[1..1] + J.Escaped(s) == J.Escaped(s);
      while i < |s|
        invariant i <= |s| && 1 <= at && at + |J.Escaped(s[i..])| == |J.Escaped(s)| + 1
        invariant output[1..at] + J.Escaped(s[i..]) == J.Escaped(s)
      {
        ExtrasStep(s, i);
        ghost var before, piece, rest := output[1..at], J.Escape(s[i]), J.Escaped(s[i + 1..]);
        Memcpy(output, at, J.Escape(s[i]));
        assert output[1..at + |piece|] == before + piece;
        assert before + (piece + rest) == before + piece + rest;
        i, at := i + 1, at + |J.Escape(s[i])|;
      }
      NothingEscaped(s[i..]);
      assert output[1..at] + [] == output[1..at];
    }

    /** Fills a buffer of exactly the reserved size. */
    method PrintString(s: Bytes)
      modifies this`out
      ensures out == old(out) + J.PrintString(s)
    {
      hide J.Escaped;
      var extra := CountEscapes(s);
      EscapedLength(s);
      var output := new byte[|s| + extra + 2];
      if extra == 0 {
        Memcpy(output, 1, s);
      } else {
        CopyEscaped(output, s);
      }
      output[0] := J.QUOTE;
      output[|s| + extra + 1] := J.QUOTE;
      assert output[1..|s| + extra + 1] == J.Escaped(s);
      assert output[..] == [J.QUOTE] + output[1..|s| + extra + 1] + [J.QUOTE];
      out := out + output[..];
    }

    method PrintValue(t: J.Json)
      modifies this
      ensures out == old(out) + J.Print(t, format, old(depth)) && depth == old(depth)
      decreases t, 1
    {
      hide J.PrintString, J.PrintItems, J.PrintMembers, J.PrintNumber;
      match t
      case Null => out := out + J.TEXT_NULL;
      case Bool(b) => out := out + if b then J.TEXT_TRUE else J.TEXT_FALSE;
      case Number(n) => out := out + J.PrintNumber(n);
      case Text(s) => PrintString(s);
      case Array(items) => PrintArray(items);
      case Object(members) => PrintObject(members);
    }

    method PrintArray(items: J.Items)
      modifies this
      ensures out == old(out) + J.Print(J.Array(items), format, old(depth)) && depth == old(depth)
      decreases items, 2
    {
      hide J.Print, J.PrintItems, J.Separator;
      out := out + [J.OPEN_BRACKET];
      depth := depth + 1;
      ghost var before := out;
      var element := items;
      while element.Item?
        invariant depth == old(depth) + 1 && (element == items || element < items)
        invariant out + J.PrintItems(element, format, depth) == before + J.PrintItems(items, format, depth)
        decreases element
      {
        ItemsText(element, format, depth);
        ghost var now := out;
        PrintValue(element.value);
        if element.next.Item? {
          out := out + J.Separator(format);
        } else {
          NoItemsText(format, depth);
        }
        Regroup4(now, J.Print(element.value, format, depth), J.Separator(format),
                 J.PrintItems(element.next, format, depth));
        element := element.next;
      }
      NoItemsText(format, depth);
      assert out + [] == out;
      assert out == old(out) + [J.OPEN_BRACKET] + J.PrintItems(items, format, depth);
      RoundTrips.ArrayText(items, format, old(depth));
      Bracketed(old(out), [J.OPEN_BRACKET], J.PrintItems(items, format, depth), [J.CLOSE_BRACKET]);
      out := out + [J.CLOSE_BRACKET];
      depth := depth - 1;
    }

    method PrintObject(members: J.Members)
      modifies this
      ensures out == old(out) + J.Print(J.Object(members), format, old(depth)) && depth == old(depth)
      decreases members, 2
    {
      hide J.Print, J.PrintMembers, J.NewLine, J.Tabs, J.AfterKey, J.PrintString;
      out := out + [J.OPEN_BRACE] + J.NewLine(format);
      depth := depth + 1;
      ghost var before := out;
      var item := members;
      while item.Member?
        invariant depth == old(depth) + 1 && (item == members || item < members)
        invariant out + J.PrintMembers(item, format, depth) == before + J.PrintMembers(members, format, depth)
        decreases item
      {
        MembersText(item, format, depth);
        ghost var now := out;
        out := out + J.Tabs(format, depth);
        PrintString(item.key);
        out := out + J.AfterKey(format);
        PrintValue(item.value);
        out := out + (if item.next.Member? then [J.COMMA] else []) + J.NewLine(format);
        Regroup7(now, J.Tabs(format, depth), J.PrintString(item.key),
                 J.AfterKey(format), J.Print(item.value, format, depth),
                 if item.next.Member? then [J.COMMA] else [],
                 J.NewLine(format), J.PrintMembers(item.next, format, depth));
        item := item.next;
      }
      NoItemsText(format, depth);
      assert out + [] == out;
      depth := depth - 1;
      RoundTrips.ObjectText(members, format, depth);
      Bracketed(old(out), [J.OPEN_BRACE] + J.NewLine(format), J.PrintMembers(members, format, depth + 1),
                J.Tabs(format, depth) + [J.CLOSE_BRACE]);
      assert old(out) + ([J.OPEN_BRACE] + J.NewLine(format)) == old(out) + [J.OPEN_BRACE] + J.NewLine(format);
      Spread(J.NewLine(format), J.PrintMembers(members, format, depth + 1), J.Tabs(format, depth) + [J.CLOSE_BRACE]);
      assert out + (J.Tabs(format, depth) + [J.CLOSE_BRACE]) == out + J.Tabs(format, depth) + [J.CLOSE_BRACE];
      out := out + J.Tabs(format, depth) + [J.CLOSE_BRACE];
    }
  }

  lemma ItemsText(items: J.Items, format: bool, depth: nat)
    requires items.Item?
    ensures J.PrintItems(items, format, depth)
         == J.Print(items.value, format, depth)
            + if items.next.Item? then J.Separator(format) + J.PrintItems(items.next, format, depth) else []
  {}

  lemma MembersText(m: J.Members, format: bool, depth: nat)
    requires m.Member?
    ensures J.PrintMembers(m, format, depth)
         == (J.Tabs(format, depth) + J.PrintString(m.key) + J.AfterKey(format) + J.Print(m.value, format, depth))
            + ((if m.next.Member? then [J.COMMA] else []) + J.NewLine(format) + J.PrintMembers(m.next, format, depth))
  {}

  lemma NoItemsText(format: bool, depth: nat)
    ensures J.PrintItems(J.NoItems, format, depth) == [] && J.PrintMembers(J.NoMembers, format, depth) == []
  {}

  lemma Bracketed(a: Bytes, open: Bytes, inner: Bytes, close: Bytes)
    ensures a + open + inner + close == a + (open + (inner + close))
  {}

  lemma Spread(newLine: Bytes, inner: Bytes, close: Bytes)
    ensures [J.OPEN_BRACE] + newLine + (inner + close) == [J.OPEN_BRACE] + ((newLine + inner) + close)
  {}

  lemma Regroup4(a: Bytes, b: Bytes, c: Bytes, d: Bytes)
    ensures a + (b + (c + d)) == a + b + c + d
    ensures a + (b + []) == a + b + []
  {}

  lemma Regroup7(a: Bytes, b: Bytes, c: Bytes, d: Bytes, e: Bytes, f: Bytes, g: Bytes, i: Bytes)
    ensures a + ((b + c + d + e) + (f + g + i)) == (((a + b) + c) + d) + e + f + g + i
  {}

  /** Printing a tree and parsing the text gives back the tree up to the nesting limit. */
  method PrintThenParse(t: J.Json, format: bool) returns (text: Bytes, back: Option<J.Json>)
    requires RoundTrips.Printable(t)
    ensures text == J.Print(t, format, 0)
    ensures back == if Documents.Depth(t) <= J.NESTING_LIMIT then Some(t) else None
  {
    hide J.Print, J.Parse;
    var buffer := new PrintBuffer(format);
    buffer.PrintValue(t);
    text := buffer.out;
    assert [] + text == text;
    RoundTrips.RoundTrip(t, format, false);
    back := ParseText(text, false);
  }
}
