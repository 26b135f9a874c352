/** The JSON reader and writer as they run: an offset that advances, a string that grows. */
module JsonParsers {
  import opened Prelude
  import opened JsonText
  import opened JsonLaws
  import JsonExact
  import JsonGrammar
  import JsonSpelling
  import Decimal

  /** A call took what the specification takes and stands where it stops. */
  ghost predicate Took<T>(spec: Result<Taken<T>, Error>, r: Result<T, Error>, left: string) {
    match r
    case Err(e) => spec == Err(e)
    case Ok(v) => spec == Ok(Taken(v, left))
  }

  class Parser {
    const input: string
    var offset: nat

    ghost predicate Valid()
      reads this
    {
      offset <= |input|
    }

    ghost function Left(): string
      reads this
      requires Valid()
    {
      input[offset..]
    }

    constructor (source: string)
      ensures Valid() && Left() == source
    {
      input := source;
      offset := 0;
    }

    method Peek() returns (c: Option<char>)
      requires Valid()
      ensures c == if Left() == [] then None else Some(Left()[0])
    {
      if offset < |input| { return Some(input[offset]); }
      return None;
    }

    method Take() returns (c: Option<char>)
      requires Valid()
      modifies this
      ensures Valid()
      ensures c == if old(Left()) == [] then None else Some(old(Left())[0])
      ensures Left() == if old(Left()) == [] then [] else old(Left())[1..]
    {
      c := Peek();
      if c.Some? { offset := offset + 1; }
    }

    method Whitespace()
      requires Valid()
      modifies this
      ensures Valid() && Left() == Skip(old(Left()))
    {
      while offset < |input| && IsSpace(input[offset])
        invariant Valid() && Skip(Left()) == Skip(old(Left()))
        decreases |input| - offset
      {
        assert input[offset..][1..] == input[offset + 1..];
        offset := offset + 1;
      }
      SkipStops(Left());
    }

    method ReadOne(depth: nat) returns (r: Result<Value, Error>)
      requires Valid()
      modifies this
      ensures Valid() && Took(ReadValue(old(Left()), depth), r, Left())
      decreases |input| - offset, 3
    {
      hide Skip, ReadString, ReadNumber, ReadArray, ReadObject;
      if depth > MAX_DEPTH { return Err(TooDeep); }
      Whitespace();
      var c := Peek();
      if c == Some('n') {
        r := Literal("null", Nil);
      } else if c == Some('t') {
        r := Literal("true", Bool(true));
      } else if c == Some('f') {
        r := Literal("false", Bool(false));
      } else if c == Some('"') {
        var s := Quote();
        if s.Err? { return Err(s.error); }
        return Ok(Text(s.value));
      } else if c == Some('[') {
        r := Array(depth + 1);
      } else if c == Some('{') {
        r := ObjectBody(depth + 1);
      } else if c.Some? {
        r := NumberText();
      } else {
        r := Err(NoValue);
      }
    }

    method Literal(literal: string, v: Value) returns (r: Result<Value, Error>)
      requires Valid() && literal != ""
      modifies this
      ensures Valid() && Took(ReadLiteral(old(Left()), literal, v), r, Left())
      ensures old(offset) <= offset
    {
      ghost var s := Left();
      var i := 0;
      while i < |literal|
        invariant 0 <= i <= |literal| && Valid() && old(offset) <= offset
        invariant i <= |s| && s[..i] == literal[..i] && Left() == s[i..]
      {
        var c := Take();
        if c != Some(literal[i]) {
          NotPrefix(literal, s, i);
          return Err(BadToken);
        }
        assert s[..i + 1] == s[..i] + [s[i]] && literal[..i + 1] == literal[..i] + [literal[i]];
        i := i + 1;
      }
      assert literal[..i] == literal;
      return Ok(v);
    }

    method Digits() returns (n: nat)
      requires Valid()
      modifies this
      ensures Valid() && n == DigitRun(old(Left())) && Left() == old(Left())[n..] && offset == old(offset) + n
    {
      n := 0;
      ghost var s := Left();
      while offset < |input| && Decimal.IsDigit(input[offset])
        invariant Valid() && offset == old(offset) + n && n <= |s| && Left() == s[n..]
        invariant n + DigitRun(Left()) == DigitRun(s)
        decreases |input| - offset
      {
        assert input[offset..][1..] == input[offset + 1..];
        offset := offset + 1;
        n := n + 1;
      }
    }

    /** Passes over the digits of a number. */
    method NumberSpan() returns (r: Result<nat, Error>)
      requires Valid()
      modifies this
      ensures Valid() && r == NumberLength(old(Left()))
      ensures r.Ok? ==> offset == old(offset) + r.value
    {
      hide DigitRun;
      var d := Peek();
      if d == Some('0') {
        offset := offset + 1;
        assert Left() == old(Left())[1..];
        var next := Peek();
        if next.Some? && Decimal.IsDigit(next.value) { return Err(LeadingZero); }
        return Ok(1);
      }
      if d.Some? && Decimal.IsDigit(d.value) {
        var n := Digits();
        return Ok(n);
      }
      return Err(NoValue);
    }

    method NumberText() returns (r: Result<Value, Error>)
      requires Valid()
      modifies this
      ensures Valid() && Took(ReadNumber(old(Left())), r, Left())
    {
      hide Decimal.ParseDecimal, NumberLength;
      ghost var s := Left();
      var start := offset;
      var c := Peek();
      if c == Some('-') { offset := offset + 1; }
      assert Left() == s[if Starts(s, '-') then 1 else 0..];
      var length := NumberSpan();
      if length.Err? { return Err(length.error); }
      assert Left() == s[offset - start..];
      var after := Peek();
      if after == Some('.') || after == Some('e') || after == Some('E') { return Err(NotInteger); }
      var text := input[start..offset];
      assert text == s[..offset - start];
      var value := Decimal.ParseDecimal(text);
      if value.None? { return Err(BadInteger); }
      return Ok(Compact(value.value));
    }

    method UnicodeEscape() returns (r: Result<char, Error>)
      requires Valid()
      modifies this
      ensures Valid() && Took(ReadUnicode(old(Left())), r, Left())
      ensures r.Ok? ==> JsonSpelling.UnicodeSpells(old(Left()), r.value, Left())
      ensures r.Err? ==> forall c, rest :: !JsonSpelling.UnicodeSpells(old(Left()), c, rest)
      ensures old(offset) <= offset
    {
      forall c, rest
        ensures ReadUnicode(Left()) == Ok(Taken(c, rest)) <==> JsonSpelling.UnicodeSpells(Left(), c, rest)
      {
        JsonSpelling.UnicodeExactly(Left(), c, rest);
      }
      hide JsonSpelling.UnicodeSpells;
      var value: nat := 0;
      var i := 0;
      while i < 4
        invariant 0 <= i <= 4 && Valid() && old(offset) <= offset
        invariant ReadHex(Left(), 4 - i, value) == ReadHex(old(Left()), 4, 0)
      {
        var c := Take();
        if c.None? { return Err(ShortUnicode); }
        var d := HexValue(c.value);
        if d.None? { return Err(BadUnicode); }
        value := value * 16 + d.value;
        i := i + 1;
      }
      if !IsScalar(value) { return Err(BadUnicode); }
      return Ok(value as char);
    }

    method EscapeBody() returns (r: Result<char, Error>)
      requires Valid()
      modifies this
      ensures Valid() && Took(ReadEscape(old(Left())), r, Left())
      ensures old(offset) <= offset
    {
      hide ReadUnicode;
      var c := Take();
      if c == Some('"') { return Ok('"'); }
      if c == Some('\\') { return Ok('\\'); }
      if c == Some('/') { return Ok('/'); }
      if c == Some('b') { return Ok(BACKSPACE); }
      if c == Some('f') { return Ok(FORM_FEED); }
      if c == Some('n') { return Ok('\n'); }
      if c == Some('r') { return Ok('\r'); }
      if c == Some('t') { return Ok('\t'); }
      if c == Some('u') {
        r := UnicodeEscape();
        return;
      }
      return Err(BadEscape);
    }

    method Quote() returns (r: Result<string, Error>)
      requires Valid()
      modifies this
      ensures Valid() && Took(ReadString(old(Left())), r, Left())
    {
      hide ReadEscape;
      var first := Take();
      if first != Some('"') { return Err(Expected('"')); }
      ghost var s := Left();
      var out := "";
      while true
        invariant Valid() && ReadChars(Left(), out) == ReadChars(s, "")
        decreases |input| - offset
      {
        var c := Take();
        if c.None? { return Err(Unterminated); }
        if c.value == '"' { return Ok(out); }
        if c.value as int < 0x20 { return Err(ControlCharacter); }
        if c.value == '\\' {
          var e := EscapeBody();
          if e.Err? { return Err(e.error); }
          out := out + [e.value];
        } else {
          out := out + [c.value];
        }
      }
    }

    method Array(depth: nat) returns (r: Result<Value, Error>)
      requires Valid() && Starts(Left(), '[')
      modifies this
      ensures Valid() && Took(ReadArray(old(Left()), depth), r, Left())
      decreases |input| - offset, 2
    {
      hide Skip, ReadValue, Starts;
      StartsMeans(Left(), '[');
      var bracket := Take();
      Whitespace();
      var items: seq<Value> := [];
      var c := Peek();
      PeekStarts(Left(), c);
      if c == Some(']') {
        offset := offset + 1;
        assert Left() == input[offset - 1..][1..];
        return Ok(Vector(items));
      }
      ghost var s := Left();
      while true
        invariant Valid() && old(offset) < offset && ReadItems(Left(), depth, items) == ReadItems(s, depth, [])
        decreases |input| - offset
      {
        ghost var before := Left();
        var v := ReadOne(depth);
        if v.Err? { return Err(v.error); }
        items := items + [v.value];
        Whitespace();
        var close := Peek();
        PeekStarts(Left(), close);
        if close == Some(']') {
          offset := offset + 1;
          assert Left() == input[offset - 1..][1..];
          return Ok(Vector(items));
        }
        var comma := Take();
        if comma != Some(',') { return Err(Expected(',')); }
        Whitespace();
        var again := Peek();
        PeekStarts(Left(), again);
        if again == Some(']') { return Err(TrailingComma); }
      }
    }

    method ObjectBody(depth: nat) returns (r: Result<Value, Error>)
      requires Valid() && Starts(Left(), '{')
      modifies this
      ensures Valid() && Took(ReadObject(old(Left()), depth), r, Left())
      decreases |input| - offset, 2
    {
      hide Skip, ReadEntry, Starts, HasKey;
      StartsMeans(Left(), '{');
      var brace := Take();
      Whitespace();
      var entries: seq<Entry> := [];
      var c := Peek();
      PeekStarts(Left(), c);
      if c == Some('}') {
        offset := offset + 1;
        assert Left() == input[offset - 1..][1..];
        return Ok(Object(OrderedMap, entries));
      }
      ghost var s := Left();
      while true
        invariant Valid() && old(offset) < offset && ReadEntries(Left(), depth, entries) == ReadEntries(s, depth, [])
        decreases |input| - offset
      {
        var e := KeyAndValue(depth);
        if e.Err? { return Err(e.error); }
        var repeated := Repeats(entries, e.value.0);
        if repeated { return Err(DuplicateKey); }
        entries := entries + [Entry(Text(e.value.0), e.value.1)];
        Whitespace();
        var close := Peek();
        PeekStarts(Left(), close);
        if close == Some('}') {
          offset := offset + 1;
          assert Left() == input[offset - 1..][1..];
          return Ok(Object(OrderedMap, entries));
        }
        var comma := Take();
        if comma != Some(',') { return Err(Expected(',')); }
        Whitespace();
        var again := Peek();
        PeekStarts(Left(), again);
        if again == Some('}') { return Err(TrailingComma); }
      }
    }

    method KeyAndValue(depth: nat) returns (r: Result<(string, Value), Error>)
      requires Valid()
      modifies this
      ensures Valid() && Took(ReadEntry(old(Left()), depth), r, Left())
      decreases |input| - offset, 4
    {
      hide Skip, ReadValue, ReadString, Starts;
      var c := Peek();
      PeekStarts(Left(), c);
      if c != Some('"') { return Err(BadKey); }
      var key := Quote();
      if key.Err? { return Err(key.error); }
      Whitespace();
      var colon := Peek();
      PeekStarts(Left(), colon);
      var taken := Take();
      if taken != Some(':') { return Err(Expected(':')); }
      var v := ReadOne(depth);
      if v.Err? { return Err(v.error); }
      return Ok((key.value, v.value));
    }
  }

  lemma NotPrefix(literal: string, s: string, i: nat)
    requires i < |literal| && i <= |s| && (i == |s| || s[i] != literal[i])
    ensures !(literal <= s)
  {
  }

  lemma StartsMeans(s: string, c: char)
    requires Starts(s, c)
    ensures s != [] && s[0] == c
  {
  }

  lemma PeekStarts(s: string, c: Option<char>)
    requires c == if s == [] then None else Some(s[0])
    ensures forall d :: Starts(s, d) <==> c == Some(d)
  {
  }

  /** Whether a key was read already. */
  method Repeats(entries: seq<Entry>, key: string) returns (found: bool)
    ensures found == HasKey(entries, key)
  {
    var i := 0;
    while i < |entries|
      invariant 0 <= i <= |entries| && forall j :: 0 <= j < i ==> entries[j].key != Text(key)
    {
      if entries[i].key == Text(key) { return true; }
      i := i + 1;
    }
    return false;
  }

  /** `read`. */
  method ReadText(source: string) returns (r: Result<Value, Error>)
    ensures r == Read(source)
    ensures forall v :: r == Ok(v) <==> JsonGrammar.Spells(source, v)
  {
    forall v ensures Read(source) == Ok(v) <==> JsonGrammar.Spells(source, v) { JsonExact.ReadExactly(source, v); }
    hide ReadValue, Skip, JsonGrammar.Spells;
    var parser := new Parser(source);
    var v := parser.ReadOne(0);
    if v.Err? { return Err(v.error); }
    parser.Whitespace();
    var c := parser.Peek();
    if c.Some? { return Err(TrailingContent); }
    return v;
  }

  // ----- Writing -----

  class Writer {
    var out: string

    constructor ()
      ensures out == ""
    {
      out := "";
    }

    method PutNewline(depth: nat)
      modifies this
      ensures out == old(out) + Newline(depth)
    {
      hide Spaces;
      out := out + "\n" + Spaces(depth);
      assert out == old(out) + Newline(depth);
    }

    method PutGap(depth: nat, pretty: bool)
      modifies this
      ensures out == old(out) + Gap(depth, pretty)
    {
      if pretty { PutNewline(depth); } else { assert out + "" == out; }
    }

    method PutString(value: string)
      modifies this
      ensures out == old(out) + Quoted(value)
    {
      hide Escape;
      out := out + "\"";
      ghost var start := out;
      var i := 0;
      assert value[..0] == [] && start + Escaped([]) == start;
      while i < |value|
        invariant 0 <= i <= |value| && out == start + Escaped(value[..i])
      {
        EscapedNext(value, i);
        out := out + Escape(value[i]);
        i := i + 1;
      }
      assert value[..i] == value;
      out := out + "\"";
      assert out == old(out) + Quoted(value);
    }

    /** `encode`: on failure what was put out so far is dropped by the caller. */
    method Encode(v: Value, depth: nat, pretty: bool) returns (ok: bool)
      modifies this
      ensures ok <==> Write(v, depth, pretty).Some?
      ensures ok ==> out == old(out) + Write(v, depth, pretty).value
      decreases v, 2
    {
      hide WriteItems, WriteEntries, Quoted, Decimal.ToDecimal, Enclosed;
      ok := true;
      match v {
        case Nil => out := out + "null";
        case Bool(b) => out := out + (if b then "true" else "false");
        case Number(i) => out := out + Decimal.ToDecimal(i);
        case BigInteger(n) => out := out + Decimal.ToDecimal(n);
        case Text(s) => PutString(s);
        case Vector(items) => ok := EncodeArray(items, depth, pretty);
        case Tuple(items) => ok := EncodeArray(items, depth, pretty);
        case Object(_, entries) => ok := EncodeObject(entries, depth, pretty);
        case Other => ok := false;
      }
    }

    method EncodeArray(items: seq<Value>, depth: nat, pretty: bool) returns (ok: bool)
      modifies this
      ensures
        var text := Enclosed('[', WriteItems(items, depth + 1, pretty, true), items == [], depth, pretty, ']');
        (ok <==> text.Some?) && (ok ==> out == old(out) + text.value)
      decreases items, 1
    {
      hide Write, WriteItems, Gap;
      out := out + "[";
      ghost var start := out;
      var i := 0;
      NoItems(depth + 1, pretty);
      assert items[..0] == [] && start + "" == start;
      while i < |items|
        invariant 0 <= i <= |items|
        invariant start <= out && WriteItems(items[..i], depth + 1, pretty, true) == Some(out[|start|..])
      {
        ItemsNext(items, i, depth + 1, pretty);
        ghost var before := out;
        if i > 0 { out := out + ","; }
        PutGap(depth + 1, pretty);
        var done := Encode(items[i], depth + 1, pretty);
        if !done { return false; }
        ghost var text := Write(items[i], depth + 1, pretty).value;
        assert out == before + (Comma(i == 0) + Gap(depth + 1, pretty) + text);
        assert out[|start|..] == before[|start|..] + (Comma(i == 0) + Gap(depth + 1, pretty) + text);
        i := i + 1;
      }
      assert items[..i] == items;
      ghost var body := out[|start|..];
      assert out == start + body;
      if |items| > 0 { PutGap(depth, pretty); }
      out := out + "]";
      assert out == old(out) + ("[" + body + (if items == [] then "" else Gap(depth, pretty)) + "]");
      return true;
    }

    method EncodeObject(entries: seq<Entry>, depth: nat, pretty: bool) returns (ok: bool)
      modifies this
      ensures
        var text := Enclosed('{', WriteEntries(entries, depth + 1, pretty, true), entries == [], depth, pretty, '}');
        (ok <==> text.Some?) && (ok ==> out == old(out) + text.value)
      decreases entries, 1
    {
      hide Write, WriteEntry, WriteEntries, Gap, Quoted;
      out := out + "{";
      ghost var start := out;
      var i := 0;
      NoEntries(depth + 1, pretty);
      assert entries[..0] == [] && start + "" == start;
      while i < |entries|
        invariant 0 <= i <= |entries|
        invariant start <= out && WriteEntries(entries[..i], depth + 1, pretty, true) == Some(out[|start|..])
      {
        EntriesNext(entries, i, depth + 1, pretty);
        ghost var before := out;
        if i > 0 && entries[i].key.Text? { out := out + ","; }
        if entries[i].key.Text? { PutGap(depth + 1, pretty); }
        var done := EncodeEntry(entries[i], depth + 1, pretty);
        if !done { return false; }
        ghost var text := WriteEntry(entries[i], depth + 1, pretty).value;
        assert entries[i].key.Text? by { EntryKey(entries[i], depth + 1, pretty); }
        assert out == before + (Comma(i == 0) + Gap(depth + 1, pretty) + text);
        assert out[|start|..] == before[|start|..] + (Comma(i == 0) + Gap(depth + 1, pretty) + text);
        i := i + 1;
      }
      assert entries[..i] == entries;
      ghost var body := out[|start|..];
      assert out == start + body;
      if |entries| > 0 { PutGap(depth, pretty); }
      out := out + "}";
      assert out == old(out) + ("{" + body + (if entries == [] then "" else Gap(depth, pretty)) + "}");
      return true;
    }

    method EncodeEntry(e: Entry, depth: nat, pretty: bool) returns (ok: bool)
      modifies this
      ensures ok <==> WriteEntry(e, depth, pretty).Some?
      ensures ok ==> out == old(out) + WriteEntry(e, depth, pretty).value
      decreases e, 3
    {
      hide Write, Quoted;
      if !e.key.Text? { return false; }
      PutString(e.key.text);
      out := out + (if pretty then ": " else ":");
      ok := Encode(e.value, depth, pretty);
      if ok {
        assert out == old(out) + (Quoted(e.key.text) + Colon(pretty) + Write(e.value, depth, pretty).value);
      }
    }
  }

  lemma EscapedNext(value: string, i: nat)
    requires i < |value|
    ensures Escaped(value[..i + 1]) == Escaped(value[..i]) + Escape(value[i])
  {
    hide Escape;
    assert value[..i + 1] == value[..i] + [value[i]];
    EscapedConcat(value[..i], [value[i]]);
    assert [value[i]][1..] == [];
    assert Escaped([value[i]]) == Escape(value[i]) + Escaped([]);
  }

  lemma {:induction false} EscapedConcat(a: string, b: string)
    ensures Escaped(a + b) == Escaped(a) + Escaped(b)
  {
    hide Escape;
    if a == [] {
      assert a + b == b;
    } else {
      EscapedConcat(a[1..], b);
      assert (a + b)[0] == a[0] && (a + b)[1..] == a[1..] + b;
      var x, y, z := Escape(a[0]), Escaped(a[1..]), Escaped(b);
      assert Escaped(a + b) == x + (y + z);
      assert x + (y + z) == x + y + z;
    }
  }

  lemma NoItems(depth: nat, pretty: bool)
    ensures WriteItems([], depth, pretty, true) == Some("")
  {
  }

  lemma NoEntries(depth: nat, pretty: bool)
    ensures WriteEntries([], depth, pretty, true) == Some("")
  {
  }

  /** Item texts, one item further; an item with no text leaves none for the whole. */
  lemma {:induction false} ItemsNextFrom(items: seq<Value>, i: nat, depth: nat, pretty: bool, first: bool)
    requires i < |items| && WriteItems(items[..i], depth, pretty, first).Some?
    ensures WriteItems(items[..i + 1], depth, pretty, first) ==
      match Write(items[i], depth, pretty)
      case None => None
      case Some(text) =>
        Some(WriteItems(items[..i], depth, pretty, first).value + (Comma(first && i == 0) + Gap(depth, pretty) + text))
    ensures Write(items[i], depth, pretty).None? ==> WriteItems(items, depth, pretty, first).None?
    decreases |items|
  {
    hide Write, Gap;
    if i == 0 {
      assert items[..1] == [items[0]] && [items[0]][1..] == [];
      assert items[..0] == [];
      assert WriteItems([], depth, pretty, false) == Some("");
      if Write(items[0], depth, pretty).Some? {
        var head := Comma(first) + Gap(depth, pretty) + Write(items[0], depth, pretty).value;
        assert head + "" == head && "" + head == head;
      }
    } else {
      assert items[..i + 1][1..] == items[1..][..i] && items[..i][1..] == items[1..][..i - 1];
      ItemsNextFrom(items[1..], i - 1, depth, pretty, false);
      assert items[..i + 1][0] == items[0] && items[..i][0] == items[0] && items[1..][i - 1] == items[i];
      if Write(items[i], depth, pretty).Some? {
        var head := Comma(first) + Gap(depth, pretty) + Write(items[0], depth, pretty).value;
        var mid := WriteItems(items[1..][..i - 1], depth, pretty, false).value;
        var last := Comma(false) + Gap(depth, pretty) + Write(items[i], depth, pretty).value;
        assert head + (mid + last) == head + mid + last;
      }
    }
  }

  lemma ItemsNext(items: seq<Value>, i: nat, depth: nat, pretty: bool)
    requires i < |items| && WriteItems(items[..i], depth, pretty, true).Some?
    ensures WriteItems(items[..i + 1], depth, pretty, true) ==
      match Write(items[i], depth, pretty)
      case None => None
      case Some(text) =>
        Some(WriteItems(items[..i], depth, pretty, true).value + (Comma(i == 0) + Gap(depth, pretty) + text))
    ensures Write(items[i], depth, pretty).None? ==> WriteItems(items, depth, pretty, true).None?
  {
    hide Write, Gap, WriteItems;
    ItemsNextFrom(items, i, depth, pretty, true);
  }

  lemma {:induction false} EntriesNextFrom(entries: seq<Entry>, i: nat, depth: nat, pretty: bool, first: bool)
    requires i < |entries| && WriteEntries(entries[..i], depth, pretty, first).Some?
    ensures WriteEntries(entries[..i + 1], depth, pretty, first) ==
      match WriteEntry(entries[i], depth, pretty)
      case None => None
      case Some(text) =>
        Some(WriteEntries(entries[..i], depth, pretty, first).value
             + (Comma(first && i == 0) + Gap(depth, pretty) + text))
    ensures WriteEntry(entries[i], depth, pretty).None? ==> WriteEntries(entries, depth, pretty, first).None?
    decreases |entries|
  {
    hide WriteEntry, Gap;
    if i == 0 {
      assert entries[..1] == [entries[0]] && [entries[0]][1..] == [];
      assert entries[..0] == [];
      assert WriteEntries([], depth, pretty, false) == Some("");
      if WriteEntry(entries[0], depth, pretty).Some? {
        var head := Comma(first) + Gap(depth, pretty) + WriteEntry(entries[0], depth, pretty).value;
        assert head + "" == head && "" + head == head;
      }
    } else {
      assert entries[..i + 1][1..] == entries[1..][..i] && entries[..i][1..] == entries[1..][..i - 1];
      EntriesNextFrom(entries[1..], i - 1, depth, pretty, false);
      assert entries[..i + 1][0] == entries[0] && entries[..i][0] == entries[0] && entries[1..][i - 1] == entries[i];
      if WriteEntry(entries[i], depth, pretty).Some? {
        var head := Comma(first) + Gap(depth, pretty) + WriteEntry(entries[0], depth, pretty).value;
        var mid := WriteEntries(entries[1..][..i - 1], depth, pretty, false).value;
        var last := Comma(false) + Gap(depth, pretty) + WriteEntry(entries[i], depth, pretty).value;
        assert head + (mid + last) == head + mid + last;
      }
    }
  }

  lemma EntriesNext(entries: seq<Entry>, i: nat, depth: nat, pretty: bool)
    requires i < |entries| && WriteEntries(entries[..i], depth, pretty, true).Some?
    ensures WriteEntries(entries[..i + 1], depth, pretty, true) ==
      match WriteEntry(entries[i], depth, pretty)
      case None => None
      case Some(text) =>
        Some(WriteEntries(entries[..i], depth, pretty, true).value + (Comma(i == 0) + Gap(depth, pretty) + text))
    ensures WriteEntry(entries[i], depth, pretty).None? ==> WriteEntries(entries, depth, pretty, true).None?
  {
    hide WriteEntry, Gap, WriteEntries;
    EntriesNextFrom(entries, i, depth, pretty, true);
  }

  /** `write` and `write_pretty`, then `read`. */
  method WriteThenRead(v: Value, pretty: bool) returns (r: Option<Result<Value, Error>>)
    ensures r.Some? <==> Write(v, 0, pretty).Some?
    ensures r.Some? && Fits(v, 0) ==> r.value == Ok(Canon(v))
    ensures r.Some? && !Fits(v, 0) ==> r.value.Err?
  {
    hide Write, Fits, Canon, Read;
    var writer := new Writer();
    var ok := writer.Encode(v, 0, pretty);
    if !ok { return None; }
    assert "" + Write(v, 0, pretty).value == Write(v, 0, pretty).value;
    JsonRoundTrip(v, pretty);
    var back := ReadText(writer.out);
    return Some(back);
  }
}
