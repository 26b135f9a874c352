/** Reading the text of a value, compact or pretty, gives the value back (sections 6 and 7 of RFC 8259). */
module JsonLaws {
  import opened Prelude
  import opened JsonText
  import Decimal

  // ----- Space -----

  lemma SkipStops(s: string)
    requires s == [] || !IsSpace(s[0])
    ensures Skip(s) == s
  {
  }

  lemma {:induction false} SkipSpaces(n: nat, s: string)
    ensures Skip(Spaces(n) + s) == Skip(s)
  {
    if n == 0 {
      assert Spaces(n) + s == s;
    } else {
      SkipSpaces(n - 1, s);
      var t := Spaces(n - 1) + s;
      assert Spaces(n) + s == [' '] + ([' '] + t);
      SkipOne(' ', [' '] + t);
      SkipOne(' ', t);
    }
  }

  lemma SkipOne(c: char, s: string)
    requires IsSpace(c)
    ensures Skip([c] + s) == Skip(s)
  {
    assert ([c] + s)[1..] == s;
  }

  /** The space before an item or a closing bracket is skipped. */
  lemma SkipGap(depth: nat, pretty: bool, s: string)
    requires s != [] && !IsSpace(s[0])
    ensures Skip(Gap(depth, pretty) + s) == s
  {
    hide Skip, Spaces;
    SkipStops(s);
    if pretty {
      assert Gap(depth, pretty) + s == ['\n'] + (Spaces(depth) + s);
      SkipOne('\n', Spaces(depth) + s);
      SkipSpaces(depth, s);
    } else {
      assert Gap(depth, pretty) + s == s;
    }
  }

  /** Text that cannot continue a number. */
  predicate Delimited(s: string) {
    s == [] || !(Decimal.IsDigit(s[0]) || s[0] == '.' || s[0] == 'e' || s[0] == 'E')
  }

  // ----- Numbers -----

  lemma {:induction false} DigitRunIs(digits: string, rest: string)
    requires forall c <- digits :: Decimal.IsDigit(c)
    requires rest == [] || !Decimal.IsDigit(rest[0])
    ensures DigitRun(digits + rest) == |digits|
  {
    if digits == [] {
      assert digits + rest == rest;
    } else {
      assert digits[0] in digits;
      assert (digits + rest)[1..] == digits[1..] + rest;
      DigitRunIs(digits[1..], rest);
    }
  }

  lemma DigitsZero(n: nat)
    ensures Decimal.DigitsOf(n)[0] == '0' ==> Decimal.DigitsOf(n) == "0"
  {
  }

  lemma NumberLengthIs(n: nat, rest: string)
    requires Delimited(rest)
    ensures NumberLength(Decimal.DigitsOf(n) + rest) == Ok(|Decimal.DigitsOf(n)|)
  {
    DigitsZero(n);
    hide Decimal.DigitsOf;
    var digits := Decimal.DigitsOf(n);
    var s := digits + rest;
    assert digits[0] in digits;
    assert s[0] == digits[0];
    if digits[0] == '0' {
      assert |digits| == 1;
      assert |s| > 1 ==> s[1] == rest[0];
    } else {
      DigitRunIs(digits, rest);
    }
  }

  lemma NumberReads(n: int, rest: string)
    requires Delimited(rest)
    ensures ReadNumber(Decimal.ToDecimal(n) + rest) == Ok(Taken(Compact(n), rest))
  {
    var text := Decimal.ToDecimal(n);
    var s := text + rest;
    var digits := Decimal.DigitsOf(if n < 0 then -n else n);
    var sign := if n < 0 then 1 else 0;
    assert digits[0] in digits;
    assert text == (if n < 0 then "-" else "") + digits;
    assert s[sign..] == digits + rest;
    NumberLengthIs(if n < 0 then -n else n, rest);
    Decimal.DecimalRoundTrip(n);
    hide Decimal.DigitsOf, Decimal.ToDecimal, Decimal.ParseDecimal, NumberLength;
    assert Starts(s, '-') <==> n < 0;
    assert s[..|text|] == text && s[|text|..] == rest;
  }

  /** What a number text starts with. */
  lemma NumberStarts(n: int)
    ensures Decimal.ToDecimal(n) != [] && (Decimal.ToDecimal(n)[0] == '-' || Decimal.IsDigit(Decimal.ToDecimal(n)[0]))
  {
    if n >= 0 { assert Decimal.DigitsOf(n)[0] in Decimal.DigitsOf(n); }
  }

  // ----- Strings -----

  lemma HexDigitValue(d: nat)
    requires d < 16
    ensures HexValue(HexDigit(d)) == Some(d)
  {
  }

  lemma ReadHexOne(s: string, d: nat, count: nat, value: nat)
    requires d < 16 && count > 0 && s != [] && s[0] == HexDigit(d)
    ensures ReadHex(s, count, value) == ReadHex(s[1..], count - 1, value * 16 + d)
  {
    HexDigitValue(d);
  }

  lemma HexParts(n: nat)
    requires n < 0x1_0000
    ensures ((n / 4096 * 16 + n / 256 % 16) * 16 + n / 16 % 16) * 16 + n % 16 == n && n / 4096 < 16
  {
    assert n / 16 / 16 == n / 256 && n / 256 / 16 == n / 4096;
  }

  lemma HexReads(n: nat, rest: string)
    requires n < 0x1_0000
    ensures ReadHex(Hex4(n) + rest, 4, 0) == Ok(Taken(n, rest))
  {
    hide HexDigit, ReadHex;
    HexParts(n);
    HexText(n / 4096, n / 256 % 16, n / 16 % 16, n % 16, rest);
  }

  lemma HexText(a: nat, b: nat, c: nat, d: nat, rest: string)
    requires a < 16 && b < 16 && c < 16 && d < 16
    ensures var n: nat := ((a * 16 + b) * 16 + c) * 16 + d;
            ReadHex([HexDigit(a), HexDigit(b), HexDigit(c), HexDigit(d)] + rest, 4, 0) == Ok(Taken(n, rest))
  {
    hide HexDigit, ReadHex;
    var s := [HexDigit(a), HexDigit(b), HexDigit(c), HexDigit(d)] + rest;
    assert s[1..][1..] == s[2..] && s[2..][1..] == s[3..] && s[3..][1..] == rest;
    ReadHexOne(s, a, 4, 0);
    ReadHexOne(s[1..], b, 3, a);
    ReadHexOne(s[2..], c, 2, a * 16 + b);
    ReadHexOne(s[3..], d, 1, (a * 16 + b) * 16 + c);
    ReadHexDone(rest, ((a * 16 + b) * 16 + c) * 16 + d);
  }

  lemma ReadHexDone(s: string, value: nat)
    ensures ReadHex(s, 0, value) == Ok(Taken(value, s))
  {
  }

  predicate Control(c: char) {
    c as int <= 0x1f && c != BACKSPACE && c != FORM_FEED && c != '\n' && c != '\r' && c != '\t'
  }

  lemma ControlReads(c: char, rest: string, out: string)
    requires Control(c)
    ensures ReadChars(Escape(c) + rest, out) == ReadChars(rest, out + [c])
  {
    hide Hex4, ReadHex;
    var s := Escape(c) + rest;
    HexReads(c as int, rest);
    assert s[1..][1..] == Hex4(c as int) + rest;
  }

  lemma PairReads(c: char, rest: string, out: string)
    requires !Control(c) && |Escape(c)| == 2
    ensures ReadChars(Escape(c) + rest, out) == ReadChars(rest, out + [c])
  {
    hide Hex4, ReadHex;
    var s := Escape(c) + rest;
    assert s[1..][1..] == rest;
  }

  lemma PlainReads(c: char, rest: string, out: string)
    requires !Control(c) && |Escape(c)| != 2
    ensures ReadChars(Escape(c) + rest, out) == ReadChars(rest, out + [c])
  {
    hide Hex4, ReadHex;
    var s := Escape(c) + rest;
    assert s[1..] == rest;
  }

  /** One written character reads back. */
  lemma CharReads(c: char, rest: string, out: string)
    ensures ReadChars(Escape(c) + rest, out) == ReadChars(rest, out + [c])
  {
    hide Escape, ReadChars;
    if Control(c) {
      ControlReads(c, rest, out);
    } else if |Escape(c)| == 2 {
      PairReads(c, rest, out);
    } else {
      PlainReads(c, rest, out);
    }
  }

  lemma {:induction false} CharsRead(text: string, rest: string, out: string)
    ensures ReadChars(Escaped(text) + "\"" + rest, out) == Ok(Taken(out + text, rest))
    decreases |text|
  {
    hide ReadChars, Escape;
    if text == [] {
      assert Escaped(text) + "\"" + rest == ['"'] + rest;
      QuoteEnds(rest, out);
      assert out + text == out;
    } else {
      var more := Escaped(text[1..]) + "\"" + rest;
      assert Escaped(text) + "\"" + rest == Escape(text[0]) + more;
      CharReads(text[0], more, out);
      CharsRead(text[1..], rest, out + [text[0]]);
      assert out + [text[0]] + text[1..] == out + text;
    }
  }

  lemma QuoteEnds(rest: string, out: string)
    ensures ReadChars(['"'] + rest, out) == Ok(Taken(out, rest))
  {
    assert (['"'] + rest)[1..] == rest;
  }

  lemma StringReads(text: string, rest: string)
    ensures Starts(Quoted(text) + rest, '"')
    ensures ReadString(Quoted(text) + rest) == Ok(Taken(text, rest))
  {
    hide ReadChars, Escaped;
    CharsRead(text, rest, "");
    assert (Quoted(text) + rest)[1..] == Escaped(text) + "\"" + rest;
    assert "" + text == text;
  }

  // ----- Values -----

  /** What follows an item: more items, space before the bracket, the bracket, the rest. */
  function After(tail: string, close: nat, pretty: bool, bracket: char, rest: string): string {
    tail + (Gap(close, pretty) + ([bracket] + rest))
  }

  lemma AfterSplits(
    first: bool, gap: string, head: string, tail: string, close: nat, pretty: bool, bracket: char, rest: string)
    ensures After(Comma(first) + gap + head + tail, close, pretty, bracket, rest) ==
            Comma(first) + (gap + (head + After(tail, close, pretty, bracket, rest)))
  {
    hide Gap, Comma;
    var c, g := Comma(first), Gap(close, pretty) + ([bracket] + rest);
    assert c + gap + head + tail + g == c + (gap + (head + (tail + g)));
  }

  lemma AfterNothing(close: nat, pretty: bool, bracket: char, rest: string)
    requires !IsSpace(bracket)
    ensures Skip(After("", close, pretty, bracket, rest)) == [bracket] + rest
  {
    hide Gap, Skip;
    var end := [bracket] + rest;
    assert "" + (Gap(close, pretty) + end) == Gap(close, pretty) + end;
    SkipGap(close, pretty, end);
  }

  lemma EnclosedIs(open: char, body: string, empty: bool, depth: nat, pretty: bool, close: char, rest: string)
    requires empty ==> body == ""
    ensures Enclosed(open, Some(body), empty, depth, pretty, close).Some?
    ensures
      var s := Enclosed(open, Some(body), empty, depth, pretty, close).value + rest;
      s != [] && s[0] == open &&
      s[1..] == if empty then [close] + rest else After(body, depth, pretty, close, rest)
  {
    hide Gap;
    var gap := if empty then "" else Gap(depth, pretty);
    var s := [open] + body + gap + [close] + rest;
    assert s[1..] == body + (gap + ([close] + rest));
  }

  /** What a value's text starts with: never space, a comma or a closing bracket. */
  lemma TextStarts(v: Value, depth: nat, pretty: bool)
    requires Write(v, depth, pretty).Some?
    ensures var t := Write(v, depth, pretty).value;
      t != [] && !IsSpace(t[0]) && t[0] != ']' && t[0] != '}' && t[0] != ','
  {
    hide WriteItems, WriteEntries;
    match v
    case Number(i) => NumberStarts(i);
    case BigInteger(n) => NumberStarts(n);
    case _ =>
  }

  /** The text of `v` before `rest` reads as it should. */
  ghost predicate Reads(text: string, depth: nat, v: Value, rest: string) {
    if Fits(v, depth) then ReadValue(text + rest, depth) == Ok(Taken(Canon(v), rest))
    else ReadValue(text + rest, depth).Err?
  }

  lemma ReadsNumber(n: int, depth: nat, rest: string)
    requires Delimited(rest) && depth <= MAX_DEPTH
    ensures ReadValue(Decimal.ToDecimal(n) + rest, depth) == Ok(Taken(Compact(n), rest))
  {
    var text := Decimal.ToDecimal(n);
    NumberStarts(n);
    NumberReads(n, rest);
    hide Decimal.ToDecimal, ReadNumber;
    assert (text + rest)[0] == text[0];
    SkipStops(text + rest);
  }

  lemma ReadsText(s: string, depth: nat, rest: string)
    requires depth <= MAX_DEPTH
    ensures ReadValue(Quoted(s) + rest, depth) == Ok(Taken(Text(s), rest))
  {
    StringReads(s, rest);
    hide ReadString;
    assert (Quoted(s) + rest)[0] == '"';
    SkipStops(Quoted(s) + rest);
  }

  lemma ReadsLiteral(v: Value, depth: nat, pretty: bool, rest: string)
    requires v.Nil? || v.Bool?
    requires depth <= MAX_DEPTH
    ensures ReadValue(Write(v, depth, pretty).value + rest, depth) == Ok(Taken(v, rest))
  {
    var t := Write(v, depth, pretty).value;
    SkipStops(t + rest);
    assert t <= t + rest && (t + rest)[|t|..] == rest;
  }

  /** Items from one on, then the closing bracket. */
  lemma {:induction false} ItemsRead(
    items: seq<Value>, depth: nat, pretty: bool, close: nat, done: seq<Value>, rest: string)
    requires items != [] && Write(items[0], depth, pretty).Some?
    requires WriteItems(items[1..], depth, pretty, false).Some?
    ensures
      var text := Write(items[0], depth, pretty).value
                  + After(WriteItems(items[1..], depth, pretty, false).value, close, pretty, ']', rest);
      if AllFit(items, depth) then ReadItems(text, depth, done) == Ok(Taken(Vector(done + CanonAll(items)), rest))
      else ReadItems(text, depth, done).Err?
    decreases items, 0
  {
    hide Write, ReadValue, ReadItems, Canon, Fits, After, Skip;
    var head := Write(items[0], depth, pretty).value;
    var tail := WriteItems(items[1..], depth, pretty, false).value;
    var after := After(tail, close, pretty, ']', rest);
    assert AllFit([], depth);
    TailStarts(items[1..], depth, pretty, close, rest);
    ValueReads(items[0], depth, pretty, after);
    if Fits(items[0], depth) {
      if items[1..] == [] {
        AfterNothing(close, pretty, ']', rest);
        LastItem(head + after, depth, done, Canon(items[0]), after, rest);
        assert CanonAll(items) == [Canon(items[0])];
      } else {
        var more := items[1..];
        NextItems(more, depth, pretty, close, rest);
        var next := Write(more[0], depth, pretty).value
                    + After(WriteItems(more[1..], depth, pretty, false).value, close, pretty, ']', rest);
        ItemsRead(more, depth, pretty, close, done + [Canon(items[0])], rest);
        MoreItems(head + after, depth, done, Canon(items[0]), after, next);
        assert done + [Canon(items[0])] + CanonAll(more) == done + CanonAll(items);
      }
    } else {
      ItemFails(head + after, depth, done);
    }
  }

  lemma ItemFails(s: string, depth: nat, done: seq<Value>)
    requires ReadValue(s, depth).Err?
    ensures ReadItems(s, depth, done).Err?
  {
    hide ReadValue;
  }

  lemma LastItem(s: string, depth: nat, done: seq<Value>, v: Value, after: string, rest: string)
    requires ReadValue(s, depth) == Ok(Taken(v, after)) && Skip(after) == "]" + rest
    ensures ReadItems(s, depth, done) == Ok(Taken(Vector(done + [v]), rest))
  {
    hide ReadValue, Skip;
    assert ("]" + rest)[1..] == rest;
  }

  lemma MoreItems(s: string, depth: nat, done: seq<Value>, v: Value, after: string, next: string)
    requires ReadValue(s, depth) == Ok(Taken(v, after))
    requires Starts(Skip(after), ',') && Skip(Skip(after)[1..]) == next && !Starts(next, ']')
    ensures ReadItems(s, depth, done) == ReadItems(next, depth, done + [v])
  {
    hide ReadValue, Skip;
  }

  /** After an item comes a comma or the end, never more of a number. */
  lemma TailStarts(items: seq<Value>, depth: nat, pretty: bool, close: nat, rest: string)
    requires WriteItems(items, depth, pretty, false).Some?
    ensures Delimited(After(WriteItems(items, depth, pretty, false).value, close, pretty, ']', rest))
  {
    hide Write, Spaces;
    var s := After(WriteItems(items, depth, pretty, false).value, close, pretty, ']', rest);
    assert s[0] == if items != [] then ',' else if pretty then '\n' else ']';
  }

  lemma NextItems(items: seq<Value>, depth: nat, pretty: bool, close: nat, rest: string)
    requires items != [] && WriteItems(items, depth, pretty, false).Some?
    ensures Write(items[0], depth, pretty).Some? && WriteItems(items[1..], depth, pretty, false).Some?
    ensures
      var after := After(WriteItems(items, depth, pretty, false).value, close, pretty, ']', rest);
      var next := Write(items[0], depth, pretty).value
                  + After(WriteItems(items[1..], depth, pretty, false).value, close, pretty, ']', rest);
      Starts(Skip(after), ',') && Skip(Skip(after)[1..]) == next && !Starts(next, ']')
  {
    hide Write, WriteItems, Gap, Skip, After;
    ItemsParts(items, depth, pretty, false);
    TextStarts(items[0], depth, pretty);
    var head, tail := Write(items[0], depth, pretty).value, WriteItems(items[1..], depth, pretty, false).value;
    AfterSplits(false, Gap(depth, pretty), head, tail, close, pretty, ']', rest);
    CommaThen(depth, pretty, head + After(tail, close, pretty, ']', rest));
  }

  /** A comma and the space after it are passed over. */
  lemma CommaThen(depth: nat, pretty: bool, next: string)
    requires next != [] && !IsSpace(next[0])
    ensures
      var after := Comma(false) + (Gap(depth, pretty) + next);
      Starts(Skip(after), ',') && Skip(Skip(after)[1..]) == next
  {
    hide Gap, Skip;
    var after := Comma(false) + (Gap(depth, pretty) + next);
    SkipStops(after);
    assert after[1..] == Gap(depth, pretty) + next;
    SkipGap(depth, pretty, next);
  }

  lemma ItemsParts(items: seq<Value>, depth: nat, pretty: bool, first: bool)
    requires items != [] && WriteItems(items, depth, pretty, first).Some?
    ensures Write(items[0], depth, pretty).Some? && WriteItems(items[1..], depth, pretty, false).Some?
    ensures WriteItems(items, depth, pretty, first).value ==
            Comma(first) + Gap(depth, pretty) + Write(items[0], depth, pretty).value
            + WriteItems(items[1..], depth, pretty, false).value
  {
    hide Write;
  }

  /** What stands inside the bracket of a written array. */
  lemma ArrayOpens(items: seq<Value>, depth: nat, pretty: bool, rest: string)
    requires WriteItems(items, depth + 1, pretty, true).Some?
    ensures
      var body := WriteItems(items, depth + 1, pretty, true);
      Enclosed('[', body, items == [], depth, pretty, ']').Some? &&
      var s := Enclosed('[', body, items == [], depth, pretty, ']').value + rest;
      Starts(s, '[') && Skip(s) == s &&
      if items == [] then Skip(s[1..]) == "]" + rest
      else
        Write(items[0], depth + 1, pretty).Some? && WriteItems(items[1..], depth + 1, pretty, false).Some? &&
        var tail := WriteItems(items[1..], depth + 1, pretty, false).value;
        var next := Write(items[0], depth + 1, pretty).value + After(tail, depth, pretty, ']', rest);
        Skip(s[1..]) == next && !Starts(next, ']')
  {
    var body := WriteItems(items, depth + 1, pretty, true).value;
    EnclosedIs('[', body, items == [], depth, pretty, ']', rest);
    hide Write, WriteItems, Gap, Skip, After, Enclosed;
    var s := Enclosed('[', Some(body), items == [], depth, pretty, ']').value + rest;
    SkipStops(s);
    if items == [] {
      SkipStops(s[1..]);
    } else {
      ItemsParts(items, depth + 1, pretty, true);
      TextStarts(items[0], depth + 1, pretty);
      var head := Write(items[0], depth + 1, pretty).value;
      var tail := WriteItems(items[1..], depth + 1, pretty, false).value;
      AfterSplits(true, Gap(depth + 1, pretty), head, tail, depth, pretty, ']', rest);
      FirstThen(depth, pretty, head + After(tail, depth, pretty, ']', rest));
    }
  }

  /** The gap before the first item is passed over. */
  lemma FirstThen(depth: nat, pretty: bool, next: string)
    requires next != [] && !IsSpace(next[0])
    ensures Skip(Comma(true) + (Gap(depth + 1, pretty) + next)) == next
  {
    hide Gap, Skip;
    assert "" + (Gap(depth + 1, pretty) + next) == Gap(depth + 1, pretty) + next;
    SkipGap(depth + 1, pretty, next);
  }

  /** An array reads back. */
  lemma {:induction false} ArrayReads(items: seq<Value>, depth: nat, pretty: bool, rest: string)
    requires WriteItems(items, depth + 1, pretty, true).Some? && depth <= MAX_DEPTH
    ensures
      var text := Enclosed('[', WriteItems(items, depth + 1, pretty, true), items == [], depth, pretty, ']').value;
      if AllFit(items, depth + 1) then ReadValue(text + rest, depth) == Ok(Taken(Vector(CanonAll(items)), rest))
      else ReadValue(text + rest, depth).Err?
    decreases items, 1
  {
    hide Write, ReadValue, ReadItems, Skip, Canon, Fits, After, Enclosed;
    ArrayOpens(items, depth, pretty, rest);
    var text := Enclosed('[', WriteItems(items, depth + 1, pretty, true), items == [], depth, pretty, ']').value;
    ReadsArray(text + rest, depth);
    if items == [] {
      assert ("]" + rest)[1..] == rest;
    } else {
      hide WriteItems, CanonAll, AllFit;
      ItemsRead(items, depth + 1, pretty, depth, [], rest);
      assert [] + CanonAll(items) == CanonAll(items);
    }
  }

  lemma ReadsArray(s: string, depth: nat)
    requires depth <= MAX_DEPTH && Starts(s, '[') && Skip(s) == s
    ensures ReadValue(s, depth) ==
      if Starts(Skip(s[1..]), ']') then Ok(Taken(Vector([]), Skip(s[1..])[1..]))
      else ReadItems(Skip(s[1..]), depth + 1, [])
  {
    hide ReadItems;
  }

  /** The reader on the text of any value that has one. */
  lemma {:induction false} ValueReads(v: Value, depth: nat, pretty: bool, rest: string)
    requires Write(v, depth, pretty).Some? && Delimited(rest)
    ensures Reads(Write(v, depth, pretty).value, depth, v, rest)
    decreases v, 2
  {
    if depth > MAX_DEPTH {
    } else {
      hide ReadValue;
      match v
      case Nil => ReadsLiteral(v, depth, pretty, rest);
      case Bool(_) => ReadsLiteral(v, depth, pretty, rest);
      case Number(i) => ReadsNumber(i, depth, rest);
      case BigInteger(n) => ReadsNumber(n, depth, rest);
      case Text(s) => ReadsText(s, depth, rest);
      case Vector(items) => ArrayReads(items, depth, pretty, rest);
      case Tuple(items) => ArrayReads(items, depth, pretty, rest);
      case Object(_, entries) => ObjectReads(entries, depth, pretty, rest);
    }
  }

  // ----- Objects -----

  /** One entry reads back. */
  lemma {:induction false} EntryReads(e: Entry, depth: nat, pretty: bool, rest: string)
    requires WriteEntry(e, depth, pretty).Some? && Delimited(rest)
    ensures
      var text := WriteEntry(e, depth, pretty).value;
      if EntryFits(e, depth) then ReadEntry(text + rest, depth) == Ok(Taken((e.key.text, Canon(e.value)), rest))
      else ReadEntry(text + rest, depth).Err?
    decreases e, 3
  {
    hide Quoted, Write, ReadValue, ReadString, Fits, Canon, Skip;
    var value := Write(e.value, depth, pretty).value;
    var key := e.key.text;
    var s := WriteEntry(e, depth, pretty).value + rest;
    var after := Colon(pretty) + value + rest;
    assert s == Quoted(key) + after;
    StringReads(key, after);
    assert after[0] == ':';
    SkipStops(after);
    assert after[1..] == (if pretty then [' '] else []) + (value + rest);
    ValueReads(e.value, depth, pretty, rest);
    SpaceFirst(pretty, value + rest, depth);
  }

  /** A space before a value makes no difference. */
  lemma SpaceFirst(pretty: bool, s: string, depth: nat)
    ensures ReadValue((if pretty then [' '] else []) + s, depth) == ReadValue(s, depth)
  {
    hide ReadValue, Skip;
    if pretty {
      SkipOne(' ', s);
      SkipFirst([' '] + s, s, depth);
    } else {
      assert [] + s == s;
    }
  }

  /** A value is read from where the space before it ends. */
  lemma SkipFirst(s: string, t: string, depth: nat)
    requires Skip(s) == Skip(t)
    ensures ReadValue(s, depth) == ReadValue(t, depth)
  {
    hide ReadArray, ReadObject, ReadNumber, ReadString, Skip;
  }

  /** The keys read so far are new each time. */
  ghost predicate AllNew(done: seq<Entry>, entries: seq<Entry>) {
    DistinctKeys(entries) && forall i, j :: 0 <= i < |done| && 0 <= j < |entries| ==> done[i].key != entries[j].key
  }

  lemma NewStep(done: seq<Entry>, entries: seq<Entry>)
    requires entries != [] && entries[0].key.Text?
    ensures HasKey(done, entries[0].key.text) ==> !AllNew(done, entries)
    ensures !HasKey(done, entries[0].key.text) ==>
      (AllNew(done, entries) <==> AllNew(done + [CanonEntry(entries[0])], entries[1..]))
  {
    hide Canon;
    var more := done + [CanonEntry(entries[0])];
    var rest := entries[1..];
    if AllNew(more, rest) && !HasKey(done, entries[0].key.text) {
      forall i, j | 0 <= i < j < |entries| ensures entries[i].key != entries[j].key {
        if i == 0 {
          assert more[|done|].key == entries[0].key;
          assert rest[j - 1] == entries[j];
        } else {
          assert rest[i - 1].key != rest[j - 1].key;
        }
      }
      forall i, j | 0 <= i < |done| && 0 <= j < |entries| ensures done[i].key != entries[j].key {
        if j > 0 {
          assert more[i] == done[i] && rest[j - 1] == entries[j];
        }
      }
    }
  }

  lemma {:induction false} EntriesRead(
    entries: seq<Entry>, depth: nat, pretty: bool, close: nat, done: seq<Entry>, rest: string)
    requires entries != [] && WriteEntry(entries[0], depth, pretty).Some?
    requires WriteEntries(entries[1..], depth, pretty, false).Some?
    ensures
      var text := WriteEntry(entries[0], depth, pretty).value
                  + After(WriteEntries(entries[1..], depth, pretty, false).value, close, pretty, '}', rest);
      if EntriesFit(entries, depth) && AllNew(done, entries)
      then ReadEntries(text, depth, done) == Ok(Taken(Object(OrderedMap, done + CanonEntries(entries)), rest))
      else ReadEntries(text, depth, done).Err?
    decreases entries, 4
  {
    hide WriteEntry, ReadEntry, ReadEntries, Canon, EntryFits, After, Skip, AllNew, HasKey;
    assert EntriesFit([], depth);
    var e := entries[0];
    assert e.key.Text? by { EntryKey(e, depth, pretty); }
    var head := WriteEntry(e, depth, pretty).value;
    var tail := WriteEntries(entries[1..], depth, pretty, false).value;
    var after := After(tail, close, pretty, '}', rest);
    var s := head + after;
    EntryTail(entries[1..], depth, pretty, close, rest);
    EntryReads(e, depth, pretty, after);
    NewStep(done, entries);
    if !EntryFits(e, depth) {
      EntryFails(s, depth, done);
    } else if HasKey(done, e.key.text) {
      EntryRepeats(s, depth, done, e.key.text, Canon(e.value), after);
    } else {
      var more := done + [CanonEntry(e)];
      assert CanonEntry(e) == Entry(Text(e.key.text), Canon(e.value));
      if entries[1..] == [] {
        AfterNothing(close, pretty, '}', rest);
        LastEntry(s, depth, done, e.key.text, Canon(e.value), after, rest);
        assert CanonEntries(entries) == [CanonEntry(e)];
        NoneNew(more);
      } else {
        var others := entries[1..];
        NextEntries(others, depth, pretty, close, rest);
        var next := WriteEntry(others[0], depth, pretty).value
                    + After(WriteEntries(others[1..], depth, pretty, false).value, close, pretty, '}', rest);
        EntriesRead(others, depth, pretty, close, more, rest);
        MoreEntries(s, depth, done, e.key.text, Canon(e.value), after, next);
        assert more + CanonEntries(others) == done + CanonEntries(entries);
      }
    }
  }

  lemma EntryKey(e: Entry, depth: nat, pretty: bool)
    requires WriteEntry(e, depth, pretty).Some?
    ensures e.key.Text?
  {
    hide Write;
  }

  lemma NoneNew(done: seq<Entry>)
    ensures AllNew(done, [])
  {
  }

  lemma EntryFails(s: string, depth: nat, done: seq<Entry>)
    requires ReadEntry(s, depth).Err?
    ensures ReadEntries(s, depth, done).Err?
  {
    hide ReadEntry;
  }

  lemma EntryRepeats(s: string, depth: nat, done: seq<Entry>, key: string, v: Value, after: string)
    requires ReadEntry(s, depth) == Ok(Taken((key, v), after)) && HasKey(done, key)
    ensures ReadEntries(s, depth, done).Err?
  {
    hide ReadEntry, HasKey;
  }

  lemma LastEntry(s: string, depth: nat, done: seq<Entry>, key: string, v: Value, after: string, rest: string)
    requires ReadEntry(s, depth) == Ok(Taken((key, v), after)) && !HasKey(done, key) && Skip(after) == "}" + rest
    ensures ReadEntries(s, depth, done) == Ok(Taken(Object(OrderedMap, done + [Entry(Text(key), v)]), rest))
  {
    hide ReadEntry, Skip, HasKey;
    assert ("}" + rest)[1..] == rest;
  }

  lemma MoreEntries(s: string, depth: nat, done: seq<Entry>, key: string, v: Value, after: string, next: string)
    requires ReadEntry(s, depth) == Ok(Taken((key, v), after)) && !HasKey(done, key)
    requires Starts(Skip(after), ',') && Skip(Skip(after)[1..]) == next && !Starts(next, '}')
    ensures ReadEntries(s, depth, done) == ReadEntries(next, depth, done + [Entry(Text(key), v)])
  {
    hide ReadEntry, Skip, HasKey;
  }

  lemma EntryTail(entries: seq<Entry>, depth: nat, pretty: bool, close: nat, rest: string)
    requires WriteEntries(entries, depth, pretty, false).Some?
    ensures Delimited(After(WriteEntries(entries, depth, pretty, false).value, close, pretty, '}', rest))
  {
    hide WriteEntry, Spaces;
    var s := After(WriteEntries(entries, depth, pretty, false).value, close, pretty, '}', rest);
    assert s[0] == if entries != [] then ',' else if pretty then '\n' else '}';
  }

  lemma EntriesParts(entries: seq<Entry>, depth: nat, pretty: bool, first: bool)
    requires entries != [] && WriteEntries(entries, depth, pretty, first).Some?
    ensures WriteEntry(entries[0], depth, pretty).Some? && WriteEntries(entries[1..], depth, pretty, false).Some?
    ensures WriteEntries(entries, depth, pretty, first).value ==
            Comma(first) + Gap(depth, pretty) + WriteEntry(entries[0], depth, pretty).value
            + WriteEntries(entries[1..], depth, pretty, false).value
    ensures Starts(WriteEntry(entries[0], depth, pretty).value, '"')
  {
    hide Write;
  }

  lemma NextEntries(entries: seq<Entry>, depth: nat, pretty: bool, close: nat, rest: string)
    requires entries != [] && WriteEntries(entries, depth, pretty, false).Some?
    ensures WriteEntry(entries[0], depth, pretty).Some? && WriteEntries(entries[1..], depth, pretty, false).Some?
    ensures
      var after := After(WriteEntries(entries, depth, pretty, false).value, close, pretty, '}', rest);
      var next := WriteEntry(entries[0], depth, pretty).value
                  + After(WriteEntries(entries[1..], depth, pretty, false).value, close, pretty, '}', rest);
      Starts(Skip(after), ',') && Skip(Skip(after)[1..]) == next && !Starts(next, '}')
  {
    hide WriteEntry, WriteEntries, Gap, Skip, After;
    EntriesParts(entries, depth, pretty, false);
    var head := WriteEntry(entries[0], depth, pretty).value;
    var tail := WriteEntries(entries[1..], depth, pretty, false).value;
    AfterSplits(false, Gap(depth, pretty), head, tail, close, pretty, '}', rest);
    CommaThen(depth, pretty, head + After(tail, close, pretty, '}', rest));
  }

  /** What stands inside the brace of a written object. */
  lemma ObjectOpens(entries: seq<Entry>, depth: nat, pretty: bool, rest: string)
    requires WriteEntries(entries, depth + 1, pretty, true).Some?
    ensures
      var body := WriteEntries(entries, depth + 1, pretty, true);
      Enclosed('{', body, entries == [], depth, pretty, '}').Some? &&
      var s := Enclosed('{', body, entries == [], depth, pretty, '}').value + rest;
      Starts(s, '{') && Skip(s) == s &&
      if entries == [] then Skip(s[1..]) == "}" + rest
      else
        WriteEntry(entries[0], depth + 1, pretty).Some? &&
        WriteEntries(entries[1..], depth + 1, pretty, false).Some? &&
        var tail := WriteEntries(entries[1..], depth + 1, pretty, false).value;
        var next := WriteEntry(entries[0], depth + 1, pretty).value + After(tail, depth, pretty, '}', rest);
        Skip(s[1..]) == next && !Starts(next, '}')
  {
    var body := WriteEntries(entries, depth + 1, pretty, true).value;
    EnclosedIs('{', body, entries == [], depth, pretty, '}', rest);
    hide WriteEntry, WriteEntries, Gap, Skip, After, Enclosed;
    var s := Enclosed('{', Some(body), entries == [], depth, pretty, '}').value + rest;
    SkipStops(s);
    if entries == [] {
      SkipStops(s[1..]);
    } else {
      EntriesParts(entries, depth + 1, pretty, true);
      var head := WriteEntry(entries[0], depth + 1, pretty).value;
      var tail := WriteEntries(entries[1..], depth + 1, pretty, false).value;
      AfterSplits(true, Gap(depth + 1, pretty), head, tail, depth, pretty, '}', rest);
      FirstThen(depth, pretty, head + After(tail, depth, pretty, '}', rest));
    }
  }

  lemma {:induction false} ObjectReads(entries: seq<Entry>, depth: nat, pretty: bool, rest: string)
    requires WriteEntries(entries, depth + 1, pretty, true).Some? && depth <= MAX_DEPTH
    ensures
      var body := WriteEntries(entries, depth + 1, pretty, true);
      var text := Enclosed('{', body, entries == [], depth, pretty, '}').value;
      if DistinctKeys(entries) && EntriesFit(entries, depth + 1)
      then ReadValue(text + rest, depth) == Ok(Taken(Object(OrderedMap, CanonEntries(entries)), rest))
      else ReadValue(text + rest, depth).Err?
    decreases entries, 5
  {
    hide WriteEntry, ReadValue, ReadEntries, Skip, CanonEntry, EntryFits, After, Enclosed;
    ObjectOpens(entries, depth, pretty, rest);
    var text := Enclosed('{', WriteEntries(entries, depth + 1, pretty, true), entries == [], depth, pretty, '}').value;
    ReadsObject(text + rest, depth);
    if entries == [] {
      assert ("}" + rest)[1..] == rest;
    } else {
      hide WriteEntries, CanonEntries, EntriesFit;
      EntriesRead(entries, depth + 1, pretty, depth, [], rest);
      assert [] + CanonEntries(entries) == CanonEntries(entries);
    }
  }

  lemma ReadsObject(s: string, depth: nat)
    requires depth <= MAX_DEPTH && Starts(s, '{') && Skip(s) == s
    ensures ReadValue(s, depth) ==
      if Starts(Skip(s[1..]), '}') then Ok(Taken(Object(OrderedMap, []), Skip(s[1..])[1..]))
      else ReadEntries(Skip(s[1..]), depth + 1, [])
  {
    hide ReadEntries;
  }

  /** Compact and pretty text read back to the value, exactly when it nests no deeper than the reader goes. */
  lemma JsonRoundTrip(v: Value, pretty: bool)
    requires Write(v, 0, pretty).Some?
    ensures
      var back := Read(Write(v, 0, pretty).value);
      if Fits(v, 0) then back == Ok(Canon(v)) else back.Err?
  {
    hide Write, ReadValue, Fits, Canon;
    var text := Write(v, 0, pretty).value;
    ValueReads(v, 0, pretty, "");
    assert text + "" == text;
  }
}
