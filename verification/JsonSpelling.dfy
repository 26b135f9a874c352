/** Space, characters and numbers: the reader takes exactly what the grammar spells. */
module JsonSpelling {
  import opened Prelude
  import opened JsonText
  import opened JsonLaws
  import opened JsonGrammar
  import Decimal

  // ----- Space -----

  lemma BlankIsSpace(c: char)
    ensures c in BLANKS <==> IsSpace(c)
  {
    assert BLANKS[0] == ' ' && BLANKS[1] == '\t' && BLANKS[2] == '\n' && BLANKS[3] == '\r';
  }

  lemma {:induction false} BlankSkipped(space: Blank, s: string)
    ensures Skip(space + s) == Skip(s)
  {
    if space == [] {
      assert space + s == s;
    } else {
      assert space[0] in space;
      BlankIsSpace(space[0]);
      BlankSkipped(space[1..], s);
      assert space + s == [space[0]] + (space[1..] + s);
      SkipOne(space[0], space[1..] + s);
    }
  }

  /** What is skipped is blank, and what is left does not begin with a blank. */
  lemma {:induction false} SkippedBlank(s: string) returns (space: Blank)
    ensures s == space + Skip(s)
    ensures Skip(s) == [] || !IsSpace(Skip(s)[0])
  {
    if s != [] && IsSpace(s[0]) {
      var more := SkippedBlank(s[1..]);
      BlankIsSpace(s[0]);
      space := [s[0]] + more;
    } else {
      space := [];
    }
  }

  // ----- Characters -----

  lemma HexAt(i: nat)
    requires i < 16
    ensures LOWER[i] as int == if i < 10 then '0' as int + i else 'a' as int + i - 10
    ensures UPPER[i] as int == if i < 10 then '0' as int + i else 'A' as int + i - 10
  {
  }

  /** The value of a hexadecimal digit is its place in the small or the capital digits. */
  lemma HexIs(c: char, d: nat)
    ensures HexValue(c) == Some(d) <==> d < 16 && (LOWER[d] == c || UPPER[d] == c)
  {
    if d < 16 { HexAt(d); }
  }

  /** A digit of the grammar is worth its place, and every digit the reader knows is in the grammar. */
  lemma HexSpelledIs(h: HexPlace)
    ensures HexValue(HexSpelled(h)) == Some(h.place)
  {
    HexIs(HexSpelled(h), h.place);
  }

  lemma HexFound(c: char) returns (h: HexPlace)
    requires HexValue(c).Some?
    ensures HexSpelled(h) == c && h.place == HexValue(c).value
  {
    var d := HexValue(c).value;
    HexIs(c, d);
    h := Hex(d, LOWER[d] != c);
  }

  lemma ReadHexDigit(s: string, h: HexPlace, count: nat, value: nat)
    requires count > 0 && s != [] && s[0] == HexSpelled(h)
    ensures ReadHex(s, count, value) == ReadHex(s[1..], count - 1, value * 16 + h.place)
  {
    HexSpelledIs(h);
  }

  /** Four digits of the grammar read to the number they stand for, small or capital. */
  lemma FourDigitsRead(a: HexPlace, b: HexPlace, c: HexPlace, d: HexPlace, rest: string)
    ensures
      var text := [HexSpelled(a), HexSpelled(b), HexSpelled(c), HexSpelled(d)];
      ReadHex(text + rest, 4, 0) == Ok(Taken(FourDigits(a, b, c, d), rest))
  {
    hide ReadHex, HexSpelled;
    var s := [HexSpelled(a), HexSpelled(b), HexSpelled(c), HexSpelled(d)] + rest;
    assert s[1..][1..] == s[2..] && s[2..][1..] == s[3..] && s[3..][1..] == rest;
    ReadHexDigit(s, a, 4, 0);
    ReadHexDigit(s[1..], b, 3, a.place);
    ReadHexDigit(s[2..], c, 2, a.place * 16 + b.place);
    ReadHexDigit(s[3..], d, 1, (a.place * 16 + b.place) * 16 + c.place);
    ReadHexDone(rest, FourDigits(a, b, c, d));
  }

  lemma NextHex(s: string, count: nat, value: nat) returns (h: HexPlace)
    requires count > 0 && ReadHex(s, count, value).Ok?
    ensures s != [] && s[0] == HexSpelled(h)
    ensures ReadHex(s, count, value) == ReadHex(s[1..], count - 1, value * 16 + h.place)
  {
    h := HexFound(s[0]);
  }

  lemma FourDigitsFound(s: string) returns (a: HexPlace, b: HexPlace, c: HexPlace, d: HexPlace)
    requires ReadHex(s, 4, 0).Ok?
    ensures
      var t := ReadHex(s, 4, 0).value;
      t.value == FourDigits(a, b, c, d) &&
      s == [HexSpelled(a), HexSpelled(b), HexSpelled(c), HexSpelled(d)] + t.rest
  {
    hide ReadHex, HexSpelled;
    a := NextHex(s, 4, 0);
    b := NextHex(s[1..], 3, a.place);
    assert s[1..][1..] == s[2..];
    c := NextHex(s[2..], 2, a.place * 16 + b.place);
    assert s[2..][1..] == s[3..];
    d := NextHex(s[3..], 1, (a.place * 16 + b.place) * 16 + c.place);
    assert s[3..][1..] == s[4..];
    ReadHexDone(s[4..], FourDigits(a, b, c, d));
  }

  /** Four digits spell a character, as after a backslash and a `u`. */
  ghost predicate UnicodeSpells(s: string, c: char, rest: string) {
    exists m: Mark :: m.Unicode? && MarkMeant(m) == c && "\\u" + s == MarkSpelled(m) + rest
  }

  /** Four digits are read exactly where they spell a character, small and capital digits alike. */
  lemma UnicodeExactly(s: string, c: char, rest: string)
    ensures ReadUnicode(s) == Ok(Taken(c, rest)) <==> UnicodeSpells(s, c, rest)
  {
    hide ReadHex, HexSpelled;
    if m: Mark :| m.Unicode? && MarkMeant(m) == c && "\\u" + s == MarkSpelled(m) + rest {
      assert s == ("\\u" + s)[2..];
      assert s == [HexSpelled(m.first), HexSpelled(m.second), HexSpelled(m.third), HexSpelled(m.fourth)] + rest;
      FourDigitsRead(m.first, m.second, m.third, m.fourth, rest);
    }
    if ReadUnicode(s) == Ok(Taken(c, rest)) { var m := UnicodeFound(s); }
  }

  /** Each spelling of a scalar value below 2^16 reads to it: every digit may be small or capital. */
  lemma ScalarReads(n: nat, capitals: seq<bool>, rest: string)
    requires n < 0x1_0000 && !(0xd800 <= n <= 0xdfff) && |capitals| == 4
    ensures
      var a, b := Hex(n / 4096, capitals[0]), Hex(n / 256 % 16, capitals[1]);
      var c, d := Hex(n / 16 % 16, capitals[2]), Hex(n % 16, capitals[3]);
      n / 4096 < 16 &&
      ReadUnicode([HexSpelled(a), HexSpelled(b), HexSpelled(c), HexSpelled(d)] + rest) == Ok(Taken(n as char, rest))
  {
    hide ReadHex, HexSpelled;
    HexParts(n);
    var a, b := Hex(n / 4096, capitals[0]), Hex(n / 256 % 16, capitals[1]);
    var c, d := Hex(n / 16 % 16, capitals[2]), Hex(n % 16, capitals[3]);
    FourDigitsRead(a, b, c, d, rest);
  }

  lemma ShortRead(which: nat, rest: string)
    requires which < |SHORT|
    ensures ReadEscape([SHORT[which]] + rest) == Ok(Taken(SHORT_CODES[which] as char, rest))
  {
    hide ReadUnicode;
    assert ([SHORT[which]] + rest)[1..] == rest;
  }

  /** One mark of the grammar reads as the character it means. */
  lemma MarkReads(m: Mark, rest: string, out: string)
    ensures ReadChars(MarkSpelled(m) + rest, out) == ReadChars(rest, out + [MarkMeant(m)])
  {
    hide ReadHex;
    var s := MarkSpelled(m) + rest;
    match m
    case Plain(c) => assert s[1..] == rest;
    case Short(which) =>
      ShortRead(which, rest);
      assert s[1..] == [SHORT[which]] + rest;
    case Unicode(a, b, c, d) =>
      FourDigitsRead(a, b, c, d, rest);
      assert s[1..][1..] == [HexSpelled(a), HexSpelled(b), HexSpelled(c), HexSpelled(d)] + rest;
  }

  lemma {:induction false} MarksRead(marks: seq<Mark>, rest: string, out: string)
    ensures ReadChars(MarksSpelled(marks) + "\"" + rest, out) == Ok(Taken(out + MarksMeant(marks), rest))
    decreases |marks|
  {
    hide ReadChars, MarkSpelled, MarkMeant, IsMark;
    if marks == [] {
      assert "" + "\"" + rest == ['"'] + rest;
      QuoteEnds(rest, out);
      assert out + "" == out;
    } else {
      hide MarksSpelled, MarksMeant;
      var m, more := marks[0], marks[1..];
      assert marks == [m] + more;
      MarksGrow(m, more, rest, out);
      MarkReads(m, MarksSpelled(more) + "\"" + rest, out);
      MarksRead(more, rest, out + [MarkMeant(m)]);
    }
  }

  lemma QuotedReads(marks: seq<Mark>, rest: string)
    ensures ReadString(QuotedMarks(marks) + rest) == Ok(Taken(MarksMeant(marks), rest))
  {
    hide ReadChars, MarksSpelled, MarksMeant;
    MarksRead(marks, rest, "");
    assert (QuotedMarks(marks) + rest)[1..] == MarksSpelled(marks) + "\"" + rest;
    assert "" + MarksMeant(marks) == MarksMeant(marks);
  }

  /** Which letter an escape begins with. */
  lemma ShortFound(s: string) returns (which: nat)
    requires ReadEscape(s).Ok? && s[0] != 'u'
    ensures which < |SHORT| && s == [SHORT[which]] + ReadEscape(s).value.rest
    ensures ReadEscape(s).value.value == SHORT_CODES[which] as char
  {
    hide ReadUnicode;
    which :=
      if s[0] == '"' then 0 else if s[0] == '\\' then 1 else if s[0] == '/' then 2 else if s[0] == 'b' then 3
      else if s[0] == 'f' then 4 else if s[0] == 'n' then 5 else if s[0] == 'r' then 6 else 7;
    assert s == [s[0]] + s[1..];
  }

  lemma UnicodeFound(s: string) returns (m: Mark)
    requires ReadUnicode(s).Ok?
    ensures MarkSpelled(m) == "\\u" + s[..|s| - |ReadUnicode(s).value.rest|]
    ensures MarkMeant(m) == ReadUnicode(s).value.value
    ensures "\\u" + s == MarkSpelled(m) + ReadUnicode(s).value.rest
  {
    hide ReadHex, HexSpelled;
    var a, b, c, d := FourDigitsFound(s);
    m := Unicode(a, b, c, d);
  }

  /** The first character read inside a string comes from a mark. */
  lemma MarkFound(s: string, out: string) returns (m: Mark, rest: string)
    requires s != [] && s[0] != '"' && ReadChars(s, out).Ok?
    ensures s == MarkSpelled(m) + rest && |rest| < |s|
    ensures ReadChars(s, out) == ReadChars(rest, out + [MarkMeant(m)])
  {
    hide ReadUnicode;
    if s[0] != '\\' {
      m, rest := Plain(s[0]), s[1..];
      assert s == [s[0]] + s[1..];
    } else {
      var e := s[1..];
      assert s == ['\\'] + e && e == [e[0]] + e[1..];
      rest := ReadEscape(e).value.rest;
      if e[0] == 'u' {
        m := UnicodeFound(e[1..]);
        assert s == "\\u" + e[1..];
      } else {
        var which := ShortFound(e);
        m := Short(which);
        assert s == ['\\', SHORT[which]] + rest;
      }
    }
  }

  lemma {:induction false} MarksFound(s: string, out: string) returns (marks: seq<Mark>)
    requires ReadChars(s, out).Ok?
    ensures
      var t := ReadChars(s, out).value;
      s == MarksSpelled(marks) + "\"" + t.rest && t.value == out + MarksMeant(marks)
    decreases |s|
  {
    CharsGoOn(s, out);
    hide ReadChars, MarkSpelled, MarkMeant, IsMark;
    var t := ReadChars(s, out).value;
    if s[0] == '"' {
      marks := [];
      assert s == "" + "\"" + t.rest && out == out + "";
    } else {
      hide MarksSpelled, MarksMeant;
      var m, rest := MarkFound(s, out);
      var more := MarksFound(rest, out + [MarkMeant(m)]);
      marks := [m] + more;
      MarksGrow(m, more, t.rest, out);
    }
  }

  lemma MarksGrow(m: Mark, more: seq<Mark>, rest: string, out: string)
    ensures MarksSpelled([m] + more) + "\"" + rest == MarkSpelled(m) + (MarksSpelled(more) + "\"" + rest)
    ensures out + MarksMeant([m] + more) == out + [MarkMeant(m)] + MarksMeant(more)
  {
    hide MarkSpelled, MarkMeant, IsMark;
    MarksParts(m, more);
  }

  lemma CharsGoOn(s: string, out: string)
    requires ReadChars(s, out).Ok?
    ensures s != [] && (s[0] == '"' ==> ReadChars(s, out) == Ok(Taken(out, s[1..])))
  {
  }

  lemma MarksParts(m: Mark, more: seq<Mark>)
    ensures MarksSpelled([m] + more) == MarkSpelled(m) + MarksSpelled(more)
    ensures MarksMeant([m] + more) == [MarkMeant(m)] + MarksMeant(more)
  {
    assert ([m] + more)[1..] == more;
  }

  lemma QuotedFound(s: string) returns (marks: seq<Mark>)
    requires ReadString(s).Ok?
    ensures s == QuotedMarks(marks) + ReadString(s).value.rest && ReadString(s).value.value == MarksMeant(marks)
  {
    hide ReadChars, MarksSpelled, MarksMeant;
    marks := MarksFound(s[1..], "");
    assert "" + MarksMeant(marks) == MarksMeant(marks);
    assert s == ['"'] + s[1..];
  }

  // ----- Numbers -----

  lemma DigitAt(i: nat)
    requires i < 10
    ensures DIGITS[i] == Decimal.Digit(i) && Decimal.IsDigit(DIGITS[i]) && Decimal.DigitValue(DIGITS[i]) == i
  {
  }

  lemma {:induction false} PlaceValueLast(digits: seq<nat>, d: nat)
    ensures PlaceValue(digits + [d]) == PlaceValue(digits) * 10 + d
  {
    var all := digits + [d];
    if digits == [] {
      assert all == [d] && all[1..] == [];
      assert PlaceValue(all) == d * Ten(0) + PlaceValue(all[1..]);
    } else {
      assert all[0] == digits[0] && all[1..] == digits[1..] + [d];
      PlaceValueLast(digits[1..], d);
      var k := |digits| - 1;
      assert PlaceValue(all) == digits[0] * Ten(k + 1) + (PlaceValue(digits[1..]) * 10 + d);
      assert digits[0] * Ten(k + 1) == digits[0] * Ten(k) * 10;
    }
  }

  /** Counting up digit by digit gives the sum of the places. */
  lemma {:induction false} DigitsMean(digits: seq<nat>)
    requires AllDigits(digits)
    ensures forall c <- DigitsSpelled(digits) :: Decimal.IsDigit(c)
    ensures Decimal.DigitsValue(DigitsSpelled(digits)) == PlaceValue(digits)
    decreases |digits|
  {
    var s := DigitsSpelled(digits);
    forall i | 0 <= i < |s| ensures Decimal.IsDigit(s[i]) { DigitAt(digits[i]); }
    if digits != [] {
      var k := |digits| - 1;
      var front, d := digits[..k], digits[k];
      assert digits == front + [d] && s[..k] == DigitsSpelled(front);
      DigitsMean(front);
      PlaceValueLast(front, d);
      DigitAt(d);
    }
  }

  lemma DigitsFound(s: string) returns (digits: seq<nat>)
    requires forall i :: 0 <= i < |s| ==> Decimal.IsDigit(s[i])
    ensures AllDigits(digits) && DigitsSpelled(digits) == s
  {
    digits := seq(|s|, i requires 0 <= i < |s| => Decimal.DigitValue(s[i]));
    forall i | 0 <= i < |s| ensures digits[i] < 10 && DIGITS[digits[i]] == s[i] { DigitAt(digits[i]); }
  }

  lemma NumeralStarts(digits: Numeral)
    ensures
      var s := DigitsSpelled(digits);
      s != [] && Decimal.IsDigit(s[0]) && (s[0] == '0' <==> digits[0] == 0)
  {
    DigitAt(digits[0]);
  }

  lemma NumeralLength(digits: Numeral, rest: string)
    requires Delimited(rest)
    ensures NumberLength(DigitsSpelled(digits) + rest) == Ok(|digits|)
  {
    NumeralStarts(digits);
    DigitsMean(digits);
    var text := DigitsSpelled(digits);
    hide DigitsSpelled, AllDigits;
    var s := text + rest;
    assert s[0] == text[0];
    if s[0] == '0' {
      assert |s| > 1 ==> s[1] == rest[0];
    } else {
      DigitRunIs(text, rest);
    }
  }

  /** A number of the grammar reads to the integer it stands for. */
  lemma IntegerReads(minus: bool, digits: Numeral, rest: string)
    requires Delimited(rest)
    ensures ReadNumber(IntegerSpelled(minus, digits) + rest) == Ok(Taken(IntegerMeant(minus, digits), rest))
  {
    NumeralStarts(digits);
    NumeralLength(digits, rest);
    var text, number := DigitsSpelled(digits), IntegerSpelled(minus, digits);
    IntegerParsed(minus, digits);
    hide DigitsSpelled, NumberLength, PlaceValue, IsNumeral, Decimal.ParseDecimal, IntegerMeant;
    var s := number + rest;
    var sign := if minus then 1 else 0;
    assert Starts(s, '-') <==> minus;
    assert s[sign..] == text + rest;
    assert s[..sign + |text|] == number && s[sign + |text|..] == rest;
  }

  lemma IntegerParsed(minus: bool, digits: Numeral)
    ensures
      var n := Decimal.ParseDecimal(IntegerSpelled(minus, digits));
      n.Some? && Compact(n.value) == IntegerMeant(minus, digits)
  {
    NumeralStarts(digits);
    DigitsMean(digits);
    SignedParsed(minus, DigitsSpelled(digits));
    hide DigitsSpelled, PlaceValue, Decimal.DigitsValue, Decimal.ParseDecimal, IsNumeral;
  }

  lemma SignedParsed(minus: bool, text: string)
    requires text != [] && forall c <- text :: Decimal.IsDigit(c)
    ensures
      var n := if minus then 0 - Decimal.DigitsValue(text) as int else Decimal.DigitsValue(text) as int;
      Decimal.ParseDecimal((if minus then "-" else "") + text) == Some(n)
  {
    hide Decimal.DigitsValue;
    assert text[0] in text;
    if minus {
      assert ("-" + text)[1..] == text;
    } else {
      assert "" + text == text;
    }
  }

  /** What is read as a number is spelled as one. */
  lemma IntegerFound(s: string) returns (minus: bool, digits: Numeral)
    requires ReadNumber(s).Ok?
    ensures
      var t := ReadNumber(s).value;
      s == IntegerSpelled(minus, digits) + t.rest && t.value == IntegerMeant(minus, digits) && Delimited(t.rest)
  {
    minus := Starts(s, '-');
    var sign := if minus then 1 else 0;
    var n := NumberLength(s[sign..]).value;
    var body := s[sign..][..n];
    var found := LengthFound(s[sign..]);
    digits := found;
    var rest := ReadNumber(s).value.rest;
    assert rest == s[sign..][n..];
    assert s == IntegerSpelled(minus, digits) + rest;
    IntegerReads(minus, digits, rest);
  }

  lemma LengthFound(s: string) returns (digits: Numeral)
    requires NumberLength(s).Ok?
    ensures
      var n := NumberLength(s).value;
      DigitsSpelled(digits) == s[..n] && (n < |s| ==> !Decimal.IsDigit(s[n]))
  {
    var n := NumberLength(s).value;
    var found := DigitsFound(s[..n]);
    DigitAt(found[0]);
    digits := found;
  }
}
