/**
 How the writer lays out its text: among the spellings of a value, the neat one.
 Compact text has no space at all; pretty text has every item on a line of its
 own, two spaces in for every level, and one space after a colon.
 */
module JsonNeat {
  import opened Prelude
  import opened JsonText
  import opened JsonLaws
  import opened JsonGrammar
  import opened JsonSpelling
  import Decimal

  // ----- Neat trees -----

  /** A new line and two spaces for every level, or nothing. */
  predicate NeatGap(s: string, depth: nat, pretty: bool) {
    if pretty then |s| == 1 + 2 * depth && s[0] == '\n' && forall i :: 0 < i < |s| ==> s[i] == ' '
    else s == ""
  }

  /** A character stands for itself where it can, else by its letter, else by four small digits. */
  predicate NeatMark(m: Mark) {
    match m
    case Plain(_) => true
    case Short(which) => SHORT_CODES[which] < 0x20 || SHORT[which] == '"' || SHORT[which] == '\\'
    case Unicode(a, b, c, d) =>
      FourDigits(a, b, c, d) < 0x20 && FourDigits(a, b, c, d) !in SHORT_CODES &&
      !a.capital && !b.capital && !c.capital && !d.capital
  }

  predicate NeatMarks(marks: seq<Mark>) { forall i :: 0 <= i < |marks| ==> NeatMark(marks[i]) }

  predicate Neat(t: Tree, depth: nat, pretty: bool)
    decreases t, 1
  {
    match t
    case Integer(minus, digits) => minus ==> digits != [0]
    case Chars(marks) => NeatMarks(marks)
    case Array(space, items) => space == "" && NeatItems(items, depth, pretty)
    case Members(space, members) => space == "" && NeatMembers(members, depth, pretty)
    case _ => true
  }

  /** Each item one level in, and the bracket after the last back at its level. */
  predicate NeatItems(items: seq<Padded>, depth: nat, pretty: bool)
    decreases items, 0
  {
    items == [] ||
    (NeatPadded(items[0], depth, pretty) && NeatGap(items[0].before, depth + 1, pretty) &&
     (if |items| == 1 then NeatGap(items[0].after, depth, pretty) else items[0].after == "") &&
     NeatItems(items[1..], depth, pretty))
  }

  predicate NeatPadded(p: Padded, depth: nat, pretty: bool)
    decreases p, 2
  {
    Neat(p.tree, depth + 1, pretty)
  }

  predicate NeatMembers(members: seq<Member>, depth: nat, pretty: bool)
    decreases members, 0
  {
    members == [] ||
    (NeatMember(members[0], depth, pretty) &&
     (if |members| == 1 then NeatGap(members[0].value.after, depth, pretty) else members[0].value.after == "") &&
     NeatMembers(members[1..], depth, pretty))
  }

  predicate NeatMember(m: Member, depth: nat, pretty: bool)
    decreases m, 3
  {
    NeatGap(m.before, depth + 1, pretty) && NeatMarks(m.key) && m.between == "" &&
    m.value.before == (if pretty then " " else "") && NeatPadded(m.value, depth, pretty)
  }

  // ----- Characters and numbers as written -----

  lemma {:induction false} SpacesAre(depth: nat)
    ensures |Spaces(depth)| == 2 * depth && forall c <- Spaces(depth) :: c == ' '
  {
    if depth > 0 { SpacesAre(depth - 1); }
  }

  lemma GapIsNeat(depth: nat, pretty: bool)
    ensures IsBlank(Gap(depth, pretty)) && NeatGap(Gap(depth, pretty), depth, pretty)
  {
    SpacesAre(depth);
    hide Spaces;
    forall c | c in Gap(depth, pretty) ensures c in BLANKS { BlankIsSpace(c); }
    if pretty {
      var s := Gap(depth, pretty);
      forall i | 0 < i < |s| ensures s[i] == ' ' { assert s[i] in Spaces(depth); }
    }
  }

  lemma SmallHex(d: nat)
    requires d < 16
    ensures HexDigit(d) == HexSpelled(Hex(d, false))
  {
    HexAt(d);
  }

  lemma LowHex(n: nat)
    requires n < 0x20
    ensures Hex4(n) == [HexDigit(0), HexDigit(0), HexDigit(n / 16), HexDigit(n % 16)]
  {
    hide HexDigit;
    assert n / 4096 == 0 && n / 256 == 0 && n / 16 < 2;
  }

  lemma ControlNeat(c: char) returns (m: Mark)
    requires Control(c)
    ensures MarkSpelled(m) == Escape(c) && MarkMeant(m) == c && NeatMark(m)
  {
    var n := c as int;
    var a, b := n / 16, n % 16;
    assert a * 16 + b == n;
    m := Unicode(Hex(0, false), Hex(0, false), Hex(a, false), Hex(b, false));
    assert FourDigits(m.first, m.second, m.third, m.fourth) == n;
    LowHex(n);
    SmallHex(0);
    SmallHex(a);
    SmallHex(b);
    hide HexDigit, HexSpelled, Hex4, FourDigits;
  }

  lemma EscapeNeat(c: char) returns (m: Mark)
    ensures MarkSpelled(m) == Escape(c) && MarkMeant(m) == c && NeatMark(m)
  {
    if Control(c) {
      m := ControlNeat(c);
    } else {
      hide Hex4, HexDigit;
      m :=
        if c == '"' then Short(0) else if c == '\\' then Short(1) else if c == BACKSPACE then Short(3)
        else if c == FORM_FEED then Short(4) else if c == '\n' then Short(5) else if c == '\r' then Short(6)
        else if c == '\t' then Short(7) else Plain(c);
    }
  }

  lemma {:induction false} TextNeat(s: string) returns (marks: seq<Mark>)
    ensures MarksSpelled(marks) == Escaped(s) && MarksMeant(marks) == s && NeatMarks(marks)
  {
    hide Escape, MarkSpelled, MarkMeant, IsMark, NeatMark;
    if s == [] {
      marks := [];
    } else {
      var m := EscapeNeat(s[0]);
      var more := TextNeat(s[1..]);
      marks := [m] + more;
      MarksParts(m, more);
      assert s == [s[0]] + s[1..];
    }
  }

  lemma IntegerNeat(n: int) returns (minus: bool, digits: Numeral)
    ensures IntegerSpelled(minus, digits) == Decimal.ToDecimal(n) && IntegerMeant(minus, digits) == Compact(n)
    ensures minus ==> digits != [0]
  {
    hide ReadNumber, Decimal.DigitsOf;
    var text := Decimal.ToDecimal(n);
    assert text + "" == text;
    NumberReads(n, "");
    minus, digits := IntegerFound(text);
    assert IntegerSpelled(minus, digits) + "" == IntegerSpelled(minus, digits);
    SignShows(minus, digits);
    ZeroMeans();
  }

  lemma SignShows(minus: bool, digits: Numeral)
    ensures IntegerSpelled(minus, digits) != [] && (IntegerSpelled(minus, digits)[0] == '-' <==> minus)
  {
    NumeralStarts(digits);
  }

  lemma ZeroMeans()
    ensures IntegerMeant(true, [0]) == Number(0)
  {
    var zero: seq<nat> := [0];
    assert zero[1..] == [];
    assert PlaceValue(zero) == 0 * Ten(0) + PlaceValue(zero[1..]);
  }

  // ----- Values as written -----

  /** The text written for a value is the neat spelling of it. */
  lemma {:induction false} WrittenNeatly(v: Value, depth: nat, pretty: bool) returns (t: Tree)
    requires Write(v, depth, pretty).Some?
    ensures TreeSpelled(t) == Write(v, depth, pretty).value && TreeMeant(t) == Canon(v) && Neat(t, depth, pretty)
    decreases v, 2
  {
    hide IntegerSpelled, IntegerMeant, MarksSpelled, MarksMeant, Escaped, Decimal.ToDecimal, Compact;
    match v
    case Nil => t := Null;
    case Bool(b) => t := if b then True else False;
    case Number(i) =>
      var minus, digits := IntegerNeat(i);
      t := Integer(minus, digits);
    case BigInteger(n) =>
      var minus, digits := IntegerNeat(n);
      t := Integer(minus, digits);
    case Text(s) =>
      var marks := TextNeat(s);
      t := Chars(marks);
    case Vector(items) => t := ArrayNeat(items, depth, pretty);
    case Tuple(items) => t := ArrayNeat(items, depth, pretty);
    case Object(_, entries) => t := ObjectNeat(entries, depth, pretty);
  }

  lemma {:induction false} ArrayNeat(items: seq<Value>, depth: nat, pretty: bool) returns (t: Tree)
    requires WriteItems(items, depth + 1, pretty, true).Some?
    ensures
      Enclosed('[', WriteItems(items, depth + 1, pretty, true), items == [], depth, pretty, ']') == Some(TreeSpelled(t))
    ensures TreeMeant(t) == Vector(CanonAll(items)) && Neat(t, depth, pretty)
    decreases items, 1
  {
    if items == [] {
      t := Array([], []);
      assert "[" + [] + "]" == ['['] + "" + "" + [']'];
    } else {
      hide WriteItems, Gap, CanonAll, ItemsSpelled, ItemsMeant, NeatItems, IsBlank, IsMark, IsNumeral;
      var ps := ItemsNeat(items, depth, pretty, true);
      EmptyIsBlank();
      t := Array([], ps);
      Bracketed("[", WriteItems(items, depth + 1, pretty, true).value, Gap(depth, pretty), "]", ItemsSpelled(ps));
    }
  }

  lemma Bracketed(open: string, body: string, gap: string, close: string, inner: string)
    requires body + gap == "" + inner
    ensures open + body + gap + close == open + inner + close
  {
    assert open + body + gap == open + (body + gap);
    assert "" + inner == inner;
  }

  /** One more item in front. */
  lemma ItemInFront(p: Padded, more: seq<Padded>, depth: nat, pretty: bool)
    requires Neat(p.tree, depth + 1, pretty) && NeatGap(p.before, depth + 1, pretty)
    requires NeatItems(more, depth, pretty)
    requires if more == [] then NeatGap(p.after, depth, pretty) else p.after == ""
    ensures NeatItems([p] + more, depth, pretty)
    ensures ItemsMeant([p] + more) == [TreeMeant(p.tree)] + ItemsMeant(more)
    ensures
      ItemsSpelled([p] + more) ==
      p.before + TreeSpelled(p.tree) + p.after + if more == [] then "" else "," + ItemsSpelled(more)
  {
    hide Neat, NeatGap, TreeMeant, TreeSpelled, IsBlank;
    assert ([p] + more)[1..] == more;
  }

  lemma {:induction false} ItemsNeat(items: seq<Value>, depth: nat, pretty: bool, first: bool)
    returns (ps: seq<Padded>)
    requires items != [] && WriteItems(items, depth + 1, pretty, first).Some?
    ensures ps != [] && ItemsMeant(ps) == CanonAll(items) && NeatItems(ps, depth, pretty)
    ensures
      WriteItems(items, depth + 1, pretty, first).value + Gap(depth, pretty) == Comma(first) + ItemsSpelled(ps)
    decreases items, 0
  {
    ItemsParts(items, depth + 1, pretty, first);
    GapIsNeat(depth + 1, pretty);
    GapIsNeat(depth, pretty);
    NothingNeat(depth, pretty);
    hide Write, Gap, NeatGap, IsBlank, Neat, Canon, TreeMeant, TreeSpelled, NeatItems, ItemsMeant, ItemsSpelled;
    var t := WrittenNeatly(items[0], depth + 1, pretty);
    var tail := WriteItems(items[1..], depth + 1, pretty, false).value;
    var gap, close := Gap(depth + 1, pretty), Gap(depth, pretty);
    var more: seq<Padded>, after: Blank := [], close;
    if |items| > 1 {
      more := ItemsNeat(items[1..], depth, pretty, false);
      after := [];
    }
    var p := Padded(gap, t, after);
    ps := [p] + more;
    ItemInFront(p, more, depth, pretty);
    if |items| > 1 {
      Onward(Comma(first), gap, TreeSpelled(t), tail, close, ItemsSpelled(more));
    } else {
      Closing(Comma(first), gap, TreeSpelled(t), close);
    }
  }

  lemma NothingNeat(depth: nat, pretty: bool)
    ensures NeatItems([], depth, pretty) && NeatMembers([], depth, pretty) && IsBlank("")
    ensures ItemsMeant([]) == [] && MembersMeant([]) == []
  {
  }

  lemma Onward(comma: string, gap: string, head: string, tail: string, close: string, more: string)
    requires tail + close == "," + more
    ensures comma + gap + head + tail + close == comma + (gap + head + [] + ("," + more))
  {
    assert comma + gap + head + tail + close == comma + gap + head + (tail + close);
    assert comma + gap + head + ("," + more) == comma + (gap + head + ("," + more));
    assert gap + head + [] == gap + head;
  }

  lemma Closing(comma: string, gap: string, head: string, close: string)
    ensures comma + gap + head + "" + close == comma + (gap + head + close + "")
  {
  }

  // ----- Objects as written -----

  lemma {:induction false} ObjectNeat(entries: seq<Entry>, depth: nat, pretty: bool) returns (t: Tree)
    requires WriteEntries(entries, depth + 1, pretty, true).Some?
    ensures
      Enclosed('{', WriteEntries(entries, depth + 1, pretty, true), entries == [], depth, pretty, '}') ==
      Some(TreeSpelled(t))
    ensures TreeMeant(t) == Object(OrderedMap, CanonEntries(entries)) && Neat(t, depth, pretty)
    decreases entries, 1
  {
    if entries == [] {
      t := Members([], []);
      assert "{" + [] + "}" == ['{'] + "" + "" + ['}'];
    } else {
      hide WriteEntries, Gap, CanonEntries, MembersSpelled, MembersMeant, NeatMembers, IsBlank, IsMark, IsNumeral;
      var ms := MembersNeat(entries, depth, pretty, true);
      EmptyIsBlank();
      t := Members([], ms);
      Bracketed("{", WriteEntries(entries, depth + 1, pretty, true).value, Gap(depth, pretty), "}", MembersSpelled(ms));
    }
  }

  lemma {:induction false} MemberNeat(e: Entry, depth: nat, pretty: bool, after: Blank) returns (m: Member)
    requires WriteEntry(e, depth + 1, pretty).Some?
    ensures MemberMeant(m) == CanonEntry(e) && NeatMember(m, depth, pretty) && m.value.after == after
    ensures MemberSpelled(m) == Gap(depth + 1, pretty) + WriteEntry(e, depth + 1, pretty).value + after
    decreases e, 3
  {
    GapIsNeat(depth + 1, pretty);
    hide Write, Gap, NeatGap, IsBlank, Neat, Canon, TreeMeant, TreeSpelled, MarksSpelled, MarksMeant, Escaped;
    hide NeatMarks;
    var key := TextNeat(e.key.text);
    var t := WrittenNeatly(e.value, depth + 1, pretty);
    ColonBlank(pretty);
    var lead: Blank := if pretty then " " else "";
    EmptyIsBlank();
    m := Member(Gap(depth + 1, pretty), key, [], Padded(lead, t, after));
    Entered(Gap(depth + 1, pretty), QuotedMarks(key), lead, TreeSpelled(t), after);
    assert Colon(pretty) == ":" + lead;
  }

  lemma ColonBlank(pretty: bool)
    ensures IsBlank(if pretty then " " else "")
  {
    BlankIsSpace(' ');
  }

  lemma EmptyIsBlank()
    ensures IsBlank([])
  {
  }

  lemma Entered(gap: string, key: string, lead: string, text: string, after: string)
    ensures gap + key + [] + ":" + (lead + text + after) == gap + (key + (":" + lead) + text) + after
  {
    assert gap + key + [] == gap + key;
    assert gap + key + ":" + (lead + text + after) == gap + key + (":" + lead) + text + after;
  }

  lemma MemberInFront(m: Member, more: seq<Member>, depth: nat, pretty: bool)
    requires NeatMember(m, depth, pretty) && NeatMembers(more, depth, pretty)
    requires if more == [] then NeatGap(m.value.after, depth, pretty) else m.value.after == ""
    ensures NeatMembers([m] + more, depth, pretty)
    ensures MembersMeant([m] + more) == [MemberMeant(m)] + MembersMeant(more)
    ensures MembersSpelled([m] + more) == MemberSpelled(m) + if more == [] then "" else "," + MembersSpelled(more)
  {
    hide NeatMember, NeatGap, MemberMeant, MemberSpelled, IsBlank;
    assert ([m] + more)[1..] == more;
  }

  lemma {:induction false} MembersNeat(entries: seq<Entry>, depth: nat, pretty: bool, first: bool)
    returns (ms: seq<Member>)
    requires entries != [] && WriteEntries(entries, depth + 1, pretty, first).Some?
    ensures ms != [] && MembersMeant(ms) == CanonEntries(entries) && NeatMembers(ms, depth, pretty)
    ensures
      WriteEntries(entries, depth + 1, pretty, first).value + Gap(depth, pretty) == Comma(first) + MembersSpelled(ms)
    decreases entries, 0
  {
    EntriesParts(entries, depth + 1, pretty, first);
    GapIsNeat(depth, pretty);
    NothingNeat(depth, pretty);
    hide WriteEntry, Gap, NeatGap, IsBlank, CanonEntry, MemberMeant, MemberSpelled, NeatMember;
    hide NeatMembers, MembersMeant, MembersSpelled;
    var head := WriteEntry(entries[0], depth + 1, pretty).value;
    var tail := WriteEntries(entries[1..], depth + 1, pretty, false).value;
    var gap, close := Gap(depth + 1, pretty), Gap(depth, pretty);
    if |entries| > 1 {
      var more := MembersNeat(entries[1..], depth, pretty, false);
      var m := MemberNeat(entries[0], depth, pretty, []);
      ms := [m] + more;
      MemberInFront(m, more, depth, pretty);
      Onward(Comma(first), gap, head, tail, close, MembersSpelled(more));
    } else {
      var m := MemberNeat(entries[0], depth, pretty, close);
      ms := [m] + [];
      MemberInFront(m, [], depth, pretty);
      Closing(Comma(first), gap, head, close);
    }
  }
}
