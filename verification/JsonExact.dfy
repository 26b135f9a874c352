/** The reader against the grammar: a text is read to a value exactly when it spells the value. */
module JsonExact {
  import opened Prelude
  import opened JsonText
  import opened JsonLaws
  import opened JsonGrammar
  import opened JsonSpelling
  import Decimal

  // ----- What the grammar spells is read -----

  /** What begins a value: no space, no comma, no closing bracket. */
  predicate Opens(s: string) { s != [] && !IsSpace(s[0]) && s[0] != ']' && s[0] != '}' && s[0] != ',' }

  lemma TreeOpens(t: Tree)
    ensures Opens(TreeSpelled(t))
  {
    hide ItemsSpelled, MembersSpelled, MarksSpelled;
    match t
    case Integer(minus, digits) => NumeralStarts(digits);
    case _ =>
  }

  /** After space comes what is not space. */
  lemma Pads(space: Blank, s: string)
    requires s != [] && !IsSpace(s[0])
    ensures Skip(space + s) == s
  {
    hide IsBlank, IsMark, IsNumeral;
    hide Skip;
    BlankSkipped(space, s);
    SkipStops(s);
  }

  lemma BlankDelimits(space: Blank, s: string)
    requires Delimited(s)
    ensures Delimited(space + s)
  {
    if space != [] {
      assert space[0] in space;
      BlankIsSpace(space[0]);
    } else {
      assert space + s == s;
    }
  }

  /** A leaf of the grammar. */
  predicate Leaf(t: Tree) { !t.Array? && !t.Members? }

  lemma NumeralReads(minus: bool, digits: Numeral, depth: nat, rest: string)
    requires depth <= MAX_DEPTH && Delimited(rest)
    ensures
      ReadValue(IntegerSpelled(minus, digits) + rest, depth) == Ok(Taken(IntegerMeant(minus, digits), rest))
  {
    NumeralStarts(digits);
    IntegerReads(minus, digits, rest);
    hide ReadNumber, IntegerMeant, DigitsSpelled, IsNumeral, Skip;
    var s := IntegerSpelled(minus, digits) + rest;
    assert s[0] == '-' || Decimal.IsDigit(s[0]);
    SkipStops(s);
  }

  lemma TextReads(marks: seq<Mark>, depth: nat, rest: string)
    requires depth <= MAX_DEPTH
    ensures ReadValue(QuotedMarks(marks) + rest, depth) == Ok(Taken(Text(MarksMeant(marks)), rest))
  {
    QuotedReads(marks, rest);
    QuoteFirst(marks, rest);
    hide ReadString, MarksMeant, MarksSpelled, QuotedMarks, IsMark, Skip;
    SkipStops(QuotedMarks(marks) + rest);
  }

  lemma WordReads(t: Tree, depth: nat, rest: string)
    requires (t.Null? || t.True? || t.False?) && depth <= MAX_DEPTH
    ensures ReadValue(TreeSpelled(t) + rest, depth) == Ok(Taken(TreeMeant(t), rest))
  {
    hide Skip, ReadArray, ReadObject, ReadString, ReadNumber;
    var s := TreeSpelled(t) + rest;
    SkipStops(s);
    assert s[|TreeSpelled(t)|..] == rest;
  }

  lemma LeafReads(t: Tree, depth: nat, rest: string)
    requires Leaf(t) && depth <= MAX_DEPTH && Delimited(rest)
    ensures ReadValue(TreeSpelled(t) + rest, depth) == Ok(Taken(TreeMeant(t), rest))
  {
    hide ReadValue, QuotedMarks, MarksMeant, IntegerSpelled, IntegerMeant;
    if t.Integer? {
      NumeralReads(t.minus, t.digits, depth, rest);
    } else if t.Chars? {
      TextReads(t.marks, depth, rest);
    } else {
      WordReads(t, depth, rest);
    }
  }

  /** A tree of the grammar reads as what it means, whatever cannot go on with it follows. */
  lemma {:induction false} TreeReads(t: Tree, depth: nat, rest: string)
    requires Allowed(t, depth) && Delimited(rest)
    ensures ReadValue(TreeSpelled(t) + rest, depth) == Ok(Taken(TreeMeant(t), rest))
    decreases t, 2
  {
    match t
    case Array(space, items) => ArrayTreeReads(space, items, depth, rest);
    case Members(space, members) => MembersTreeReads(space, members, depth, rest);
    case _ =>
      hide IsBlank, IsMark, IsNumeral;
    hide ReadValue, TreeSpelled, TreeMeant;
      LeafReads(t, depth, rest);
  }

  lemma {:induction false} ArrayTreeReads(space: Blank, items: seq<Padded>, depth: nat, rest: string)
    requires depth <= MAX_DEPTH && ItemsAllowed(items, depth + 1)
    ensures
      ReadValue(TreeSpelled(Array(space, items)) + rest, depth) == Ok(Taken(Vector(ItemsMeant(items)), rest))
    decreases items, 3
  {
    hide IsBlank, IsMark, IsNumeral;
    hide ReadValue, ReadItems, Skip, ItemsAllowed, TreeSpelled, ItemsSpelled;
    var end := "]" + rest;
    var inner := if items == [] then space else ItemsSpelled(items);
    var s := TreeSpelled(Array(space, items)) + rest;
    ArraySpelled(space, items, rest);
    assert s[1..] == inner + end;
    SkipStops(s);
    ReadsArray(s, depth);
    if items == [] {
      Pads(space, end);
      assert end[1..] == rest;
    } else {
      ItemsOpen(items, end);
      ItemsTreeRead(items, depth + 1, [], rest);
      assert [] + ItemsMeant(items) == ItemsMeant(items);
    }
  }

  lemma ArraySpelled(space: Blank, items: seq<Padded>, rest: string)
    ensures
      var inner := if items == [] then space else ItemsSpelled(items);
      TreeSpelled(Array(space, items)) + rest == "[" + (inner + ("]" + rest))
  {
    hide ItemsSpelled, QuotedMarks, IntegerSpelled, IsBlank, IsMark, IsNumeral;
    Around("[", if items == [] then space else ItemsSpelled(items), "]", rest);
  }

  lemma Around(open: string, inner: string, close: string, rest: string)
    ensures open + inner + close + rest == open + (inner + (close + rest))
  {
  }

  lemma Regroup(a: string, b: string, c: string, tail: string, end: string)
    ensures a + b + c + tail + end == a + (b + (c + (tail + end)))
  {
  }

  lemma TailEnds(more: string, end: string)
    ensures "," + more + end == "," + (more + end) && "" + end == end
  {
  }

  /** The text of items before more: the first of them, and then what follows. */
  lemma ItemsParts(items: seq<Padded>, end: string)
    requires items != []
    ensures
      var p := items[0];
      var tail := if |items| == 1 then end else "," + (ItemsSpelled(items[1..]) + end);
      ItemsSpelled(items) + end == p.before + (TreeSpelled(p.tree) + (p.after + tail))
  {
    hide IsBlank, IsMark, IsNumeral;
    hide TreeSpelled;
    var p := items[0];
    if |items| > 1 {
      var more := ItemsSpelled(items[1..]);
      Regroup(p.before, TreeSpelled(p.tree), p.after, "," + more, end);
      TailEnds(more, end);
    } else {
      Regroup(p.before, TreeSpelled(p.tree), p.after, "", end);
      TailEnds("", end);
    }
  }

  lemma ItemsOpen(items: seq<Padded>, end: string)
    requires items != []
    ensures Opens(Skip(ItemsSpelled(items) + end))
  {
    hide IsBlank, IsMark, IsNumeral;
    hide TreeSpelled, Skip, ItemsSpelled;
    ItemsParts(items, end);
    var p := items[0];
    TreeOpens(p.tree);
    var tail := if |items| == 1 then end else "," + (ItemsSpelled(items[1..]) + end);
    Pads(p.before, TreeSpelled(p.tree) + (p.after + tail));
  }

  lemma {:induction false} ItemsTreeRead(items: seq<Padded>, depth: nat, done: seq<Value>, rest: string)
    requires items != [] && ItemsAllowed(items, depth)
    ensures
      ReadItems(Skip(ItemsSpelled(items) + ("]" + rest)), depth, done) ==
      Ok(Taken(Vector(done + ItemsMeant(items)), rest))
    decreases items, 1
  {
    hide IsBlank, IsMark, IsNumeral;
    hide ReadItems, ReadValue, Skip, TreeSpelled, TreeMeant, ItemsSpelled, Allowed;
    var end := "]" + rest;
    var p := items[0];
    var tail := if |items| == 1 then end else "," + (ItemsSpelled(items[1..]) + end);
    var after := p.after + tail;
    var s := TreeSpelled(p.tree) + after;
    ItemsParts(items, end);
    TreeOpens(p.tree);
    Pads(p.before, s);
    assert tail[0] == ']' || tail[0] == ',';
    BlankDelimits(p.after, tail);
    TreeReads(p.tree, depth, after);
    Pads(p.after, tail);
    var v := TreeMeant(p.tree);
    if |items| == 1 {
      LastItem(s, depth, done, v, after, rest);
      OneItem(items);
    } else {
      var more := items[1..];
      assert tail[1..] == ItemsSpelled(more) + end;
      ItemsOpen(more, end);
      MoreItems(s, depth, done, v, after, Skip(ItemsSpelled(more) + end));
      ItemsTreeRead(more, depth, done + [v], rest);
      assert done + [v] + ItemsMeant(more) == done + ItemsMeant(items);
    }
  }

  lemma OneItem(items: seq<Padded>)
    requires |items| == 1
    ensures ItemsMeant(items) == [TreeMeant(items[0].tree)]
  {
    assert items[1..] == [];
  }

  lemma {:induction false} MembersTreeReads(space: Blank, members: seq<Member>, depth: nat, rest: string)
    requires depth <= MAX_DEPTH && KeysDiffer(members) && MembersAllowed(members, depth + 1)
    ensures
      ReadValue(TreeSpelled(Members(space, members)) + rest, depth) ==
      Ok(Taken(Object(OrderedMap, MembersMeant(members)), rest))
    decreases members, 3
  {
    hide IsBlank, IsMark, IsNumeral;
    hide ReadValue, ReadEntries, Skip, MembersAllowed, KeysDiffer, TreeSpelled, MembersSpelled;
    var end := "}" + rest;
    var inner := if members == [] then space else MembersSpelled(members);
    var s := TreeSpelled(Members(space, members)) + rest;
    ObjectSpelled(space, members, rest);
    assert s[1..] == inner + end;
    SkipStops(s);
    ReadsObject(s, depth);
    if members == [] {
      Pads(space, end);
      assert end[1..] == rest;
    } else {
      MembersOpen(members, end);
      NothingDone(members);
      MembersTreeRead(members, depth + 1, [], rest);
      assert [] + MembersMeant(members) == MembersMeant(members);
    }
  }

  lemma ObjectSpelled(space: Blank, members: seq<Member>, rest: string)
    ensures
      var inner := if members == [] then space else MembersSpelled(members);
      TreeSpelled(Members(space, members)) + rest == "{" + (inner + ("}" + rest))
  {
    hide MembersSpelled, QuotedMarks, IntegerSpelled, IsBlank, IsMark, IsNumeral;
    Around("{", if members == [] then space else MembersSpelled(members), "}", rest);
  }

  /** The keys of members yet to read are new. */
  ghost predicate KeysNew(done: seq<Entry>, members: seq<Member>) {
    KeysDiffer(members) &&
    forall i, j :: 0 <= i < |done| && 0 <= j < |members| ==> done[i].key != Text(MarksMeant(members[j].key))
  }

  lemma NothingDone(members: seq<Member>)
    requires KeysDiffer(members)
    ensures KeysNew([], members)
  {
  }

  lemma KeyDone(done: seq<Entry>, members: seq<Member>)
    requires members != [] && KeysNew(done, members)
    ensures !HasKey(done, MarksMeant(members[0].key))
    ensures KeysNew(done + [MemberMeant(members[0])], members[1..])
  {
    hide IsBlank, IsMark, IsNumeral;
    hide MarksMeant, PaddedMeant;
    var more, rest := done + [MemberMeant(members[0])], members[1..];
    forall i, j | 0 <= i < |more| && 0 <= j < |rest| ensures more[i].key != Text(MarksMeant(rest[j].key)) {
      assert rest[j] == members[j + 1];
    }
  }

  lemma MembersParts(members: seq<Member>, end: string)
    requires members != []
    ensures
      var m := members[0];
      var tail := if |members| == 1 then end else "," + (MembersSpelled(members[1..]) + end);
      MembersSpelled(members) + end ==
      m.before + (QuotedMarks(m.key) + (m.between + (":" + (PaddedSpelled(m.value) + tail))))
  {
    hide IsBlank, IsMark, IsNumeral;
    hide PaddedSpelled, QuotedMarks;
    var m := members[0];
    var value := PaddedSpelled(m.value);
    if |members| > 1 {
      var more := MembersSpelled(members[1..]);
      RegroupMember(m.before, QuotedMarks(m.key), m.between, value, "," + more, end);
      TailEnds(more, end);
    } else {
      RegroupMember(m.before, QuotedMarks(m.key), m.between, value, "", end);
      TailEnds("", end);
    }
  }

  lemma RegroupMember(a: string, key: string, b: string, value: string, tail: string, end: string)
    ensures (a + key + b + ":" + value) + tail + end == a + (key + (b + (":" + (value + (tail + end)))))
  {
    Regroup(a, key, b, ":" + value, tail + end);
    assert (a + key + b + ":" + value) + tail + end == a + key + b + (":" + value) + (tail + end);
    assert ":" + value + (tail + end) == ":" + (value + (tail + end));
  }

  lemma MembersOpen(members: seq<Member>, end: string)
    requires members != []
    ensures Opens(Skip(MembersSpelled(members) + end))
  {
    hide IsBlank, IsMark, IsNumeral;
    hide PaddedSpelled, Skip, MembersSpelled, MarksSpelled;
    MembersParts(members, end);
    var m := members[0];
    var tail := if |members| == 1 then end else "," + (MembersSpelled(members[1..]) + end);
    var s := QuotedMarks(m.key) + (m.between + (":" + (PaddedSpelled(m.value) + tail)));
    assert s[0] == '"';
    Pads(m.before, s);
  }

  /** One member reads as its key and its value, up to the space after the value. */
  lemma {:induction false} MemberReads(m: Member, depth: nat, tail: string)
    requires MemberAllowed(m, depth) && Delimited(tail)
    ensures
      ReadEntry(QuotedMarks(m.key) + (m.between + (":" + (PaddedSpelled(m.value) + tail))), depth) ==
      Ok(Taken((MarksMeant(m.key), TreeMeant(m.value.tree)), m.value.after + tail))
    decreases m, 4
  {
    hide IsBlank, IsMark, IsNumeral;
    hide ReadValue, ReadString, Skip, TreeSpelled, TreeMeant, MarksMeant, MarksSpelled, Allowed;
    var p := m.value;
    var after := p.after + tail;
    var value := p.before + (TreeSpelled(p.tree) + after);
    assert PaddedSpelled(p) + tail == value;
    var colon := ":" + value;
    var s := QuotedMarks(m.key) + (m.between + colon);
    QuotedReads(m.key, m.between + colon);
    Pads(m.between, colon);
    assert colon[1..] == value;
    BlankSkipped(p.before, TreeSpelled(p.tree) + after);
    SkipFirst(value, TreeSpelled(p.tree) + after, depth);
    BlankDelimits(p.after, tail);
    TreeReads(p.tree, depth, after);
    assert s[0] == '"';
  }

  lemma {:induction false} MembersTreeRead(members: seq<Member>, depth: nat, done: seq<Entry>, rest: string)
    requires members != [] && MembersAllowed(members, depth) && KeysNew(done, members)
    ensures
      ReadEntries(Skip(MembersSpelled(members) + ("}" + rest)), depth, done) ==
      Ok(Taken(Object(OrderedMap, done + MembersMeant(members)), rest))
    decreases members, 1
  {
    hide IsBlank, IsMark, IsNumeral;
    hide ReadEntries, ReadEntry, Skip, PaddedSpelled, TreeMeant, MembersSpelled, QuotedMarks, MarksMeant;
    hide KeysNew, HasKey, MemberAllowed;
    var end := "}" + rest;
    var m := members[0];
    var tail := if |members| == 1 then end else "," + (MembersSpelled(members[1..]) + end);
    var after := m.value.after + tail;
    var s := QuotedMarks(m.key) + (m.between + (":" + (PaddedSpelled(m.value) + tail)));
    MembersParts(members, end);
    QuoteFirst(m.key, m.between + (":" + (PaddedSpelled(m.value) + tail)));
    Pads(m.before, s);
    assert tail[0] == '}' || tail[0] == ',';
    MemberReads(m, depth, tail);
    Pads(m.value.after, tail);
    KeyDone(done, members);
    var key, v := MarksMeant(m.key), TreeMeant(m.value.tree);
    var entry := Entry(Text(key), v);
    assert MemberMeant(m) == entry;
    if |members| == 1 {
      LastEntry(s, depth, done, key, v, after, rest);
      OneMember(members);
    } else {
      var more := members[1..];
      assert tail[1..] == MembersSpelled(more) + end;
      MembersOpen(more, end);
      MoreEntries(s, depth, done, key, v, after, Skip(MembersSpelled(more) + end));
      MembersTreeRead(more, depth, done + [entry], rest);
      assert done + [entry] + MembersMeant(more) == done + MembersMeant(members);
    }
  }

  lemma QuoteFirst(marks: seq<Mark>, rest: string)
    ensures
      var s := QuotedMarks(marks) + rest;
      s != [] && s[0] == '"' && !IsSpace(s[0])
  {
  }

  lemma OneMember(members: seq<Member>)
    requires |members| == 1
    ensures MembersMeant(members) == [MemberMeant(members[0])]
  {
    assert members[1..] == [];
  }

  // ----- What is read is spelled by the grammar -----

  /** A value read off a text: space, a tree, and the rest, which does not go on with a number. */
  ghost predicate Found(s: string, depth: nat, before: Blank, t: Tree) {
    match ReadValue(s, depth)
    case Err(_) => false
    case Ok(r) =>
      s == before + TreeSpelled(t) + r.rest && r.value == TreeMeant(t) && Allowed(t, depth)
  }

  lemma LeafFound(s: string, depth: nat) returns (t: Tree)
    requires depth <= MAX_DEPTH && Skip(s) == s && ReadValue(s, depth).Ok? && s[0] != '[' && s[0] != '{'
    ensures
      var r := ReadValue(s, depth).value;
      Leaf(t) && s == TreeSpelled(t) + r.rest && r.value == TreeMeant(t)
  {
    hide Skip, ReadString, ReadNumber, MarksSpelled, MarksMeant, IntegerSpelled, IntegerMeant;
    if s[0] == 'n' {
      t := Null;
    } else if s[0] == 't' {
      t := True;
    } else if s[0] == 'f' {
      t := False;
    } else if s[0] == '"' {
      var marks := QuotedFound(s);
      t := Chars(marks);
    } else {
      var minus, digits := IntegerFound(s);
      t := Integer(minus, digits);
    }
  }

  lemma SkipTwice(s: string)
    ensures Skip(Skip(s)) == Skip(s)
  {
  }

  lemma Shallow(s: string, depth: nat)
    requires ReadValue(s, depth).Ok?
    ensures depth <= MAX_DEPTH && Skip(s) != []
  {
  }

  /** Whatever is read is spelled by a tree of the grammar within the limits. */
  lemma {:induction false} TreeFound(s: string, depth: nat) returns (before: Blank, t: Tree)
    requires ReadValue(s, depth).Ok?
    ensures Found(s, depth, before, t)
    decreases |s|, 4
  {
    Shallow(s, depth);
    hide IsBlank, IsMark, IsNumeral;
    hide ReadValue, Skip, TreeSpelled, TreeMeant;
    before := SkippedBlank(s);
    var u := Skip(s);
    SkipTwice(s);
    SkipFirst(s, u, depth);
    if u[0] == '[' {
      t := ArrayFound(u, depth);
    } else if u[0] == '{' {
      t := ObjectFound(u, depth);
    } else {
      t := LeafFound(u, depth);
    }
    Joins(before, TreeSpelled(t), ReadValue(s, depth).value.rest);
  }

  lemma Joins(before: string, text: string, rest: string)
    ensures before + (text + rest) == before + text + rest
  {
  }

  lemma {:induction false} ArrayFound(s: string, depth: nat) returns (t: Tree)
    requires depth <= MAX_DEPTH && Starts(s, '[') && Skip(s) == s && ReadValue(s, depth).Ok?
    ensures
      var r := ReadValue(s, depth).value;
      s == TreeSpelled(t) + r.rest && r.value == TreeMeant(t) && Allowed(t, depth)
    decreases |s|, 3
  {
    hide IsBlank, IsMark, IsNumeral;
    hide ReadValue, ReadItems, Skip, ItemsSpelled, ItemsMeant, ItemsAllowed, TreeSpelled;
    ReadsArray(s, depth);
    var space := SkippedBlank(s[1..]);
    var u := Skip(s[1..]);
    var rest := ReadValue(s, depth).value.rest;
    if Starts(u, ']') {
      t := Array(space, []);
      NoItems();
      ArraySpelled(space, [], rest);
      assert s == "[" + (space + ("]" + rest));
    } else {
      var items := ItemsFound(u, depth + 1, [], space);
      t := Array(space, items);
      ArraySpelled(space, items, rest);
      assert s == "[" + (ItemsSpelled(items) + ("]" + rest));
      assert [] + ItemsMeant(items) == ItemsMeant(items);
    }
  }

  lemma NoItems()
    ensures ItemsMeant([]) == [] && MembersMeant([]) == [] && KeysDiffer([])
    ensures forall depth :: ItemsAllowed([], depth) && MembersAllowed([], depth)
  {
  }

  /** What reading items goes on with. */
  lemma ItemStep(s: string, depth: nat, done: seq<Value>)
    requires ReadItems(s, depth, done).Ok?
    ensures ReadValue(s, depth).Ok?
    ensures
      var v := ReadValue(s, depth).value;
      var u := Skip(v.rest);
      if Starts(u, ']') then ReadItems(s, depth, done) == Ok(Taken(Vector(done + [v.value]), u[1..]))
      else
        Starts(u, ',') && |Skip(u[1..])| < |s| &&
        ReadItems(s, depth, done) == ReadItems(Skip(u[1..]), depth, done + [v.value])
  {
    hide ReadValue, Skip;
  }

  lemma {:induction false} ItemsFound(s: string, depth: nat, done: seq<Value>, space: Blank)
    returns (items: seq<Padded>)
    requires ReadItems(s, depth, done).Ok?
    ensures
      var r := ReadItems(s, depth, done).value;
      items != [] && space + s == ItemsSpelled(items) + ("]" + r.rest) &&
      r.value == Vector(done + ItemsMeant(items)) && ItemsAllowed(items, depth)
    decreases |s|, 5
  {
    ItemStep(s, depth, done);
    hide IsBlank, IsMark, IsNumeral;
    hide ReadItems, ReadValue, Skip, TreeSpelled, TreeMeant, Allowed, ItemsSpelled, ItemsMeant, ItemsAllowed;
    var before, t := TreeFound(s, depth);
    var v := ReadValue(s, depth).value;
    var after := SkippedBlank(v.rest);
    var u := Skip(v.rest);
    var rest := ReadItems(s, depth, done).value.rest;
    var p := Padded(BothBlank(space, before), t, after);
    var more: seq<Padded> := [];
    if Starts(u, ']') {
      NoItems();
      assert u == "]" + rest;
    } else {
      var gap := SkippedBlank(u[1..]);
      more := ItemsFound(Skip(u[1..]), depth, done + [v.value], gap);
      CommaFirst(u);
    }
    items := [p] + more;
    ItemAdded(p, more, depth);
    Spread(done, v.value, ItemsMeant(more));
    ItemsBegin(space, before, t, after, u, more, "]" + rest);
  }

  lemma CommaFirst(u: string)
    requires Starts(u, ',')
    ensures u == "," + u[1..]
  {
  }

  lemma Spread<T>(done: seq<T>, x: T, more: seq<T>)
    ensures done + [x] + more == done + ([x] + more) && (more == [] ==> done + [x] == done + ([x] + more))
  {
  }

  lemma ItemsBegin(space: Blank, before: Blank, t: Tree, after: Blank, u: string, more: seq<Padded>, end: string)
    requires u == if more == [] then end else "," + (ItemsSpelled(more) + end)
    ensures
      space + (before + TreeSpelled(t) + (after + u)) ==
      ItemsSpelled([Padded(BothBlank(space, before), t, after)] + more) + end
  {
    hide IsBlank, IsMark, IsNumeral;
    hide TreeSpelled, ItemsSpelled;
    var items := [Padded(BothBlank(space, before), t, after)] + more;
    assert items[1..] == more;
    ItemsParts(items, end);
    Spaced(space, before, TreeSpelled(t), after, u);
  }

  lemma ItemAdded(p: Padded, more: seq<Padded>, depth: nat)
    requires Allowed(p.tree, depth) && ItemsAllowed(more, depth)
    ensures ([p] + more)[1..] == more
    ensures ItemsMeant([p] + more) == [TreeMeant(p.tree)] + ItemsMeant(more) && ItemsAllowed([p] + more, depth)
  {
    hide IsBlank, IsMark, IsNumeral;
    hide TreeMeant, Allowed;
    assert ([p] + more)[1..] == more;
  }

  lemma Spaced(space: string, before: string, text: string, after: string, u: string)
    ensures space + (before + text + (after + u)) == space + before + (text + (after + u))
  {
  }

  lemma {:induction false} ObjectFound(s: string, depth: nat) returns (t: Tree)
    requires depth <= MAX_DEPTH && Starts(s, '{') && Skip(s) == s && ReadValue(s, depth).Ok?
    ensures
      var r := ReadValue(s, depth).value;
      s == TreeSpelled(t) + r.rest && r.value == TreeMeant(t) && Allowed(t, depth)
    decreases |s|, 3
  {
    hide IsBlank, IsMark, IsNumeral;
    hide ReadValue, ReadEntries, Skip, MembersSpelled, MembersMeant, MembersAllowed, KeysDiffer, TreeSpelled;
    ReadsObject(s, depth);
    var space := SkippedBlank(s[1..]);
    var u := Skip(s[1..]);
    var rest := ReadValue(s, depth).value.rest;
    if Starts(u, '}') {
      t := Members(space, []);
      NoItems();
      ObjectSpelled(space, [], rest);
      assert s == "{" + (space + ("}" + rest));
    } else {
      var members := MembersFound(u, depth + 1, [], space);
      t := Members(space, members);
      ObjectSpelled(space, members, rest);
      assert s == "{" + (MembersSpelled(members) + ("}" + rest));
      assert [] + MembersMeant(members) == MembersMeant(members);
    }
  }

  lemma EntryStep(s: string, depth: nat, done: seq<Entry>)
    requires ReadEntries(s, depth, done).Ok?
    ensures ReadEntry(s, depth).Ok? && !HasKey(done, ReadEntry(s, depth).value.value.0)
    ensures
      var e := ReadEntry(s, depth).value;
      var more := done + [Entry(Text(e.value.0), e.value.1)];
      var u := Skip(e.rest);
      if Starts(u, '}') then ReadEntries(s, depth, done) == Ok(Taken(Object(OrderedMap, more), u[1..]))
      else
        Starts(u, ',') && |Skip(u[1..])| < |s| &&
        ReadEntries(s, depth, done) == ReadEntries(Skip(u[1..]), depth, more)
  {
    hide ReadEntry, Skip, HasKey;
  }

  lemma EntryParts(s: string, depth: nat)
    requires ReadEntry(s, depth).Ok?
    ensures ReadString(s).Ok?
    ensures
      var key := ReadString(s).value;
      var u := Skip(key.rest);
      Starts(u, ':') && |u| <= |s| && ReadValue(u[1..], depth).Ok? &&
      var v := ReadValue(u[1..], depth).value;
      ReadEntry(s, depth) == Ok(Taken((key.value, v.value), v.rest))
  {
    hide ReadString, ReadValue, Skip;
  }

  lemma {:induction false} MemberFound(s: string, depth: nat)
    returns (key: seq<Mark>, between: Blank, before: Blank, t: Tree)
    requires ReadEntry(s, depth).Ok?
    ensures
      var e := ReadEntry(s, depth).value;
      s == QuotedMarks(key) + (between + (":" + (before + (TreeSpelled(t) + e.rest)))) &&
      e.value == (MarksMeant(key), TreeMeant(t)) && Allowed(t, depth)
    decreases |s|, 5
  {
    EntryParts(s, depth);
    hide IsBlank, IsMark, IsNumeral;
    hide ReadEntry, ReadString, ReadValue, Skip, TreeSpelled, TreeMeant, Allowed, QuotedMarks, MarksMeant;
    key := QuotedFound(s);
    var text := ReadString(s).value.rest;
    between := SkippedBlank(text);
    var u := Skip(text);
    before, t := TreeFound(u[1..], depth);
    ColonFirst(u);
    Joins(before, TreeSpelled(t), ReadEntry(s, depth).value.rest);
  }

  lemma ColonFirst(u: string)
    requires Starts(u, ':')
    ensures u == ":" + u[1..]
  {
  }

  lemma KeyBack(done: seq<Entry>, m: Member, more: seq<Member>)
    requires !HasKey(done, MarksMeant(m.key)) && KeysNew(done + [MemberMeant(m)], more)
    ensures KeysNew(done, [m] + more)
  {
    hide IsBlank, IsMark, IsNumeral;
    hide MarksMeant, PaddedMeant;
    var all, members := done + [MemberMeant(m)], [m] + more;
    assert forall i :: 0 <= i < |done| ==> all[i] == done[i];
    assert all[|done|] == MemberMeant(m);
    forall j | 1 <= j < |members| ensures members[j] == more[j - 1] {}
  }

  lemma {:induction false} MembersFound(s: string, depth: nat, done: seq<Entry>, space: Blank)
    returns (members: seq<Member>)
    requires ReadEntries(s, depth, done).Ok?
    ensures
      var r := ReadEntries(s, depth, done).value;
      members != [] && space + s == MembersSpelled(members) + ("}" + r.rest) &&
      r.value == Object(OrderedMap, done + MembersMeant(members)) &&
      MembersAllowed(members, depth) && KeysNew(done, members)
    decreases |s|, 6
  {
    EntryStep(s, depth, done);
    hide IsBlank, IsMark, IsNumeral;
    hide ReadEntries, ReadEntry, Skip, TreeSpelled, TreeMeant, Allowed, MembersSpelled, QuotedMarks, MarksMeant;
    hide HasKey, KeysNew, MembersMeant, MembersAllowed, PaddedSpelled;
    var key, between, before, t := MemberFound(s, depth);
    var e := ReadEntry(s, depth).value;
    var after := SkippedBlank(e.rest);
    var u := Skip(e.rest);
    var rest := ReadEntries(s, depth, done).value.rest;
    var m := Member(space, key, between, Padded(before, t, after));
    var entry := Entry(Text(e.value.0), e.value.1);
    assert MemberMeant(m) == entry;
    var more: seq<Member> := [];
    if Starts(u, '}') {
      NoItems();
      NoneLeft(done + [entry]);
      assert u == "}" + rest;
    } else {
      var gap := SkippedBlank(u[1..]);
      more := MembersFound(Skip(u[1..]), depth, done + [entry], gap);
      CommaFirst(u);
    }
    members := [m] + more;
    KeyBack(done, m, more);
    assert MemberAllowed(m, depth);
    MemberAdded(m, more, depth);
    Spread(done, entry, MembersMeant(more));
    MembersBegin(space, key, between, before, t, after, u, more, "}" + rest);
  }

  lemma MembersBegin(
    space: Blank, key: seq<Mark>, between: Blank, before: Blank, t: Tree, after: Blank, u: string,
    more: seq<Member>, end: string)
    requires u == if more == [] then end else "," + (MembersSpelled(more) + end)
    ensures
      var m := Member(space, key, between, Padded(before, t, after));
      space + (QuotedMarks(key) + (between + (":" + (before + (TreeSpelled(t) + (after + u)))))) ==
      MembersSpelled([m] + more) + end
  {
    hide IsBlank, IsMark, IsNumeral;
    hide TreeSpelled, MembersSpelled, QuotedMarks, PaddedSpelled;
    var members := [Member(space, key, between, Padded(before, t, after))] + more;
    assert members[1..] == more;
    MembersParts(members, end);
    ValueThen(before, t, after, u);
  }

  lemma MemberAdded(m: Member, more: seq<Member>, depth: nat)
    requires MemberAllowed(m, depth) && MembersAllowed(more, depth)
    ensures ([m] + more)[1..] == more
    ensures MembersMeant([m] + more) == [MemberMeant(m)] + MembersMeant(more) && MembersAllowed([m] + more, depth)
  {
    hide IsBlank, IsMark, IsNumeral;
    hide MemberAllowed, MemberMeant;
    assert ([m] + more)[1..] == more;
  }

  lemma NoneLeft(done: seq<Entry>)
    ensures KeysNew(done, [])
  {
  }

  lemma ValueThen(before: Blank, t: Tree, after: Blank, u: string)
    ensures PaddedSpelled(Padded(before, t, after)) + u == before + (TreeSpelled(t) + (after + u))
  {
    hide IsBlank, IsMark, IsNumeral;
    hide TreeSpelled;
  }

  // ----- Exactly -----

  /** A text is read to a value exactly when it spells the value. */
  lemma ReadExactly(source: string, v: Value)
    ensures Read(source) == Ok(v) <==> Spells(source, v)
  {
    hide IsBlank, IsMark, IsNumeral;
    hide ReadValue, Skip, TreeSpelled, TreeMeant, Allowed;
    if p: Padded :| PaddedSpelled(p) == source && PaddedMeant(p) == v && PaddedAllowed(p, 0) {
      var text := TreeSpelled(p.tree) + p.after;
      assert source == p.before + text;
      BlankSkipped(p.before, text);
      SkipFirst(source, text, 0);
      assert p.after + [] == p.after;
      BlankDelimits(p.after, []);
      TreeReads(p.tree, 0, p.after);
      BlankSkipped(p.after, []);
      SkipStops([]);
    }
    if Read(source) == Ok(v) {
      var before, t := TreeFound(source, 0);
      var rest := ReadValue(source, 0).value.rest;
      var after := SkippedBlank(rest);
      assert rest == after + [] == after;
      var p := Padded(before, t, after);
      assert PaddedSpelled(p) == source && PaddedMeant(p) == v && PaddedAllowed(p, 0);
    }
  }

  /** No text spells two values. */
  lemma SpelledOnce(source: string, v: Value, w: Value)
    requires Spells(source, v) && Spells(source, w)
    ensures v == w
  {
    hide Spells, Read;
    ReadExactly(source, v);
    ReadExactly(source, w);
  }

  /** The text written for a value spells it, in canonical form, exactly where the limits allow. */
  lemma WrittenSpells(v: Value, pretty: bool)
    requires Write(v, 0, pretty).Some?
    ensures Spells(Write(v, 0, pretty).value, Canon(v)) <==> Fits(v, 0)
  {
    hide Spells, Read, Write, Canon, Fits;
    JsonRoundTrip(v, pretty);
    ReadExactly(Write(v, 0, pretty).value, Canon(v));
  }
}
