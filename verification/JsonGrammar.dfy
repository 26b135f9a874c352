/**
 The grammar of JSON (sections 2 to 7 of RFC 8259) for integers, as trees that
 spell a text and mean a value.  Nothing here names the reader.
 */
module JsonGrammar {
  import opened Prelude
  import opened JsonText

  // ----- Space -----

  const BLANKS := " \t\n\r"

  predicate IsBlank(s: string) { forall c <- s :: c in BLANKS }

  type Blank = s: string | IsBlank(s)

  function BothBlank(a: Blank, b: Blank): Blank { a + b }

  // ----- Characters -----

  const LOWER := "0123456789abcdef"

  const UPPER := "0123456789ABCDEF"

  /** A hexadecimal digit by its place, small or capital. */
  datatype AnyHex = Hex(place: nat, capital: bool)

  type HexPlace = h: AnyHex | h.place < 16 witness Hex(0, false)

  function HexSpelled(h: HexPlace): char { if h.capital then UPPER[h.place] else LOWER[h.place] }

  function FourDigits(a: HexPlace, b: HexPlace, c: HexPlace, d: HexPlace): nat {
    a.place * 4096 + b.place * 256 + c.place * 16 + d.place
  }

  /** The letters after a backslash, and the codes of the characters they mean. */
  const SHORT := "\"\\/bfnrt"

  const SHORT_CODES: seq<nat> := [0x22, 0x5c, 0x2f, 0x08, 0x0c, 0x0a, 0x0d, 0x09]

  /** One character inside a string: as itself, by a letter, or by four digits. */
  datatype AnyMark =
    | Plain(c: char)
    | Short(which: nat)
    | Unicode(first: HexPlace, second: HexPlace, third: HexPlace, fourth: HexPlace)

  predicate IsMark(m: AnyMark) {
    match m
    case Plain(c) => c as int >= 0x20 && c != '"' && c != '\\'
    case Short(which) => which < |SHORT|
    case Unicode(a, b, c, d) => !(0xd800 <= FourDigits(a, b, c, d) <= 0xdfff)
  }

  type Mark = m: AnyMark | IsMark(m) witness Plain('a')

  function MarkSpelled(m: Mark): string {
    match m
    case Plain(c) => [c]
    case Short(which) => ['\\', SHORT[which]]
    case Unicode(a, b, c, d) => "\\u" + [HexSpelled(a), HexSpelled(b), HexSpelled(c), HexSpelled(d)]
  }

  function MarkMeant(m: Mark): char {
    match m
    case Plain(c) => c
    case Short(which) => SHORT_CODES[which] as char
    case Unicode(a, b, c, d) => FourDigits(a, b, c, d) as char
  }

  function MarksSpelled(marks: seq<Mark>): string {
    if marks == [] then "" else MarkSpelled(marks[0]) + MarksSpelled(marks[1..])
  }

  function MarksMeant(marks: seq<Mark>): string {
    if marks == [] then "" else [MarkMeant(marks[0])] + MarksMeant(marks[1..])
  }

  // ----- Numbers -----

  const DIGITS := "0123456789"

  predicate AllDigits(digits: seq<nat>) { forall i :: 0 <= i < |digits| ==> digits[i] < 10 }

  /** Digits, the first of them zero only when it is alone. */
  predicate IsNumeral(digits: seq<nat>) {
    digits != [] && AllDigits(digits) && (digits[0] == 0 ==> |digits| == 1)
  }

  type Numeral = digits: seq<nat> | IsNumeral(digits) witness [0]

  function DigitsSpelled(digits: seq<nat>): (s: string)
    requires AllDigits(digits)
    ensures |s| == |digits|
  {
    seq(|digits|, i requires 0 <= i < |digits| => DIGITS[digits[i]])
  }

  function Ten(k: nat): nat { if k == 0 then 1 else 10 * Ten(k - 1) }

  /** Every digit times the power of ten of its place. */
  function PlaceValue(digits: seq<nat>): nat {
    if digits == [] then 0 else digits[0] * Ten(|digits| - 1) + PlaceValue(digits[1..])
  }

  /** An integer, a machine integer where 64 bits hold it. */
  function IntegerMeant(minus: bool, digits: Numeral): Value {
    var n := if minus then 0 - PlaceValue(digits) as int else PlaceValue(digits) as int;
    if -0x8000_0000_0000_0000 <= n <= 0x7fff_ffff_ffff_ffff then Number(n) else BigInteger(n)
  }

  function IntegerSpelled(minus: bool, digits: Numeral): string {
    (if minus then "-" else "") + DigitsSpelled(digits)
  }

  // ----- Values -----

  datatype Tree =
    | Null
    | True
    | False
    | Integer(minus: bool, digits: Numeral)
    | Chars(marks: seq<Mark>)
    | Array(space: Blank, items: seq<Padded>)
    | Members(space: Blank, members: seq<Member>)

  /** A value with space around it. */
  datatype Padded = Padded(before: Blank, tree: Tree, after: Blank)

  datatype Member = Member(before: Blank, key: seq<Mark>, between: Blank, value: Padded)

  function QuotedMarks(marks: seq<Mark>): string { "\"" + MarksSpelled(marks) + "\"" }

  function TreeSpelled(t: Tree): string
    decreases t, 1
  {
    match t
    case Null => "null"
    case True => "true"
    case False => "false"
    case Integer(minus, digits) => IntegerSpelled(minus, digits)
    case Chars(marks) => QuotedMarks(marks)
    case Array(space, items) => "[" + (if items == [] then space else ItemsSpelled(items)) + "]"
    case Members(space, members) => "{" + (if members == [] then space else MembersSpelled(members)) + "}"
  }

  function PaddedSpelled(p: Padded): string
    decreases p, 2
  {
    p.before + TreeSpelled(p.tree) + p.after
  }

  function ItemsSpelled(items: seq<Padded>): string
    requires items != []
    decreases items, 0
  {
    PaddedSpelled(items[0]) + if |items| == 1 then "" else "," + ItemsSpelled(items[1..])
  }

  function MemberSpelled(m: Member): string
    decreases m, 3
  {
    m.before + QuotedMarks(m.key) + m.between + ":" + PaddedSpelled(m.value)
  }

  function MembersSpelled(members: seq<Member>): string
    requires members != []
    decreases members, 0
  {
    MemberSpelled(members[0]) + if |members| == 1 then "" else "," + MembersSpelled(members[1..])
  }

  function TreeMeant(t: Tree): Value
    decreases t, 1
  {
    match t
    case Null => Nil
    case True => Bool(true)
    case False => Bool(false)
    case Integer(minus, digits) => IntegerMeant(minus, digits)
    case Chars(marks) => Text(MarksMeant(marks))
    case Array(_, items) => Vector(ItemsMeant(items))
    case Members(_, members) => Object(OrderedMap, MembersMeant(members))
  }

  function ItemsMeant(items: seq<Padded>): seq<Value>
    decreases items, 0
  {
    if items == [] then [] else [PaddedMeant(items[0])] + ItemsMeant(items[1..])
  }

  function PaddedMeant(p: Padded): Value
    decreases p, 2
  {
    TreeMeant(p.tree)
  }

  function MembersMeant(members: seq<Member>): seq<Entry>
    decreases members, 0
  {
    if members == [] then [] else [MemberMeant(members[0])] + MembersMeant(members[1..])
  }

  function MemberMeant(m: Member): Entry
    decreases m, 3
  {
    Entry(Text(MarksMeant(m.key)), PaddedMeant(m.value))
  }

  /** No two keys mean the same. */
  predicate KeysDiffer(members: seq<Member>) {
    forall i, j :: 0 <= i < j < |members| ==> MarksMeant(members[i].key) != MarksMeant(members[j].key)
  }

  /** Nested no deeper than 256, and with keys that differ. */
  predicate Allowed(t: Tree, depth: nat)
    decreases t, 1
  {
    depth <= 256 &&
    match t
    case Array(_, items) => ItemsAllowed(items, depth + 1)
    case Members(_, members) => KeysDiffer(members) && MembersAllowed(members, depth + 1)
    case _ => true
  }

  predicate ItemsAllowed(items: seq<Padded>, depth: nat)
    decreases items, 0
  {
    items == [] || (PaddedAllowed(items[0], depth) && ItemsAllowed(items[1..], depth))
  }

  predicate PaddedAllowed(p: Padded, depth: nat)
    decreases p, 2
  {
    Allowed(p.tree, depth)
  }

  predicate MembersAllowed(members: seq<Member>, depth: nat)
    decreases members, 0
  {
    members == [] || (MemberAllowed(members[0], depth) && MembersAllowed(members[1..], depth))
  }

  predicate MemberAllowed(m: Member, depth: nat)
    decreases m, 3
  {
    PaddedAllowed(m.value, depth)
  }

  /** A text spells a value: it is that of some tree, with space around it. */
  ghost predicate Spells(source: string, v: Value) {
    exists p: Padded :: PaddedSpelled(p) == source && PaddedMeant(p) == v && PaddedAllowed(p, 0)
  }
}
