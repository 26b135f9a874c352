/**
 JSON text of Hara values (`json.rs`): what the writer puts out and what the
 reader takes in, as functions. The reader is given by what it reads off the
 front of a text and the text it leaves.
 */
module JsonText {
  import opened Prelude
  import Decimal

  const MAX_DEPTH := 256
  const TWO_63 := 0x8000_0000_0000_0000

  datatype MapKind = Map | OrderedMap | SortedMap | Trie

  datatype Entry = Entry(key: Value, value: Value)

  datatype Value =
    | Nil
    | Bool(b: bool)
    | Number(i: int)
    | BigInteger(n: int)
    | Text(text: string)
    | Vector(items: seq<Value>)
    | Tuple(items: seq<Value>)
    | Object(kind: MapKind, entries: seq<Entry>)
    | Other

  /** `compact_integer`: a machine integer when it fits. */
  function Compact(n: int): Value { if -TWO_63 <= n < TWO_63 then Number(n) else BigInteger(n) }

  // ----- Writing -----

  function Spaces(depth: nat): string { if depth == 0 then "" else "  " + Spaces(depth - 1) }

  function Newline(depth: nat): string { "\n" + Spaces(depth) }

  function HexDigit(d: nat): char
    requires d < 16
  {
    if d < 10 then ('0' as int + d) as char else ('a' as int + (d - 10)) as char
  }

  function Hex4(n: nat): string
    requires n < 0x1_0000
  {
    [HexDigit(n / 4096), HexDigit(n / 256 % 16), HexDigit(n / 16 % 16), HexDigit(n % 16)]
  }

  const BACKSPACE: char := 8 as char
  const FORM_FEED: char := 12 as char

  /** One character of a string as written. */
  function Escape(c: char): string {
    if c == '"' then "\\\""
    else if c == '\\' then "\\\\"
    else if c == BACKSPACE then "\\b"
    else if c == FORM_FEED then "\\f"
    else if c == '\n' then "\\n"
    else if c == '\r' then "\\r"
    else if c == '\t' then "\\t"
    else if c as int <= 0x1f then "\\u" + Hex4(c as int)
    else [c]
  }

  function Escaped(s: string): string { if s == [] then [] else Escape(s[0]) + Escaped(s[1..]) }

  function Quoted(s: string): string { "\"" + Escaped(s) + "\"" }

  function Gap(depth: nat, pretty: bool): string { if pretty then Newline(depth) else "" }

  function Colon(pretty: bool): string { if pretty then ": " else ":" }

  /** `encode`: None when the value has no JSON text. */
  function Write(v: Value, depth: nat, pretty: bool): Option<string>
    decreases v, 1
  {
    match v
    case Nil => Some("null")
    case Bool(b) => Some(if b then "true" else "false")
    case Number(i) => Some(Decimal.ToDecimal(i))
    case BigInteger(n) => Some(Decimal.ToDecimal(n))
    case Text(s) => Some(Quoted(s))
    case Vector(items) => Enclosed('[', WriteItems(items, depth + 1, pretty, true), items == [], depth, pretty, ']')
    case Tuple(items) => Enclosed('[', WriteItems(items, depth + 1, pretty, true), items == [], depth, pretty, ']')
    case Object(_, entries) =>
      Enclosed('{', WriteEntries(entries, depth + 1, pretty, true), entries == [], depth, pretty, '}')
    case Other => None
  }

  function Enclosed(open: char, body: Option<string>, empty: bool, depth: nat, pretty: bool, close: char)
    : Option<string>
  {
    if body.None? then None
    else Some([open] + body.value + (if empty then "" else Gap(depth, pretty)) + [close])
  }

  function Comma(first: bool): string { if first then "" else "," }

  function WriteItems(items: seq<Value>, depth: nat, pretty: bool, first: bool): Option<string>
    decreases items, 0
  {
    if items == [] then Some("")
    else
      var head, tail := Write(items[0], depth, pretty), WriteItems(items[1..], depth, pretty, false);
      if head.None? || tail.None? then None
      else Some(Comma(first) + Gap(depth, pretty) + head.value + tail.value)
  }

  function WriteEntries(entries: seq<Entry>, depth: nat, pretty: bool, first: bool): Option<string>
    decreases entries, 0
  {
    if entries == [] then Some("")
    else
      var head, tail := WriteEntry(entries[0], depth, pretty), WriteEntries(entries[1..], depth, pretty, false);
      if head.None? || tail.None? then None
      else Some(Comma(first) + Gap(depth, pretty) + head.value + tail.value)
  }

  function WriteEntry(e: Entry, depth: nat, pretty: bool): Option<string>
    decreases e, 2
  {
    var value := Write(e.value, depth, pretty);
    if !e.key.Text? || value.None? then None
    else Some(Quoted(e.key.text) + Colon(pretty) + value.value)
  }

  // ----- Reading -----

  datatype Error =
    | TooDeep | NoValue | BadToken | LeadingZero | NotInteger | BadInteger | TrailingComma | Expected(c: char)
    | BadKey | DuplicateKey | Unterminated | ControlCharacter | BadEscape | ShortUnicode | BadUnicode | TrailingContent

  /** What was read and the text left. */
  datatype Taken<T> = Taken(value: T, rest: string)

  predicate IsSpace(c: char) { c == ' ' || c == '\t' || c == '\n' || c == '\r' }

  function Skip(s: string): (r: string)
    ensures |r| <= |s|
  {
    if s != [] && IsSpace(s[0]) then Skip(s[1..]) else s
  }

  predicate Starts(s: string, c: char) { s != [] && s[0] == c }

  function ReadLiteral(s: string, literal: string, v: Value): (r: Result<Taken<Value>, Error>)
    requires literal != ""
    ensures r.Ok? ==> |r.value.rest| < |s|
  {
    if literal <= s then Ok(Taken(v, s[|literal|..])) else Err(BadToken)
  }

  /** How many digits a text starts with. */
  function DigitRun(s: string): (n: nat)
    ensures n <= |s| && (forall i :: 0 <= i < n ==> Decimal.IsDigit(s[i])) && (n < |s| ==> !Decimal.IsDigit(s[n]))
  {
    if s != [] && Decimal.IsDigit(s[0]) then 1 + DigitRun(s[1..]) else 0
  }

  /** The length of a number, after its sign. */
  function NumberLength(s: string): (r: Result<nat, Error>)
    ensures r.Ok? ==> 0 < r.value <= |s|
  {
    if Starts(s, '0') then
      if |s| > 1 && Decimal.IsDigit(s[1]) then Err(LeadingZero) else Ok(1)
    else if s != [] && Decimal.IsDigit(s[0]) then Ok(DigitRun(s))
    else Err(NoValue)
  }

  function ReadNumber(s: string): (r: Result<Taken<Value>, Error>)
    ensures r.Ok? ==> |r.value.rest| < |s|
  {
    var sign := if Starts(s, '-') then 1 else 0;
    var length := NumberLength(s[sign..]);
    if length.Err? then Err(length.error)
    else
      var end := sign + length.value;
      var rest := s[end..];
      if Starts(rest, '.') || Starts(rest, 'e') || Starts(rest, 'E') then Err(NotInteger)
      else
        match Decimal.ParseDecimal(s[..end])
        case None => Err(BadInteger)
        case Some(n) => Ok(Taken(Compact(n), rest))
  }

  function HexValue(c: char): Option<nat> {
    if '0' <= c <= '9' then Some(c as int - '0' as int)
    else if 'a' <= c <= 'f' then Some(c as int - 'a' as int + 10)
    else if 'A' <= c <= 'F' then Some(c as int - 'A' as int + 10)
    else None
  }

  /** Hexadecimal digits, most significant first. */
  function ReadHex(s: string, count: nat, value: nat): (r: Result<Taken<nat>, Error>)
    ensures r.Ok? ==> |r.value.rest| == |s| - count
    decreases count
  {
    if count == 0 then Ok(Taken(value, s))
    else if s == [] then Err(ShortUnicode)
    else
      match HexValue(s[0])
      case None => Err(BadUnicode)
      case Some(d) => ReadHex(s[1..], count - 1, value * 16 + d)
  }

  predicate IsScalar(n: nat) { n < 0xd800 || 0xe000 <= n < 0x11_0000 }

  function ReadUnicode(s: string): (r: Result<Taken<char>, Error>)
    ensures r.Ok? ==> |r.value.rest| < |s|
  {
    match ReadHex(s, 4, 0)
    case Err(e) => Err(e)
    case Ok(t) => if IsScalar(t.value) then Ok(Taken(t.value as char, t.rest)) else Err(BadUnicode)
  }

  /** The character after a backslash. */
  function ReadEscape(s: string): (r: Result<Taken<char>, Error>)
    ensures r.Ok? ==> |r.value.rest| < |s|
  {
    if s == [] then Err(BadEscape)
    else if s[0] == '"' then Ok(Taken('"', s[1..]))
    else if s[0] == '\\' then Ok(Taken('\\', s[1..]))
    else if s[0] == '/' then Ok(Taken('/', s[1..]))
    else if s[0] == 'b' then Ok(Taken(BACKSPACE, s[1..]))
    else if s[0] == 'f' then Ok(Taken(FORM_FEED, s[1..]))
    else if s[0] == 'n' then Ok(Taken('\n', s[1..]))
    else if s[0] == 'r' then Ok(Taken('\r', s[1..]))
    else if s[0] == 't' then Ok(Taken('\t', s[1..]))
    else if s[0] == 'u' then ReadUnicode(s[1..])
    else Err(BadEscape)
  }

  /** The rest of a string after its opening quote; `out` is read already. */
  function ReadChars(s: string, out: string): (r: Result<Taken<string>, Error>)
    ensures r.Ok? ==> |r.value.rest| < |s|
    decreases |s|
  {
    if s == [] then Err(Unterminated)
    else if s[0] == '"' then Ok(Taken(out, s[1..]))
    else if s[0] as int < 0x20 then Err(ControlCharacter)
    else if s[0] == '\\' then
      match ReadEscape(s[1..])
      case Err(e) => Err(e)
      case Ok(t) => ReadChars(t.rest, out + [t.value])
    else ReadChars(s[1..], out + [s[0]])
  }

  function ReadString(s: string): (r: Result<Taken<string>, Error>)
    ensures r.Ok? ==> |r.value.rest| < |s|
  {
    if Starts(s, '"') then ReadChars(s[1..], "") else Err(Expected('"'))
  }

  function ReadValue(s: string, depth: nat): (r: Result<Taken<Value>, Error>)
    ensures r.Ok? ==> |r.value.rest| < |s|
    decreases |s|, 3
  {
    if depth > MAX_DEPTH then Err(TooDeep)
    else
      var t := Skip(s);
      if t == [] then Err(NoValue)
      else if t[0] == 'n' then ReadLiteral(t, "null", Nil)
      else if t[0] == 't' then ReadLiteral(t, "true", Bool(true))
      else if t[0] == 'f' then ReadLiteral(t, "false", Bool(false))
      else if t[0] == '"' then
        match ReadString(t)
        case Err(e) => Err(e)
        case Ok(text) => Ok(Taken(Text(text.value), text.rest))
      else if t[0] == '[' then ReadArray(t, depth + 1)
      else if t[0] == '{' then ReadObject(t, depth + 1)
      else ReadNumber(t)
  }

  function ReadArray(s: string, depth: nat): (r: Result<Taken<Value>, Error>)
    requires Starts(s, '[')
    ensures r.Ok? ==> |r.value.rest| < |s|
    decreases |s|, 2
  {
    var t := Skip(s[1..]);
    if Starts(t, ']') then Ok(Taken(Vector([]), t[1..])) else ReadItems(t, depth, [])
  }

  /** The items of an array from one on; `items` are read already. */
  function ReadItems(s: string, depth: nat, items: seq<Value>): (r: Result<Taken<Value>, Error>)
    ensures r.Ok? ==> |r.value.rest| < |s|
    decreases |s|, 4
  {
    match ReadValue(s, depth)
    case Err(e) => Err(e)
    case Ok(v) =>
      var t := Skip(v.rest);
      if Starts(t, ']') then Ok(Taken(Vector(items + [v.value]), t[1..]))
      else if !Starts(t, ',') then Err(Expected(','))
      else
        var u := Skip(t[1..]);
        if Starts(u, ']') then Err(TrailingComma) else ReadItems(u, depth, items + [v.value])
  }

  function ReadObject(s: string, depth: nat): (r: Result<Taken<Value>, Error>)
    requires Starts(s, '{')
    ensures r.Ok? ==> |r.value.rest| < |s|
    decreases |s|, 2
  {
    var t := Skip(s[1..]);
    if Starts(t, '}') then Ok(Taken(Object(OrderedMap, []), t[1..])) else ReadEntries(t, depth, [])
  }

  predicate HasKey(entries: seq<Entry>, key: string) {
    exists i :: 0 <= i < |entries| && entries[i].key == Text(key)
  }

  /** One `key: value`. */
  function ReadEntry(s: string, depth: nat): (r: Result<Taken<(string, Value)>, Error>)
    ensures r.Ok? ==> |r.value.rest| < |s|
    decreases |s|, 4
  {
    if !Starts(s, '"') then Err(BadKey)
    else
      match ReadString(s)
      case Err(e) => Err(e)
      case Ok(key) =>
        var t := Skip(key.rest);
        if !Starts(t, ':') then Err(Expected(':'))
        else
          match ReadValue(t[1..], depth)
          case Err(e) => Err(e)
          case Ok(v) => Ok(Taken((key.value, v.value), v.rest))
  }

  function ReadEntries(s: string, depth: nat, entries: seq<Entry>): (r: Result<Taken<Value>, Error>)
    ensures r.Ok? ==> |r.value.rest| < |s|
    decreases |s|, 5
  {
    match ReadEntry(s, depth)
    case Err(e) => Err(e)
    case Ok(e) =>
      if HasKey(entries, e.value.0) then Err(DuplicateKey)
      else
        var more := entries + [Entry(Text(e.value.0), e.value.1)];
        var t := Skip(e.rest);
        if Starts(t, '}') then Ok(Taken(Object(OrderedMap, more), t[1..]))
        else if !Starts(t, ',') then Err(Expected(','))
        else
          var u := Skip(t[1..]);
          if Starts(u, '}') then Err(TrailingComma) else ReadEntries(u, depth, more)
  }

  /** `read`: one value and nothing after it but space. */
  function Read(source: string): Result<Value, Error> {
    match ReadValue(source, 0)
    case Err(e) => Err(e)
    case Ok(v) => if Skip(v.rest) == [] then Ok(v.value) else Err(TrailingContent)
  }

  // ----- What comes back -----

  function Canon(v: Value): Value
    decreases v, 1
  {
    match v
    case Number(i) => Compact(i)
    case BigInteger(n) => Compact(n)
    case Vector(items) => Vector(CanonAll(items))
    case Tuple(items) => Vector(CanonAll(items))
    case Object(_, entries) => Object(OrderedMap, CanonEntries(entries))
    case _ => v
  }

  function CanonAll(items: seq<Value>): (r: seq<Value>)
    ensures |r| == |items|
    decreases items, 0
  {
    if items == [] then [] else [Canon(items[0])] + CanonAll(items[1..])
  }

  function CanonEntries(entries: seq<Entry>): (r: seq<Entry>)
    ensures |r| == |entries|
    decreases entries, 0
  {
    if entries == [] then [] else [CanonEntry(entries[0])] + CanonEntries(entries[1..])
  }

  function CanonEntry(e: Entry): Entry
    decreases e, 2
  {
    Entry(e.key, Canon(e.value))
  }

  /** Within the nesting limit, counted as the reader counts. */
  predicate Fits(v: Value, depth: nat)
    decreases v, 1
  {
    depth <= MAX_DEPTH &&
    match v
    case Vector(items) => AllFit(items, depth + 1)
    case Tuple(items) => AllFit(items, depth + 1)
    case Object(_, entries) => DistinctKeys(entries) && EntriesFit(entries, depth + 1)
    case _ => true
  }

  predicate AllFit(items: seq<Value>, depth: nat)
    decreases items, 0
  {
    items == [] || (Fits(items[0], depth) && AllFit(items[1..], depth))
  }

  predicate EntriesFit(entries: seq<Entry>, depth: nat)
    decreases entries, 0
  {
    entries == [] || (EntryFits(entries[0], depth) && EntriesFit(entries[1..], depth))
  }

  predicate EntryFits(e: Entry, depth: nat)
    decreases e, 2
  {
    Fits(e.value, depth)
  }

  predicate DistinctKeys(entries: seq<Entry>) {
    forall i, j :: 0 <= i < j < |entries| ==> entries[i].key != entries[j].key
  }
}
