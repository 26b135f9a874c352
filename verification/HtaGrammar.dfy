/**
 The grammar of HTA0 frames: what the bytes of a value look like, as forms that
 spell bytes and mean a value.  A form lists its parts in any order, and decimal
 text need not be the shortest.  Nothing here names the decoder.
 */
module HtaGrammar {
  import opened Prelude
  import opened HtaData
  import opened HtaWire

  // ----- Words -----

  predicate IsFour(b: Bytes) { |b| == 4 }

  predicate IsEight(b: Bytes) { |b| == 8 }

  type Four = b: Bytes | IsFour(b) witness [0, 0, 0, 0]

  type Eight = b: Bytes | IsEight(b) witness [0, 0, 0, 0, 0, 0, 0, 0]

  /** Four bytes as a number, the most significant first. */
  function Worth(b: Four): nat {
    var first: nat, second: nat, third: nat, fourth: nat := b[0], b[1], b[2], b[3];
    first * 0x100_0000 + second * 0x1_0000 + third * 0x100 + fourth
  }

  function WideWorth(b: Eight): nat { Worth(b[..4]) * 0x1_0000_0000 + Worth(b[4..]) }

  /** Eight bytes as a signed number in two's complement. */
  function SignedWorth(b: Eight): int {
    if WideWorth(b) >= 0x8000_0000_0000_0000 then WideWorth(b) - 0x1_0000_0000_0000_0000 else WideWorth(b)
  }

  /** An optional minus sign and at least one digit, in ASCII. */
  predicate IsDecimal(text: Bytes) {
    var digits := if text != [] && text[0] == 0x2d then text[1..] else text;
    digits != [] && IsDigits(digits)
  }

  predicate IsDigits(digits: Bytes) { forall i :: 0 <= i < |digits| ==> 0x30 <= digits[i] <= 0x39 }

  // ----- Forms -----

  datatype FormPair = FormPair(key: Form, value: Form)

  datatype Form =
    | NilForm
    | FalseForm
    | TrueForm
    | IntegerForm(word: Eight)
    | FloatForm(word: Eight)
    | CharacterForm(code: Four)
    | DecimalForm(size: Four, text: Bytes)
    | TextForm(kind: TextKind, size: Four, text: Bytes)
    | BytesForm(size: Four, bytes: Bytes)
    | HandleForm(ownerSize: Four, owner: Bytes, typeSize: Four, typeName: Bytes, word: Eight)
    | ListForm(sequence: SequenceKind, size: Four, items: seq<Form>)
    | SetForm(collection: SetKind, size: Four, items: seq<Form>)
    | MapForm(size: Four, entries: seq<FormPair>)
    | EntriesForm(mapping: EntriesKind, size: Four, entries: seq<FormPair>)
    | AtomForm(content: Form)
    | TaggedForm(tag: Form, form: Form)
    | PointerForm(target: Form, fields: Form)
    | StructForm(name: Form, fields: Form, values: Form)

  /** The numbers of the tag inventory. */
  function TextNumber(kind: TextKind): Byte {
    match kind
    case StringText => 4 case KeywordText => 6 case SymbolText => 7 case NamespaceText => 13 case RegexText => 22
  }

  function ListNumber(kind: SequenceKind): Byte {
    match kind
    case List => 8 case Vector => 9 case Tuple => 9 case Array => 17 case Cons => 24 case Queue => 25
    case OrderedSet => 29 case Deque => 36 case MapEntry => 38
  }

  function SetNumber(kind: SetKind): Byte { if kind == Set then 10 else 30 }

  function EntriesNumber(kind: EntriesKind): Byte {
    match kind
    case Object => 18 case OrderedMap => 26 case SortedMap => 27 case Trie => 28 case PriorityMap => 37
  }

  function Spelled(f: Form): Bytes
    decreases f, 1
  {
    match f
    case NilForm => [0]
    case FalseForm => [1]
    case TrueForm => [2]
    case IntegerForm(word) => [3] + word
    case FloatForm(word) => [15] + word
    case CharacterForm(code) => [19] + code
    case DecimalForm(size, text) => [20] + size + text
    case TextForm(kind, size, text) => [TextNumber(kind)] + size + text
    case BytesForm(size, bytes) => [5] + size + bytes
    case HandleForm(ownerSize, owner, typeSize, typeName, word) =>
      [12] + ownerSize + owner + typeSize + typeName + word
    case ListForm(kind, size, items) => [ListNumber(kind)] + size + SpelledAll(items)
    case SetForm(kind, size, items) => [SetNumber(kind)] + size + SpelledAll(items)
    case MapForm(size, entries) => [11] + size + SpelledPairs(entries)
    case EntriesForm(kind, size, entries) => [EntriesNumber(kind)] + size + SpelledPairs(entries)
    case AtomForm(content) => [16] + Spelled(content)
    case TaggedForm(tag, form) => [31] + Spelled(tag) + Spelled(form)
    case PointerForm(target, fields) => [34] + Spelled(target) + Spelled(fields)
    case StructForm(name, fields, values) => [33] + Spelled(name) + Spelled(fields) + Spelled(values)
  }

  function SpelledAll(items: seq<Form>): Bytes
    decreases items, 0
  {
    if items == [] then [] else Spelled(items[0]) + SpelledAll(items[1..])
  }

  function SpelledPair(p: FormPair): Bytes
    decreases p, 1
  {
    Spelled(p.key) + Spelled(p.value)
  }

  function SpelledPairs(entries: seq<FormPair>): Bytes
    decreases entries, 0
  {
    if entries == [] then [] else SpelledPair(entries[0]) + SpelledPairs(entries[1..])
  }

  // ----- Which forms -----

  predicate IsText(f: Form, kind: TextKind) { f.TextForm? && f.kind == kind }

  predicate AllStringForms(items: seq<Form>) { forall i :: 0 <= i < |items| ==> IsText(items[i], StringText) }

  predicate StringPairs(entries: seq<FormPair>) {
    forall i :: 0 <= i < |entries| ==> IsText(entries[i].key, StringText)
  }

  predicate IsVectorForm(f: Form) { f.ListForm? && f.sequence == Vector }

  /** The text of a text form. */
  function TextOf(f: Form): Bytes { if f.TextForm? then f.text else [] }

  function FieldNames(items: seq<Form>): seq<Bytes> {
    seq(|items|, i requires 0 <= i < |items| => TextOf(items[i]))
  }

  /** The shape of a native result. */
  predicate PosesAsResult(name: Form, fields: Form) {
    IsText(name, StringText) && IsVectorForm(fields) && AllStringForms(fields.items) &&
    name.text == RESULT_NAME && FieldNames(fields.items) == RESULT_FIELDS
  }

  /** The values of a result that succeeded: `:success`, the data, nil and a map. */
  predicate ResultValues(items: seq<Form>) {
    |items| == 4 && IsText(items[0], KeywordText) && items[0].text == SUCCESS && items[2].NilForm? &&
    (items[3].MapForm? || (items[3].EntriesForm? && items[3].mapping != Object))
  }

  /** Whether a form is one of the grammar, that many levels down. */
  predicate Right(f: Form, depth: int)
    decreases f, 1
  {
    depth <= 256 &&
    match f
    case FloatForm(word) => WideWorth(word) / 0x10_0000_0000_0000 % 2048 != 2047
    case CharacterForm(code) => Worth(code) < 0xd800 || 0xdfff < Worth(code) < 0x11_0000
    case DecimalForm(size, text) => Worth(size) == |text| && IsDecimal(text)
    case TextForm(_, size, text) => Worth(size) == |text| && ValidUtf8(text)
    case BytesForm(size, bytes) => Worth(size) == |bytes|
    case HandleForm(ownerSize, owner, typeSize, typeName, _) =>
      Worth(ownerSize) == |owner| && ValidUtf8(owner) && Worth(typeSize) == |typeName| && ValidUtf8(typeName)
    case ListForm(kind, size, items) =>
      kind != Tuple && (kind == Cons ==> items != []) && (kind == MapEntry ==> |items| == 2) &&
      Worth(size) == |items| && AllRight(items, depth + 1)
    case SetForm(_, size, items) => Worth(size) == |items| && AllRight(items, depth + 1)
    case MapForm(size, entries) => Worth(size) == |entries| && PairsRight(entries, depth + 1)
    case EntriesForm(kind, size, entries) =>
      (kind == Trie || kind == Object ==> StringPairs(entries)) &&
      Worth(size) == |entries| && PairsRight(entries, depth + 1)
    case AtomForm(content) => Right(content, depth + 1)
    case TaggedForm(tag, form) => IsText(tag, SymbolText) && Right(tag, depth + 1) && Right(form, depth + 1)
    case PointerForm(target, fields) =>
      IsText(target, KeywordText) && fields.MapForm? && Right(target, depth + 1) && Right(fields, depth + 1)
    case StructForm(name, fields, values) =>
      IsText(name, StringText) && IsVectorForm(fields) && AllStringForms(fields.items) && IsVectorForm(values) &&
      |fields.items| == |values.items| && (PosesAsResult(name, fields) ==> ResultValues(values.items)) &&
      Right(name, depth + 1) && Right(fields, depth + 1) && Right(values, depth + 1)
    case _ => true
  }

  predicate AllRight(items: seq<Form>, depth: int)
    decreases items, 0
  {
    items == [] || (Right(items[0], depth) && AllRight(items[1..], depth))
  }

  predicate PairRight(p: FormPair, depth: int)
    decreases p, 2
  {
    Right(p.key, depth) && Right(p.value, depth)
  }

  predicate PairsRight(entries: seq<FormPair>, depth: int)
    decreases entries, 0
  {
    entries == [] || (PairRight(entries[0], depth) && PairsRight(entries[1..], depth))
  }

  // ----- What forms mean -----

  /** An integer given by its text, a machine integer where 64 bits hold it. */
  function DecimalMeant(text: Bytes): Value {
    var n := if text != [] && text[0] == 0x2d then -DigitsWorth(text[1..]) else DigitsWorth(text);
    if -0x8000_0000_0000_0000 <= n <= 0x7fff_ffff_ffff_ffff then Number(n) else BigInteger(n)
  }

  /** Every digit times the power of ten of its place. */
  function DigitsWorth(digits: Bytes): int {
    if digits == [] then 0
    else
      var first: int := digits[0];
      (first - 0x30) * Tens(|digits| - 1) + DigitsWorth(digits[1..])
  }

  function Tens(k: nat): int { if k == 0 then 1 else 10 * Tens(k - 1) }

  /** The entries of a map. */
  function EntriesOf(v: Value): seq<Pair> { if v.Map? || v.Entries? then v.entries else [] }

  function Meant(f: Form): Value
    decreases f, 1
  {
    match f
    case NilForm => Nil
    case FalseForm => Bool(false)
    case TrueForm => Bool(true)
    case IntegerForm(word) => Number(SignedWorth(word))
    case FloatForm(word) => Float(WideWorth(word))
    case CharacterForm(code) => Character(Worth(code))
    case DecimalForm(_, text) => DecimalMeant(text)
    case TextForm(kind, _, text) => Text(kind, text)
    case BytesForm(_, bytes) => ByteString(bytes)
    case HandleForm(_, owner, _, typeName, word) => Handle(owner, typeName, WideWorth(word))
    case ListForm(kind, _, items) => Sequence(kind, MeantAll(items))
    case SetForm(kind, _, items) => Unordered(kind, MeantAll(items))
    case MapForm(_, entries) => Map(MeantPairs(entries))
    case EntriesForm(kind, _, entries) => Entries(kind, MeantPairs(entries))
    case AtomForm(content) => Atom(Meant(content))
    case TaggedForm(tag, form) => Tagged(TextOf(tag), Meant(form))
    case PointerForm(target, fields) => Pointer(TextOf(target), EntriesOf(Meant(fields)))
    case StructForm(name, fields, values) => StructMeant(name, fields, Meant(values))
  }

  /** A structure, or the result it poses as. */
  function StructMeant(name: Form, fields: Form, values: Value): Value {
    var items := if values.Sequence? then values.items else [];
    if PosesAsResult(name, fields) && |items| == 4 then Success(items[1], Transported(EntriesOf(items[3])))
    else Struct(TextOf(name), FieldNames(if fields.ListForm? then fields.items else []), items)
  }

  function MeantAll(items: seq<Form>): (r: seq<Value>)
    ensures |r| == |items|
    decreases items, 0
  {
    if items == [] then [] else [Meant(items[0])] + MeantAll(items[1..])
  }

  function MeantPair(p: FormPair): Pair
    decreases p, 2
  {
    Pair(Meant(p.key), Meant(p.value))
  }

  function MeantPairs(entries: seq<FormPair>): (r: seq<Pair>)
    ensures |r| == |entries|
    decreases entries, 0
  {
    if entries == [] then [] else [MeantPair(entries[0])] + MeantPairs(entries[1..])
  }

  /** A frame: the letters HTA0 and one form of the grammar, within the largest size. */
  ghost predicate FrameMeans(b: Bytes, v: Value) {
    |b| <= 64 * 1024 * 1024 &&
    exists f: Form :: Right(f, 0) && b == [0x48, 0x54, 0x41, 0x30] + Spelled(f) && Meant(f) == v
  }
}
