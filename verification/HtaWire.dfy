/**
 What the HTA0 encoder writes and the HTA0 decoder reads, as functions.

 `Wire` is the byte string of a value, `Canon` the value a reader makes of it,
 `Read` the decoder on the bytes that remain.  `Encodable` and `Readable` are
 the two nesting measures, which differ on structures.
 */
module HtaWire {
  import opened Prelude
  import opened HtaData
  import Decimal

  // ----- Byte-string order and the encoder's sort -----

  /** Lexicographic order, the order of `Vec<u8>`. */
  predicate LexLe(a: Bytes, b: Bytes) {
    a == [] || (b != [] && (a[0] < b[0] || (a[0] == b[0] && LexLe(a[1..], b[1..]))))
  }

  datatype Keyed<T> = Keyed(key: Bytes, payload: T)

  function Insert<T>(x: Keyed<T>, s: seq<Keyed<T>>): seq<Keyed<T>> {
    if s == [] || LexLe(x.key, s[0].key) then [x] + s else [s[0]] + Insert(x, s[1..])
  }

  /** A stable sort by key. */
  function Sort<T>(s: seq<Keyed<T>>): seq<Keyed<T>> {
    if s == [] then [] else Insert(s[0], Sort(s[1..]))
  }

  function ConcatKeys<T>(s: seq<Keyed<T>>): Bytes {
    if s == [] then [] else s[0].key + ConcatKeys(s[1..])
  }

  /** An encoded map entry: the key's bytes, the value's bytes, and the entry read back. */
  datatype WirePair = WirePair(value: Bytes, canon: Pair)

  function ConcatEntries(s: seq<Keyed<WirePair>>): Bytes {
    if s == [] then [] else s[0].key + s[0].payload.value + ConcatEntries(s[1..])
  }

  function Payloads<T>(s: seq<Keyed<T>>): (r: seq<T>)
    ensures |r| == |s| && forall i :: 0 <= i < |s| ==> r[i] == s[i].payload
  {
    if s == [] then [] else [s[0].payload] + Payloads(s[1..])
  }

  function CanonEntries(s: seq<Keyed<WirePair>>): (r: seq<Pair>)
    ensures |r| == |s| && forall i :: 0 <= i < |s| ==> r[i] == s[i].payload.canon
  {
    if s == [] then [] else [s[0].payload.canon] + CanonEntries(s[1..])
  }

  // ----- Encoding -----

  function Data(b: Bytes): Bytes { BE(|b|, 4) + b }

  function TextWire(kind: TextKind, text: Bytes): Bytes { [TagByte(TextTag(kind))] + Data(text) }

  function TextsWire(texts: seq<Bytes>): Bytes {
    if texts == [] then [] else TextWire(StringText, texts[0]) + TextsWire(texts[1..])
  }

  lemma {:induction false} DigitsAreAscii(n: nat)
    ensures IsAscii(Decimal.DigitsOf(n))
  {
    forall i | 0 <= i < |Decimal.DigitsOf(n)| ensures (Decimal.DigitsOf(n)[i] as int) < 128 {
      assert Decimal.IsDigit(Decimal.DigitsOf(n)[i]);
    }
  }

  function DecimalBytes(n: int): Bytes {
    DigitsAreAscii(if n < 0 then -n else n);
    Ascii(Decimal.ToDecimal(n))
  }

  /** `std.native/Result` and its fields `status`, `data`, `error`, `context`, in ASCII. */
  const RESULT_NAME: Bytes := [115, 116, 100, 46, 110, 97, 116, 105, 118, 101, 47, 82, 101, 115, 117, 108, 116]
  const STATUS: Bytes := [115, 116, 97, 116, 117, 115]
  const DATA: Bytes := [100, 97, 116, 97]
  const ERROR: Bytes := [101, 114, 114, 111, 114]
  const CONTEXT: Bytes := [99, 111, 110, 116, 101, 120, 116]
  const RESULT_FIELDS: seq<Bytes> := [STATUS, DATA, ERROR, CONTEXT]
  const SUCCESS: Bytes := [115, 117, 99, 99, 101, 115, 115]
  const DISPLAY: Bytes := [100, 105, 115, 112, 108, 97, 121]

  function SequenceHeader(kind: SequenceKind, size: nat): Bytes {
    [TagByte(SequenceTag(kind))] + BE(size, 4)
  }

  /** The tag, name and field names of a structure, up to the header of its values. */
  function StructHeader(name: Bytes, fields: seq<Bytes>): Bytes {
    [TagByte(StructTag)] + TextWire(StringText, name)
    + SequenceHeader(Vector, |fields|) + TextsWire(fields)
  }

  function Wire(v: Value): Bytes
    decreases v, 1
  {
    match v
    case Nil => [TagByte(NilTag)]
    case Bool(b) => [TagByte(if b then TrueTag else FalseTag)]
    case Number(i) => [TagByte(I64Tag)] + BE(i % TWO_64, 8)
    case Float(bits) => [TagByte(F64Tag)] + BE(bits, 8)
    case Character(code) => [TagByte(CharacterTag)] + BE(code, 4)
    case BigInteger(n) =>
      if IsI64(n) then [TagByte(I64Tag)] + BE(n % TWO_64, 8)
      else [TagByte(BigIntegerTag)] + Data(DecimalBytes(n))
    case Text(kind, text) => TextWire(kind, text)
    case ByteString(bytes) => [TagByte(BytesTag)] + Data(bytes)
    case Sequence(kind, items) => SequenceHeader(kind, |items|) + WireAll(items)
    case Unordered(kind, items) =>
      [TagByte(SetTag(kind))] + BE(|items|, 4) + ConcatKeys(Sort(KeyItems(items)))
    case Map(entries) => MapWire(entries)
    case Entries(kind, entries) => [TagByte(EntriesTag(kind))] + BE(|entries|, 4) + WirePairs(entries)
    case Atom(content) => [TagByte(AtomTag)] + Wire(content)
    case Tagged(tag, form) => [TagByte(TaggedTag)] + TextWire(SymbolText, tag) + Wire(form)
    case Handle(provider, typeName, handle) =>
      [TagByte(HandleTag)] + Data(provider) + Data(typeName) + BE(handle, 8)
    case Struct(name, fields, values) =>
      StructHeader(name, fields) + SequenceHeader(Vector, |values|) + WireAll(values)
    case Success(data, context) =>
      StructHeader(RESULT_NAME, RESULT_FIELDS) + SequenceHeader(Vector, 4)
      + TextWire(KeywordText, SUCCESS) + Wire(data) + [TagByte(NilTag)] + MapWire(context)
    case Pointer(target, entries) => [TagByte(PointerTag)] + TextWire(KeywordText, target) + MapWire(entries)
    case Unsupported => []
  }

  function WireAll(items: seq<Value>): Bytes
    decreases items, 0
  {
    if items == [] then [] else Wire(items[0]) + WireAll(items[1..])
  }

  function EntryWire(p: Pair): Bytes
    decreases p, 1
  {
    Wire(p.key) + Wire(p.value)
  }

  function WirePairs(entries: seq<Pair>): Bytes
    decreases entries, 0
  {
    if entries == [] then [] else EntryWire(entries[0]) + WirePairs(entries[1..])
  }

  function MapWire(entries: seq<Pair>): Bytes
    decreases entries, 1
  {
    [TagByte(MapTag)] + BE(|entries|, 4) + ConcatEntries(Sort(KeyPairs(entries)))
  }

  function KeyItems(items: seq<Value>): (r: seq<Keyed<Value>>)
    ensures |r| == |items|
    ensures forall i :: 0 <= i < |items| ==> r[i] == Keyed(Wire(items[i]), Canon(items[i]))
    decreases items, 0
  {
    if items == [] then [] else [Keyed(Wire(items[0]), Canon(items[0]))] + KeyItems(items[1..])
  }

  function CanonPair(p: Pair): Pair
    decreases p, 1
  {
    Pair(Canon(p.key), Canon(p.value))
  }

  function KeyPair(p: Pair): Keyed<WirePair>
    decreases p, 2
  {
    Keyed(Wire(p.key), WirePair(Wire(p.value), CanonPair(p)))
  }

  function KeyPairs(entries: seq<Pair>): (r: seq<Keyed<WirePair>>)
    ensures |r| == |entries|
    ensures forall i :: 0 <= i < |entries| ==> r[i] == KeyPair(entries[i])
    decreases entries, 0
  {
    if entries == [] then [] else [KeyPair(entries[0])] + KeyPairs(entries[1..])
  }

  /** The value a reader rebuilds: sets and maps in wire order, vectors for tuples, small integers compact. */
  function Canon(v: Value): Value
    decreases v, 1
  {
    match v
    case BigInteger(n) => if IsI64(n) then Number(n) else v
    case Sequence(kind, items) => Sequence(if kind == Tuple then Vector else kind, CanonAll(items))
    case Unordered(kind, items) => Unordered(kind, Payloads(Sort(KeyItems(items))))
    case Map(entries) => Map(CanonMap(entries))
    case Entries(kind, entries) => Entries(kind, CanonPairs(entries))
    case Atom(content) => Atom(Canon(content))
    case Tagged(tag, form) => Tagged(tag, Canon(form))
    case Struct(name, fields, values) => Struct(name, fields, CanonAll(values))
    case Success(data, context) => Success(Canon(data), CanonMap(context))
    case Pointer(target, entries) => Pointer(target, CanonMap(entries))
    case _ => v
  }

  function CanonAll(items: seq<Value>): (r: seq<Value>)
    ensures |r| == |items| && forall i :: 0 <= i < |items| ==> r[i] == Canon(items[i])
    decreases items, 0
  {
    if items == [] then [] else [Canon(items[0])] + CanonAll(items[1..])
  }

  function CanonPairs(entries: seq<Pair>): (r: seq<Pair>)
    ensures |r| == |entries|
    ensures forall i :: 0 <= i < |entries| ==> r[i] == CanonPair(entries[i])
    decreases entries, 0
  {
    if entries == [] then [] else [CanonPair(entries[0])] + CanonPairs(entries[1..])
  }

  function CanonMap(entries: seq<Pair>): seq<Pair>
    decreases entries, 1
  {
    CanonEntries(Sort(KeyPairs(entries)))
  }

  // ----- Which values -----

  predicate IsResultShape(name: Bytes, fields: seq<Bytes>) {
    name == RESULT_NAME && fields == RESULT_FIELDS
  }

  predicate IsString(v: Value) { v.Text? && v.kind == StringText }

  predicate IsDisplay(v: Value) { v == Text(KeywordText, DISPLAY) }

  /** A result's context as it travels: `:display` stays behind. */
  function Transported(entries: seq<Pair>): (r: seq<Pair>)
    ensures |r| <= |entries| && forall p <- r :: p in entries && !IsDisplay(p.key)
    ensures (forall p <- entries :: !IsDisplay(p.key)) ==> r == entries
  {
    if entries == [] then []
    else if IsDisplay(entries[0].key) then Transported(entries[1..])
    else [entries[0]] + Transported(entries[1..])
  }

  /**
   What the host types already guarantee of a value; a structure must not pose as a Result, and a result is
   given with the context that travels.
   */
  predicate WellFormed(v: Value)
    decreases v
  {
    match v
    case Number(i) => IsI64(i)
    case Float(bits) => bits < TWO_64
    case Character(code) => IsScalar(code)
    case Text(_, text) => ValidUtf8(text)
    case Sequence(kind, items) =>
      && (kind == Cons ==> items != []) && (kind == MapEntry ==> |items| == 2)
      && forall x <- items :: WellFormed(x)
    case Unordered(_, items) => forall x <- items :: WellFormed(x)
    case Map(entries) => forall p <- entries :: WellFormed(p.key) && WellFormed(p.value)
    case Entries(kind, entries) =>
      && (forall p <- entries :: WellFormed(p.key) && WellFormed(p.value))
      && (kind == Trie || kind == Object ==> forall p <- entries :: IsString(p.key))
    case Atom(content) => WellFormed(content)
    case Tagged(tag, form) => ValidUtf8(tag) && WellFormed(form)
    case Handle(provider, typeName, handle) => ValidUtf8(provider) && ValidUtf8(typeName) && handle < TWO_64
    case Struct(name, fields, values) =>
      && ValidUtf8(name) && (forall f <- fields :: ValidUtf8(f)) && |fields| == |values|
      && !IsResultShape(name, fields) && forall x <- values :: WellFormed(x)
    case Success(data, context) =>
      WellFormed(data) && forall p <- context :: WellFormed(p.key) && WellFormed(p.value) && !IsDisplay(p.key)
    case Pointer(target, entries) =>
      ValidUtf8(target) && forall p <- entries :: WellFormed(p.key) && WellFormed(p.value)
    case _ => true
  }

  predicate Fits(b: Bytes) { |b| < TWO_32 }

  /** Whether the encoder accepts a value found `depth` levels down. */
  predicate Encodable(v: Value, depth: nat)
    decreases v
  {
    depth <= MAX_NESTING_DEPTH &&
    match v
    case Float(bits) => Finite(bits)
    case BigInteger(n) => IsI64(n) || Fits(DecimalBytes(n))
    case Text(_, text) => Fits(text)
    case ByteString(bytes) => Fits(bytes)
    case Sequence(_, items) => |items| < TWO_32 && forall x <- items :: Encodable(x, depth + 1)
    case Unordered(_, items) => |items| < TWO_32 && forall x <- items :: Encodable(x, depth + 1)
    case Map(entries) =>
      |entries| < TWO_32 && forall p <- entries :: Encodable(p.key, depth + 1) && Encodable(p.value, depth + 1)
    case Entries(_, entries) =>
      |entries| < TWO_32 && forall p <- entries :: Encodable(p.key, depth + 1) && Encodable(p.value, depth + 1)
    case Atom(content) => Encodable(content, depth + 1)
    case Tagged(tag, form) => Fits(tag) && Encodable(form, depth + 1)
    case Handle(provider, typeName, _) => Fits(provider) && Fits(typeName)
    case Struct(name, fields, values) =>
      && depth + 1 <= MAX_NESTING_DEPTH && Fits(name)
      && |fields| < TWO_32 && (forall f <- fields :: Fits(f))
      && |values| < TWO_32 && forall x <- values :: Encodable(x, depth + 1)
    case Success(data, context) =>
      && depth + 1 <= MAX_NESTING_DEPTH && Encodable(data, depth + 1) && |context| < TWO_32
      && forall p <- context :: Encodable(p.key, depth + 2) && Encodable(p.value, depth + 2)
    case Pointer(target, entries) =>
      && depth + 1 <= MAX_NESTING_DEPTH && Fits(target) && |entries| < TWO_32
      && forall p <- entries :: Encodable(p.key, depth + 2) && Encodable(p.value, depth + 2)
    case Unsupported => false
    case _ => true
  }

  /**
   Whether the decoder follows a value found `depth` levels down: a structure's parts lie two levels below it.
   The decoder starts at level 0; a level below 0 stands for one with more room above it.
   */
  predicate Readable(v: Value, depth: int)
    decreases v
  {
    depth <= MAX_NESTING_DEPTH &&
    match v
    case Sequence(_, items) => forall x <- items :: Readable(x, depth + 1)
    case Unordered(_, items) => forall x <- items :: Readable(x, depth + 1)
    case Map(entries) => forall p <- entries :: Readable(p.key, depth + 1) && Readable(p.value, depth + 1)
    case Entries(_, entries) => forall p <- entries :: Readable(p.key, depth + 1) && Readable(p.value, depth + 1)
    case Atom(content) => Readable(content, depth + 1)
    case Tagged(_, form) => depth + 1 <= MAX_NESTING_DEPTH && Readable(form, depth + 1)
    case Struct(_, fields, values) =>
      && depth + 1 <= MAX_NESTING_DEPTH && (fields != [] ==> depth + 2 <= MAX_NESTING_DEPTH)
      && forall x <- values :: Readable(x, depth + 2)
    case Success(data, context) =>
      && depth + 2 <= MAX_NESTING_DEPTH && Readable(data, depth + 2)
      && forall p <- context :: Readable(p.key, depth + 3) && Readable(p.value, depth + 3)
    case Pointer(_, entries) =>
      && depth + 1 <= MAX_NESTING_DEPTH
      && forall p <- entries :: Readable(p.key, depth + 2) && Readable(p.value, depth + 2)
    case _ => true
  }

  // ----- Decoding -----

  /** A reader's result: what it read and the bytes that remain. */
  type Got<T> = Result<(T, Bytes), Error>

  function Take(b: Bytes, size: nat): (r: Got<Bytes>)
    ensures r.Ok? ==> r.value.0 + r.value.1 == b && |r.value.0| == size
  {
    if size > |b| then Err(Malformed("truncated value")) else Ok((b[..size], b[size..]))
  }

  function ReadLen(b: Bytes): (r: Got<nat>)
    ensures r.Ok? ==> |r.value.1| + 4 == |b|
  {
    match Take(b, 4)
    case Err(e) => Err(e)
    case Ok((n, rest)) => Ok((FromBE(n), rest))
  }

  function ReadData(b: Bytes): (r: Got<Bytes>)
    ensures r.Ok? ==> |r.value.1| < |b|
  {
    match ReadLen(b)
    case Err(e) => Err(e)
    case Ok((size, rest)) => Take(rest, size)
  }

  function ReadText(what: string, b: Bytes): (r: Got<Bytes>)
    ensures r.Ok? ==> |r.value.1| < |b|
  {
    match ReadData(b)
    case Err(e) => Err(e)
    case Ok((text, rest)) => if ValidUtf8(text) then Ok((text, rest)) else Err(Malformed(what))
  }

  function ReadInteger(b: Bytes): (r: Got<Value>)
    ensures r.Ok? ==> |r.value.1| < |b|
  {
    match ReadText("invalid big integer", b)
    case Err(e) => Err(e)
    case Ok((text, rest)) =>
      match Decimal.ParseDecimal(Chars(text))
      case None => Err(Malformed("invalid big integer"))
      case Some(n) => Ok((if IsI64(n) then Number(n) else BigInteger(n), rest))
  }

  function ReadHandle(b: Bytes): (r: Got<Value>)
    ensures r.Ok? ==> |r.value.1| < |b|
  {
    match ReadText("invalid handle owner", b)
    case Err(e) => Err(e)
    case Ok((provider, b1)) =>
      match ReadText("invalid handle type", b1)
      case Err(e) => Err(e)
      case Ok((typeName, b2)) =>
        match Take(b2, 8)
        case Err(e) => Err(e)
        case Ok((n, b3)) => Ok((Handle(provider, typeName, FromBE(n)), b3))
  }

  function TextError(kind: TextKind): string {
    match kind
    case RegexText => "invalid regex"
    case NamespaceText => "invalid namespace name"
    case _ => "invalid UTF-8"
  }

  /** The values without parts. */
  function ReadLeaf(tag: Tag, b: Bytes): (r: Got<Value>)
    ensures r.Ok? ==> |r.value.1| <= |b|
  {
    match tag
    case NilTag => Ok((Nil, b))
    case FalseTag => Ok((Bool(false), b))
    case TrueTag => Ok((Bool(true), b))
    case I64Tag => (match Take(b, 8) case Err(e) => Err(e) case Ok((n, rest)) => Ok((Number(Sign(FromBE(n))), rest)))
    case F64Tag =>
      (match Take(b, 8)
       case Err(e) => Err(e)
       case Ok((n, rest)) => if Finite(FromBE(n)) then Ok((Float(FromBE(n)), rest)) else Err(NonFinite))
    case CharacterTag =>
      (match Take(b, 4)
       case Err(e) => Err(e)
       case Ok((n, rest)) =>
         if IsScalar(FromBE(n)) then Ok((Character(FromBE(n)), rest))
         else Err(Malformed("invalid character scalar")))
    case BigIntegerTag => ReadInteger(b)
    case TextTag(kind) =>
      (match ReadText(TextError(kind), b) case Err(e) => Err(e) case Ok((text, rest)) => Ok((Text(kind, text), rest)))
    case BytesTag => (match ReadData(b) case Err(e) => Err(e) case Ok((bytes, rest)) => Ok((ByteString(bytes), rest)))
    case HandleTag => ReadHandle(b)
    case _ => Err(Malformed("unknown value tag"))
  }

  predicate IsLeaf(tag: Tag) {
    tag in {NilTag, FalseTag, TrueTag, I64Tag, F64Tag, CharacterTag, BigIntegerTag, BytesTag, HandleTag} || tag.TextTag?
  }

  function MakeSequence(kind: SequenceKind, items: seq<Value>): Result<Value, Error> {
    if kind == Cons && items == [] then Err(Malformed("empty cons"))
    else if kind == MapEntry && |items| != 2 then Err(Malformed("map entry must contain two values"))
    else Ok(Sequence(kind, items))
  }

  predicate StringKeys(entries: seq<Pair>) { forall p <- entries :: IsString(p.key) }

  function MakeEntries(kind: EntriesKind, entries: seq<Pair>): Result<Value, Error> {
    if kind == Trie && !StringKeys(entries) then Err(Malformed("invalid trie key"))
    else Ok(Entries(kind, entries))
  }

  predicate AllStrings(items: seq<Value>) { forall i :: 0 <= i < |items| ==> IsString(items[i]) }

  function Texts(items: seq<Value>): (r: seq<Bytes>)
    requires AllStrings(items)
    ensures |r| == |items| && forall i :: 0 <= i < |items| ==> r[i] == items[i].text
  {
    if items == [] then [] else [items[0].text] + Texts(items[1..])
  }

  function MakeStruct(name: Bytes, fields: seq<Value>, values: seq<Value>): Result<Value, Error> {
    if |fields| != |values| then Err(Malformed("struct arity mismatch"))
    else if !AllStrings(fields) then Err(Malformed("invalid struct field"))
    else if !IsResultShape(name, Texts(fields)) then Ok(Struct(name, Texts(fields), values))
    else MakeResult(values)
  }

  /** What `map_entries` takes entries from. */
  predicate MapLike(v: Value) { v.Map? || (v.Entries? && v.mapping != Object) }

  function MakeResult(values: seq<Value>): Result<Value, Error> {
    if |values| != 4 then Err(Malformed("Result arity mismatch"))
    else if values[0] == Text(KeywordText, SUCCESS) then
      if !values[2].Nil? then Err(Malformed("success Result contains an error"))
      else if !MapLike(values[3]) then Err(Malformed("invalid Result"))
      else Ok(Success(values[1], Transported(values[3].entries)))
    else if values[0] == Text(KeywordText, ERROR) then
      if !values[1].Nil? then Err(Malformed("error Result contains success data"))
      else Err(Malformed("error Result lacks a native Error"))
    else Err(Malformed("invalid Result status"))
  }

  function Read(b: Bytes, depth: int): (r: Got<Value>)
    ensures r.Ok? ==> |r.value.1| < |b|
    decreases |b|, 0
  {
    if depth > MAX_NESTING_DEPTH then Err(TooDeep)
    else if b == [] then Err(Malformed("truncated value"))
    else
      match TagOf(b[0])
      case None => Err(Malformed("unknown value tag"))
      case Some(tag) => if IsLeaf(tag) then ReadLeaf(tag, b[1..]) else ReadBranch(tag, b[1..], depth)
  }

  function ReadBranch(tag: Tag, b: Bytes, depth: int): (r: Got<Value>)
    ensures r.Ok? ==> |r.value.1| <= |b|
    decreases |b|, 5
  {
    match tag
    case SequenceTag(kind) =>
      (match ReadSequence(b, depth)
       case Err(e) => Err(e)
       case Ok((items, rest)) =>
         match MakeSequence(kind, items) case Err(e) => Err(e) case Ok(v) => Ok((v, rest)))
    case SetTag(kind) =>
      (match ReadSequence(b, depth)
       case Err(e) => Err(e)
       case Ok((items, rest)) => Ok((Unordered(kind, items), rest)))
    case MapTag =>
      (match ReadEntries(false, b, depth)
       case Err(e) => Err(e)
       case Ok((entries, rest)) => Ok((Map(entries), rest)))
    case EntriesTag(kind) =>
      (match ReadEntries(kind == Object, b, depth)
       case Err(e) => Err(e)
       case Ok((entries, rest)) =>
         match MakeEntries(kind, entries) case Err(e) => Err(e) case Ok(v) => Ok((v, rest)))
    case AtomTag =>
      (match Read(b, depth + 1) case Err(e) => Err(e) case Ok((v, rest)) => Ok((Atom(v), rest)))
    case TaggedTag => ReadTagged(b, depth)
    case PointerTag => ReadPointer(b, depth)
    case _ => ReadStruct(b, depth)
  }

  function ReadTagged(b: Bytes, depth: int): (r: Got<Value>)
    ensures r.Ok? ==> |r.value.1| <= |b|
    decreases |b|, 4
  {
    match Read(b, depth + 1)
    case Err(e) => Err(e)
    case Ok((tag, b1)) =>
      if !(tag.Text? && tag.kind == SymbolText) then Err(Malformed("invalid tagged literal tag"))
      else
        match Read(b1, depth + 1)
        case Err(e) => Err(e)
        case Ok((form, b2)) => Ok((Tagged(tag.text, form), b2))
  }

  function ReadPointer(b: Bytes, depth: int): (r: Got<Value>)
    ensures r.Ok? ==> |r.value.1| <= |b|
    decreases |b|, 4
  {
    match Read(b, depth + 1)
    case Err(e) => Err(e)
    case Ok((target, b1)) =>
      if !(target.Text? && target.kind == KeywordText) then Err(Malformed("invalid pointer context"))
      else
        match Read(b1, depth + 1)
        case Err(e) => Err(e)
        case Ok((fields, b2)) =>
          if fields.Map? then Ok((Pointer(target.text, fields.entries), b2))
          else Err(Malformed("invalid pointer fields"))
  }

  predicate IsVector(v: Value) { v.Sequence? && v.sequence == Vector }

  function ReadStruct(b: Bytes, depth: int): (r: Got<Value>)
    ensures r.Ok? ==> |r.value.1| <= |b|
    decreases |b|, 4
  {
    match Read(b, depth + 1)
    case Err(e) => Err(e)
    case Ok((name, b1)) =>
      if !IsString(name) then Err(Malformed("invalid struct name"))
      else
        match Read(b1, depth + 1)
        case Err(e) => Err(e)
        case Ok((fields, b2)) =>
          if !IsVector(fields) then Err(Malformed("invalid struct fields"))
          else if !AllStrings(fields.items) then Err(Malformed("invalid struct field"))
          else
            match Read(b2, depth + 1)
            case Err(e) => Err(e)
            case Ok((values, b3)) =>
              if !IsVector(values) then Err(Malformed("invalid struct values"))
              else
                match MakeStruct(name.text, fields.items, values.items)
                case Err(e) => Err(e)
                case Ok(v) => Ok((v, b3))
  }

  /** A count and that many values; a count no input could hold is refused first. */
  function ReadSequence(b: Bytes, depth: int): (r: Got<seq<Value>>)
    ensures r.Ok? ==> |r.value.1| < |b|
    decreases |b|, 3
  {
    match ReadLen(b)
    case Err(e) => Err(e)
    case Ok((size, rest)) =>
      if size > |rest| then Err(Malformed("impossible sequence length"))
      else ReadItems(size, rest, depth + 1)
  }

  function ReadItems(count: nat, b: Bytes, depth: int): (r: Got<seq<Value>>)
    ensures r.Ok? ==> |r.value.1| <= |b|
    decreases |b|, 2
  {
    if count == 0 then Ok(([], b))
    else
      match Read(b, depth)
      case Err(e) => Err(e)
      case Ok((v, rest)) =>
        match ReadItems(count - 1, rest, depth)
        case Err(e) => Err(e)
        case Ok((vs, rest')) => Ok(([v] + vs, rest'))
  }

  function ReadEntries(stringKeys: bool, b: Bytes, depth: int): (r: Got<seq<Pair>>)
    ensures r.Ok? ==> |r.value.1| < |b|
    decreases |b|, 3
  {
    match ReadLen(b)
    case Err(e) => Err(e)
    case Ok((size, rest)) =>
      if size > |rest| / 2 then Err(Malformed("impossible map length"))
      else ReadPairs(stringKeys, size, rest, depth + 1)
  }

  function ReadPairs(stringKeys: bool, count: nat, b: Bytes, depth: int): (r: Got<seq<Pair>>)
    ensures r.Ok? ==> |r.value.1| <= |b|
    decreases |b|, 2
  {
    if count == 0 then Ok(([], b))
    else
      match Read(b, depth)
      case Err(e) => Err(e)
      case Ok((key, b1)) =>
        if stringKeys && !IsString(key) then Err(Malformed("invalid object key"))
        else
          match Read(b1, depth)
          case Err(e) => Err(e)
          case Ok((value, b2)) =>
            match ReadPairs(stringKeys, count - 1, b2, depth)
            case Err(e) => Err(e)
            case Ok((ps, b3)) => Ok(([Pair(key, value)] + ps, b3))
  }

  // ----- Frames -----

  /** The frame of a value, or None when the encoder refuses the value. */
  function EncodeFrame(v: Value): Option<Bytes> {
    if Encodable(v, 0) && |MAGIC + Wire(v)| <= MAX_FRAME_BYTES then Some(MAGIC + Wire(v)) else None
  }

  function DecodeFrame(b: Bytes): Result<Value, Error> {
    if |b| > MAX_FRAME_BYTES then Err(TooLarge)
    else if !(MAGIC <= b) then Err(Malformed("invalid HTA0 header"))
    else
      match Read(b[4..], 0)
      case Err(e) => Err(e)
      case Ok((v, rest)) => if rest != [] then Err(Malformed("trailing bytes")) else Ok(v)
  }
}
