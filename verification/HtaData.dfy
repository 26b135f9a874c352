/**
 Values and wire primitives of the HTA0 codec (`hta.rs`).

 Persistent sets and maps are listed in their iteration order, which the codec
 must not depend on.
 */
module HtaData {
  import opened Prelude

  type Byte = b: int | 0 <= b < 256
  type Bytes = seq<Byte>

  const MAX_FRAME_BYTES := 64 * 1024 * 1024
  const MAX_NESTING_DEPTH := 256
  const MAGIC: Bytes := [0x48, 0x54, 0x41, 0x30]
  const TWO_32 := 0x1_0000_0000
  const TWO_63 := 0x8000_0000_0000_0000
  const TWO_64 := 0x1_0000_0000_0000_0000

  datatype TextKind = StringText | KeywordText | SymbolText | RegexText | NamespaceText
  datatype SequenceKind = List | Vector | Tuple | Cons | Queue | Deque | OrderedSet | Array | MapEntry
  datatype SetKind = Set | SortedSet
  datatype EntriesKind = OrderedMap | SortedMap | PriorityMap | Trie | Object

  datatype Pair = Pair(key: Value, value: Value)

  datatype Value =
    | Nil
    | Bool(b: bool)
    | Number(i: int)
    | Float(bits: nat)
    | Character(code: nat)
    | BigInteger(n: int)
    | Text(kind: TextKind, text: Bytes)
    | ByteString(bytes: Bytes)
    | Sequence(sequence: SequenceKind, items: seq<Value>)
    | Unordered(collection: SetKind, items: seq<Value>)
    | Map(entries: seq<Pair>)
    | Entries(mapping: EntriesKind, entries: seq<Pair>)
    | Atom(content: Value)
    | Tagged(tag: Bytes, form: Value)
    | Handle(provider: Bytes, typeName: Bytes, handle: nat)
    | Struct(name: Bytes, fields: seq<Bytes>, values: seq<Value>)
    | Success(data: Value, context: seq<Pair>)
    | Pointer(target: Bytes, entries: seq<Pair>)
    | Unsupported

  datatype Error = TooDeep | TooLarge | NonFinite | NotSupported | Malformed(what: string)

  // ----- Fixed-width integers -----

  function BE(n: nat, k: nat): (b: Bytes)
    ensures |b| == k
  {
    if k == 0 then [] else BE(n / 256, k - 1) + [n % 256]
  }

  function FromBE(b: Bytes): nat {
    if b == [] then 0 else FromBE(b[..|b| - 1]) * 256 + b[|b| - 1]
  }

  function Power256(k: nat): nat {
    if k == 0 then 1 else 256 * Power256(k - 1)
  }

  lemma {:induction false} BERoundTrip(n: nat, k: nat)
    requires n < Power256(k)
    ensures FromBE(BE(n, k)) == n
  {
    if k > 0 {
      BERoundTrip(n / 256, k - 1);
      assert BE(n, k)[..k - 1] == BE(n / 256, k - 1);
    }
  }

  lemma BE32(n: nat)
    requires n < TWO_32
    ensures FromBE(BE(n, 4)) == n
  {
    assert Power256(1) == 256;
    assert Power256(2) == 0x1_0000;
    assert Power256(4) == TWO_32;
    BERoundTrip(n, 4);
  }

  lemma BE64(n: nat)
    requires n < TWO_64
    ensures FromBE(BE(n, 8)) == n
  {
    assert Power256(1) == 256;
    assert Power256(2) == 0x1_0000;
    assert Power256(4) == TWO_32;
    assert Power256(6) == 0x1_0000_0000_0000;
    assert Power256(8) == TWO_64;
    BERoundTrip(n, 8);
  }

  predicate IsI64(i: int) { -TWO_63 <= i < TWO_63 }

  /** The signed 64-bit integer of a bit pattern. */
  function Sign(n: nat): int { if n >= TWO_63 then n - TWO_64 else n }

  /** An exponent field of all ones is an infinity or not a number. */
  predicate Finite(bits: nat) { (bits / 0x10_0000_0000_0000) % 2048 != 2047 }

  predicate IsScalar(code: nat) { code < 0x11_0000 && !(0xd800 <= code < 0xe000) }

  predicate Continues(b: Byte) { 0x80 <= b < 0xc0 }

  /** Well-formed UTF-8, as `String::from_utf8` accepts it. */
  predicate ValidUtf8(b: Bytes)
    decreases |b|
  {
    || b == []
    || (b[0] < 0x80 && ValidUtf8(b[1..]))
    || (|b| >= 2 && 0xc2 <= b[0] < 0xe0 && Continues(b[1]) && ValidUtf8(b[2..]))
    || (|b| >= 3 && 0xe0 <= b[0] < 0xf0 && Continues(b[1]) && Continues(b[2])
        && (b[0] == 0xe0 ==> b[1] >= 0xa0) && (b[0] == 0xed ==> b[1] < 0xa0) && ValidUtf8(b[3..]))
    || (|b| >= 4 && 0xf0 <= b[0] < 0xf5 && Continues(b[1]) && Continues(b[2]) && Continues(b[3])
        && (b[0] == 0xf0 ==> b[1] >= 0x90) && (b[0] == 0xf4 ==> b[1] < 0x90) && ValidUtf8(b[4..]))
  }

  predicate IsAscii(s: string) { forall i :: 0 <= i < |s| ==> (s[i] as int) < 128 }

  function Ascii(s: string): (b: Bytes)
    requires IsAscii(s)
    ensures |b| == |s| && forall i :: 0 <= i < |s| ==> b[i] == s[i] as int
  {
    if s == [] then [] else [s[0] as int] + Ascii(s[1..])
  }

  /** Bytes read as one character each; decimal text is ASCII. */
  function Chars(b: Bytes): (s: string)
    ensures |s| == |b| && forall i :: 0 <= i < |b| ==> s[i] == b[i] as char
  {
    if b == [] then [] else [b[0] as char] + Chars(b[1..])
  }

  // ----- Tags -----

  /** What a tag byte announces. */
  datatype Tag =
    | NilTag | FalseTag | TrueTag | I64Tag | F64Tag | CharacterTag | BigIntegerTag
    | TextTag(text: TextKind) | BytesTag
    | SequenceTag(sequence: SequenceKind) | SetTag(collection: SetKind)
    | MapTag | EntriesTag(mapping: EntriesKind)
    | AtomTag | HandleTag | TaggedTag | StructTag | PointerTag

  function TagByte(t: Tag): Byte {
    match t
    case NilTag => 0 case FalseTag => 1 case TrueTag => 2 case I64Tag => 3
    case F64Tag => 15 case CharacterTag => 19 case BigIntegerTag => 20 case BytesTag => 5
    case TextTag(StringText) => 4 case TextTag(KeywordText) => 6 case TextTag(SymbolText) => 7
    case TextTag(RegexText) => 22 case TextTag(NamespaceText) => 13
    case SequenceTag(List) => 8 case SequenceTag(Vector) => 9 case SequenceTag(Tuple) => 9
    case SequenceTag(Cons) => 24 case SequenceTag(Queue) => 25 case SequenceTag(Deque) => 36
    case SequenceTag(OrderedSet) => 29 case SequenceTag(Array) => 17 case SequenceTag(MapEntry) => 38
    case SetTag(Set) => 10 case SetTag(SortedSet) => 30
    case MapTag => 11
    case EntriesTag(OrderedMap) => 26 case EntriesTag(SortedMap) => 27 case EntriesTag(PriorityMap) => 37
    case EntriesTag(Trie) => 28 case EntriesTag(Object) => 18
    case AtomTag => 16 case HandleTag => 12 case TaggedTag => 31 case StructTag => 33 case PointerTag => 34
  }

  function TagOf(b: Byte): (t: Option<Tag>)
  {
    match b
    case 0 => Some(NilTag) case 1 => Some(FalseTag) case 2 => Some(TrueTag) case 3 => Some(I64Tag)
    case 4 => Some(TextTag(StringText)) case 5 => Some(BytesTag) case 6 => Some(TextTag(KeywordText))
    case 7 => Some(TextTag(SymbolText)) case 8 => Some(SequenceTag(List)) case 9 => Some(SequenceTag(Vector))
    case 10 => Some(SetTag(Set)) case 11 => Some(MapTag) case 12 => Some(HandleTag)
    case 13 => Some(TextTag(NamespaceText)) case 15 => Some(F64Tag) case 16 => Some(AtomTag)
    case 17 => Some(SequenceTag(Array)) case 18 => Some(EntriesTag(Object)) case 19 => Some(CharacterTag)
    case 20 => Some(BigIntegerTag) case 22 => Some(TextTag(RegexText)) case 24 => Some(SequenceTag(Cons))
    case 25 => Some(SequenceTag(Queue)) case 26 => Some(EntriesTag(OrderedMap))
    case 27 => Some(EntriesTag(SortedMap)) case 28 => Some(EntriesTag(Trie))
    case 29 => Some(SequenceTag(OrderedSet)) case 30 => Some(SetTag(SortedSet)) case 31 => Some(TaggedTag)
    case 33 => Some(StructTag) case 34 => Some(PointerTag) case 36 => Some(SequenceTag(Deque))
    case 37 => Some(EntriesTag(PriorityMap)) case 38 => Some(SequenceTag(MapEntry))
    case _ => None
  }

  /** A reader recognises the tag a writer wrote; a tuple is written, and read, as a vector. */
  lemma TagRoundTrip(t: Tag)
    ensures TagOf(TagByte(t)) == Some(if t == SequenceTag(Tuple) then SequenceTag(Vector) else t)
  {
  }
}
