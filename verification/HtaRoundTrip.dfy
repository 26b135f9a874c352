/**
 Decoding what was encoded.  For every well-formed, encodable value: the
 decoder recovers its canonical form exactly when the value is `Readable`, and
 refuses its bytes otherwise.
 */
module HtaRoundTrip {
  import opened Prelude
  import opened HtaData
  import opened HtaWire
  import Decimal

  /** Whatever follows them, the bytes `w` are read as `c` and nothing more is consumed. */
  ghost predicate Reads(w: Bytes, c: Value, depth: int) {
    forall rest: Bytes :: Read(w + rest, depth) == Ok((c, rest))
  }

  ghost predicate Refuses(w: Bytes, depth: int) {
    forall rest: Bytes :: Read(w + rest, depth).Err?
  }

  ghost predicate Decodes(w: Bytes, c: Value, readable: bool, depth: int) {
    if readable then Reads(w, c, depth) else Refuses(w, depth)
  }

  // ----- Reading one header -----

  lemma TagRead(t: Tag, body: Bytes, rest: Bytes, depth: int)
    requires depth <= MAX_NESTING_DEPTH
    ensures var t' := if t == SequenceTag(Tuple) then SequenceTag(Vector) else t;
            Read([TagByte(t)] + body + rest, depth)
            == if IsLeaf(t') then ReadLeaf(t', body + rest) else ReadBranch(t', body + rest, depth)
  {
    TagRoundTrip(t);
    var b := [TagByte(t)] + body + rest;
    assert b[0] == TagByte(t) && b[1..] == body + rest;
  }

  lemma TakeExact(b: Bytes, rest: Bytes)
    ensures Take(b + rest, |b|) == Ok((b, rest))
  {
    assert (b + rest)[..|b|] == b && (b + rest)[|b|..] == rest;
  }

  lemma LenRead(n: nat, rest: Bytes)
    requires n < TWO_32
    ensures ReadLen(BE(n, 4) + rest) == Ok((n, rest))
  {
    BE32(n);
    TakeExact(BE(n, 4), rest);
  }

  lemma DataRead(b: Bytes, rest: Bytes)
    requires Fits(b)
    ensures ReadData(Data(b) + rest) == Ok((b, rest))
  {
    assert Data(b) + rest == BE(|b|, 4) + (b + rest);
    LenRead(|b|, b + rest);
    TakeExact(b, rest);
  }

  lemma TextReads(kind: TextKind, text: Bytes, depth: int)
    requires ValidUtf8(text) && Fits(text) && depth <= MAX_NESTING_DEPTH
    ensures Reads(TextWire(kind, text), Text(kind, text), depth)
  {
    hide HtaWire.Read;
    forall rest: Bytes ensures Read(TextWire(kind, text) + rest, depth) == Ok((Text(kind, text), rest)) {
      TagRead(TextTag(kind), Data(text), rest, depth);
      DataRead(text, rest);
    }
  }

  lemma I64Reads(i: int, depth: int)
    requires IsI64(i) && depth <= MAX_NESTING_DEPTH
    ensures Reads([TagByte(I64Tag)] + BE(i % TWO_64, 8), Number(i), depth)
  {
    hide HtaWire.Read;
    var body := BE(i % TWO_64, 8);
    forall rest: Bytes ensures Read([TagByte(I64Tag)] + body + rest, depth) == Ok((Number(i), rest)) {
      TagRead(I64Tag, body, rest, depth);
      TakeExact(body, rest);
      BE64(i % TWO_64);
    }
  }

  lemma AsciiChars(s: string)
    requires IsAscii(s)
    ensures Chars(Ascii(s)) == s
  {}

  lemma {:induction false} AsciiIsUtf8(b: Bytes)
    requires forall i :: 0 <= i < |b| ==> b[i] < 128
    ensures ValidUtf8(b)
  {
    if b != [] { AsciiIsUtf8(b[1..]); }
  }

  lemma BigIntegerReads(n: int, depth: int)
    requires !IsI64(n) && Fits(DecimalBytes(n)) && depth <= MAX_NESTING_DEPTH
    ensures Reads([TagByte(BigIntegerTag)] + Data(DecimalBytes(n)), BigInteger(n), depth)
  {
    hide HtaWire.Read;
    var text := DecimalBytes(n);
    forall rest: Bytes
      ensures Read([TagByte(BigIntegerTag)] + Data(text) + rest, depth) == Ok((BigInteger(n), rest))
    {
      TagRead(BigIntegerTag, Data(text), rest, depth);
      DataRead(text, rest);
      DigitsAreAscii(if n < 0 then -n else n);
      AsciiIsUtf8(text);
      AsciiChars(Decimal.ToDecimal(n));
      Decimal.DecimalRoundTrip(n);
    }
  }

  lemma HandleRead(provider: Bytes, typeName: Bytes, handle: nat, rest: Bytes)
    requires ValidUtf8(provider) && ValidUtf8(typeName) && Fits(provider) && Fits(typeName) && handle < TWO_64
    ensures ReadHandle(Data(provider) + Data(typeName) + BE(handle, 8) + rest)
         == Ok((Handle(provider, typeName, handle), rest))
  {
    hide HtaData.BE, HtaData.FromBE, HtaData.ValidUtf8;
    var tail := BE(handle, 8);
    var b1 := Data(typeName) + (tail + rest);
    assert Data(provider) + Data(typeName) + tail + rest == Data(provider) + b1;
    DataRead(provider, b1);
    DataRead(typeName, tail + rest);
    TakeExact(tail, rest);
    BE64(handle);
  }

  lemma HandleReads(provider: Bytes, typeName: Bytes, handle: nat, depth: int)
    requires ValidUtf8(provider) && ValidUtf8(typeName) && Fits(provider) && Fits(typeName)
    requires handle < TWO_64 && depth <= MAX_NESTING_DEPTH
    ensures Reads(Wire(Handle(provider, typeName, handle)), Handle(provider, typeName, handle), depth)
  {
    hide HtaWire.ReadHandle, HtaWire.Read, HtaData.BE, HtaData.ValidUtf8;
    var v := Handle(provider, typeName, handle);
    var body := Data(provider) + Data(typeName) + BE(handle, 8);
    assert Wire(v) == [TagByte(HandleTag)] + body;
    forall rest: Bytes ensures Read(Wire(v) + rest, depth) == Ok((v, rest)) {
      TagRead(HandleTag, body, rest, depth);
      HandleRead(provider, typeName, handle, rest);
    }
  }

  lemma CharacterReads(code: nat, depth: int)
    requires IsScalar(code) && depth <= MAX_NESTING_DEPTH
    ensures Reads(Wire(Character(code)), Character(code), depth)
  {
    hide HtaWire.Read;
    forall rest: Bytes ensures Read(Wire(Character(code)) + rest, depth) == Ok((Character(code), rest)) {
      TagRead(CharacterTag, BE(code, 4), rest, depth);
      TakeExact(BE(code, 4), rest);
      BE32(code);
    }
  }

  lemma FloatReads(bits: nat, depth: int)
    requires bits < TWO_64 && Finite(bits) && depth <= MAX_NESTING_DEPTH
    ensures Reads(Wire(Float(bits)), Float(bits), depth)
  {
    hide HtaWire.Read;
    forall rest: Bytes ensures Read(Wire(Float(bits)) + rest, depth) == Ok((Float(bits), rest)) {
      TagRead(F64Tag, BE(bits, 8), rest, depth);
      TakeExact(BE(bits, 8), rest);
      BE64(bits);
    }
  }

  lemma ByteStringReads(bytes: Bytes, depth: int)
    requires Fits(bytes) && depth <= MAX_NESTING_DEPTH
    ensures Reads(Wire(ByteString(bytes)), ByteString(bytes), depth)
  {
    hide HtaWire.Read;
    forall rest: Bytes ensures Read(Wire(ByteString(bytes)) + rest, depth) == Ok((ByteString(bytes), rest)) {
      TagRead(BytesTag, Data(bytes), rest, depth);
      DataRead(bytes, rest);
    }
  }

  lemma NilReads(depth: int)
    requires depth <= MAX_NESTING_DEPTH
    ensures Reads([TagByte(NilTag)], Nil, depth)
  {
    hide HtaWire.Read;
    forall rest: Bytes ensures Read([TagByte(NilTag)] + rest, depth) == Ok((Nil, rest)) {
      TagRead(NilTag, [], rest, depth);
      assert [TagByte(NilTag)] + [] + rest == [TagByte(NilTag)] + rest;
      assert [] + rest == rest;
    }
  }

  lemma BoolReads(b: bool, depth: int)
    requires depth <= MAX_NESTING_DEPTH
    ensures Reads(Wire(Bool(b)), Bool(b), depth)
  {
    hide HtaWire.Read;
    var t := if b then TrueTag else FalseTag;
    forall rest: Bytes ensures Read([TagByte(t)] + rest, depth) == Ok((Bool(b), rest)) {
      TagRead(t, [], rest, depth);
      assert [TagByte(t)] + [] + rest == [TagByte(t)] + rest;
      assert [] + rest == rest;
    }
  }

  // ----- Lists of values -----

  predicate NonEmptyKeys<T>(s: seq<Keyed<T>>) { forall i :: 0 <= i < |s| ==> s[i].key != [] }

  lemma {:induction false} KeysLength<T>(s: seq<Keyed<T>>)
    requires NonEmptyKeys(s)
    ensures |ConcatKeys(s)| >= |s|
  {
    if s != [] { KeysLength(s[1..]); }
  }

  ghost predicate AllRead(s: seq<Keyed<Value>>, depth: int) {
    forall i :: 0 <= i < |s| ==> Reads(s[i].key, s[i].payload, depth)
  }

  lemma {:induction false} ItemsRead(s: seq<Keyed<Value>>, rest: Bytes, depth: int)
    requires AllRead(s, depth)
    ensures ReadItems(|s|, ConcatKeys(s) + rest, depth) == Ok((Payloads(s), rest))
  {
    hide HtaWire.Read;
    if s == [] {
      assert [] + rest == rest;
    } else {
      var tail := ConcatKeys(s[1..]) + rest;
      assert ConcatKeys(s) + rest == s[0].key + tail;
      assert Read(s[0].key + tail, depth) == Ok((s[0].payload, tail));
      ItemsRead(s[1..], rest, depth);
    }
  }

  /** One refused element is enough, wherever it stands. */
  lemma {:induction false} ItemsRefused(s: seq<Keyed<Value>>, j: nat, rest: Bytes, depth: int)
    requires j < |s| && Refuses(s[j].key, depth)
    requires forall i :: 0 <= i < |s| ==> Reads(s[i].key, s[i].payload, depth) || Refuses(s[i].key, depth)
    ensures ReadItems(|s|, ConcatKeys(s) + rest, depth).Err?
  {
    hide HtaWire.Read;
    var tail := ConcatKeys(s[1..]) + rest;
    assert ConcatKeys(s) + rest == s[0].key + tail;
    if !Refuses(s[0].key, depth) {
      assert Read(s[0].key + tail, depth) == Ok((s[0].payload, tail));
      ItemsRefused(s[1..], j - 1, rest, depth);
    } else {
      assert Read(s[0].key + tail, depth).Err?;
    }
  }

  /** A counted list, in whatever order it is written. */
  lemma SequenceRead(s: seq<Keyed<Value>>, all: bool, rest: Bytes, depth: int)
    requires |s| < TWO_32 && NonEmptyKeys(s)
    requires all ==> AllRead(s, depth + 1)
    requires !all ==> exists j :: 0 <= j < |s| && Refuses(s[j].key, depth + 1)
    requires forall i :: 0 <= i < |s| ==> Reads(s[i].key, s[i].payload, depth + 1) || Refuses(s[i].key, depth + 1)
    ensures var r := ReadSequence(BE(|s|, 4) + ConcatKeys(s) + rest, depth);
            if all then r == Ok((Payloads(s), rest)) else r.Err?
  {
    hide HtaWire.Read;
    var body := ConcatKeys(s) + rest;
    assert BE(|s|, 4) + ConcatKeys(s) + rest == BE(|s|, 4) + body;
    LenRead(|s|, body);
    KeysLength(s);
    if all {
      ItemsRead(s, rest, depth + 1);
    } else {
      var j :| 0 <= j < |s| && Refuses(s[j].key, depth + 1);
      ItemsRefused(s, j, rest, depth + 1);
    }
  }

  // ----- Lists of entries -----

  ghost predicate EntryReads(e: Keyed<WirePair>, depth: int) {
    Reads(e.key, e.payload.canon.key, depth) && Reads(e.payload.value, e.payload.canon.value, depth)
  }

  ghost predicate EntryRefused(e: Keyed<WirePair>, depth: int) {
    Refuses(e.key, depth) || (Reads(e.key, e.payload.canon.key, depth) && Refuses(e.payload.value, depth))
  }

  predicate NonEmptyEntries(s: seq<Keyed<WirePair>>) {
    forall i :: 0 <= i < |s| ==> s[i].key != [] && s[i].payload.value != []
  }

  lemma {:induction false} EntriesLength(s: seq<Keyed<WirePair>>)
    requires NonEmptyEntries(s)
    ensures |ConcatEntries(s)| >= 2 * |s|
  {
    if s != [] { EntriesLength(s[1..]); }
  }

  predicate KeysAllowed(stringKeys: bool, s: seq<Keyed<WirePair>>) {
    stringKeys ==> forall i :: 0 <= i < |s| ==> IsString(s[i].payload.canon.key)
  }

  lemma {:induction false} PairsRead(stringKeys: bool, s: seq<Keyed<WirePair>>, rest: Bytes, depth: int)
    requires KeysAllowed(stringKeys, s)
    requires forall i :: 0 <= i < |s| ==> EntryReads(s[i], depth)
    ensures ReadPairs(stringKeys, |s|, ConcatEntries(s) + rest, depth) == Ok((CanonEntries(s), rest))
  {
    hide HtaWire.Read;
    if s == [] {
      assert [] + rest == rest;
    } else {
      var e, tail := s[0], ConcatEntries(s[1..]) + rest;
      assert ConcatEntries(s) + rest == e.key + (e.payload.value + tail);
      assert EntryReads(e, depth);
      assert Read(e.key + (e.payload.value + tail), depth) == Ok((e.payload.canon.key, e.payload.value + tail));
      assert Read(e.payload.value + tail, depth) == Ok((e.payload.canon.value, tail));
      PairsRead(stringKeys, s[1..], rest, depth);
    }
  }

  lemma {:induction false} PairsRefused(stringKeys: bool, s: seq<Keyed<WirePair>>, j: nat, rest: Bytes, depth: int)
    requires KeysAllowed(stringKeys, s) && j < |s| && EntryRefused(s[j], depth)
    requires forall i :: 0 <= i < |s| ==> EntryReads(s[i], depth) || EntryRefused(s[i], depth)
    ensures ReadPairs(stringKeys, |s|, ConcatEntries(s) + rest, depth).Err?
  {
    hide HtaWire.Read;
    var e, tail := s[0], ConcatEntries(s[1..]) + rest;
    assert ConcatEntries(s) + rest == e.key + (e.payload.value + tail);
    if Refuses(e.key, depth) {
      assert Read(e.key + (e.payload.value + tail), depth).Err?;
    } else {
      assert EntryReads(e, depth) || EntryRefused(e, depth);
      assert Read(e.key + (e.payload.value + tail), depth) == Ok((e.payload.canon.key, e.payload.value + tail));
      if Refuses(e.payload.value, depth) {
        assert Read(e.payload.value + tail, depth).Err?;
      } else {
        assert Read(e.payload.value + tail, depth) == Ok((e.payload.canon.value, tail));
        PairsRefused(stringKeys, s[1..], j - 1, rest, depth);
      }
    }
  }

  lemma EntriesRead(stringKeys: bool, s: seq<Keyed<WirePair>>, all: bool, rest: Bytes, depth: int)
    requires |s| < TWO_32 && NonEmptyEntries(s) && KeysAllowed(stringKeys, s)
    requires all ==> forall i :: 0 <= i < |s| ==> EntryReads(s[i], depth + 1)
    requires !all ==> exists j :: 0 <= j < |s| && EntryRefused(s[j], depth + 1)
    requires forall i :: 0 <= i < |s| ==> EntryReads(s[i], depth + 1) || EntryRefused(s[i], depth + 1)
    ensures var r := ReadEntries(stringKeys, BE(|s|, 4) + ConcatEntries(s) + rest, depth);
            if all then r == Ok((CanonEntries(s), rest)) else r.Err?
  {
    hide HtaWire.Read;
    var body := ConcatEntries(s) + rest;
    assert BE(|s|, 4) + ConcatEntries(s) + rest == BE(|s|, 4) + body;
    LenRead(|s|, body);
    EntriesLength(s);
    if all {
      PairsRead(stringKeys, s, rest, depth + 1);
    } else {
      var j :| 0 <= j < |s| && EntryRefused(s[j], depth + 1);
      PairsRefused(stringKeys, s, j, rest, depth + 1);
    }
  }

  // ----- The sort only rearranges -----

  lemma {:induction false} InsertMembers<T>(x: Keyed<T>, s: seq<Keyed<T>>)
    ensures multiset(Insert(x, s)) == multiset([x]) + multiset(s)
  {
    if s != [] && !LexLe(x.key, s[0].key) {
      InsertMembers(x, s[1..]);
      assert s == [s[0]] + s[1..];
    }
  }

  lemma {:induction false} SortMembers<T>(s: seq<Keyed<T>>)
    ensures multiset(Sort(s)) == multiset(s) && |Sort(s)| == |s|
  {
    if s != [] {
      SortMembers(s[1..]);
      InsertMembers(s[0], Sort(s[1..]));
      assert s == [s[0]] + s[1..];
    }
    assert |multiset(Sort(s))| == |multiset(s)|;
  }

  lemma SortedMember<T>(s: seq<Keyed<T>>, i: nat)
    requires i < |Sort(s)|
    ensures Sort(s)[i] in s
  {
    SortMembers(s);
    assert Sort(s)[i] in multiset(Sort(s));
  }

  lemma MemberSorted<T>(s: seq<Keyed<T>>, j: nat) returns (i: nat)
    requires j < |s|
    ensures i < |Sort(s)| && Sort(s)[i] == s[j]
  {
    SortMembers(s);
    assert s[j] in multiset(Sort(s));
    i :| i < |Sort(s)| && Sort(s)[i] == s[j];
  }

  lemma {:induction false} AllAsKeyed(items: seq<Value>)
    ensures WireAll(items) == ConcatKeys(KeyItems(items)) && CanonAll(items) == Payloads(KeyItems(items))
  {
    if items != [] {
      AllAsKeyed(items[1..]);
      assert KeyItems(items)[1..] == KeyItems(items[1..]);
    }
  }

  lemma {:induction false} PairsAsKeyed(entries: seq<Pair>)
    ensures WirePairs(entries) == ConcatEntries(KeyPairs(entries))
    ensures CanonPairs(entries) == CanonEntries(KeyPairs(entries))
  {
    if entries != [] {
      PairsAsKeyed(entries[1..]);
      assert KeyPairs(entries)[1..] == KeyPairs(entries[1..]);
    }
  }

  lemma WireNonEmpty(v: Value)
    requires !v.Unsupported?
    ensures Wire(v) != []
  {}

  // ----- The induction -----

  ghost predicate ItemsDecode(items: seq<Value>, depth: int) {
    forall i :: 0 <= i < |items| ==> Decodes(Wire(items[i]), Canon(items[i]), Readable(items[i], depth), depth)
  }

  ghost predicate PairsDecode(entries: seq<Pair>, depth: int) {
    forall i :: 0 <= i < |entries| ==>
      && Decodes(Wire(entries[i].key), Canon(entries[i].key), Readable(entries[i].key, depth), depth)
      && Decodes(Wire(entries[i].value), Canon(entries[i].value), Readable(entries[i].value, depth), depth)
  }

  predicate AllReadable(items: seq<Value>, depth: int) { forall x <- items :: Readable(x, depth) }

  predicate PairsReadable(entries: seq<Pair>, depth: int) {
    forall p <- entries :: Readable(p.key, depth) && Readable(p.value, depth)
  }

  predicate Supported(items: seq<Value>) { forall i :: 0 <= i < |items| ==> !items[i].Unsupported? }

  predicate SupportedPairs(entries: seq<Pair>) {
    forall i :: 0 <= i < |entries| ==> !entries[i].key.Unsupported? && !entries[i].value.Unsupported?
  }

  /** A counted list of items that decode, in their own order. */
  lemma ListRead(items: seq<Value>, rest: Bytes, depth: int)
    requires |items| < TWO_32 && Supported(items) && ItemsDecode(items, depth + 1)
    ensures var r := ReadSequence(BE(|items|, 4) + WireAll(items) + rest, depth);
            if AllReadable(items, depth + 1) then r == Ok((CanonAll(items), rest)) else r.Err?
  {
    hide HtaWire.Read, HtaWire.ReadSequence, HtaWire.Wire, HtaWire.Canon, HtaWire.Readable, HtaData.BE;
    var s, all := KeyItems(items), AllReadable(items, depth + 1);
    KeysNonEmpty(items);
    AllAsKeyed(items);
    if !all {
      var x :| x in items && !Readable(x, depth + 1);
      var j :| 0 <= j < |items| && items[j] == x;
      assert Refuses(s[j].key, depth + 1);
    }
    SequenceRead(s, all, rest, depth);
  }

  lemma KeysNonEmpty(items: seq<Value>)
    requires Supported(items)
    ensures NonEmptyKeys(KeyItems(items))
  {
    hide HtaWire.Wire;
    forall i | 0 <= i < |items| ensures KeyItems(items)[i].key != [] { WireNonEmpty(items[i]); }
  }

  /** The same list in the order of its encodings. */
  lemma SortedListRead(items: seq<Value>, rest: Bytes, depth: int)
    requires |items| < TWO_32 && Supported(items) && ItemsDecode(items, depth + 1)
    ensures var s := Sort(KeyItems(items));
            var r := ReadSequence(BE(|items|, 4) + ConcatKeys(s) + rest, depth);
            if AllReadable(items, depth + 1) then r == Ok((Payloads(s), rest)) else r.Err?
  {
    hide HtaWire.Read, HtaWire.ReadSequence, HtaWire.Wire, HtaWire.Canon, HtaWire.Readable, HtaData.BE, HtaWire.Sort;
    var k, all := KeyItems(items), AllReadable(items, depth + 1);
    var s := Sort(k);
    KeysNonEmpty(items);
    SortMembers(k);
    forall i | 0 <= i < |s|
      ensures s[i].key != [] && (Reads(s[i].key, s[i].payload, depth + 1) || Refuses(s[i].key, depth + 1))
      ensures all ==> Reads(s[i].key, s[i].payload, depth + 1)
    {
      SortedMember(k, i);
      var j :| 0 <= j < |k| && k[j] == s[i];
      assert k[j] == Keyed(Wire(items[j]), Canon(items[j]));
      assert all ==> Readable(items[j], depth + 1);
    }
    if !all {
      var x :| x in items && !Readable(x, depth + 1);
      var j :| 0 <= j < |items| && items[j] == x;
      assert Refuses(k[j].key, depth + 1);
      var i := MemberSorted(k, j);
      assert Refuses(s[i].key, depth + 1);
    }
    SequenceRead(s, all, rest, depth);
  }

  predicate StringKeyed(stringKeys: bool, entries: seq<Pair>) {
    stringKeys ==> forall i :: 0 <= i < |entries| ==> IsString(entries[i].key)
  }

  lemma KeyPairParts(p: Pair)
    ensures KeyPair(p) == Keyed(Wire(p.key), WirePair(Wire(p.value), Pair(Canon(p.key), Canon(p.value))))
    ensures IsString(p.key) ==> Canon(p.key) == p.key
  {}

  lemma PairFacts(stringKeys: bool, entries: seq<Pair>, i: nat, depth: int)
    requires i < |entries| && SupportedPairs(entries) && PairsDecode(entries, depth) && StringKeyed(stringKeys, entries)
    ensures var e := KeyPairs(entries)[i];
            && e.key != [] && e.payload.value != []
            && (if Readable(entries[i].key, depth) && Readable(entries[i].value, depth) then EntryReads(e, depth)
                else EntryRefused(e, depth))
            && (stringKeys ==> IsString(e.payload.canon.key))
  {
    hide HtaWire.Read, HtaWire.Wire, HtaWire.Readable, HtaWire.KeyPair, HtaWire.Canon;
    WireNonEmpty(entries[i].key);
    WireNonEmpty(entries[i].value);
    KeyPairParts(entries[i]);
  }

  lemma EntryListRead(stringKeys: bool, entries: seq<Pair>, rest: Bytes, depth: int)
    requires |entries| < TWO_32 && SupportedPairs(entries) && PairsDecode(entries, depth + 1)
    requires StringKeyed(stringKeys, entries)
    ensures var r := ReadEntries(stringKeys, BE(|entries|, 4) + WirePairs(entries) + rest, depth);
            if PairsReadable(entries, depth + 1) then r == Ok((CanonPairs(entries), rest)) else r.Err?
  {
    hide HtaWire.Read, HtaWire.ReadEntries, HtaWire.Wire, HtaWire.Canon, HtaWire.Readable, HtaData.BE;
    var s, all := KeyPairs(entries), PairsReadable(entries, depth + 1);
    PairsAsKeyed(entries);
    forall i | 0 <= i < |s|
      ensures s[i].key != [] && s[i].payload.value != [] && (stringKeys ==> IsString(s[i].payload.canon.key))
      ensures EntryReads(s[i], depth + 1) || EntryRefused(s[i], depth + 1)
      ensures all ==> EntryReads(s[i], depth + 1)
    {
      PairFacts(stringKeys, entries, i, depth + 1);
      assert entries[i] in entries;
    }
    if !all {
      var p :| p in entries && !(Readable(p.key, depth + 1) && Readable(p.value, depth + 1));
      var j :| 0 <= j < |entries| && entries[j] == p;
      PairFacts(stringKeys, entries, j, depth + 1);
    }
    EntriesRead(stringKeys, s, all, rest, depth);
  }

  lemma SortedEntryListRead(entries: seq<Pair>, rest: Bytes, depth: int)
    requires |entries| < TWO_32 && SupportedPairs(entries) && PairsDecode(entries, depth + 1)
    ensures var s := Sort(KeyPairs(entries));
            var r := ReadEntries(false, BE(|entries|, 4) + ConcatEntries(s) + rest, depth);
            if PairsReadable(entries, depth + 1) then r == Ok((CanonEntries(s), rest)) else r.Err?
  {
    hide HtaWire.Read, HtaWire.ReadEntries, HtaWire.Wire, HtaWire.Canon, HtaWire.Readable, HtaData.BE, HtaWire.Sort;
    var k, all := KeyPairs(entries), PairsReadable(entries, depth + 1);
    var s := Sort(k);
    SortMembers(k);
    forall i | 0 <= i < |s|
      ensures s[i].key != [] && s[i].payload.value != []
      ensures EntryReads(s[i], depth + 1) || EntryRefused(s[i], depth + 1)
      ensures all ==> EntryReads(s[i], depth + 1)
    {
      SortedMember(k, i);
      var j :| 0 <= j < |k| && k[j] == s[i];
      PairFacts(false, entries, j, depth + 1);
      assert entries[j] in entries;
    }
    if !all {
      var p :| p in entries && !(Readable(p.key, depth + 1) && Readable(p.value, depth + 1));
      var j :| 0 <= j < |entries| && entries[j] == p;
      PairFacts(false, entries, j, depth + 1);
      var i := MemberSorted(k, j);
    }
    EntriesRead(false, s, all, rest, depth);
  }
}
