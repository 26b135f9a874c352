/**
 The HTA0 codec as it runs: an encoder that appends to a byte vector and a
 reader that advances a cursor, each proved against `HtaWire`.
 */
module HtaCodec {
  import opened Prelude
  import opened HtaData
  import opened HtaWire
  import HtaRoundTrip
  import HtaLaws

  // ----- Encoder -----

  class Output {
    var bytes: Bytes

    constructor ()
      ensures bytes == []
    {
      bytes := [];
    }

    method Extend(more: Bytes)
      modifies this
      ensures bytes == old(bytes) + more
    {
      bytes := bytes + more;
    }
  }

  lemma {:induction false} WireAllAppend(items: seq<Value>, i: nat)
    requires i < |items|
    ensures WireAll(items[..i + 1]) == WireAll(items[..i]) + Wire(items[i])
  {
    if i == 0 {
      assert items[..1][1..] == [] && items[..0] == [];
    } else {
      WireAllAppend(items[1..], i - 1);
      assert items[..i + 1][1..] == items[1..][..i] && items[..i][1..] == items[1..][..i - 1];
    }
  }

  lemma {:induction false} WirePairsAppend(entries: seq<Pair>, i: nat)
    requires i < |entries|
    ensures WirePairs(entries[..i + 1]) == WirePairs(entries[..i]) + EntryWire(entries[i])
  {
    if i == 0 {
      assert entries[..1][1..] == [] && entries[..0] == [];
    } else {
      WirePairsAppend(entries[1..], i - 1);
      assert entries[..i + 1][1..] == entries[1..][..i] && entries[..i][1..] == entries[1..][..i - 1];
    }
  }

  /** `encode_len` and the bytes after it. */
  method EncodeBytes(b: Bytes, out: Output) returns (e: Option<Error>)
    modifies out
    ensures e.None? <==> Fits(b)
    ensures e.None? ==> out.bytes == old(out.bytes) + Data(b)
  {
    if |b| >= TWO_32 { return Some(TooLarge); }
    out.Extend(Data(b));
    return None;
  }

  method EncodeText(kind: TextKind, text: Bytes, depth: nat, out: Output) returns (e: Option<Error>)
    modifies out
    ensures e.None? <==> depth <= MAX_NESTING_DEPTH && Fits(text)
    ensures e.None? ==> out.bytes == old(out.bytes) + TextWire(kind, text)
  {
    hide HtaData.BE;
    if depth > MAX_NESTING_DEPTH { return Some(TooDeep); }
    out.Extend([TagByte(TextTag(kind))]);
    e := EncodeBytes(text, out);
  }

  predicate Leaf(v: Value) {
    || v.Nil? || v.Bool? || v.Number? || v.Float? || v.Character? || v.BigInteger? || v.Text? || v.ByteString?
    || v.Handle? || v.Unsupported?
  }

  method EncodeLeaf(v: Value, depth: nat, out: Output) returns (e: Option<Error>)
    requires Leaf(v) && depth <= MAX_NESTING_DEPTH
    modifies out
    ensures e.None? <==> Encodable(v, depth)
    ensures e.None? ==> out.bytes == old(out.bytes) + Wire(v)
  {
    hide HtaData.BE, HtaWire.TextWire, HtaWire.Data, HtaWire.DecimalBytes, HtaData.Finite;
    if v.Float? && !Finite(v.bits) {
      return Some(NonFinite);
    } else if v.Text? {
      e := EncodeText(v.kind, v.text, depth, out);
    } else if v.ByteString? {
      out.Extend([TagByte(BytesTag)]);
      e := EncodeBytes(v.bytes, out);
    } else if v.BigInteger? && !IsI64(v.n) {
      out.Extend([TagByte(BigIntegerTag)]);
      e := EncodeBytes(DecimalBytes(v.n), out);
    } else if v.Handle? {
      e := EncodeHandle(v, out);
    } else if v.Unsupported? {
      return Some(NotSupported);
    } else {
      out.Extend(Wire(v));
      return None;
    }
  }

  method EncodeHandle(v: Value, out: Output) returns (e: Option<Error>)
    requires v.Handle?
    modifies out
    ensures e.None? <==> Fits(v.provider) && Fits(v.typeName)
    ensures e.None? ==> out.bytes == old(out.bytes) + Wire(v)
  {
    hide HtaData.BE, HtaWire.Data;
    out.Extend([TagByte(HandleTag)]);
    e := EncodeBytes(v.provider, out);
    if e.Some? { return; }
    e := EncodeBytes(v.typeName, out);
    if e.Some? { return; }
    out.Extend(BE(v.handle, 8));
  }

  /** `encode_bare`: append the encoding of `v`, or say why there is none. */
  method EncodeBare(v: Value, depth: nat, out: Output) returns (e: Option<Error>)
    modifies out
    ensures e.None? <==> Encodable(v, depth)
    ensures e.None? ==> out.bytes == old(out.bytes) + Wire(v)
    decreases v, 3
  {
    hide HtaData.BE, HtaWire.WireAll, HtaWire.MapWire, HtaWire.SequenceHeader, HtaWire.Sort, HtaWire.KeyItems;
    if depth > MAX_NESTING_DEPTH { return Some(TooDeep); }
    match v
    case Sequence(kind, items) => e := EncodeSequence(kind, items, depth, out);
    case Unordered(_, _) => e := EncodeSet(v, depth, out);
    case Map(entries) => e := EncodeMap(entries, depth, out);
    case Entries(_, _) => e := EncodeEntries(v, depth, out);
    case Atom(_) => e := EncodeAtom(v, depth, out);
    case Tagged(_, _) => e := EncodeTagged(v, depth, out);
    case Struct(_, _, _) => e := EncodeStruct(v, depth, out);
    case Success(_, _) => e := EncodeSuccess(v, depth, out);
    case Pointer(_, _) => e := EncodePointer(v, depth, out);
    case _ => e := EncodeLeaf(v, depth, out);
  }

  lemma AtomParts(v: Value, depth: nat)
    requires v.Atom? && depth <= MAX_NESTING_DEPTH
    ensures Wire(v) == [TagByte(AtomTag)] + Wire(v.content)
    ensures Encodable(v, depth) <==> Encodable(v.content, depth + 1)
  {}

  lemma TaggedParts(v: Value, depth: nat)
    requires v.Tagged? && depth <= MAX_NESTING_DEPTH
    ensures Wire(v) == [TagByte(TaggedTag)] + TextWire(SymbolText, v.tag) + Wire(v.form)
    ensures Encodable(v, depth) <==> depth + 1 <= MAX_NESTING_DEPTH && Fits(v.tag) && Encodable(v.form, depth + 1)
  {}

  method EncodeAtom(v: Value, depth: nat, out: Output) returns (e: Option<Error>)
    requires v.Atom? && depth <= MAX_NESTING_DEPTH
    modifies out
    ensures e.None? <==> Encodable(v, depth)
    ensures e.None? ==> out.bytes == old(out.bytes) + Wire(v)
    decreases v, 1
  {
    hide HtaWire.Wire, HtaWire.Encodable;
    AtomParts(v, depth);
    out.Extend([TagByte(AtomTag)]);
    e := EncodeBare(v.content, depth + 1, out);
  }

  method EncodeTagged(v: Value, depth: nat, out: Output) returns (e: Option<Error>)
    requires v.Tagged? && depth <= MAX_NESTING_DEPTH
    modifies out
    ensures e.None? <==> Encodable(v, depth)
    ensures e.None? ==> out.bytes == old(out.bytes) + Wire(v)
    decreases v, 1
  {
    hide HtaWire.TextWire, HtaWire.Wire, HtaWire.Encodable;
    TaggedParts(v, depth);
    out.Extend([TagByte(TaggedTag)]);
    e := EncodeText(SymbolText, v.tag, depth + 1, out);
    if e.Some? { return; }
    e := EncodeBare(v.form, depth + 1, out);
  }

  method EncodePointer(v: Value, depth: nat, out: Output) returns (e: Option<Error>)
    requires v.Pointer? && depth <= MAX_NESTING_DEPTH
    modifies out
    ensures e.None? <==> Encodable(v, depth)
    ensures e.None? ==> out.bytes == old(out.bytes) + Wire(v)
    decreases v, 1
  {
    hide HtaWire.TextWire, HtaWire.MapWire;
    out.Extend([TagByte(PointerTag)]);
    e := EncodeText(KeywordText, v.target, depth + 1, out);
    if e.Some? { return; }
    e := EncodeMap(v.entries, depth + 1, out);
  }

  predicate EncodableAll(items: seq<Value>, depth: nat) { forall x <- items :: Encodable(x, depth) }

  predicate EncodablePairs(entries: seq<Pair>, depth: nat) {
    forall p <- entries :: Encodable(p.key, depth) && Encodable(p.value, depth)
  }

  method EncodeSequence(kind: SequenceKind, items: seq<Value>, depth: nat, out: Output) returns (e: Option<Error>)
    modifies out
    ensures e.None? <==> |items| < TWO_32 && EncodableAll(items, depth + 1)
    ensures e.None? ==> out.bytes == old(out.bytes) + (SequenceHeader(kind, |items|) + WireAll(items))
    decreases items, 1
  {
    hide HtaData.BE, HtaWire.Wire, HtaWire.Encodable, HtaWire.WireAll;
    if |items| >= TWO_32 { return Some(TooLarge); }
    out.Extend(SequenceHeader(kind, |items|));
    ghost var start := out.bytes;
    EmptyWires();
    for i := 0 to |items|
      invariant out.bytes == start + WireAll(items[..i])
      invariant forall j :: 0 <= j < i ==> Encodable(items[j], depth + 1)
    {
      e := EncodeBare(items[i], depth + 1, out);
      WireAllAppend(items, i);
      if e.Some? { return; }
    }
    assert items[..|items|] == items;
    return None;
  }

  lemma EmptyWires()
    ensures forall items: seq<Value> :: WireAll(items[..0]) == []
    ensures forall entries: seq<Pair> :: WirePairs(entries[..0]) == []
  {}

  method EncodePairs(entries: seq<Pair>, depth: nat, out: Output) returns (e: Option<Error>)
    modifies out
    ensures e.None? <==> EncodablePairs(entries, depth)
    ensures e.None? ==> out.bytes == old(out.bytes) + WirePairs(entries)
    decreases entries, 1
  {
    hide HtaWire.Encodable, HtaWire.WirePairs, HtaWire.Wire;
    ghost var start := out.bytes;
    EmptyWires();
    for i := 0 to |entries|
      invariant out.bytes == start + WirePairs(entries[..i])
      invariant forall j :: 0 <= j < i ==> Encodable(entries[j].key, depth) && Encodable(entries[j].value, depth)
    {
      e := EncodeEntry(entries[i], depth, out);
      WirePairsAppend(entries, i);
      if e.Some? { return; }
    }
    assert entries[..|entries|] == entries;
    return None;
  }

  method EncodeEntry(p: Pair, depth: nat, out: Output) returns (e: Option<Error>)
    modifies out
    ensures e.None? <==> Encodable(p.key, depth) && Encodable(p.value, depth)
    ensures e.None? ==> out.bytes == old(out.bytes) + EntryWire(p)
    decreases p
  {
    e := EncodeBare(p.key, depth, out);
    if e.Some? { return; }
    e := EncodeBare(p.value, depth, out);
  }

  method EncodeEntries(v: Value, depth: nat, out: Output) returns (e: Option<Error>)
    requires v.Entries? && depth <= MAX_NESTING_DEPTH
    modifies out
    ensures e.None? <==> Encodable(v, depth)
    ensures e.None? ==> out.bytes == old(out.bytes) + Wire(v)
    decreases v, 1
  {
    hide HtaData.BE, HtaWire.WirePairs;
    if |v.entries| >= TWO_32 { return Some(TooLarge); }
    out.Extend([TagByte(EntriesTag(v.mapping))] + BE(|v.entries|, 4));
    e := EncodePairs(v.entries, depth + 1, out);
  }

  /** Encodes each element on its own, sorts the encodings, then writes them. */
  method EncodeSet(v: Value, depth: nat, out: Output) returns (e: Option<Error>)
    requires v.Unordered? && depth <= MAX_NESTING_DEPTH
    modifies out
    ensures e.None? <==> Encodable(v, depth)
    ensures e.None? ==> out.bytes == old(out.bytes) + Wire(v)
    decreases v, 1
  {
    hide HtaData.BE, HtaWire.Sort, HtaWire.ConcatKeys, HtaWire.KeyItems;
    var encoded;
    e, encoded := EncodeEach(v.items, depth + 1);
    if e.Some? { return; }
    if |v.items| >= TWO_32 { return Some(TooLarge); }
    HtaLaws.KeysOnly(KeyItems(v.items));
    assert encoded == HtaLaws.Image(HtaLaws.Bare<Value>, KeyItems(v.items));
    out.Extend([TagByte(SetTag(v.collection))] + BE(|v.items|, 4) + ConcatKeys(Sort(encoded)));
  }

  method EncodeEach(items: seq<Value>, depth: nat) returns (e: Option<Error>, encoded: seq<Keyed<()>>)
    ensures e.None? <==> EncodableAll(items, depth)
    ensures e.None? ==> encoded == HtaLaws.Image(HtaLaws.WireKey, items)
    decreases items, 1
  {
    hide HtaWire.Wire, HtaWire.Encodable;
    encoded := [];
    for i := 0 to |items|
      invariant |encoded| == i
      invariant forall j :: 0 <= j < i ==> Encodable(items[j], depth) && encoded[j] == HtaLaws.WireKey(items[j])
    {
      var one := new Output();
      e := EncodeBare(items[i], depth, one);
      if e.Some? { return; }
      encoded := encoded + [Keyed(one.bytes, ())];
    }
    e := None;
  }

  /** The entries of a map, each key and value encoded on its own, in the order of the keys' encodings. */
  method EncodeMap(entries: seq<Pair>, depth: nat, out: Output) returns (e: Option<Error>)
    modifies out
    ensures e.None? <==> depth <= MAX_NESTING_DEPTH && |entries| < TWO_32 && EncodablePairs(entries, depth + 1)
    ensures e.None? ==> out.bytes == old(out.bytes) + MapWire(entries)
    decreases entries, 2
  {
    hide HtaData.BE, HtaWire.Sort, HtaWire.ConcatEntries, HtaWire.KeyPairs, HtaWire.Encodable;
    if depth > MAX_NESTING_DEPTH { return Some(TooDeep); }
    var encoded;
    e, encoded := EncodeEachPair(entries, depth + 1);
    if e.Some? { return; }
    if |entries| >= TWO_32 { return Some(TooLarge); }
    out.Extend([TagByte(MapTag)] + BE(|entries|, 4) + ConcatEntries(Sort(encoded)));
  }

  method EncodeEachPair(entries: seq<Pair>, depth: nat) returns (e: Option<Error>, encoded: seq<Keyed<WirePair>>)
    ensures e.None? <==> EncodablePairs(entries, depth)
    ensures e.None? ==> encoded == KeyPairs(entries)
    decreases entries, 1
  {
    hide HtaWire.Wire, HtaWire.Encodable, HtaWire.KeyPair;
    encoded := [];
    for i := 0 to |entries|
      invariant |encoded| == i
      invariant forall j :: 0 <= j < i ==> Encodable(entries[j].key, depth) && Encodable(entries[j].value, depth)
      invariant forall j :: 0 <= j < i ==> encoded[j] == KeyPair(entries[j])
    {
      var x;
      e, x := EncodePair(entries[i], depth);
      if e.Some? { return; }
      encoded := encoded + [x];
    }
    e := None;
  }

  method EncodePair(p: Pair, depth: nat) returns (e: Option<Error>, x: Keyed<WirePair>)
    ensures e.None? <==> Encodable(p.key, depth) && Encodable(p.value, depth)
    ensures e.None? ==> x == KeyPair(p)
    decreases p
  {
    HtaRoundTrip.KeyPairParts(p);
    var key := new Output();
    x := Keyed([], WirePair([], CanonPair(p)));
    e := EncodeBare(p.key, depth, key);
    if e.Some? { return; }
    var value := new Output();
    e := EncodeBare(p.value, depth, value);
    x := Keyed(key.bytes, WirePair(value.bytes, CanonPair(p)));
    assert CanonPair(p) == Pair(Canon(p.key), Canon(p.value));
    assert e.None? ==> key.bytes == Wire(p.key) && value.bytes == Wire(p.value);
  }

  method EncodeTexts(texts: seq<Bytes>, depth: nat, out: Output) returns (e: Option<Error>)
    modifies out
    ensures e.None? <==>
      |texts| < TWO_32 && (texts != [] ==> depth + 1 <= MAX_NESTING_DEPTH) && forall t <- texts :: Fits(t)
    ensures e.None? ==> out.bytes == old(out.bytes) + (SequenceHeader(Vector, |texts|) + TextsWire(texts))
  {
    hide HtaData.BE, HtaWire.TextsWire;
    if |texts| >= TWO_32 { return Some(TooLarge); }
    out.Extend(SequenceHeader(Vector, |texts|));
    ghost var start := out.bytes;
    NoTexts();
    for i := 0 to |texts|
      invariant out.bytes == start + TextsWire(texts[..i])
      invariant forall j :: 0 <= j < i ==> Fits(texts[j])
      invariant i > 0 ==> depth + 1 <= MAX_NESTING_DEPTH
    {
      e := EncodeText(StringText, texts[i], depth + 1, out);
      TextsWireAppend(texts, i);
      assert texts[i] in texts;
      if e.Some? { return; }
    }
    assert texts[..|texts|] == texts;
    return None;
  }

  lemma NoTexts()
    ensures forall texts: seq<Bytes> :: TextsWire(texts[..0]) == []
  {}

  lemma {:induction false} TextsWireAppend(texts: seq<Bytes>, i: nat)
    requires i < |texts|
    ensures TextsWire(texts[..i + 1]) == TextsWire(texts[..i]) + TextWire(StringText, texts[i])
  {
    hide HtaWire.TextWire;
    if i == 0 {
      assert texts[..1][1..] == [] && texts[..0] == [];
    } else {
      TextsWireAppend(texts[1..], i - 1);
      assert texts[..i + 1][1..] == texts[1..][..i] && texts[..i][1..] == texts[1..][..i - 1];
    }
  }

  method EncodeHeader(name: Bytes, fields: seq<Bytes>, depth: nat, out: Output) returns (e: Option<Error>)
    modifies out
    ensures e.None? <==>
      depth + 1 <= MAX_NESTING_DEPTH && Fits(name) && |fields| < TWO_32 && forall f <- fields :: Fits(f)
    ensures e.None? ==> out.bytes == old(out.bytes) + StructHeader(name, fields)
  {
    hide HtaData.BE, HtaWire.TextsWire, HtaWire.TextWire, HtaWire.SequenceHeader;
    out.Extend([TagByte(StructTag)]);
    e := EncodeText(StringText, name, depth + 1, out);
    if e.Some? { return; }
    e := EncodeTexts(fields, depth, out);
  }

  method EncodeStruct(v: Value, depth: nat, out: Output) returns (e: Option<Error>)
    requires v.Struct? && depth <= MAX_NESTING_DEPTH
    modifies out
    ensures e.None? <==> Encodable(v, depth)
    ensures e.None? ==> out.bytes == old(out.bytes) + Wire(v)
    decreases v, 1
  {
    hide HtaWire.StructHeader, HtaWire.SequenceHeader, HtaWire.WireAll;
    e := EncodeHeader(v.name, v.fields, depth, out);
    if e.Some? { return; }
    e := EncodeSequence(Vector, v.values, depth, out);
  }

  method EncodeSuccess(v: Value, depth: nat, out: Output) returns (e: Option<Error>)
    requires v.Success? && depth <= MAX_NESTING_DEPTH
    modifies out
    ensures e.None? <==> Encodable(v, depth)
    ensures e.None? ==> out.bytes == old(out.bytes) + Wire(v)
    decreases v, 2
  {
    hide HtaWire.StructHeader, HtaWire.SequenceHeader, HtaWire.MapWire, HtaWire.TextWire;
    e := EncodeHeader(RESULT_NAME, RESULT_FIELDS, depth, out);
    if e.Some? { return; }
    ghost var start := out.bytes;
    e := EncodeResultValues(v, depth, out);
    ResultWireSplit(v);
  }

  /** What follows the header of a successful Result. */
  ghost function ResultTail(v: Value): Bytes
    requires v.Success?
  {
    SequenceHeader(Vector, 4)
    + (TextWire(KeywordText, SUCCESS) + (Wire(v.data) + ([TagByte(NilTag)] + MapWire(v.context))))
  }

  lemma ResultWireSplit(v: Value)
    requires v.Success?
    ensures Wire(v) == StructHeader(RESULT_NAME, RESULT_FIELDS) + ResultTail(v)
  {
    hide HtaWire.StructHeader, HtaWire.SequenceHeader, HtaWire.MapWire, HtaWire.TextWire;
  }

  method EncodeResultValues(v: Value, depth: nat, out: Output) returns (e: Option<Error>)
    requires v.Success? && depth + 1 <= MAX_NESTING_DEPTH
    modifies out
    ensures e.None? <==> Encodable(v, depth)
    ensures e.None? ==> out.bytes == old(out.bytes) + ResultTail(v)
    decreases v, 1
  {
    hide HtaWire.StructHeader, HtaWire.SequenceHeader, HtaWire.MapWire, HtaWire.TextWire, HtaWire.Wire;
    out.Extend(SequenceHeader(Vector, 4));
    e := EncodeText(KeywordText, SUCCESS, depth + 1, out);
    if e.Some? { return; }
    e := EncodeBare(v.data, depth + 1, out);
    if e.Some? { return; }
    out.Extend([TagByte(NilTag)]);
    e := EncodeMap(v.context, depth + 1, out);
  }

  /** `encode`: the whole frame, within the size limit. */
  method Encode(v: Value) returns (r: Result<Bytes, Error>)
    ensures match EncodeFrame(v) case Some(b) => r == Ok(b) case None => r.Err?
  {
    hide HtaWire.Wire, HtaWire.Encodable;
    var out := new Output();
    out.Extend(MAGIC);
    var e := EncodeBare(v, 0, out);
    if e.Some? { return Err(e.value); }
    assert out.bytes == MAGIC + Wire(v);
    if |out.bytes| > MAX_FRAME_BYTES { return Err(TooLarge); }
    return Ok(out.bytes);
  }
}
