/** The HTA0 codec's main results: round trip, self-delimiting encodings, independence of iteration order. */
module HtaTheorems {
  import opened Prelude
  import opened HtaData
  import opened HtaWire
  import opened HtaRoundTrip

  lemma TooDeepRefuses(w: Bytes, depth: int)
    requires depth > MAX_NESTING_DEPTH
    ensures Refuses(w, depth)
  {}

  // ----- One constructor at a time -----

  lemma SequenceDecodes(kind: SequenceKind, items: seq<Value>, depth: int)
    requires depth <= MAX_NESTING_DEPTH && |items| < TWO_32 && Supported(items) && ItemsDecode(items, depth + 1)
    requires (kind == Cons ==> items != []) && (kind == MapEntry ==> |items| == 2)
    ensures Decodes(SequenceHeader(kind, |items|) + WireAll(items),
                    Sequence(if kind == Tuple then Vector else kind, CanonAll(items)),
                    AllReadable(items, depth + 1), depth)
  {
    hide HtaWire.Read, HtaWire.ReadSequence, HtaWire.Wire, HtaWire.WireAll, HtaWire.Readable, HtaData.BE,
         HtaRoundTrip.ItemsDecode, HtaRoundTrip.AllReadable, HtaRoundTrip.Supported, HtaWire.CanonAll,
         HtaWire.ReadItems;
    var t, body := SequenceTag(kind), BE(|items|, 4) + WireAll(items);
    var w := SequenceHeader(kind, |items|) + WireAll(items);
    assert w == [TagByte(t)] + body;
    forall rest: Bytes
      ensures AllReadable(items, depth + 1) ==>
                Read(w + rest, depth) == Ok((Sequence(if kind == Tuple then Vector else kind, CanonAll(items)), rest))
      ensures !AllReadable(items, depth + 1) ==> Read(w + rest, depth).Err?
    {
      TagRead(t, body, rest, depth);
      ListRead(items, rest, depth);
    }
  }

  lemma SetDecodes(kind: SetKind, items: seq<Value>, depth: int)
    requires depth <= MAX_NESTING_DEPTH && |items| < TWO_32 && Supported(items) && ItemsDecode(items, depth + 1)
    ensures Decodes(Wire(Unordered(kind, items)), Canon(Unordered(kind, items)), AllReadable(items, depth + 1), depth)
  {
    hide HtaWire.Read, HtaWire.ReadSequence, HtaWire.Readable, HtaData.BE, HtaWire.KeyItems, HtaWire.Sort,
         HtaWire.ConcatKeys, HtaRoundTrip.ItemsDecode, HtaRoundTrip.AllReadable, HtaRoundTrip.Supported;
    var s := Sort(KeyItems(items));
    var t, body := SetTag(kind), BE(|items|, 4) + ConcatKeys(s);
    var v := Unordered(kind, items);
    assert Wire(v) == [TagByte(t)] + BE(|items|, 4) + ConcatKeys(s) == [TagByte(t)] + body;
    assert Canon(v) == Unordered(kind, Payloads(s));
    forall rest: Bytes
      ensures AllReadable(items, depth + 1) ==> Read(Wire(v) + rest, depth) == Ok((Canon(v), rest))
      ensures !AllReadable(items, depth + 1) ==> Read(Wire(v) + rest, depth).Err?
    {
      TagRead(t, body, rest, depth);
      SortedListRead(items, rest, depth);
    }
  }

  lemma MapDecodes(entries: seq<Pair>, depth: int)
    requires depth <= MAX_NESTING_DEPTH && |entries| < TWO_32
    requires SupportedPairs(entries) && PairsDecode(entries, depth + 1)
    ensures Decodes(MapWire(entries), Map(CanonMap(entries)), PairsReadable(entries, depth + 1), depth)
  {
    hide HtaWire.Read, HtaWire.ReadEntries, HtaWire.Readable, HtaData.BE, HtaWire.KeyPairs, HtaWire.Sort,
         HtaWire.ConcatEntries, HtaRoundTrip.PairsDecode, HtaRoundTrip.PairsReadable, HtaRoundTrip.SupportedPairs;
    var s := Sort(KeyPairs(entries));
    var body := BE(|entries|, 4) + ConcatEntries(s);
    var w := MapWire(entries);
    assert w == [TagByte(MapTag)] + BE(|entries|, 4) + ConcatEntries(s) == [TagByte(MapTag)] + body;
    assert CanonMap(entries) == CanonEntries(s);
    forall rest: Bytes
      ensures PairsReadable(entries, depth + 1) ==> Read(w + rest, depth) == Ok((Map(CanonMap(entries)), rest))
      ensures !PairsReadable(entries, depth + 1) ==> Read(w + rest, depth).Err?
    {
      TagRead(MapTag, body, rest, depth);
      SortedEntryListRead(entries, rest, depth);
    }
  }

  lemma EntriesDecodes(kind: EntriesKind, entries: seq<Pair>, depth: int)
    requires depth <= MAX_NESTING_DEPTH && |entries| < TWO_32
    requires SupportedPairs(entries) && PairsDecode(entries, depth + 1)
    requires StringKeyed(kind == Trie || kind == Object, entries)
    ensures
      var made := Entries(kind, CanonPairs(entries));
      Decodes(Wire(Entries(kind, entries)), made, PairsReadable(entries, depth + 1), depth)
  {
    hide HtaWire.Read, HtaWire.ReadEntries, HtaWire.Readable, HtaData.BE, HtaWire.WirePairs, HtaWire.Canon,
         HtaRoundTrip.PairsDecode, HtaRoundTrip.PairsReadable, HtaRoundTrip.SupportedPairs;
    var body := BE(|entries|, 4) + WirePairs(entries);
    var v, t := Entries(kind, entries), EntriesTag(kind);
    assert Wire(v) == [TagByte(t)] + BE(|entries|, 4) + WirePairs(entries) == [TagByte(t)] + body;
    StringKeysCanon(kind == Trie, entries);
    forall rest: Bytes
      ensures PairsReadable(entries, depth + 1) ==>
              Read(Wire(v) + rest, depth) == Ok((Entries(kind, CanonPairs(entries)), rest))
      ensures !PairsReadable(entries, depth + 1) ==> Read(Wire(v) + rest, depth).Err?
    {
      TagRead(t, body, rest, depth);
      EntryListRead(kind == Object, entries, rest, depth);
    }
  }

  lemma StringKeysCanon(stringKeys: bool, entries: seq<Pair>)
    requires StringKeyed(stringKeys, entries)
    ensures stringKeys ==> StringKeys(CanonPairs(entries))
  {
    if stringKeys {
      forall i | 0 <= i < |entries| ensures IsString(CanonPairs(entries)[i].key) {
        assert CanonPairs(entries)[i] == CanonPair(entries[i]);
        KeyPairParts(entries[i]);
      }
    }
  }

  lemma AtomDecodes(content: Value, depth: int)
    requires depth <= MAX_NESTING_DEPTH
    requires Decodes(Wire(content), Canon(content), Readable(content, depth + 1), depth + 1)
    ensures Decodes(Wire(Atom(content)), Canon(Atom(content)), Readable(content, depth + 1), depth)
  {
    hide HtaWire.Read, HtaWire.Readable;
    var w := Wire(content);
    assert Wire(Atom(content)) == [TagByte(AtomTag)] + w;
    forall rest: Bytes
      ensures Readable(content, depth + 1) ==>
              Read([TagByte(AtomTag)] + w + rest, depth) == Ok((Atom(Canon(content)), rest))
      ensures !Readable(content, depth + 1) ==> Read([TagByte(AtomTag)] + w + rest, depth).Err?
    {
      TagRead(AtomTag, w, rest, depth);
    }
  }

  lemma TaggedParts(tag: Bytes, form: Value, depth: int)
    ensures
      var v := Tagged(tag, form);
      && Wire(v) == [TagByte(TaggedTag)] + (TextWire(SymbolText, tag) + Wire(form))
      && Canon(v) == Tagged(tag, Canon(form))
      && (Readable(v, depth) <==> depth + 1 <= MAX_NESTING_DEPTH && Readable(form, depth + 1))
  {
    hide HtaWire.TextWire;
    var x, w := TextWire(SymbolText, tag), Wire(form);
    assert [TagByte(TaggedTag)] + x + w == [TagByte(TaggedTag)] + (x + w);
  }

  lemma TaggedDecodes(tag: Bytes, form: Value, depth: int)
    requires depth <= MAX_NESTING_DEPTH && ValidUtf8(tag) && Fits(tag)
    requires Decodes(Wire(form), Canon(form), Readable(form, depth + 1), depth + 1)
    ensures Decodes(Wire(Tagged(tag, form)), Canon(Tagged(tag, form)), Readable(Tagged(tag, form), depth), depth)
  {
    hide HtaWire.Read, HtaWire.TextWire, HtaData.ValidUtf8, HtaWire.Wire, HtaWire.Canon, HtaWire.Readable;
    TaggedParts(tag, form, depth);
    var v, x, w := Tagged(tag, form), TextWire(SymbolText, tag), Wire(form);
    var body := x + w;
    if depth + 1 <= MAX_NESTING_DEPTH { TextReads(SymbolText, tag, depth + 1); }
    else { TooDeepRefuses(x, depth + 1); }
    forall rest: Bytes
      ensures Readable(v, depth) ==> Read(Wire(v) + rest, depth) == Ok((Canon(v), rest))
      ensures !Readable(v, depth) ==> Read(Wire(v) + rest, depth).Err?
    {
      TagRead(TaggedTag, body, rest, depth);
      assert body + rest == x + (w + rest);
    }
  }

  lemma PointerDecodes(target: Bytes, entries: seq<Pair>, depth: int)
    requires depth <= MAX_NESTING_DEPTH && ValidUtf8(target) && Fits(target)
    requires |entries| < TWO_32 && SupportedPairs(entries) && PairsDecode(entries, depth + 2)
    ensures Decodes(Wire(Pointer(target, entries)), Canon(Pointer(target, entries)),
                    depth + 1 <= MAX_NESTING_DEPTH && PairsReadable(entries, depth + 2), depth)
  {
    hide HtaWire.Read, HtaWire.TextWire, HtaData.ValidUtf8, HtaWire.MapWire, HtaWire.CanonMap, HtaWire.Readable,
         HtaRoundTrip.PairsDecode, HtaRoundTrip.PairsReadable, HtaRoundTrip.SupportedPairs;
    var v, x, w := Pointer(target, entries), TextWire(KeywordText, target), MapWire(entries);
    var body := x + w;
    assert Wire(v) == [TagByte(PointerTag)] + x + w == [TagByte(PointerTag)] + body;
    if depth + 1 <= MAX_NESTING_DEPTH {
      TextReads(KeywordText, target, depth + 1);
      MapDecodes(entries, depth + 1);
    } else {
      TooDeepRefuses(x, depth + 1);
    }
    var readable := depth + 1 <= MAX_NESTING_DEPTH && PairsReadable(entries, depth + 2);
    forall rest: Bytes
      ensures readable ==> Read(Wire(v) + rest, depth) == Ok((Canon(v), rest))
      ensures !readable ==> Read(Wire(v) + rest, depth).Err?
    {
      TagRead(PointerTag, body, rest, depth);
      assert body + rest == x + (w + rest);
    }
  }

  // ----- Structures -----

  function TextValues(texts: seq<Bytes>): (r: seq<Value>)
    ensures |r| == |texts| && forall i :: 0 <= i < |texts| ==> r[i] == Text(StringText, texts[i])
  {
    if texts == [] then [] else [Text(StringText, texts[0])] + TextValues(texts[1..])
  }

  lemma {:induction false} TextsAsValues(texts: seq<Bytes>)
    ensures WireAll(TextValues(texts)) == TextsWire(texts) && CanonAll(TextValues(texts)) == TextValues(texts)
    ensures AllStrings(TextValues(texts)) && Texts(TextValues(texts)) == texts
  {
    if texts != [] {
      TextsAsValues(texts[1..]);
      assert TextValues(texts)[1..] == TextValues(texts[1..]);
      assert WireAll(TextValues(texts)) == Wire(TextValues(texts)[0]) + WireAll(TextValues(texts)[1..]);
    }
  }

  lemma TextDecodes(kind: TextKind, text: Bytes, depth: int)
    requires ValidUtf8(text) && Fits(text)
    ensures Decodes(TextWire(kind, text), Text(kind, text), depth <= MAX_NESTING_DEPTH, depth)
  {
    if depth <= MAX_NESTING_DEPTH {
      TextReads(kind, text, depth);
    } else {
      TooDeepRefuses(TextWire(kind, text), depth);
    }
  }

  /** The field-name vector of a structure, read one level below the structure. */
  lemma FieldsDecode(fields: seq<Bytes>, depth: int)
    requires depth <= MAX_NESTING_DEPTH && |fields| < TWO_32
    requires forall i :: 0 <= i < |fields| ==> ValidUtf8(fields[i]) && Fits(fields[i])
    ensures Decodes(SequenceHeader(Vector, |fields|) + TextsWire(fields), Sequence(Vector, TextValues(fields)),
                    fields != [] ==> depth + 1 <= MAX_NESTING_DEPTH, depth)
  {
    hide HtaWire.Read, HtaWire.TextsWire, HtaData.ValidUtf8, HtaData.BE, HtaWire.TextWire, HtaRoundTrip.ItemsDecode,
         HtaRoundTrip.AllReadable, HtaRoundTrip.Supported, HtaWire.CanonAll, HtaWire.Wire, HtaWire.WireAll,
         HtaWire.Canon, HtaRoundTrip.Decodes, HtaWire.Texts, HtaWire.AllStrings, HtaWire.SequenceHeader, TextValues;
    var items := TextValues(fields);
    TextsAsValues(fields);
    FieldItemsDecode(fields, depth + 1);
    SequenceDecodes(Vector, items, depth);
  }

  lemma TextValueDecodes(text: Bytes, depth: int)
    requires ValidUtf8(text) && Fits(text)
    ensures var v := Text(StringText, text);
            && Decodes(Wire(v), Canon(v), Readable(v, depth), depth)
            && (Readable(v, depth) <==> depth <= MAX_NESTING_DEPTH)
  {
    hide HtaRoundTrip.Decodes, HtaData.ValidUtf8, HtaWire.TextWire;
    TextDecodes(StringText, text, depth);
  }

  lemma FieldItemsDecode(fields: seq<Bytes>, depth: int)
    requires forall i :: 0 <= i < |fields| ==> ValidUtf8(fields[i]) && Fits(fields[i])
    ensures ItemsDecode(TextValues(fields), depth) && Supported(TextValues(fields))
    ensures AllReadable(TextValues(fields), depth) <==> (fields != [] ==> depth <= MAX_NESTING_DEPTH)
  {
    hide HtaRoundTrip.Decodes, HtaData.ValidUtf8, HtaWire.Wire, HtaWire.Canon, HtaWire.Readable;
    var items := TextValues(fields);
    forall i | 0 <= i < |items|
      ensures Decodes(Wire(items[i]), Canon(items[i]), Readable(items[i], depth), depth)
      ensures Readable(items[i], depth) <==> depth <= MAX_NESTING_DEPTH
    {
      TextValueDecodes(fields[i], depth);
    }
    if fields != [] { assert items[0] in items; }
  }

  /** A structure whose three parts decode, read part by part. */
  lemma HeaderParts(name: Bytes, fields: seq<Bytes>, w: Bytes)
    ensures StructHeader(name, fields) + w
         == [TagByte(StructTag)]
            + (TextWire(StringText, name) + ((SequenceHeader(Vector, |fields|) + TextsWire(fields)) + w))
  {
    hide HtaWire.TextWire, HtaWire.TextsWire, HtaWire.SequenceHeader;
    var t, x, y := [TagByte(StructTag)], TextWire(StringText, name), SequenceHeader(Vector, |fields|);
    var z := TextsWire(fields);
    assert t + x + y + z + w == t + (x + ((y + z) + w));
  }

  lemma StructParts(
    name: Bytes, fields: seq<Bytes>, w: Bytes, values: seq<Value>, readable: bool, made: Value, depth: int)
    requires depth <= MAX_NESTING_DEPTH && ValidUtf8(name) && Fits(name) && |fields| < TWO_32
    requires forall i :: 0 <= i < |fields| ==> ValidUtf8(fields[i]) && Fits(fields[i])
    requires depth + 1 <= MAX_NESTING_DEPTH ==> Decodes(w, Sequence(Vector, values), readable, depth + 1)
    requires MakeStruct(name, TextValues(fields), values) == Ok(made)
    ensures Decodes(StructHeader(name, fields) + w, made,
                    depth + 1 <= MAX_NESTING_DEPTH && (fields != [] ==> depth + 2 <= MAX_NESTING_DEPTH) && readable,
                    depth)
  {
    hide HtaWire.Read, HtaWire.TextWire, HtaWire.TextsWire, HtaData.ValidUtf8, HtaWire.SequenceHeader,
         HtaWire.MakeStruct, HtaWire.StructHeader, HtaWire.AllStrings, TextValues;
    var x := TextWire(StringText, name);
    var y := SequenceHeader(Vector, |fields|) + TextsWire(fields);
    var body := x + (y + w);
    HeaderParts(name, fields, w);
    TextDecodes(StringText, name, depth + 1);
    if depth + 1 <= MAX_NESTING_DEPTH { FieldsDecode(fields, depth + 1); }
    TextsAsValues(fields);
    var ok := depth + 1 <= MAX_NESTING_DEPTH && (fields != [] ==> depth + 2 <= MAX_NESTING_DEPTH) && readable;
    forall rest: Bytes
      ensures ok ==> Read([TagByte(StructTag)] + body + rest, depth) == Ok((made, rest))
      ensures !ok ==> Read([TagByte(StructTag)] + body + rest, depth).Err?
    {
      TagRead(StructTag, body, rest, depth);
      StructBody(x, y, w, rest, name, fields, values, readable, made, depth);
      assert body + rest == x + (y + (w + rest));
    }
  }

  lemma StructBody(x: Bytes, y: Bytes, w: Bytes, rest: Bytes, name: Bytes, fields: seq<Bytes>, values: seq<Value>,
                   readable: bool, made: Value, depth: int)
    requires Decodes(x, Text(StringText, name), depth + 1 <= MAX_NESTING_DEPTH, depth + 1)
    requires depth + 1 <= MAX_NESTING_DEPTH ==>
               && Decodes(y, Sequence(Vector, TextValues(fields)),
                          fields != [] ==> depth + 2 <= MAX_NESTING_DEPTH, depth + 1)
               && Decodes(w, Sequence(Vector, values), readable, depth + 1)
    requires AllStrings(TextValues(fields)) && MakeStruct(name, TextValues(fields), values) == Ok(made)
    ensures var r := ReadStruct(x + (y + (w + rest)), depth);
            if depth + 1 <= MAX_NESTING_DEPTH && (fields != [] ==> depth + 2 <= MAX_NESTING_DEPTH) && readable
            then r == Ok((made, rest)) else r.Err?
  {
    hide HtaWire.Read, HtaWire.MakeStruct;
    var b1, b2 := y + (w + rest), w + rest;
    if depth + 1 <= MAX_NESTING_DEPTH {
      assert Read(x + b1, depth + 1) == Ok((Text(StringText, name), b1));
    } else {
      assert Read(x + b1, depth + 1).Err?;
    }
  }

  // ----- Every value -----

  predicate Sound(v: Value, e: nat) { WellFormed(v) && Encodable(v, e) }

  lemma LeafDecodes(v: Value, e: nat, depth: int)
    requires Sound(v, e) && depth <= MAX_NESTING_DEPTH
    requires
      || v.Nil? || v.Bool? || v.Number? || v.Float? || v.Character? || v.BigInteger? || v.Text? || v.ByteString?
      || v.Handle?
    ensures Reads(Wire(v), Canon(v), depth)
  {
    hide HtaWire.Read, HtaData.ValidUtf8, HtaData.BE, HtaWire.TextWire, HtaWire.Data, HtaWire.DecimalBytes;
    match v
    case Nil => NilReads(depth);
    case Bool(b) => BoolReads(b, depth);
    case Number(i) => I64Reads(i, depth);
    case Float(bits) => FloatReads(bits, depth);
    case Character(code) => CharacterReads(code, depth);
    case BigInteger(n) => if IsI64(n) { I64Reads(n, depth); } else { BigIntegerReads(n, depth); }
    case Text(kind, text) => TextReads(kind, text, depth);
    case ByteString(bytes) => ByteStringReads(bytes, depth);
    case Handle(provider, typeName, handle) => HandleReads(provider, typeName, handle, depth);
  }

  lemma {:induction false} ItemsAll(items: seq<Value>, e: nat, depth: int)
    requires forall x <- items :: Sound(x, e)
    ensures ItemsDecode(items, depth) && Supported(items)
    decreases items
  {
    hide HtaWire.Read, HtaWire.Wire, HtaWire.Canon, HtaWire.Readable, HtaRoundTrip.Reads, HtaRoundTrip.Refuses;
    forall i | 0 <= i < |items|
      ensures Decodes(Wire(items[i]), Canon(items[i]), Readable(items[i], depth), depth) && !items[i].Unsupported?
    {
      assert items[i] in items;
      ValueDecodes(items[i], e, depth);
    }
  }

  lemma {:induction false} PairDecodes(p: Pair, e: nat, depth: int)
    requires Sound(p.key, e) && Sound(p.value, e)
    ensures Decodes(Wire(p.key), Canon(p.key), Readable(p.key, depth), depth)
    ensures Decodes(Wire(p.value), Canon(p.value), Readable(p.value, depth), depth)
    ensures !p.key.Unsupported? && !p.value.Unsupported?
    decreases p
  {
    ValueDecodes(p.key, e, depth);
    ValueDecodes(p.value, e, depth);
  }

  lemma {:induction false} PairsAll(entries: seq<Pair>, e: nat, depth: int)
    requires forall p <- entries :: Sound(p.key, e) && Sound(p.value, e)
    ensures PairsDecode(entries, depth) && SupportedPairs(entries)
    decreases entries, 0
  {
    hide HtaWire.Read, HtaWire.Wire, HtaWire.Canon, HtaWire.Readable, HtaRoundTrip.Reads, HtaRoundTrip.Refuses;
    forall i | 0 <= i < |entries|
      ensures Decodes(Wire(entries[i].key), Canon(entries[i].key), Readable(entries[i].key, depth), depth)
      ensures Decodes(Wire(entries[i].value), Canon(entries[i].value), Readable(entries[i].value, depth), depth)
      ensures !entries[i].key.Unsupported? && !entries[i].value.Unsupported?
    {
      assert entries[i] in entries;
      PairDecodes(entries[i], e, depth);
    }
  }

  lemma {:induction false} CollectionDecodes(v: Value, e: nat, depth: int)
    requires Sound(v, e) && depth <= MAX_NESTING_DEPTH
    requires v.Sequence? || v.Unordered? || v.Map? || v.Entries?
    ensures Decodes(Wire(v), Canon(v), Readable(v, depth), depth)
    decreases v, 0
  {
    hide HtaWire.Read, HtaRoundTrip.Reads, HtaRoundTrip.Refuses, HtaRoundTrip.ItemsDecode, HtaRoundTrip.PairsDecode;
    match v
    case Sequence(kind, items) =>
      ItemsAll(items, e + 1, depth + 1);
      SequenceDecodes(kind, items, depth);
    case Unordered(kind, items) =>
      ItemsAll(items, e + 1, depth + 1);
      SetDecodes(kind, items, depth);
    case Map(entries) =>
      PairsAll(entries, e + 1, depth + 1);
      MapDecodes(entries, depth);
    case Entries(kind, entries) =>
      PairsAll(entries, e + 1, depth + 1);
      assert StringKeyed(kind == Trie || kind == Object, entries) by {
        if kind == Trie || kind == Object {
          forall i | 0 <= i < |entries| ensures IsString(entries[i].key) { assert entries[i] in entries; }
        }
      }
      EntriesDecodes(kind, entries, depth);
  }

  lemma MakesStruct(name: Bytes, fields: seq<Bytes>, values: seq<Value>)
    requires |fields| == |values| && !IsResultShape(name, fields)
    ensures MakeStruct(name, TextValues(fields), values) == Ok(Struct(name, fields, values))
  {
    hide HtaWire.IsResultShape, HtaWire.MakeResult;
    TextsAsValues(fields);
  }

  lemma StructFromParts(name: Bytes, fields: seq<Bytes>, values: seq<Value>, depth: int)
    requires depth <= MAX_NESTING_DEPTH && ValidUtf8(name) && Fits(name) && |fields| == |values| < TWO_32
    requires forall i :: 0 <= i < |fields| ==> ValidUtf8(fields[i]) && Fits(fields[i])
    requires ItemsDecode(values, depth + 2) && Supported(values)
    requires !IsResultShape(name, fields)
    ensures Decodes(StructHeader(name, fields) + (SequenceHeader(Vector, |values|) + WireAll(values)),
                    Struct(name, fields, CanonAll(values)),
                    depth + 1 <= MAX_NESTING_DEPTH && (fields != [] ==> depth + 2 <= MAX_NESTING_DEPTH)
                    && AllReadable(values, depth + 2), depth)
  {
    hide HtaWire.Read, HtaRoundTrip.Decodes, HtaRoundTrip.ItemsDecode, HtaWire.WireAll, HtaWire.CanonAll,
         HtaRoundTrip.Supported, HtaWire.StructHeader, HtaWire.SequenceHeader, HtaData.ValidUtf8,
         HtaWire.IsResultShape, HtaRoundTrip.AllReadable, HtaWire.MakeStruct, TextValues;
    var w := SequenceHeader(Vector, |values|) + WireAll(values);
    if depth + 1 <= MAX_NESTING_DEPTH { SequenceDecodes(Vector, values, depth + 1); }
    MakesStruct(name, fields, CanonAll(values));
    var made := Struct(name, fields, CanonAll(values));
    StructParts(name, fields, w, CanonAll(values), AllReadable(values, depth + 2), made, depth);
  }

  lemma {:induction false} StructDecodes(v: Value, e: nat, depth: int)
    requires v.Struct? && Sound(v, e) && depth <= MAX_NESTING_DEPTH
    ensures Decodes(Wire(v), Canon(v), Readable(v, depth), depth)
    decreases v, 0
  {
    hide HtaWire.Read, HtaRoundTrip.Decodes, HtaRoundTrip.ItemsDecode, HtaWire.WireAll, HtaWire.CanonAll,
         HtaWire.StructHeader, HtaWire.SequenceHeader, HtaData.ValidUtf8, HtaWire.IsResultShape;
    var w := SequenceHeader(Vector, |v.values|) + WireAll(v.values);
    assert Wire(v) == StructHeader(v.name, v.fields) + w;
    ItemsAll(v.values, e + 1, depth + 2);
    forall i | 0 <= i < |v.fields| ensures ValidUtf8(v.fields[i]) && Fits(v.fields[i]) {
      assert v.fields[i] in v.fields;
    }
    StructFromParts(v.name, v.fields, v.values, depth);
  }

  /** The values a successful Result is written with. */
  function ResultValues(data: Value, context: seq<Pair>): seq<Value> {
    [Text(KeywordText, SUCCESS), data, Nil, Map(context)]
  }

  lemma FourWires(vs: seq<Value>)
    requires |vs| == 4
    ensures WireAll(vs) == Wire(vs[0]) + (Wire(vs[1]) + (Wire(vs[2]) + Wire(vs[3])))
    ensures CanonAll(vs) == [Canon(vs[0]), Canon(vs[1]), Canon(vs[2]), Canon(vs[3])]
  {
    hide HtaWire.Wire, HtaWire.Canon;
    var b, c, d := vs[1..], vs[1..][1..], vs[1..][1..][1..];
    assert d[1..] == [];
    assert WireAll(d) == Wire(vs[3]) + [] == Wire(vs[3]) && CanonAll(d) == [Canon(vs[3])];
    assert WireAll(c) == Wire(vs[2]) + WireAll(d) && CanonAll(c) == [Canon(vs[2])] + CanonAll(d);
    assert WireAll(b) == Wire(vs[1]) + WireAll(c) && CanonAll(b) == [Canon(vs[1])] + CanonAll(c);
  }

  lemma ResultWire(data: Value, context: seq<Pair>)
    ensures var vs := ResultValues(data, context);
            && Wire(Success(data, context))
               == StructHeader(RESULT_NAME, RESULT_FIELDS) + (SequenceHeader(Vector, |vs|) + WireAll(vs))
            && CanonAll(vs) == ResultValues(Canon(data), CanonMap(context))
  {
    hide HtaWire.StructHeader, HtaWire.SequenceHeader, HtaWire.MapWire, HtaWire.CanonMap, HtaWire.TextWire;
    hide HtaWire.WireAll, HtaWire.CanonAll, HtaWire.Wire, HtaWire.Canon;
    FourWires(ResultValues(data, context));
    StatusParts(0);
    ContextParts(context, 0);
    SuccessWire(data, context);
    var a, b, c := TextWire(KeywordText, SUCCESS), Wire(data), Wire(Nil);
    var hd, sq, d := StructHeader(RESULT_NAME, RESULT_FIELDS), SequenceHeader(Vector, 4), MapWire(context);
    SixParts(hd, sq, a, b, c, d);
  }

  lemma SuccessWire(data: Value, context: seq<Pair>)
    ensures Wire(Success(data, context))
         == StructHeader(RESULT_NAME, RESULT_FIELDS) + SequenceHeader(Vector, 4) + TextWire(KeywordText, SUCCESS)
            + Wire(data) + Wire(Nil) + MapWire(context)
  {
    hide HtaWire.StructHeader, HtaWire.SequenceHeader, HtaWire.MapWire, HtaWire.TextWire;
  }

  lemma SixParts(a: Bytes, b: Bytes, c: Bytes, d: Bytes, e: Bytes, f: Bytes)
    ensures a + b + c + d + e + f == a + (b + (c + (d + (e + f))))
  {
    assert a + b + c + d + e + f == a + b + c + d + (e + f);
    assert a + b + c + d + (e + f) == a + b + c + (d + (e + f));
    assert a + b + c + (d + (e + f)) == a + b + (c + (d + (e + f)));
  }

  lemma ResultNames()
    ensures ValidUtf8(RESULT_NAME) && Fits(RESULT_NAME) && ValidUtf8(SUCCESS) && Fits(SUCCESS)
    ensures |RESULT_FIELDS| == 4
    ensures forall i :: 0 <= i < |RESULT_FIELDS| ==> ValidUtf8(RESULT_FIELDS[i]) && Fits(RESULT_FIELDS[i])
  {
    hide HtaData.ValidUtf8;
    AsciiIsUtf8(RESULT_NAME);
    AsciiIsUtf8(SUCCESS);
    forall i | 0 <= i < |RESULT_FIELDS| ensures ValidUtf8(RESULT_FIELDS[i]) && Fits(RESULT_FIELDS[i]) {
      AsciiIsUtf8(RESULT_FIELDS[i]);
    }
  }

  lemma NilDecodes(depth: int)
    ensures Decodes(Wire(Nil), Nil, depth <= MAX_NESTING_DEPTH, depth)
  {
    hide HtaWire.Read;
    if depth <= MAX_NESTING_DEPTH { NilReads(depth); } else { TooDeepRefuses(Wire(Nil), depth); }
  }

  lemma {:induction false} ContextDecodes(context: seq<Pair>, e: nat, depth: int)
    requires |context| < TWO_32 && forall p <- context :: Sound(p.key, e) && Sound(p.value, e)
    ensures Decodes(MapWire(context), Map(CanonMap(context)),
                    depth <= MAX_NESTING_DEPTH && PairsReadable(context, depth + 1), depth)
    decreases context, 1
  {
    hide HtaWire.Read, HtaRoundTrip.PairsDecode, HtaWire.MapWire, HtaWire.CanonMap, HtaRoundTrip.PairsReadable,
         HtaRoundTrip.SupportedPairs;
    if depth <= MAX_NESTING_DEPTH {
      PairsAll(context, e, depth + 1);
      MapDecodes(context, depth);
    } else {
      TooDeepRefuses(MapWire(context), depth);
    }
  }

  lemma FourDecode(vs: seq<Value>, depth: int)
    requires |vs| == 4
    requires Decodes(Wire(vs[0]), Canon(vs[0]), Readable(vs[0], depth), depth)
    requires Decodes(Wire(vs[1]), Canon(vs[1]), Readable(vs[1], depth), depth)
    requires Decodes(Wire(vs[2]), Canon(vs[2]), Readable(vs[2], depth), depth)
    requires Decodes(Wire(vs[3]), Canon(vs[3]), Readable(vs[3], depth), depth)
    ensures ItemsDecode(vs, depth)
    ensures AllReadable(vs, depth) <==>
            Readable(vs[0], depth) && Readable(vs[1], depth) && Readable(vs[2], depth) && Readable(vs[3], depth)
  {
    hide HtaRoundTrip.Decodes, HtaWire.Wire, HtaWire.Canon, HtaWire.Readable;
    assert vs == [vs[0], vs[1], vs[2], vs[3]];
    assert vs[0] in vs && vs[1] in vs && vs[2] in vs && vs[3] in vs;
  }

  /** How the fields of a success that do not depend on it are written, read back and measured. */
  lemma StatusParts(depth: int)
    ensures
      var status := Text(KeywordText, SUCCESS);
      && Wire(status) == TextWire(KeywordText, SUCCESS) && Canon(status) == status && Canon(Nil) == Nil
      && Readable(status, depth) == Readable(Nil, depth) == (depth <= MAX_NESTING_DEPTH)
  {
    hide HtaWire.TextWire;
  }

  lemma ContextParts(context: seq<Pair>, depth: int)
    ensures Wire(Map(context)) == MapWire(context) && Canon(Map(context)) == Map(CanonMap(context))
    ensures Readable(Map(context), depth) == (depth <= MAX_NESTING_DEPTH && PairsReadable(context, depth + 1))
  {
    hide HtaWire.MapWire, HtaWire.CanonMap;
  }

  lemma SuccessSound(v: Value, e: nat)
    requires v.Success? && Sound(v, e)
    ensures Sound(v.data, e + 1) && !v.data.Unsupported? && |v.context| < TWO_32
    ensures forall p <- v.context :: Sound(p.key, e + 2) && Sound(p.value, e + 2)
  {
  }

  lemma {:induction false} SuccessItems(v: Value, e: nat, depth: int)
    requires v.Success? && Sound(v, e)
    ensures ItemsDecode(ResultValues(v.data, v.context), depth) && Supported(ResultValues(v.data, v.context))
    ensures AllReadable(ResultValues(v.data, v.context), depth)
       <==> depth <= MAX_NESTING_DEPTH && Readable(v.data, depth) && PairsReadable(v.context, depth + 1)
    decreases v, 0
  {
    hide HtaWire.Read, HtaRoundTrip.Decodes, HtaWire.TextWire, HtaData.ValidUtf8, HtaWire.MapWire, HtaWire.CanonMap,
         HtaWire.Wire, HtaWire.Canon, HtaWire.Readable, HtaRoundTrip.PairsReadable, HtaRoundTrip.ItemsDecode,
         HtaRoundTrip.AllReadable, Sound;
    var vs := ResultValues(v.data, v.context);
    SuccessSound(v, e);
    ResultNames();
    StatusParts(depth);
    TextDecodes(KeywordText, SUCCESS, depth);
    ValueDecodes(v.data, e + 1, depth);
    NilDecodes(depth);
    ContextParts(v.context, depth);
    ContextDecodes(v.context, e + 2, depth);
    FourDecode(vs, depth);
  }

  lemma MakesSuccess(data: Value, context: seq<Pair>)
    requires forall p <- context :: !IsDisplay(p.key)
    ensures MakeStruct(RESULT_NAME, TextValues(RESULT_FIELDS), ResultValues(data, context))
         == Ok(Success(data, context))
  {
    TextsAsValues(RESULT_FIELDS);
  }

  lemma CanonDisplay(v: Value)
    ensures IsDisplay(Canon(v)) <==> IsDisplay(v)
  {
  }

  /** A context without `:display` has none in its canonical form. */
  lemma CanonTravels(context: seq<Pair>)
    requires forall p <- context :: !IsDisplay(p.key)
    ensures forall p <- CanonMap(context) :: !IsDisplay(p.key)
  {
    hide HtaWire.Sort, HtaWire.Wire, HtaWire.Canon;
    var s := Sort(KeyPairs(context));
    forall i | 0 <= i < |s| ensures !IsDisplay(s[i].payload.canon.key) {
      SortedMember(KeyPairs(context), i);
      var j :| 0 <= j < |context| && KeyPairs(context)[j] == s[i];
      assert context[j] in context;
      assert s[i].payload.canon.key == Canon(context[j].key) by { KeyPairParts(context[j]); }
      CanonDisplay(context[j].key);
    }
  }

  lemma {:induction false} SuccessDecodes(v: Value, e: nat, depth: int)
    requires v.Success? && Sound(v, e) && depth <= MAX_NESTING_DEPTH
    ensures Decodes(Wire(v), Canon(v), Readable(v, depth), depth)
    decreases v, 1
  {
    hide HtaWire.Read, HtaRoundTrip.Decodes, HtaRoundTrip.ItemsDecode, HtaWire.WireAll, HtaWire.Wire,
         HtaWire.MakeStruct, HtaWire.StructHeader, HtaWire.SequenceHeader, HtaData.ValidUtf8, HtaWire.MapWire,
         HtaWire.CanonMap, HtaWire.CanonAll, HtaRoundTrip.AllReadable, HtaRoundTrip.Supported, TextValues;
    var vs := ResultValues(v.data, v.context);
    var w := SequenceHeader(Vector, |vs|) + WireAll(vs);
    ResultWire(v.data, v.context);
    ResultNames();
    SuccessItems(v, e, depth + 2);
    if depth + 1 <= MAX_NESTING_DEPTH { SequenceDecodes(Vector, vs, depth + 1); }
    CanonTravels(v.context);
    MakesSuccess(Canon(v.data), CanonMap(v.context));
    StructParts(RESULT_NAME, RESULT_FIELDS, w, CanonAll(vs), AllReadable(vs, depth + 2), Canon(v), depth);
  }

  /** The decoder follows exactly the readable values, and rebuilds their canonical form. */
  lemma {:induction false} ValueDecodes(v: Value, e: nat, depth: int)
    requires Sound(v, e)
    ensures Decodes(Wire(v), Canon(v), Readable(v, depth), depth)
    decreases v, 2
  {
    hide HtaWire.Read, HtaRoundTrip.Reads, HtaRoundTrip.Refuses, HtaWire.Wire, HtaWire.Canon, HtaData.ValidUtf8,
         HtaRoundTrip.PairsDecode;
    if depth > MAX_NESTING_DEPTH {
      TooDeepRefuses(Wire(v), depth);
    } else {
      match v
      case Sequence(_, _) => CollectionDecodes(v, e, depth);
      case Unordered(_, _) => CollectionDecodes(v, e, depth);
      case Map(_) => CollectionDecodes(v, e, depth);
      case Entries(_, _) => CollectionDecodes(v, e, depth);
      case Atom(content) => ValueDecodes(content, e + 1, depth + 1); AtomDecodes(content, depth);
      case Tagged(tag, form) => ValueDecodes(form, e + 1, depth + 1); TaggedDecodes(tag, form, depth);
      case Struct(_, _, _) => StructDecodes(v, e, depth);
      case Success(_, _) => SuccessDecodes(v, e, depth);
      case Pointer(target, entries) =>
        PairsAll(entries, e + 2, depth + 2);
        PointerDecodes(target, entries, depth);
      case _ => LeafDecodes(v, e, depth);
    }
  }
}
