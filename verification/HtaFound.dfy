/** Whatever the decoder reads is spelled by the grammar; so it decodes exactly what the grammar says. */
module HtaFound {
  import opened Prelude
  import opened HtaData
  import opened HtaWire
  import opened HtaGrammar
  import opened HtaExact
  import Decimal

  /** What reading a value begins with. */
  lemma ReadParts(b: Bytes, depth: int)
    requires Read(b, depth).Ok?
    ensures depth <= MAX_NESTING_DEPTH && b != [] && TagOf(b[0]).Some? && b == [b[0]] + b[1..]
    ensures
      var tag := TagOf(b[0]).value;
      b[0] == TagNumber(tag) && tag != SequenceTag(Tuple) &&
      Read(b, depth) == if IsLeaf(tag) then ReadLeaf(tag, b[1..]) else ReadBranch(tag, b[1..], depth)
  {
    TagBack(b[0]);
    hide TagOf, ReadLeaf, ReadBranch, TagNumber;
  }

  // ----- Leaves -----

  lemma WordFound(tag: Tag, body: Bytes, depth: int) returns (f: Form)
    requires depth <= MAX_NESTING_DEPTH && ReadLeaf(tag, body).Ok? && (tag.I64Tag? || tag.F64Tag? || tag.CharacterTag?)
    ensures Right(f, depth) && [TagNumber(tag)] + body == Spelled(f) + ReadLeaf(tag, body).value.1
  {
    hide FromBE, Worth, WideWorth;
    var n := if tag.CharacterTag? then 4 else 8;
    var word, rest := Take(body, n).value.0, Take(body, n).value.1;
    if tag.CharacterTag? {
      WorthIs(word);
      f := CharacterForm(word);
      Pair2([19], word, rest);
    } else if tag.F64Tag? {
      WideIs(word);
      f := FloatForm(word);
      Pair2([15], word, rest);
    } else {
      f := IntegerForm(word);
      Pair2([3], word, rest);
    }
  }

  lemma DataFormFound(tag: Tag, body: Bytes, depth: int) returns (f: Form)
    requires depth <= MAX_NESTING_DEPTH && ReadLeaf(tag, body).Ok?
    requires tag.BigIntegerTag? || tag.TextTag? || tag.BytesTag?
    ensures Right(f, depth) && [TagNumber(tag)] + body == Spelled(f) + ReadLeaf(tag, body).value.1
  {
    hide Worth, ReadText, ReadData, ValidUtf8, IsDecimal, Decimal.ParseDecimal, IsFour, Chars;
    if tag.BigIntegerTag? {
      var what := "invalid big integer";
      var size := TextFound(what, body);
      var text, rest := ReadText(what, body).value.0, ReadText(what, body).value.1;
      DecimalParsed(text);
      f := DecimalForm(size, text);
      Thrice([20], size, text, rest);
    } else if tag.TextTag? {
      var what := TextError(tag.text);
      var size := TextFound(what, body);
      var text, rest := ReadText(what, body).value.0, ReadText(what, body).value.1;
      f := TextForm(tag.text, size, text);
      Thrice([TextNumber(tag.text)], size, text, rest);
    } else {
      var size := DataFound(body);
      var bytes, rest := ReadData(body).value.0, ReadData(body).value.1;
      f := BytesForm(size, bytes);
      Thrice([5], size, bytes, rest);
    }
  }

  lemma HandleFound(body: Bytes, depth: int) returns (f: Form)
    requires depth <= MAX_NESTING_DEPTH && ReadHandle(body).Ok?
    ensures Right(f, depth) && [12] + body == Spelled(f) + ReadHandle(body).value.1
  {
    hide Worth, ReadText, ValidUtf8, IsFour, FromBE;
    var owner, kind := "invalid handle owner", "invalid handle type";
    var ownerSize := TextFound(owner, body);
    var name, b1 := ReadText(owner, body).value.0, ReadText(owner, body).value.1;
    var typeSize := TextFound(kind, b1);
    var typeName, b2 := ReadText(kind, b1).value.0, ReadText(kind, b1).value.1;
    var word, rest := Take(b2, 8).value.0, Take(b2, 8).value.1;
    f := HandleForm(ownerSize, name, typeSize, typeName, word);
    HandleParts([12], ownerSize, name, typeSize, typeName, word, rest);
  }

  lemma LeafFound(tag: Tag, body: Bytes, depth: int) returns (f: Form)
    requires depth <= MAX_NESTING_DEPTH && IsLeaf(tag) && ReadLeaf(tag, body).Ok?
    ensures Right(f, depth) && [TagNumber(tag)] + body == Spelled(f) + ReadLeaf(tag, body).value.1
  {
    if tag.I64Tag? || tag.F64Tag? || tag.CharacterTag? {
      hide ReadLeaf, Spelled, Right;
      f := WordFound(tag, body, depth);
    } else if tag.BigIntegerTag? || tag.TextTag? || tag.BytesTag? {
      hide ReadLeaf, Spelled, Right;
      f := DataFormFound(tag, body, depth);
    } else if tag.HandleTag? {
      hide ReadHandle, Spelled, Right;
      f := HandleFound(body, depth);
    } else {
      f := if tag.NilTag? then NilForm else if tag.FalseTag? then FalseForm else TrueForm;
    }
  }

  // ----- Collections -----

  lemma ItemsParts(count: nat, b: Bytes, depth: int)
    requires count > 0 && ReadItems(count, b, depth).Ok?
    ensures Read(b, depth).Ok? && ReadItems(count - 1, Read(b, depth).value.1, depth).Ok?
    ensures ReadItems(count, b, depth).value.1 == ReadItems(count - 1, Read(b, depth).value.1, depth).value.1
  {
    hide Read;
  }

  lemma {:induction false} ItemsFound(count: nat, b: Bytes, depth: int) returns (items: seq<Form>)
    requires ReadItems(count, b, depth).Ok?
    ensures |items| == count && AllRight(items, depth) && b == SpelledAll(items) + ReadItems(count, b, depth).value.1
    decreases |b|, 2
  {
    hide ReadItems, Read, Spelled, Right;
    if count == 0 {
      items := [];
      NoItems(b, depth);
    } else {
      ItemsParts(count, b, depth);
      var f := FormFound(b, depth);
      var more := ItemsFound(count - 1, Read(b, depth).value.1, depth);
      items := [f] + more;
      assert items[1..] == more;
      Pair2(Spelled(f), SpelledAll(more), ReadItems(count, b, depth).value.1);
    }
  }

  lemma {:induction false} SequenceFound(b: Bytes, depth: int) returns (size: Four, items: seq<Form>)
    requires ReadSequence(b, depth).Ok?
    ensures Worth(size) == |items| && AllRight(items, depth + 1)
    ensures b == size + (SpelledAll(items) + ReadSequence(b, depth).value.1)
    ensures MeantAll(items) == ReadSequence(b, depth).value.0
    decreases |b|, 3
  {
    SequenceParts(b, depth);
    hide ReadSequence, ReadLen, ReadItems, SpelledAll, AllRight, Worth, MeantAll;
    size := LenFound(b);
    items := ItemsFound(Worth(size), ReadLen(b).value.1, depth + 1);
    SequenceReads(size, items, depth, ReadSequence(b, depth).value.1);
  }

  lemma SequenceParts(b: Bytes, depth: int)
    requires ReadSequence(b, depth).Ok?
    ensures ReadLen(b).Ok? && ReadItems(ReadLen(b).value.0, ReadLen(b).value.1, depth + 1) == ReadSequence(b, depth)
  {
    hide ReadLen, ReadItems;
  }

  lemma PairsParts(stringKeys: bool, count: nat, b: Bytes, depth: int)
    requires count > 0 && ReadPairs(stringKeys, count, b, depth).Ok?
    ensures Read(b, depth).Ok? && (stringKeys ==> IsString(Read(b, depth).value.0))
    ensures
      var b1 := Read(b, depth).value.1;
      Read(b1, depth).Ok? &&
      var b2 := Read(b1, depth).value.1;
      ReadPairs(stringKeys, count - 1, b2, depth).Ok? &&
      ReadPairs(stringKeys, count, b, depth).value.1 == ReadPairs(stringKeys, count - 1, b2, depth).value.1
  {
    hide Read;
  }

  lemma {:induction false} PairsFound(stringKeys: bool, count: nat, b: Bytes, depth: int)
    returns (entries: seq<FormPair>)
    requires ReadPairs(stringKeys, count, b, depth).Ok?
    ensures |entries| == count && PairsRight(entries, depth) && (stringKeys ==> StringPairs(entries))
    ensures b == SpelledPairs(entries) + ReadPairs(stringKeys, count, b, depth).value.1
    decreases |b|, 2
  {
    hide ReadPairs, Read, Spelled, Right, Meant;
    if count == 0 {
      entries := [];
      NoItems(b, depth);
    } else {
      PairsParts(stringKeys, count, b, depth);
      var key := FormFound(b, depth);
      TextMeans(key, StringText);
      var b1 := Read(b, depth).value.1;
      var value := FormFound(b1, depth);
      var more := PairsFound(stringKeys, count - 1, Read(b1, depth).value.1, depth);
      var p := FormPair(key, value);
      entries := [p] + more;
      assert entries[1..] == more;
      var rest := ReadPairs(stringKeys, count, b, depth).value.1;
      Thrice(Spelled(key), Spelled(value), SpelledPairs(more), rest);
    }
  }

  lemma EntriesParts(stringKeys: bool, b: Bytes, depth: int)
    requires ReadEntries(stringKeys, b, depth).Ok?
    ensures ReadLen(b).Ok?
    ensures
      ReadPairs(stringKeys, ReadLen(b).value.0, ReadLen(b).value.1, depth + 1) == ReadEntries(stringKeys, b, depth)
  {
    hide ReadLen, ReadPairs;
  }

  lemma {:induction false} EntriesFound(stringKeys: bool, b: Bytes, depth: int)
    returns (size: Four, entries: seq<FormPair>)
    requires ReadEntries(stringKeys, b, depth).Ok?
    ensures Worth(size) == |entries| && PairsRight(entries, depth + 1) && (stringKeys ==> StringPairs(entries))
    ensures b == size + (SpelledPairs(entries) + ReadEntries(stringKeys, b, depth).value.1)
    ensures MeantPairs(entries) == ReadEntries(stringKeys, b, depth).value.0
    decreases |b|, 3
  {
    EntriesParts(stringKeys, b, depth);
    hide ReadEntries, ReadLen, ReadPairs, SpelledPairs, PairsRight, Worth, MeantPairs, StringPairs;
    size := LenFound(b);
    entries := PairsFound(stringKeys, Worth(size), ReadLen(b).value.1, depth + 1);
    EntriesRead(stringKeys, size, entries, depth, ReadEntries(stringKeys, b, depth).value.1);
  }

  // ----- Branches -----

  lemma {:induction false} ListFound(tag: Tag, body: Bytes, depth: int) returns (f: Form)
    requires depth <= MAX_NESTING_DEPTH && (tag.SequenceTag? || tag.SetTag?) && tag != SequenceTag(Tuple)
    requires ReadBranch(tag, body, depth).Ok?
    ensures Right(f, depth) && [TagNumber(tag)] + body == Spelled(f) + ReadBranch(tag, body, depth).value.1
    decreases |body|, 5
  {
    hide ReadSequence, SpelledAll, AllRight, Worth, MeantAll, IsFour;
    var size, items := SequenceFound(body, depth);
    var rest := ReadSequence(body, depth).value.1;
    f := if tag.SequenceTag? then ListForm(tag.sequence, size, items) else SetForm(tag.collection, size, items);
    Thrice([TagNumber(tag)], size, SpelledAll(items), rest);
  }

  lemma {:induction false} MappingFound(tag: Tag, body: Bytes, depth: int) returns (f: Form)
    requires depth <= MAX_NESTING_DEPTH && (tag.MapTag? || tag.EntriesTag?) && ReadBranch(tag, body, depth).Ok?
    ensures Right(f, depth) && [TagNumber(tag)] + body == Spelled(f) + ReadBranch(tag, body, depth).value.1
    decreases |body|, 5
  {
    hide ReadEntries, SpelledPairs, PairsRight, Worth, MeantPairs, IsFour, StringPairs, StringKeys;
    var strings := tag.EntriesTag? && tag.mapping == Object;
    var size, entries := EntriesFound(strings, body, depth);
    var rest := ReadEntries(strings, body, depth).value.1;
    StringKeysMean(entries);
    f := if tag.MapTag? then MapForm(size, entries) else EntriesForm(tag.mapping, size, entries);
    Thrice([TagNumber(tag)], size, SpelledPairs(entries), rest);
  }

  lemma WrappedBody(tag: Tag, body: Bytes, depth: int)
    requires ReadBranch(tag, body, depth).Ok? && (tag.AtomTag? || tag.TaggedTag? || tag.PointerTag?)
    ensures Read(body, depth + 1).Ok?
    ensures tag.AtomTag? ==> ReadBranch(tag, body, depth).value.1 == Read(body, depth + 1).value.1
    ensures !tag.AtomTag? ==>
      var first := Read(body, depth + 1).value.0;
      var after := Read(body, depth + 1).value.1;
      first.Text? && first.kind == (if tag.TaggedTag? then SymbolText else KeywordText) && Read(after, depth + 1).Ok? &&
      (tag.PointerTag? ==> Read(after, depth + 1).value.0.Map?) &&
      ReadBranch(tag, body, depth).value.1 == Read(after, depth + 1).value.1
  {
    hide Read;
  }

  lemma RightWrapped(f: Form, g: Form, depth: int)
    requires depth <= MAX_NESTING_DEPTH && Right(f, depth + 1) && Right(g, depth + 1)
    ensures Right(AtomForm(f), depth)
    ensures IsText(f, SymbolText) ==> Right(TaggedForm(f, g), depth)
    ensures IsText(f, KeywordText) && g.MapForm? ==> Right(PointerForm(f, g), depth)
    ensures Spelled(AtomForm(f)) == [16] + Spelled(f)
    ensures Spelled(TaggedForm(f, g)) == [31] + Spelled(f) + Spelled(g)
    ensures Spelled(PointerForm(f, g)) == [34] + Spelled(f) + Spelled(g)
  {
    hide SpelledAll, SpelledPairs, AllRight, PairsRight;
  }

  lemma {:induction false} WrappedFound(tag: Tag, body: Bytes, depth: int) returns (f: Form)
    requires depth <= MAX_NESTING_DEPTH && (tag.AtomTag? || tag.TaggedTag? || tag.PointerTag?)
    requires ReadBranch(tag, body, depth).Ok?
    ensures Right(f, depth) && [TagNumber(tag)] + body == Spelled(f) + ReadBranch(tag, body, depth).value.1
    decreases |body|, 5
  {
    WrappedBody(tag, body, depth);
    hide Read, ReadBranch, Right, Spelled, Meant;
    var first := FormFound(body, depth + 1);
    var after := Read(body, depth + 1).value.1;
    if tag.AtomTag? {
      RightWrapped(first, first, depth);
      f := AtomForm(first);
      Pair2([16], Spelled(first), after);
    } else {
      var second := FormFound(after, depth + 1);
      var rest := Read(after, depth + 1).value.1;
      RightWrapped(first, second, depth);
      TextMeans(first, if tag.TaggedTag? then SymbolText else KeywordText);
      MapMeans(second);
      f := if tag.TaggedTag? then TaggedForm(first, second) else PointerForm(first, second);
      Thrice([TagNumber(tag)], Spelled(first), Spelled(second), rest);
    }
  }

  lemma StructBody(body: Bytes, depth: int)
    requires ReadBranch(StructTag, body, depth).Ok?
    ensures Read(body, depth + 1).Ok? && IsString(Read(body, depth + 1).value.0)
    ensures
      var name, b1 := Read(body, depth + 1).value.0, Read(body, depth + 1).value.1;
      Read(b1, depth + 1).Ok? &&
      var fields, b2 := Read(b1, depth + 1).value.0, Read(b1, depth + 1).value.1;
      IsVector(fields) && AllStrings(fields.items) && Read(b2, depth + 1).Ok? &&
      var values := Read(b2, depth + 1).value.0;
      IsVector(values) && MakeStruct(name.text, fields.items, values.items).Ok? &&
      ReadBranch(StructTag, body, depth).value.1 == Read(b2, depth + 1).value.1
  {
    hide Read, MakeStruct, AllStrings;
  }

  lemma ResultFound(name: Form, fields: Form, values: Form)
    requires IsText(name, StringText) && IsVectorForm(fields) && AllStringForms(fields.items) && IsVectorForm(values)
    requires MakeStruct(name.text, MeantAll(fields.items), MeantAll(values.items)).Ok?
    ensures |fields.items| == |values.items| && (PosesAsResult(name, fields) ==> ResultValues(values.items))
  {
    NamesMean(fields.items);
    if PosesAsResult(name, fields) { ResultValuesFound(values.items); }
    hide MeantAll, AllStrings, AllStringForms, Texts, FieldNames, MakeResult;
  }

  lemma ResultValuesFound(items: seq<Form>)
    requires MakeResult(MeantAll(items)).Ok?
    ensures ResultValues(items)
  {
    if |items| == 4 {
      MeantAt(items, 0);
      MeantAt(items, 2);
      MeantAt(items, 3);
      TextMeans(items[0], KeywordText);
      NilMeans(items[2]);
      MapLikeMeans(items[3]);
    }
    hide MeantAll, Meant, Transported;
  }

  lemma RightStruct(name: Form, fields: Form, values: Form, depth: int)
    requires depth <= MAX_NESTING_DEPTH && IsText(name, StringText) && IsVectorForm(fields) && IsVectorForm(values)
    requires AllStringForms(fields.items) && |fields.items| == |values.items|
    requires PosesAsResult(name, fields) ==> ResultValues(values.items)
    requires Right(name, depth + 1) && Right(fields, depth + 1) && Right(values, depth + 1)
    ensures Right(StructForm(name, fields, values), depth)
    ensures Spelled(StructForm(name, fields, values)) == [33] + Spelled(name) + Spelled(fields) + Spelled(values)
  {
    hide SpelledAll, SpelledPairs, AllRight, PairsRight, AllStringForms, PosesAsResult, ResultValues;
  }

  lemma {:induction false} StructFound(body: Bytes, depth: int) returns (f: Form)
    requires depth <= MAX_NESTING_DEPTH && ReadBranch(StructTag, body, depth).Ok?
    ensures Right(f, depth) && [33] + body == Spelled(f) + ReadBranch(StructTag, body, depth).value.1
    decreases |body|, 5
  {
    StructBody(body, depth);
    hide Read, ReadBranch, Right, Spelled, Meant, MeantAll, MakeStruct, AllStrings, AllStringForms;
    hide PosesAsResult, ResultValues;
    var name := FormFound(body, depth + 1);
    var b1 := Read(body, depth + 1).value.1;
    var fields := FormFound(b1, depth + 1);
    var b2 := Read(b1, depth + 1).value.1;
    var values := FormFound(b2, depth + 1);
    var rest := Read(b2, depth + 1).value.1;
    TextMeans(name, StringText);
    VectorMeans(fields);
    VectorMeans(values);
    NamesMean(fields.items);
    ResultFound(name, fields, values);
    RightStruct(name, fields, values, depth);
    f := StructForm(name, fields, values);
    StructParts([33], Spelled(name), Spelled(fields), Spelled(values), rest);
  }

  // ----- Exactly -----

  /** Whatever is read is spelled by a form that means it. */
  lemma {:induction false} FormFound(b: Bytes, depth: int) returns (f: Form)
    requires Read(b, depth).Ok?
    ensures Right(f, depth) && b == Spelled(f) + Read(b, depth).value.1 && Meant(f) == Read(b, depth).value.0
    decreases |b|, 1
  {
    ReadParts(b, depth);
    hide Read, ReadLeaf, ReadBranch, Right, Spelled, Meant, TagOf;
    var tag, body := TagOf(b[0]).value, b[1..];
    if IsLeaf(tag) {
      f := LeafFound(tag, body, depth);
    } else if tag.SequenceTag? || tag.SetTag? {
      f := ListFound(tag, body, depth);
    } else if tag.MapTag? || tag.EntriesTag? {
      f := MappingFound(tag, body, depth);
    } else if tag.StructTag? {
      f := StructFound(body, depth);
    } else {
      f := WrappedFound(tag, body, depth);
    }
    FormReads(f, depth, Read(b, depth).value.1);
  }

  /** The decoder takes exactly the bytes of a form off the front, and makes of them what the form means. */
  lemma ReadExactly(b: Bytes, depth: int, v: Value, rest: Bytes)
    ensures Read(b, depth) == Ok((v, rest)) <==>
      exists f: Form :: Right(f, depth) && b == Spelled(f) + rest && Meant(f) == v
  {
    hide Read, Right, Spelled, Meant;
    if f: Form :| Right(f, depth) && b == Spelled(f) + rest && Meant(f) == v { FormReads(f, depth, rest); }
    if Read(b, depth) == Ok((v, rest)) { var f := FormFound(b, depth); }
  }

  /** A frame decodes to a value exactly when it means the value. */
  lemma DecodesExactly(b: Bytes, v: Value)
    ensures DecodeFrame(b) == Ok(v) <==> FrameMeans(b, v)
  {
    hide Read, Right, Spelled, Meant;
    ReadExactly(b[if |b| >= 4 then 4 else 0..], 0, v, []);
    if f: Form :| Right(f, 0) && b == MAGIC + Spelled(f) && Meant(f) == v {
      assert b[4..] == Spelled(f) && Spelled(f) + [] == Spelled(f);
    }
    if DecodeFrame(b) == Ok(v) {
      assert b == MAGIC + b[4..];
      var f: Form :| Right(f, 0) && b[4..] == Spelled(f) + [] && Meant(f) == v;
      assert Spelled(f) + [] == Spelled(f);
    }
  }
}
