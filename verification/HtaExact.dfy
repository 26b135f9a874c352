/** The decoder against the grammar: a frame decodes to a value exactly when the grammar says it means the value. */
module HtaExact {
  import opened Prelude
  import opened HtaData
  import opened HtaWire
  import opened HtaGrammar
  import HtaRoundTrip
  import Decimal

  // ----- Words -----

  lemma FromBELast(b: Bytes, x: Byte)
    ensures FromBE(b + [x]) == FromBE(b) * 256 + x
  {
    assert (b + [x])[..|b|] == b;
  }

  lemma WorthIs(b: Four)
    ensures FromBE(b) == Worth(b)
  {
    var none: Bytes := [];
    FromBELast(none, b[0]);
    FromBELast([b[0]], b[1]);
    FromBELast([b[0], b[1]], b[2]);
    FromBELast([b[0], b[1], b[2]], b[3]);
    assert none + [b[0]] == [b[0]] && [b[0]] + [b[1]] == [b[0], b[1]];
    assert [b[0], b[1]] + [b[2]] == [b[0], b[1], b[2]] && [b[0], b[1], b[2]] + [b[3]] == b;
    hide FromBE;
  }

  lemma WideIs(b: Eight)
    ensures FromBE(b) == WideWorth(b)
  {
    var high, low := b[..4], b[4..];
    WorthIs(high);
    FromBELast(high, b[4]);
    FromBELast(high + [b[4]], b[5]);
    FromBELast(high + [b[4]] + [b[5]], b[6]);
    FromBELast(high + [b[4]] + [b[5]] + [b[6]], b[7]);
    assert high + [b[4]] + [b[5]] + [b[6]] + [b[7]] == b;
    WorthParts(low, b[4], b[5], b[6], b[7]);
    hide FromBE, Worth;
  }

  lemma WorthParts(low: Four, a: Byte, b: Byte, c: Byte, d: Byte)
    requires low[0] == a && low[1] == b && low[2] == c && low[3] == d
    ensures Worth(low) == ((a as int * 256 + b) * 256 + c) * 256 + d
  {
  }

  lemma Pair2(a: Bytes, b: Bytes, rest: Bytes)
    ensures a + b + rest == a + (b + rest)
  {
  }

  lemma LenReads(size: Four, rest: Bytes)
    ensures ReadLen(size + rest) == Ok((Worth(size), rest))
  {
    WorthIs(size);
    hide FromBE, Worth;
    HtaRoundTrip.TakeExact(size, rest);
  }

  lemma LenFound(b: Bytes) returns (size: Four)
    requires ReadLen(b).Ok?
    ensures b == size + ReadLen(b).value.1 && ReadLen(b).value.0 == Worth(size)
  {
    hide FromBE, Worth;
    size := Take(b, 4).value.0;
    WorthIs(size);
  }

  lemma DataReads(size: Four, data: Bytes, rest: Bytes)
    requires Worth(size) == |data|
    ensures ReadData(size + (data + rest)) == Ok((data, rest))
  {
    hide ReadLen, Worth;
    LenReads(size, data + rest);
    HtaRoundTrip.TakeExact(data, rest);
  }

  lemma DataFound(b: Bytes) returns (size: Four)
    requires ReadData(b).Ok?
    ensures b == size + (ReadData(b).value.0 + ReadData(b).value.1) && Worth(size) == |ReadData(b).value.0|
  {
    hide ReadLen, Worth;
    size := LenFound(b);
  }

  lemma TextReads(what: string, size: Four, text: Bytes, rest: Bytes)
    requires Worth(size) == |text| && ValidUtf8(text)
    ensures ReadText(what, size + (text + rest)) == Ok((text, rest))
  {
    hide ReadData, Worth, ValidUtf8;
    DataReads(size, text, rest);
  }

  lemma TextFound(what: string, b: Bytes) returns (size: Four)
    requires ReadText(what, b).Ok?
    ensures b == size + (ReadText(what, b).value.0 + ReadText(what, b).value.1)
    ensures Worth(size) == |ReadText(what, b).value.0| && ValidUtf8(ReadText(what, b).value.0)
  {
    hide ReadData, Worth, ValidUtf8;
    size := DataFound(b);
  }

  // ----- Decimal text -----

  lemma {:induction false} WorthLast(digits: Bytes, d: Byte)
    ensures DigitsWorth(digits + [d]) == DigitsWorth(digits) * 10 + (d - 0x30) as int
  {
    var all := digits + [d];
    if digits == [] {
      assert all == [d] && all[1..] == [];
      assert Tens(0) == 1;
    } else {
      assert all[0] == digits[0] && all[1..] == digits[1..] + [d];
      WorthLast(digits[1..], d);
      var k := |digits| - 1;
      var first: int := digits[0];
      assert (first - 0x30) * Tens(k + 1) == (first - 0x30) * Tens(k) * 10;
    }
  }

  lemma {:induction false} WorthParsed(digits: Bytes)
    requires IsDigits(digits)
    ensures forall c <- Chars(digits) :: Decimal.IsDigit(c)
    ensures Decimal.DigitsValue(Chars(digits)) == DigitsWorth(digits)
    decreases |digits|
  {
    var s := Chars(digits);
    assert forall i :: 0 <= i < |s| ==> Decimal.IsDigit(s[i]);
    if digits != [] {
      var k := |digits| - 1;
      var front, d := digits[..k], digits[k];
      assert digits == front + [d] && s[..k] == Chars(front);
      WorthParsed(front);
      WorthLast(front, d);
      hide DigitsWorth, Chars;
      assert Decimal.DigitsValue(s) == Decimal.DigitsValue(s[..k]) * 10 + Decimal.DigitValue(s[k]);
    }
  }

  lemma CharsTail(text: Bytes)
    requires text != []
    ensures Chars(text)[1..] == Chars(text[1..])
  {
  }

  predicate AllDigits(s: string) { forall c <- s :: Decimal.IsDigit(c) }

  lemma DigitsParsed(digits: Bytes)
    ensures AllDigits(Chars(digits)) <==> IsDigits(digits)
    ensures IsDigits(digits) ==> Decimal.DigitsValue(Chars(digits)) == DigitsWorth(digits)
  {
    hide DigitsWorth, Decimal.DigitsValue;
    if IsDigits(digits) {
      WorthParsed(digits);
    } else {
      var i :| 0 <= i < |digits| && !(0x30 <= digits[i] <= 0x39);
      assert Chars(digits)[i] in Chars(digits);
    }
  }

  lemma ParsedText(s: string)
    ensures Decimal.ParseDecimal(s) ==
      if s != [] && s[0] == '-' then
        if |s| > 1 && AllDigits(s[1..]) then Some(0 - Decimal.DigitsValue(s[1..]) as int) else None
      else if s != [] && AllDigits(s) then Some(Decimal.DigitsValue(s))
      else None
  {
    hide Decimal.DigitsValue;
  }

  /** Text parses as an integer exactly when it is decimal, and to what its places say. */
  lemma DecimalParsed(text: Bytes)
    ensures Decimal.ParseDecimal(Chars(text)).Some? <==> IsDecimal(text)
    ensures IsDecimal(text) ==>
      var n := Decimal.ParseDecimal(Chars(text)).value;
      DecimalMeant(text) == if IsI64(n) then Number(n) else BigInteger(n)
  {
    hide Decimal.ParseDecimal, Decimal.DigitsValue, DigitsWorth, AllDigits, IsDigits, Chars;
    ParsedText(Chars(text));
    if text != [] && text[0] == 0x2d {
      CharsTail(text);
      DigitsParsed(text[1..]);
    } else {
      DigitsParsed(text);
    }
  }

  lemma DecimalUtf8(text: Bytes)
    requires IsDecimal(text)
    ensures ValidUtf8(text)
  {
    forall i | 0 <= i < |text| ensures text[i] < 128 {
      if text[0] == 0x2d && i > 0 { assert text[1..][i - 1] == text[i]; }
    }
    HtaRoundTrip.AsciiIsUtf8(text);
  }

  // ----- Tags -----

  /** The numbers of the inventory announce what they should. */
  lemma Numbers()
    ensures TagOf(0) == Some(NilTag) && TagOf(1) == Some(FalseTag) && TagOf(2) == Some(TrueTag)
    ensures TagOf(3) == Some(I64Tag) && TagOf(15) == Some(F64Tag) && TagOf(19) == Some(CharacterTag)
    ensures TagOf(20) == Some(BigIntegerTag) && TagOf(5) == Some(BytesTag) && TagOf(12) == Some(HandleTag)
    ensures TagOf(11) == Some(MapTag) && TagOf(16) == Some(AtomTag) && TagOf(31) == Some(TaggedTag)
    ensures TagOf(34) == Some(PointerTag) && TagOf(33) == Some(StructTag)
  {
  }

  lemma KindNumbers(text: TextKind, list: SequenceKind, collection: SetKind, mapping: EntriesKind)
    ensures TagOf(TextNumber(text)) == Some(TextTag(text))
    ensures list != Tuple ==> TagOf(ListNumber(list)) == Some(SequenceTag(list))
    ensures TagOf(SetNumber(collection)) == Some(SetTag(collection))
    ensures TagOf(EntriesNumber(mapping)) == Some(EntriesTag(mapping))
  {
  }

  /** The number a tag stands under. */
  function TagNumber(t: Tag): Byte {
    match t
    case NilTag => 0 case FalseTag => 1 case TrueTag => 2 case I64Tag => 3 case BytesTag => 5
    case TextTag(kind) => TextNumber(kind)
    case SequenceTag(kind) => ListNumber(kind)
    case SetTag(kind) => SetNumber(kind)
    case MapTag => 11 case HandleTag => 12 case F64Tag => 15 case AtomTag => 16
    case EntriesTag(kind) => EntriesNumber(kind)
    case CharacterTag => 19 case BigIntegerTag => 20 case TaggedTag => 31 case StructTag => 33 case PointerTag => 34
  }

  lemma TagBack(b: Byte)
    requires TagOf(b).Some?
    ensures TagNumber(TagOf(b).value) == b && TagOf(b).value != SequenceTag(Tuple)
  {
  }

  lemma Opens(n: Byte, body: Bytes, depth: int)
    requires depth <= MAX_NESTING_DEPTH && TagOf(n).Some?
    ensures
      var tag := TagOf(n).value;
      Read([n] + body, depth) == if IsLeaf(tag) then ReadLeaf(tag, body) else ReadBranch(tag, body, depth)
  {
    hide TagOf, ReadLeaf, ReadBranch, IsLeaf;
    assert ([n] + body)[1..] == body;
  }

  // ----- What the grammar spells is read -----

  predicate LeafForm(f: Form) {
    f.NilForm? || f.FalseForm? || f.TrueForm? || f.IntegerForm? || f.FloatForm? || f.CharacterForm? ||
    f.DecimalForm? || f.TextForm? || f.BytesForm? || f.HandleForm?
  }

  lemma WordReads(f: Form, depth: int, rest: Bytes)
    requires Right(f, depth) && (f.IntegerForm? || f.FloatForm? || f.CharacterForm?)
    ensures Read(Spelled(f) + rest, depth) == Ok((Meant(f), rest))
  {
    Numbers();
    hide Read, FromBE, Worth, WideWorth, TagOf;
    match f
    case IntegerForm(word) =>
      Pair2([3], word, rest);
      Opens(3, word + rest, depth);
      HtaRoundTrip.TakeExact(word, rest);
      WideIs(word);
    case FloatForm(word) =>
      Pair2([15], word, rest);
      Opens(15, word + rest, depth);
      HtaRoundTrip.TakeExact(word, rest);
      WideIs(word);
    case CharacterForm(code) =>
      Pair2([19], code, rest);
      Opens(19, code + rest, depth);
      HtaRoundTrip.TakeExact(code, rest);
      WorthIs(code);
  }

  lemma Thrice(a: Bytes, b: Bytes, c: Bytes, rest: Bytes)
    ensures a + b + c + rest == a + (b + (c + rest))
  {
  }

  lemma DataFormReads(f: Form, depth: int, rest: Bytes)
    requires Right(f, depth) && (f.DecimalForm? || f.TextForm? || f.BytesForm?)
    ensures Read(Spelled(f) + rest, depth) == Ok((Meant(f), rest))
  {
    Numbers();
    hide Read, Worth, TagOf, ReadText, ReadData, ValidUtf8, IsDecimal, DecimalMeant, Decimal.ParseDecimal, IsFour;
    match f
    case DecimalForm(size, text) =>
      Thrice([20], size, text, rest);
      Opens(20, size + (text + rest), depth);
      DecimalUtf8(text);
      TextReads("invalid big integer", size, text, rest);
      DecimalParsed(text);
    case TextForm(kind, size, text) =>
      KindNumbers(kind, List, Set, Trie);
      Thrice([TextNumber(kind)], size, text, rest);
      Opens(TextNumber(kind), size + (text + rest), depth);
      TextReads(TextError(kind), size, text, rest);
    case BytesForm(size, bytes) =>
      Thrice([5], size, bytes, rest);
      Opens(5, size + (bytes + rest), depth);
      DataReads(size, bytes, rest);
  }

  lemma HandleFormReads(f: Form, depth: int, rest: Bytes)
    requires Right(f, depth) && f.HandleForm?
    ensures Read(Spelled(f) + rest, depth) == Ok((Meant(f), rest))
  {
    Numbers();
    hide Read, Worth, WideWorth, FromBE, TagOf, ReadText, ValidUtf8, IsFour, IsEight;
    var types := f.typeSize + (f.typeName + (f.word + rest));
    HandleParts([12], f.ownerSize, f.owner, f.typeSize, f.typeName, f.word, rest);
    Opens(12, f.ownerSize + (f.owner + types), depth);
    TextReads("invalid handle owner", f.ownerSize, f.owner, types);
    TextReads("invalid handle type", f.typeSize, f.typeName, f.word + rest);
    EightTaken(f.word, rest);
    WideIs(f.word);
  }

  lemma EightTaken(word: Eight, rest: Bytes)
    ensures Take(word + rest, 8) == Ok((word, rest))
  {
    HtaRoundTrip.TakeExact(word, rest);
  }

  lemma HandleParts(a: Bytes, b: Bytes, c: Bytes, d: Bytes, e: Bytes, f: Bytes, rest: Bytes)
    ensures a + b + c + d + e + f + rest == a + (b + (c + (d + (e + (f + rest)))))
  {
    Thrice(a + b + c, d, e, f + rest);
    Thrice(a, b, c, d + (e + (f + rest)));
    assert a + b + c + d + e + f + rest == a + b + c + d + e + (f + rest);
  }

  lemma LeafReads(f: Form, depth: int, rest: Bytes)
    requires Right(f, depth) && LeafForm(f)
    ensures Read(Spelled(f) + rest, depth) == Ok((Meant(f), rest))
  {
    Numbers();
    hide Read, TagOf, Right;
    assert depth <= MAX_NESTING_DEPTH by { Shallow(f, depth); }
    if f.IntegerForm? || f.FloatForm? || f.CharacterForm? {
      WordReads(f, depth, rest);
    } else if f.DecimalForm? || f.TextForm? || f.BytesForm? {
      DataFormReads(f, depth, rest);
    } else if f.HandleForm? {
      HandleFormReads(f, depth, rest);
    } else {
      Opens(if f.NilForm? then 0 else if f.FalseForm? then 1 else 2, rest, depth);
    }
  }

  lemma Shallow(f: Form, depth: int)
    requires Right(f, depth)
    ensures depth <= MAX_NESTING_DEPTH
  {
  }

  // ----- Collections -----

  lemma {:induction false} AllSpelledLength(items: seq<Form>)
    ensures |SpelledAll(items)| >= |items|
  {
    if items != [] {
      SpelledSome(items[0]);
      AllSpelledLength(items[1..]);
    }
  }

  lemma SpelledSome(f: Form)
    ensures |Spelled(f)| >= 1
  {
    hide SpelledAll, SpelledPairs;
  }

  lemma {:induction false} PairsSpelledLength(entries: seq<FormPair>)
    ensures |SpelledPairs(entries)| >= 2 * |entries|
  {
    if entries != [] {
      SpelledSome(entries[0].key);
      SpelledSome(entries[0].value);
      hide Spelled;
      PairsSpelledLength(entries[1..]);
    }
  }

  lemma ItemStep(f: Form, count: nat, rest: Bytes, depth: int)
    requires count > 0 && Read(Spelled(f) + rest, depth) == Ok((Meant(f), rest))
    ensures ReadItems(count, Spelled(f) + rest, depth) ==
      match ReadItems(count - 1, rest, depth)
      case Err(e) => Err(e)
      case Ok((vs, last)) => Ok(([Meant(f)] + vs, last))
  {
    hide Read, Spelled, Meant;
  }

  lemma NoItems(b: Bytes, depth: int)
    ensures ReadItems(0, b, depth) == Ok(([], b)) && ReadPairs(true, 0, b, depth) == Ok(([], b))
    ensures ReadPairs(false, 0, b, depth) == Ok(([], b)) && [] + b == b
  {
  }

  lemma {:induction false} ItemsRead(items: seq<Form>, depth: int, rest: Bytes)
    requires AllRight(items, depth)
    ensures ReadItems(|items|, SpelledAll(items) + rest, depth) == Ok((MeantAll(items), rest))
    decreases items, 0
  {
    hide ReadItems, Read, Spelled, Meant, Right;
    if items == [] {
      NoItems(rest, depth);
    } else {
      var f, more := items[0], items[1..];
      FormReads(f, depth, SpelledAll(more) + rest);
      ItemStep(f, |items|, SpelledAll(more) + rest, depth);
      ItemsRead(more, depth, rest);
      Pair2(Spelled(f), SpelledAll(more), rest);
    }
  }

  lemma {:induction false} SequenceReads(size: Four, items: seq<Form>, depth: int, rest: Bytes)
    requires Worth(size) == |items| && AllRight(items, depth + 1)
    ensures ReadSequence(size + (SpelledAll(items) + rest), depth) == Ok((MeantAll(items), rest))
    decreases items, 1
  {
    hide ReadLen, ReadItems, SpelledAll, MeantAll, AllRight, Worth;
    LenReads(size, SpelledAll(items) + rest);
    AllSpelledLength(items);
    ItemsRead(items, depth + 1, rest);
  }

  lemma PairStep(stringKeys: bool, p: FormPair, count: nat, rest: Bytes, depth: int)
    requires count > 0 && (stringKeys ==> IsText(p.key, StringText))
    requires
      var after := Spelled(p.value) + rest;
      Read(Spelled(p.key) + after, depth) == Ok((Meant(p.key), after)) &&
      Read(after, depth) == Ok((Meant(p.value), rest))
    ensures ReadPairs(stringKeys, count, SpelledPair(p) + rest, depth) ==
      match ReadPairs(stringKeys, count - 1, rest, depth)
      case Err(e) => Err(e)
      case Ok((ps, last)) => Ok(([MeantPair(p)] + ps, last))
  {
    TextMeans(p.key, StringText);
    hide Read, Spelled, Meant;
    Pair2(Spelled(p.key), Spelled(p.value), rest);
  }

  lemma TextMeans(f: Form, kind: TextKind)
    ensures IsText(f, kind) <==> Meant(f).Text? && Meant(f).kind == kind
    ensures IsText(f, kind) ==> Meant(f).text == f.text
  {
    hide MeantAll, MeantPairs;
  }

  lemma {:induction false} PairsRead(stringKeys: bool, entries: seq<FormPair>, depth: int, rest: Bytes)
    requires PairsRight(entries, depth) && (stringKeys ==> StringPairs(entries))
    ensures ReadPairs(stringKeys, |entries|, SpelledPairs(entries) + rest, depth) == Ok((MeantPairs(entries), rest))
    decreases entries, 0
  {
    hide ReadPairs, Read, Spelled, Meant, Right;
    if entries == [] {
      NoItems(rest, depth);
    } else {
      var p, more := entries[0], entries[1..];
      var next := SpelledPairs(more) + rest;
      PairReads(p, depth, next);
      PairStep(stringKeys, p, |entries|, next, depth);
      PairsRead(stringKeys, more, depth, rest);
      Pair2(SpelledPair(p), SpelledPairs(more), rest);
    }
  }

  lemma {:induction false} PairReads(p: FormPair, depth: int, rest: Bytes)
    requires PairRight(p, depth)
    ensures
      var after := Spelled(p.value) + rest;
      Read(Spelled(p.key) + after, depth) == Ok((Meant(p.key), after)) &&
      Read(after, depth) == Ok((Meant(p.value), rest))
    decreases p, 3
  {
    hide Read, Spelled, Meant, Right;
    FormReads(p.key, depth, Spelled(p.value) + rest);
    FormReads(p.value, depth, rest);
  }

  lemma {:induction false} EntriesRead(
    stringKeys: bool, size: Four, entries: seq<FormPair>, depth: int, rest: Bytes)
    requires Worth(size) == |entries| && PairsRight(entries, depth + 1) && (stringKeys ==> StringPairs(entries))
    ensures ReadEntries(stringKeys, size + (SpelledPairs(entries) + rest), depth) == Ok((MeantPairs(entries), rest))
    decreases entries, 1
  {
    hide ReadLen, ReadPairs, SpelledPairs, MeantPairs, PairsRight, Worth, StringPairs;
    LenReads(size, SpelledPairs(entries) + rest);
    PairsSpelledLength(entries);
    PairsRead(stringKeys, entries, depth + 1, rest);
  }

  // ----- Forms -----

  lemma {:induction false} ListFormReads(f: Form, depth: int, rest: Bytes)
    requires Right(f, depth) && (f.ListForm? || f.SetForm?)
    ensures Read(Spelled(f) + rest, depth) == Ok((Meant(f), rest))
    decreases f, 2
  {
    hide Read, TagOf, ReadSequence, SpelledAll, MeantAll, AllRight, Worth, IsFour;
    var n := if f.ListForm? then ListNumber(f.sequence) else SetNumber(f.collection);
    if f.ListForm? {
      KindNumbers(StringText, f.sequence, Set, Trie);
    } else {
      KindNumbers(StringText, List, f.collection, Trie);
    }
    Thrice([n], f.size, SpelledAll(f.items), rest);
    Opens(n, f.size + (SpelledAll(f.items) + rest), depth);
    SequenceReads(f.size, f.items, depth, rest);
  }

  lemma StringKeysMean(entries: seq<FormPair>)
    ensures StringPairs(entries) <==> StringKeys(MeantPairs(entries))
    decreases |entries|
  {
    if entries != [] {
      TextMeans(entries[0].key, StringText);
      StringKeysMean(entries[1..]);
      hide Meant;
      var more, meant := entries[1..], MeantPairs(entries);
      assert meant == [MeantPair(entries[0])] + MeantPairs(more);
      assert StringPairs(entries) <==> IsText(entries[0].key, StringText) && StringPairs(more) by {
        assert forall i :: 0 < i < |entries| ==> entries[i] == more[i - 1];
        assert forall i :: 0 <= i < |more| ==> more[i] == entries[i + 1];
      }
      assert meant[0] in meant;
      assert forall p <- MeantPairs(more) :: p in meant;
    }
  }

  lemma {:induction false} EntriesFormReads(f: Form, depth: int, rest: Bytes)
    requires Right(f, depth) && (f.MapForm? || f.EntriesForm?)
    ensures Read(Spelled(f) + rest, depth) == Ok((Meant(f), rest))
    decreases f, 2
  {
    Numbers();
    hide Read, TagOf, ReadEntries, SpelledPairs, MeantPairs, PairsRight, Worth, IsFour, StringPairs, StringKeys;
    var n := if f.MapForm? then 11 else EntriesNumber(f.mapping);
    if f.EntriesForm? {
      KindNumbers(StringText, List, Set, f.mapping);
      StringKeysMean(f.entries);
    }
    Thrice([n], f.size, SpelledPairs(f.entries), rest);
    Opens(n, f.size + (SpelledPairs(f.entries) + rest), depth);
    EntriesRead(f.EntriesForm? && f.mapping == Object, f.size, f.entries, depth, rest);
  }

  lemma {:induction false} FormReads(f: Form, depth: int, rest: Bytes)
    requires Right(f, depth)
    ensures Read(Spelled(f) + rest, depth) == Ok((Meant(f), rest))
    decreases f, 4
  {
    if LeafForm(f) {
      hide Read, Spelled, Meant, Right;
      LeafReads(f, depth, rest);
    } else if f.ListForm? || f.SetForm? {
      hide Read, Spelled, Meant, Right;
      ListFormReads(f, depth, rest);
    } else if f.MapForm? || f.EntriesForm? {
      hide Read, Spelled, Meant, Right;
      EntriesFormReads(f, depth, rest);
    } else if f.StructForm? {
      hide Read, Spelled, Meant, Right;
      StructFormReads(f, depth, rest);
    } else {
      hide Read, Spelled, Meant, Right;
      WrappedReads(f, depth, rest);
    }
  }

  lemma AtomRead(b: Bytes, v: Value, rest: Bytes, depth: int)
    requires depth <= MAX_NESTING_DEPTH && Read(b, depth + 1) == Ok((v, rest))
    ensures Read([16] + b, depth) == Ok((Atom(v), rest))
  {
    Numbers();
    hide Read, TagOf;
    Opens(16, b, depth);
  }

  lemma TaggedRead(b: Bytes, tag: Value, after: Bytes, v: Value, rest: Bytes, depth: int)
    requires
      depth <= MAX_NESTING_DEPTH && Read(b, depth + 1) == Ok((tag, after)) && Read(after, depth + 1) == Ok((v, rest))
    requires tag.Text? && tag.kind == SymbolText
    ensures Read([31] + b, depth) == Ok((Tagged(tag.text, v), rest))
  {
    Numbers();
    hide Read, TagOf;
    Opens(31, b, depth);
  }

  lemma PointerRead(b: Bytes, target: Value, after: Bytes, v: Value, rest: Bytes, depth: int)
    requires
      depth <= MAX_NESTING_DEPTH && Read(b, depth + 1) == Ok((target, after)) && Read(after, depth + 1) == Ok((v, rest))
    requires target.Text? && target.kind == KeywordText && v.Map?
    ensures Read([34] + b, depth) == Ok((Pointer(target.text, v.entries), rest))
  {
    Numbers();
    hide Read, TagOf;
    Opens(34, b, depth);
  }

  lemma WrappedParts(f: Form, depth: int)
    requires Right(f, depth)
    ensures depth <= MAX_NESTING_DEPTH
    ensures f.AtomForm? ==>
      Right(f.content, depth + 1) && Spelled(f) == [16] + Spelled(f.content) && Meant(f) == Atom(Meant(f.content))
    ensures f.TaggedForm? ==>
      IsText(f.tag, SymbolText) && Right(f.tag, depth + 1) && Right(f.form, depth + 1) &&
      Spelled(f) == [31] + Spelled(f.tag) + Spelled(f.form) && Meant(f) == Tagged(TextOf(f.tag), Meant(f.form))
    ensures f.PointerForm? ==>
      IsText(f.target, KeywordText) && f.fields.MapForm? && Right(f.target, depth + 1) && Right(f.fields, depth + 1) &&
      Spelled(f) == [34] + Spelled(f.target) + Spelled(f.fields) &&
      Meant(f) == Pointer(TextOf(f.target), EntriesOf(Meant(f.fields)))
  {
    hide SpelledAll, SpelledPairs, MeantAll, MeantPairs, AllRight, PairsRight;
  }

  lemma MapMeans(f: Form)
    ensures f.MapForm? <==> Meant(f).Map?
  {
    hide MeantAll, MeantPairs;
  }

  lemma {:induction false} WrappedReads(f: Form, depth: int, rest: Bytes)
    requires Right(f, depth) && (f.AtomForm? || f.TaggedForm? || f.PointerForm?)
    ensures Read(Spelled(f) + rest, depth) == Ok((Meant(f), rest))
    decreases f, 2
  {
    WrappedParts(f, depth);
    hide Read, Right, Spelled, Meant;
    match f
    case AtomForm(content) =>
      FormReads(content, depth + 1, rest);
      Pair2([16], Spelled(content), rest);
      AtomRead(Spelled(content) + rest, Meant(content), rest, depth);
    case TaggedForm(tag, form) =>
      var after := Spelled(form) + rest;
      FormReads(tag, depth + 1, after);
      FormReads(form, depth + 1, rest);
      TextMeans(tag, SymbolText);
      Thrice([31], Spelled(tag), Spelled(form), rest);
      TaggedRead(Spelled(tag) + after, Meant(tag), after, Meant(form), rest, depth);
    case PointerForm(target, fields) =>
      var after := Spelled(fields) + rest;
      FormReads(target, depth + 1, after);
      FormReads(fields, depth + 1, rest);
      TextMeans(target, KeywordText);
      MapMeans(fields);
      Thrice([34], Spelled(target), Spelled(fields), rest);
      PointerRead(Spelled(target) + after, Meant(target), after, Meant(fields), rest, depth);
  }

  lemma {:induction false} NamesMean(items: seq<Form>)
    ensures AllStringForms(items) <==> AllStrings(MeantAll(items))
    ensures AllStringForms(items) ==> Texts(MeantAll(items)) == FieldNames(items)
  {
    forall i | 0 <= i < |items| ensures MeantAll(items)[i] == Meant(items[i]) { MeantAt(items, i); }
    forall i | 0 <= i < |items| ensures IsText(items[i], StringText) <==> IsString(MeantAll(items)[i]) {
      TextMeans(items[i], StringText);
    }
    forall i | 0 <= i < |items|
      ensures IsText(items[i], StringText) ==>
        MeantAll(items)[i].Text? && MeantAll(items)[i].text == TextOf(items[i])
    {
      TextMeans(items[i], StringText);
    }
    hide Meant, MeantAll;
  }

  lemma {:induction false} MeantAt(items: seq<Form>, i: nat)
    requires i < |items|
    ensures MeantAll(items)[i] == Meant(items[i])
  {
    hide Meant;
    if i > 0 { MeantAt(items[1..], i - 1); }
  }

  /** What a structure means is what the decoder makes of its parts. */
  lemma StructMade(name: Form, fields: Form, values: Form)
    requires IsText(name, StringText) && IsVectorForm(fields) && AllStringForms(fields.items) && IsVectorForm(values)
    requires |fields.items| == |values.items| && (PosesAsResult(name, fields) ==> ResultValues(values.items))
    ensures
      MakeStruct(name.text, MeantAll(fields.items), MeantAll(values.items)) ==
      Ok(StructMeant(name, fields, Meant(values)))
  {
    NamesMean(fields.items);
    if PosesAsResult(name, fields) {
      forall i | 0 <= i < 4 ensures MeantAll(values.items)[i] == Meant(values.items[i]) { MeantAt(values.items, i); }
      ResultMeans(values.items);
    }
    hide MeantAll, FieldNames, Texts, AllStrings, AllStringForms, MakeResult, EntriesOf;
  }

  lemma ResultMeans(items: seq<Form>)
    requires ResultValues(items)
    ensures
      var meant := MeantAll(items);
      MakeResult(meant) == Ok(Success(meant[1], Transported(EntriesOf(meant[3]))))
  {
    MeantAt(items, 0);
    MeantAt(items, 2);
    MeantAt(items, 3);
    TextMeans(items[0], KeywordText);
    MapLikeMeans(items[3]);
    NilMeans(items[2]);
    hide MeantAll, Meant, Transported;
  }

  lemma NilMeans(f: Form)
    ensures f.NilForm? <==> Meant(f).Nil?
  {
    hide MeantAll, MeantPairs;
  }

  lemma MapLikeMeans(f: Form)
    ensures f.MapForm? || (f.EntriesForm? && f.mapping != Object) <==> MapLike(Meant(f))
  {
    hide MeantAll, MeantPairs;
  }

  lemma VectorMeans(f: Form)
    ensures IsVectorForm(f) <==> IsVector(Meant(f))
    ensures IsVectorForm(f) ==> Meant(f) == Sequence(Vector, MeantAll(f.items))
  {
    hide MeantAll, MeantPairs;
  }

  lemma StructRead(
    b: Bytes, name: Value, b1: Bytes, fields: Value, b2: Bytes, values: Value, rest: Bytes, v: Value, depth: int)
    requires depth <= MAX_NESTING_DEPTH && Read(b, depth + 1) == Ok((name, b1)) && IsString(name)
    requires Read(b1, depth + 1) == Ok((fields, b2)) && IsVector(fields) && AllStrings(fields.items)
    requires Read(b2, depth + 1) == Ok((values, rest)) && IsVector(values)
    requires MakeStruct(name.text, fields.items, values.items) == Ok(v)
    ensures Read([33] + b, depth) == Ok((v, rest))
  {
    Numbers();
    hide Read, TagOf, MakeStruct, AllStrings;
    Opens(33, b, depth);
  }

  lemma StructFormParts(f: Form, depth: int)
    requires Right(f, depth) && f.StructForm?
    ensures depth <= MAX_NESTING_DEPTH
    ensures IsText(f.name, StringText) && IsVectorForm(f.fields) && IsVectorForm(f.values)
    ensures AllStringForms(f.fields.items)
    ensures |f.fields.items| == |f.values.items|
    ensures PosesAsResult(f.name, f.fields) ==> ResultValues(f.values.items)
    ensures Right(f.name, depth + 1) && Right(f.fields, depth + 1) && Right(f.values, depth + 1)
    ensures Spelled(f) == [33] + Spelled(f.name) + Spelled(f.fields) + Spelled(f.values)
    ensures Meant(f) == StructMeant(f.name, f.fields, Meant(f.values))
  {
    hide SpelledAll, SpelledPairs, MeantAll, MeantPairs, AllRight, PairsRight, AllStringForms;
    hide PosesAsResult, ResultValues;
  }

  lemma {:induction false} StructFormReads(f: Form, depth: int, rest: Bytes)
    requires Right(f, depth) && f.StructForm?
    ensures Read(Spelled(f) + rest, depth) == Ok((Meant(f), rest))
    decreases f, 2
  {
    StructFormParts(f, depth);
    hide Read, Right, Spelled, Meant, MeantAll, MakeStruct, StructMeant, PosesAsResult, ResultValues;
    hide AllStrings, AllStringForms;
    var last := Spelled(f.values) + rest;
    var after := Spelled(f.fields) + last;
    FormReads(f.name, depth + 1, after);
    FormReads(f.fields, depth + 1, last);
    FormReads(f.values, depth + 1, rest);
    TextMeans(f.name, StringText);
    VectorMeans(f.fields);
    VectorMeans(f.values);
    NamesMean(f.fields.items);
    StructMade(f.name, f.fields, f.values);
    StructParts([33], Spelled(f.name), Spelled(f.fields), Spelled(f.values), rest);
    var b := Spelled(f.name) + after;
    StructRead(b, Meant(f.name), after, Meant(f.fields), last, Meant(f.values), rest, Meant(f), depth);
  }

  lemma StructParts(a: Bytes, b: Bytes, c: Bytes, d: Bytes, rest: Bytes)
    ensures a + b + c + d + rest == a + (b + (c + (d + rest)))
  {
    Thrice(a, b, c, d + rest);
    assert a + b + c + d + rest == a + b + c + (d + rest);
  }
}
