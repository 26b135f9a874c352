/**
 What comes out of the HTA0 decoder, whatever bytes went in: only values the
 host types allow, that the encoder accepts and that lie within the decoder's
 depth.
 */
module HtaSoundness {
  import opened Prelude
  import opened HtaData
  import opened HtaWire
  import opened HtaLaws
  import Decimal

  // ----- Leaves -----

  lemma {:induction false} FromBEBound(b: Bytes)
    ensures FromBE(b) < Power256(|b|)
  {
    if b != [] { FromBEBound(b[..|b| - 1]); }
  }

  lemma FourBytes(b: Bytes)
    requires |b| == 4
    ensures FromBE(b) < TWO_32
  {
    FromBEBound(b);
    assert Power256(2) == 0x1_0000;
    assert Power256(4) == TWO_32;
  }

  lemma EightBytes(b: Bytes)
    requires |b| == 8
    ensures FromBE(b) < TWO_64 && IsI64(Sign(FromBE(b)))
  {
    FromBEBound(b);
    assert Power256(2) == 0x1_0000;
    assert Power256(4) == TWO_32;
    assert Power256(6) == 0x1_0000_0000_0000;
    assert Power256(8) == TWO_64;
  }

  lemma LenBound(b: Bytes)
    requires ReadLen(b).Ok?
    ensures ReadLen(b).value.0 < TWO_32
  {
    hide FromBE;
    FourBytes(Take(b, 4).value.0);
  }

  lemma DataFits(b: Bytes)
    requires ReadData(b).Ok?
    ensures Fits(ReadData(b).value.0)
  {
    hide ReadLen;
    LenBound(b);
  }

  lemma TextFits(what: string, b: Bytes)
    requires ReadText(what, b).Ok?
    ensures Fits(ReadText(what, b).value.0) && ValidUtf8(ReadText(what, b).value.0)
  {
    hide ReadData, ValidUtf8;
    DataFits(b);
  }

  /** A value the host types allow, that the encoder accepts `e` levels down and the decoder reads `depth` down. */
  predicate Fine(v: Value, e: nat, depth: int) {
    WellFormed(v) && Encodable(v, e) && Readable(v, depth)
  }

  lemma IntegerFine(b: Bytes, e: nat, depth: int)
    requires e <= depth <= MAX_NESTING_DEPTH && ReadInteger(b).Ok?
    ensures Fine(ReadInteger(b).value.0, e, depth)
  {
    hide ReadText, Decimal.ParseDecimal, Decimal.ToDecimal;
    TextFits("invalid big integer", b);
    var text := ReadText("invalid big integer", b).value.0;
    Decimal.DecimalShortest(Chars(text));
  }

  lemma HandleFine(b: Bytes, e: nat, depth: int)
    requires e <= depth <= MAX_NESTING_DEPTH && ReadHandle(b).Ok?
    ensures Fine(ReadHandle(b).value.0, e, depth)
  {
    hide ReadText, FromBE;
    TextFits("invalid handle owner", b);
    var b1 := ReadText("invalid handle owner", b).value.1;
    TextFits("invalid handle type", b1);
    EightBytes(Take(ReadText("invalid handle type", b1).value.1, 8).value.0);
  }

  lemma LeafFine(tag: Tag, b: Bytes, e: nat, depth: int)
    requires e <= depth <= MAX_NESTING_DEPTH && IsLeaf(tag) && ReadLeaf(tag, b).Ok?
    ensures Fine(ReadLeaf(tag, b).value.0, e, depth)
  {
    hide ReadText, ReadData, ReadInteger, ReadHandle, FromBE, ValidUtf8;
    match tag
    case I64Tag => EightBytes(Take(b, 8).value.0);
    case F64Tag => EightBytes(Take(b, 8).value.0);
    case BigIntegerTag => IntegerFine(b, e, depth);
    case TextTag(kind) => TextFits(TextError(kind), b);
    case BytesTag => DataFits(b);
    case HandleTag => HandleFine(b, e, depth);
    case _ =>
  }

  // ----- Branches -----

  ghost predicate AllFine(items: seq<Value>, e: nat, depth: int) {
    forall x <- items :: Fine(x, e, depth)
  }

  ghost predicate PairsFine(entries: seq<Pair>, e: nat, depth: int) {
    forall p <- entries :: Fine(p.key, e, depth) && Fine(p.value, e, depth)
  }

  lemma SequenceMade(kind: SequenceKind, items: seq<Value>, e: nat, depth: int)
    requires e <= depth <= MAX_NESTING_DEPTH && |items| < TWO_32 && AllFine(items, e + 1, depth + 1)
    ensures MakeSequence(kind, items).Ok? ==> Fine(MakeSequence(kind, items).value, e, depth)
  {
  }

  lemma SetMade(kind: SetKind, items: seq<Value>, e: nat, depth: int)
    requires e <= depth <= MAX_NESTING_DEPTH && |items| < TWO_32 && AllFine(items, e + 1, depth + 1)
    ensures Fine(Unordered(kind, items), e, depth)
  {
  }

  lemma MapMade(entries: seq<Pair>, e: nat, depth: int)
    requires e <= depth <= MAX_NESTING_DEPTH && |entries| < TWO_32 && PairsFine(entries, e + 1, depth + 1)
    ensures Fine(Map(entries), e, depth)
  {
  }

  lemma EntriesMade(kind: EntriesKind, entries: seq<Pair>, e: nat, depth: int)
    requires e <= depth <= MAX_NESTING_DEPTH && |entries| < TWO_32 && PairsFine(entries, e + 1, depth + 1)
    requires kind == Object ==> StringKeys(entries)
    ensures MakeEntries(kind, entries).Ok? ==> Fine(MakeEntries(kind, entries).value, e, depth)
  {
  }

  /** The items of a vector that is fine. */
  lemma VectorParts(v: Value, e: nat, depth: int)
    requires Fine(v, e, depth) && v.Sequence?
    ensures AllFine(v.items, e + 1, depth + 1) && |v.items| < TWO_32
  {
  }

  lemma MapParts(v: Value, e: nat, depth: int)
    requires Fine(v, e, depth) && MapLike(v)
    ensures PairsFine(v.entries, e + 1, depth + 1) && |v.entries| < TWO_32
  {
  }

  lemma TextParts(v: Value, e: nat, depth: int)
    requires Fine(v, e, depth) && v.Text?
    ensures ValidUtf8(v.text) && Fits(v.text) && depth <= MAX_NESTING_DEPTH
  {
  }

  lemma PointerMade(target: Bytes, entries: seq<Pair>, e: nat, depth: int)
    requires e <= depth && depth + 1 <= MAX_NESTING_DEPTH && ValidUtf8(target) && Fits(target)
    requires PairsFine(entries, e + 2, depth + 2) && |entries| < TWO_32
    ensures Fine(Pointer(target, entries), e, depth)
  {
  }

  /** Field names that are fine as strings are fine as names. */
  lemma NamesFine(fields: seq<Value>, e: nat, depth: int)
    requires AllFine(fields, e, depth) && AllStrings(fields)
    ensures forall f <- Texts(fields) :: ValidUtf8(f) && Fits(f)
    ensures fields != [] ==> depth <= MAX_NESTING_DEPTH
  {
    hide ValidUtf8, Fine;
    forall i | 0 <= i < |fields| ensures ValidUtf8(fields[i].text) && Fits(fields[i].text) {
      assert fields[i] in fields;
      TextParts(fields[i], e, depth);
    }
    if fields != [] {
      assert fields[0] in fields;
      TextParts(fields[0], e, depth);
    }
  }

  /** A structure from a name, names of fields and values that are fine. */
  lemma PlainStructMade(name: Bytes, fields: seq<Bytes>, values: seq<Value>, e: nat, depth: int)
    requires e <= depth && depth + 1 <= MAX_NESTING_DEPTH && ValidUtf8(name) && Fits(name)
    requires (forall f <- fields :: ValidUtf8(f) && Fits(f)) && |fields| == |values| < TWO_32
    requires !IsResultShape(name, fields) && (fields != [] ==> depth + 2 <= MAX_NESTING_DEPTH)
    requires AllFine(values, e + 1, depth + 2)
    ensures Fine(Struct(name, fields, values), e, depth)
  {
    hide ValidUtf8, IsResultShape;
  }

  lemma StructMade(name: Bytes, fields: seq<Value>, values: seq<Value>, e: nat, depth: int)
    requires e <= depth && depth + 1 <= MAX_NESTING_DEPTH && ValidUtf8(name) && Fits(name)
    requires AllFine(fields, e + 1, depth + 2) && AllStrings(fields) && |fields| < TWO_32
    requires AllFine(values, e + 1, depth + 2) && |values| < TWO_32
    ensures MakeStruct(name, fields, values).Ok? ==> Fine(MakeStruct(name, fields, values).value, e, depth)
  {
    hide MakeResult, ValidUtf8, Fine, IsResultShape, Fits, AllFine;
    NamesFine(fields, e + 1, depth + 2);
    if MakeStruct(name, fields, values).Ok? {
      if IsResultShape(name, Texts(fields)) {
        ResultMade(values, e, depth);
      } else {
        PlainStructMade(name, Texts(fields), values, e, depth);
      }
    }
  }

  lemma ResultMade(values: seq<Value>, e: nat, depth: int)
    requires e <= depth && depth + 1 <= MAX_NESTING_DEPTH && AllFine(values, e + 1, depth + 2)
    ensures MakeResult(values).Ok? ==> Fine(MakeResult(values).value, e, depth)
  {
    hide ValidUtf8;
    if MakeResult(values).Ok? {
      assert values[1] in values && values[3] in values;
      MapParts(values[3], e + 1, depth + 2);
      SuccessMade(values[1], Transported(values[3].entries), e, depth);
    }
  }

  lemma SuccessMade(data: Value, context: seq<Pair>, e: nat, depth: int)
    requires e <= depth && depth + 1 <= MAX_NESTING_DEPTH && Fine(data, e + 1, depth + 2)
    requires PairsFine(context, e + 2, depth + 3) && |context| < TWO_32 && forall p <- context :: !IsDisplay(p.key)
    ensures Fine(Success(data, context), e, depth)
  {
  }

  // ----- The decoder -----

  /** Whatever the decoder answers with is fine. */
  lemma {:induction false} ReadFine(b: Bytes, e: nat, depth: int)
    requires e <= depth && Read(b, depth).Ok?
    ensures Fine(Read(b, depth).value.0, e, depth)
    decreases |b|, 0
  {
    hide ReadLeaf, ReadBranch, Fine, IsLeaf, TagOf;
    var tag := TagOf(b[0]).value;
    if IsLeaf(tag) { LeafFine(tag, b[1..], e, depth); } else { BranchFine(tag, b[1..], e, depth); }
  }

  lemma {:induction false} BranchFine(tag: Tag, b: Bytes, e: nat, depth: int)
    requires e <= depth <= MAX_NESTING_DEPTH && ReadBranch(tag, b, depth).Ok?
    ensures Fine(ReadBranch(tag, b, depth).value.0, e, depth)
    decreases |b|, 5
  {
    hide Read, ReadSequence, ReadEntries, ReadTagged, ReadPointer, ReadStruct, MakeSequence, MakeEntries, Fine;
    hide AllFine, PairsFine, StringKeys;
    match tag
    case SequenceTag(kind) =>
      SequenceFine(b, e, depth);
      SequenceMade(kind, ReadSequence(b, depth).value.0, e, depth);
    case SetTag(kind) =>
      SequenceFine(b, e, depth);
      SetMade(kind, ReadSequence(b, depth).value.0, e, depth);
    case MapTag =>
      EntriesFine(false, b, e, depth);
      MapMade(ReadEntries(false, b, depth).value.0, e, depth);
    case EntriesTag(kind) =>
      EntriesFine(kind == Object, b, e, depth);
      EntriesMade(kind, ReadEntries(kind == Object, b, depth).value.0, e, depth);
    case AtomTag => AtomFine(b, e, depth);
    case TaggedTag => TaggedFine(b, e, depth);
    case PointerTag => PointerFine(b, e, depth);
    case _ => StructFine(b, e, depth);
  }

  lemma {:induction false} AtomFine(b: Bytes, e: nat, depth: int)
    requires e <= depth <= MAX_NESTING_DEPTH && Read(b, depth + 1).Ok?
    ensures Fine(Atom(Read(b, depth + 1).value.0), e, depth)
    decreases |b|, 4
  {
    hide Read;
    ReadFine(b, e + 1, depth + 1);
  }

  lemma {:induction false} TaggedFine(b: Bytes, e: nat, depth: int)
    requires e <= depth <= MAX_NESTING_DEPTH && ReadTagged(b, depth).Ok?
    ensures Fine(ReadTagged(b, depth).value.0, e, depth)
    decreases |b|, 4
  {
    hide Read, ValidUtf8;
    ReadFine(b, e + 1, depth + 1);
    var (tag, b1) := Read(b, depth + 1).value;
    ReadFine(b1, e + 1, depth + 1);
  }

  lemma {:induction false} PointerFine(b: Bytes, e: nat, depth: int)
    requires e <= depth <= MAX_NESTING_DEPTH && ReadPointer(b, depth).Ok?
    ensures Fine(ReadPointer(b, depth).value.0, e, depth)
    decreases |b|, 4
  {
    hide Read, Fine, PairsFine, ValidUtf8, Fits;
    ReadFine(b, e + 1, depth + 1);
    var (target, b1) := Read(b, depth + 1).value;
    TextParts(target, e + 1, depth + 1);
    ReadFine(b1, e + 1, depth + 1);
    var fields := Read(b1, depth + 1).value.0;
    MapParts(fields, e + 1, depth + 1);
    PointerMade(target.text, fields.entries, e, depth);
  }

  lemma {:induction false} StructFine(b: Bytes, e: nat, depth: int)
    requires e <= depth <= MAX_NESTING_DEPTH && ReadStruct(b, depth).Ok?
    ensures Fine(ReadStruct(b, depth).value.0, e, depth)
    decreases |b|, 4
  {
    hide Read, Fine, AllFine, ValidUtf8, Fits, MakeStruct, AllStrings;
    ReadFine(b, e, depth + 1);
    var (name, b1) := Read(b, depth + 1).value;
    TextParts(name, e, depth + 1);
    ReadFine(b1, e, depth + 1);
    var (fields, b2) := Read(b1, depth + 1).value;
    VectorParts(fields, e, depth + 1);
    ReadFine(b2, e, depth + 1);
    var values := Read(b2, depth + 1).value.0;
    VectorParts(values, e, depth + 1);
    StructMade(name.text, fields.items, values.items, e, depth);
  }

  lemma {:induction false} SequenceFine(b: Bytes, e: nat, depth: int)
    requires e <= depth && ReadSequence(b, depth).Ok?
    ensures
      var items := ReadSequence(b, depth).value.0;
      |items| < TWO_32 && AllFine(items, e + 1, depth + 1)
    decreases |b|, 3
  {
    hide ReadLen, ReadItems, AllFine;
    LenBound(b);
    var (size, rest) := ReadLen(b).value;
    ItemsFine(size, rest, e + 1, depth + 1);
  }

  lemma {:induction false} ItemsFine(count: nat, b: Bytes, e: nat, depth: int)
    requires e <= depth && ReadItems(count, b, depth).Ok?
    ensures
      var items := ReadItems(count, b, depth).value.0;
      |items| == count && AllFine(items, e, depth)
    decreases |b|, 2, count
  {
    hide Read, Fine;
    if count > 0 {
      ReadFine(b, e, depth);
      ItemsFine(count - 1, Read(b, depth).value.1, e, depth);
    }
  }

  lemma {:induction false} EntriesFine(stringKeys: bool, b: Bytes, e: nat, depth: int)
    requires e <= depth && ReadEntries(stringKeys, b, depth).Ok?
    ensures
      var entries := ReadEntries(stringKeys, b, depth).value.0;
      |entries| < TWO_32 && PairsFine(entries, e + 1, depth + 1) && (stringKeys ==> StringKeys(entries))
    decreases |b|, 3
  {
    hide ReadLen, ReadPairs, PairsFine, StringKeys;
    LenBound(b);
    var (size, rest) := ReadLen(b).value;
    PairListFine(stringKeys, size, rest, e + 1, depth + 1);
  }

  lemma {:induction false} PairListFine(stringKeys: bool, count: nat, b: Bytes, e: nat, depth: int)
    requires e <= depth && ReadPairs(stringKeys, count, b, depth).Ok?
    ensures
      var entries := ReadPairs(stringKeys, count, b, depth).value.0;
      |entries| == count && PairsFine(entries, e, depth) && (stringKeys ==> StringKeys(entries))
    decreases |b|, 2
  {
    hide Read, Fine;
    if count > 0 {
      ReadFine(b, e, depth);
      var b1 := Read(b, depth).value.1;
      ReadFine(b1, e, depth);
      PairListFine(stringKeys, count - 1, Read(b1, depth).value.1, e, depth);
    }
  }

  // ----- Frames -----

  /** Every frame that decodes holds a well-formed value, within both depth measures. */
  lemma DecodedIsSound(b: Bytes)
    requires DecodeFrame(b).Ok?
    ensures
      var v := DecodeFrame(b).value;
      WellFormed(v) && Encodable(v, 0) && Readable(v, 0)
  {
    hide Read, WellFormed, Encodable, Readable;
    ReadFine(b[4..], 0, 0);
  }

  /** A frame the encoder makes of some well-formed value the decoder can follow. */
  ghost predicate Made(b: Bytes) {
    exists v :: WellFormed(v) && Readable(v, 0) && EncodeFrame(v) == Some(b)
  }

  /** The listing in a frame is written as that frame exactly when the encoder made the frame. */
  lemma MadeExactly(b: Bytes)
    ensures Made(b) <==> DecodeFrame(b).Ok? && EncodeFrame(DecodeFrame(b).value) == Some(b)
    ensures Made(b) ==> Canon(DecodeFrame(b).value) == DecodeFrame(b).value
  {
    hide DecodeFrame, EncodeFrame, WellFormed, Readable, Encodable, Canon;
    if DecodeFrame(b).Ok? { DecodedIsSound(b); }
    if v :| WellFormed(v) && Readable(v, 0) && EncodeFrame(v) == Some(b) {
      FrameRelists(v);
      CanonStable(v);
    }
  }
}
