/** The decoder's cursor: every method reads what the matching function of `HtaWire` reads. */
module HtaReaders {
  import opened Prelude
  import opened HtaData
  import opened HtaWire
  import HtaFound
  import HtaGrammar
  import Decimal

  class Reader {
    const bytes: Bytes
    var cursor: nat

    ghost predicate Valid() reads this { cursor <= |bytes| }

    ghost function Rest(): Bytes
      requires Valid()
      reads this
    {
      bytes[cursor..]
    }

    constructor (bytes: Bytes, cursor: nat)
      requires cursor <= |bytes|
      ensures Valid() && this.bytes == bytes && this.cursor == cursor
    {
      this.bytes, this.cursor := bytes, cursor;
    }

    method TakeBytes(size: nat) returns (r: Result<Bytes, Error>)
      requires Valid()
      modifies this
      ensures Valid() && match Take(old(Rest()), size)
                         case Ok((x, rest)) => r == Ok(x) && Rest() == rest
                         case Err(e) => r == Err(e)
    {
      if cursor + size > |bytes| { return Err(Malformed("truncated value")); }
      r := Ok(bytes[cursor..cursor + size]);
      assert Rest()[..size] == bytes[cursor..cursor + size];
      cursor := cursor + size;
    }

    method Len() returns (r: Result<nat, Error>)
      requires Valid()
      modifies this
      ensures Valid() && match ReadLen(old(Rest()))
                         case Ok((x, rest)) => r == Ok(x) && Rest() == rest
                         case Err(e) => r == Err(e)
    {
      hide HtaWire.Take, HtaData.FromBE;
      var b := TakeBytes(4);
      if b.Err? { return Err(b.error); }
      return Ok(FromBE(b.value));
    }

    method DataBytes() returns (r: Result<Bytes, Error>)
      requires Valid()
      modifies this
      ensures Valid() && match ReadData(old(Rest()))
                         case Ok((x, rest)) => r == Ok(x) && Rest() == rest
                         case Err(e) => r == Err(e)
    {
      hide HtaWire.Take, HtaWire.ReadLen;
      var size := Len();
      if size.Err? { return Err(size.error); }
      r := TakeBytes(size.value);
    }

    method TextBytes(what: string) returns (r: Result<Bytes, Error>)
      requires Valid()
      modifies this
      ensures Valid() && match ReadText(what, old(Rest()))
                         case Ok((x, rest)) => r == Ok(x) && Rest() == rest
                         case Err(e) => r == Err(e)
    {
      hide HtaWire.ReadData, HtaData.ValidUtf8;
      r := DataBytes();
      if r.Ok? && !ValidUtf8(r.value) { return Err(Malformed(what)); }
    }

    method LeafValue(tag: Tag) returns (r: Result<Value, Error>)
      requires Valid() && IsLeaf(tag)
      modifies this
      ensures Valid() && match ReadLeaf(tag, old(Rest()))
                         case Ok((x, rest)) => r == Ok(x) && Rest() == rest
                         case Err(e) => r == Err(e)
    {
      hide HtaWire.Take, HtaWire.ReadText, HtaWire.ReadData, HtaData.FromBE, HtaData.Finite;
      if tag.NilTag? {
        r := Ok(Nil);
      } else if tag.FalseTag? {
        r := Ok(Bool(false));
      } else if tag.TrueTag? {
        r := Ok(Bool(true));
      } else if tag.TextTag? {
        var text := TextBytes(TextError(tag.text));
        r := if text.Ok? then Ok(Text(tag.text, text.value)) else Err(text.error);
      } else if tag.BytesTag? {
        var b := DataBytes();
        r := if b.Ok? then Ok(ByteString(b.value)) else Err(b.error);
      } else if tag.BigIntegerTag? {
        r := IntegerValue();
      } else if tag.HandleTag? {
        r := HandleValue();
      } else {
        r := FixedValue(tag);
      }
    }

    method FixedValue(tag: Tag) returns (r: Result<Value, Error>)
      requires Valid() && tag in {I64Tag, F64Tag, CharacterTag}
      modifies this
      ensures Valid() && match ReadLeaf(tag, old(Rest()))
                         case Ok((x, rest)) => r == Ok(x) && Rest() == rest
                         case Err(e) => r == Err(e)
    {
      hide HtaWire.Take, HtaData.FromBE, HtaData.Finite;
      var b := TakeBytes(if tag.CharacterTag? then 4 else 8);
      if b.Err? { return Err(b.error); }
      var n := FromBE(b.value);
      if tag.I64Tag? {
        r := Ok(Number(Sign(n)));
      } else if tag.F64Tag? {
        r := if Finite(n) then Ok(Float(n)) else Err(NonFinite);
      } else {
        r := if IsScalar(n) then Ok(Character(n)) else Err(Malformed("invalid character scalar"));
      }
    }

    method IntegerValue() returns (r: Result<Value, Error>)
      requires Valid()
      modifies this
      ensures Valid() && match ReadInteger(old(Rest()))
                         case Ok((x, rest)) => r == Ok(x) && Rest() == rest
                         case Err(e) => r == Err(e)
    {
      hide HtaWire.ReadText, HtaData.Chars, Decimal.ParseDecimal;
      var text := TextBytes("invalid big integer");
      if text.Err? { return Err(text.error); }
      match Decimal.ParseDecimal(Chars(text.value))
      case None => return Err(Malformed("invalid big integer"));
      case Some(n) => return Ok(if IsI64(n) then Number(n) else BigInteger(n));
    }

    method HandleValue() returns (r: Result<Value, Error>)
      requires Valid()
      modifies this
      ensures Valid() && match ReadHandle(old(Rest()))
                         case Ok((x, rest)) => r == Ok(x) && Rest() == rest
                         case Err(e) => r == Err(e)
    {
      hide HtaWire.ReadText, HtaWire.Take, HtaData.FromBE;
      var provider := TextBytes("invalid handle owner");
      if provider.Err? { return Err(provider.error); }
      var typeName := TextBytes("invalid handle type");
      if typeName.Err? { return Err(typeName.error); }
      var b := TakeBytes(8);
      if b.Err? { return Err(b.error); }
      return Ok(Handle(provider.value, typeName.value, FromBE(b.value)));
    }

    /** `Reader::value`: one value, at a given nesting depth. */
    method ReadValue(depth: nat) returns (r: Result<Value, Error>)
      requires Valid()
      modifies this
      ensures Valid() && match Read(old(Rest()), depth)
                         case Ok((x, rest)) => r == Ok(x) && Rest() == rest
                         case Err(e) => r == Err(e)
      decreases |bytes| - cursor, 0
    {
      hide HtaWire.ReadLeaf, HtaWire.ReadBranch;
      if depth > MAX_NESTING_DEPTH { return Err(TooDeep); }
      if cursor == |bytes| { return Err(Malformed("truncated value")); }
      var tag := TagOf(bytes[cursor]);
      ghost var body := Rest()[1..];
      cursor := cursor + 1;
      assert Rest() == body;
      if tag.None? { return Err(Malformed("unknown value tag")); }
      if IsLeaf(tag.value) { r := LeafValue(tag.value); } else { r := BranchValue(tag.value, depth); }
    }

    method BranchValue(tag: Tag, depth: nat) returns (r: Result<Value, Error>)
      requires Valid() && !IsLeaf(tag)
      modifies this
      ensures Valid() && match ReadBranch(tag, old(Rest()), depth)
                         case Ok((x, rest)) => r == Ok(x) && Rest() == rest
                         case Err(e) => r == Err(e)
      decreases |bytes| - cursor, 5
    {
      hide HtaWire.Read, HtaWire.ReadSequence, HtaWire.ReadEntries, HtaWire.ReadTagged, HtaWire.ReadPointer,
           HtaWire.ReadStruct, HtaWire.MakeSequence, HtaWire.MakeEntries;
      if tag.SequenceTag? {
        var items := Items(depth);
        r := if items.Ok? then MakeSequence(tag.sequence, items.value) else Err(items.error);
      } else if tag.SetTag? {
        var items := Items(depth);
        r := if items.Ok? then Ok(Unordered(tag.collection, items.value)) else Err(items.error);
      } else if tag.MapTag? {
        var entries := EntryList(false, depth);
        r := if entries.Ok? then Ok(Map(entries.value)) else Err(entries.error);
      } else if tag.EntriesTag? {
        var entries := EntryList(tag.mapping == Object, depth);
        r := if entries.Ok? then MakeEntries(tag.mapping, entries.value) else Err(entries.error);
      } else if tag.AtomTag? {
        var content := ReadValue(depth + 1);
        r := if content.Ok? then Ok(Atom(content.value)) else content;
      } else if tag.TaggedTag? {
        r := TaggedValue(depth);
      } else if tag.PointerTag? {
        r := PointerValue(depth);
      } else {
        r := StructValue(depth);
      }
    }

    method TaggedValue(depth: nat) returns (r: Result<Value, Error>)
      requires Valid()
      modifies this
      ensures Valid() && match ReadTagged(old(Rest()), depth)
                         case Ok((x, rest)) => r == Ok(x) && Rest() == rest
                         case Err(e) => r == Err(e)
      decreases |bytes| - cursor, 4
    {
      hide HtaWire.Read;
      var tag := ReadValue(depth + 1);
      if tag.Err? { return tag; }
      if !(tag.value.Text? && tag.value.kind == SymbolText) { return Err(Malformed("invalid tagged literal tag")); }
      var form := ReadValue(depth + 1);
      if form.Err? { return form; }
      return Ok(Tagged(tag.value.text, form.value));
    }

    method PointerValue(depth: nat) returns (r: Result<Value, Error>)
      requires Valid()
      modifies this
      ensures Valid() && match ReadPointer(old(Rest()), depth)
                         case Ok((x, rest)) => r == Ok(x) && Rest() == rest
                         case Err(e) => r == Err(e)
      decreases |bytes| - cursor, 4
    {
      hide HtaWire.Read;
      var target := ReadValue(depth + 1);
      if target.Err? { return target; }
      if !(target.value.Text? && target.value.kind == KeywordText) { return Err(Malformed("invalid pointer context")); }
      var fields := ReadValue(depth + 1);
      if fields.Err? { return fields; }
      if !fields.value.Map? { return Err(Malformed("invalid pointer fields")); }
      return Ok(Pointer(target.value.text, fields.value.entries));
    }

    method StructValue(depth: nat) returns (r: Result<Value, Error>)
      requires Valid()
      modifies this
      ensures Valid() && match ReadStruct(old(Rest()), depth)
                         case Ok((x, rest)) => r == Ok(x) && Rest() == rest
                         case Err(e) => r == Err(e)
      decreases |bytes| - cursor, 4
    {
      hide HtaWire.Read, HtaWire.MakeStruct, HtaWire.AllStrings;
      var name := ReadValue(depth + 1);
      if name.Err? { return name; }
      if !IsString(name.value) { return Err(Malformed("invalid struct name")); }
      var fields := ReadValue(depth + 1);
      if fields.Err? { return fields; }
      if !IsVector(fields.value) { return Err(Malformed("invalid struct fields")); }
      if !AllStrings(fields.value.items) { return Err(Malformed("invalid struct field")); }
      var values := ReadValue(depth + 1);
      if values.Err? { return values; }
      if !IsVector(values.value) { return Err(Malformed("invalid struct values")); }
      r := MakeStruct(name.value.text, fields.value.items, values.value.items);
    }

    /** `Reader::sequence`: a count, then a loop over that many values. */
    method Items(depth: nat) returns (r: Result<seq<Value>, Error>)
      requires Valid()
      modifies this
      ensures Valid() && match ReadSequence(old(Rest()), depth)
                         case Ok((x, rest)) => r == Ok(x) && Rest() == rest
                         case Err(e) => r == Err(e)
      decreases |bytes| - cursor, 3
    {
      hide HtaWire.Read, HtaWire.ReadLen;
      var size := Len();
      if size.Err? { return Err(size.error); }
      if size.value > |bytes| - cursor { return Err(Malformed("impossible sequence length")); }
      ghost var start := Rest();
      var values := [];
      ghost var all := ReadItems(size.value, start, depth + 1);
      if all.Ok? { assert [] + all.value.0 == all.value.0; }
      for i := 0 to size.value
        invariant Valid() && |Rest()| <= |start|
        invariant match ReadItems(size.value - i, Rest(), depth + 1)
                  case Ok((vs, rest)) => ReadItems(size.value, start, depth + 1) == Ok((values + vs, rest))
                  case Err(e) => ReadItems(size.value, start, depth + 1) == Err(e)
      {
        var v := ReadValue(depth + 1);
        if v.Err? { return Err(v.error); }
        ghost var more := ReadItems(size.value - i - 1, Rest(), depth + 1);
        if more.Ok? { assert values + ([v.value] + more.value.0) == values + [v.value] + more.value.0; }
        values := values + [v.value];
      }
      assert values + [] == values;
      return Ok(values);
    }

    /** `Reader::entries`, and the loop of maps and objects. */
    method EntryList(stringKeys: bool, depth: nat) returns (r: Result<seq<Pair>, Error>)
      requires Valid()
      modifies this
      ensures Valid() && match ReadEntries(stringKeys, old(Rest()), depth)
                         case Ok((x, rest)) => r == Ok(x) && Rest() == rest
                         case Err(e) => r == Err(e)
      decreases |bytes| - cursor, 3
    {
      hide HtaWire.Read, HtaWire.ReadLen, HtaWire.IsString;
      var size := Len();
      if size.Err? { return Err(size.error); }
      if size.value > (|bytes| - cursor) / 2 { return Err(Malformed("impossible map length")); }
      ghost var start := Rest();
      var entries := [];
      ghost var all := ReadPairs(stringKeys, size.value, start, depth + 1);
      if all.Ok? { assert [] + all.value.0 == all.value.0; }
      for i := 0 to size.value
        invariant Valid() && |Rest()| <= |start|
        invariant match ReadPairs(stringKeys, size.value - i, Rest(), depth + 1)
                  case Ok((ps, rest)) => ReadPairs(stringKeys, size.value, start, depth + 1) == Ok((entries + ps, rest))
                  case Err(e) => ReadPairs(stringKeys, size.value, start, depth + 1) == Err(e)
      {
        var key := ReadValue(depth + 1);
        if key.Err? { return Err(key.error); }
        if stringKeys && !IsString(key.value) { return Err(Malformed("invalid object key")); }
        var value := ReadValue(depth + 1);
        if value.Err? { return Err(value.error); }
        var p := Pair(key.value, value.value);
        ghost var more := ReadPairs(stringKeys, size.value - i - 1, Rest(), depth + 1);
        if more.Ok? { assert entries + ([p] + more.value.0) == entries + [p] + more.value.0; }
        entries := entries + [p];
      }
      assert entries + [] == entries;
      return Ok(entries);
    }
  }

  /** `decode`: the header, one value, and nothing after it. */
  method Decode(bytes: Bytes) returns (r: Result<Value, Error>)
    ensures r == DecodeFrame(bytes)
    ensures forall v :: r == Ok(v) <==> HtaGrammar.FrameMeans(bytes, v)
  {
    forall v ensures DecodeFrame(bytes) == Ok(v) <==> HtaGrammar.FrameMeans(bytes, v) {
      HtaFound.DecodesExactly(bytes, v);
    }
    hide HtaWire.Read, HtaGrammar.FrameMeans;
    if |bytes| > MAX_FRAME_BYTES { return Err(TooLarge); }
    if !(MAGIC <= bytes) { return Err(Malformed("invalid HTA0 header")); }
    var reader := new Reader(bytes, 4);
    r := reader.ReadValue(0);
    if r.Ok? && reader.cursor != |bytes| { return Err(Malformed("trailing bytes")); }
  }
}
