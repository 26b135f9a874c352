/** Each reader of a section's elements takes exactly what the grammar spells. */
module WasmElements {
  import opened Prelude
  import opened Powers
  import opened HtaData
  import opened WasmBinary
  import opened WasmLaws
  import opened WasmGrammar

  // ----- Numbers and names -----

  lemma {:induction false} GrammarExtends(bits: nat, b: Bytes, v: nat, rest: Bytes)
    requires UnsignedGrammar(bits, b) == Some(Taken(v, []))
    ensures UnsignedGrammar(bits, b + rest) == Some(Taken(v, rest))
    decreases bits
  {
    hide Pow2;
    assert (b + rest)[1..] == b[1..] + rest;
    if b[0] < 128 {
      assert b[1..] == [];
    } else {
      GrammarExtends(bits - 7, b[1..], UnsignedGrammar(bits - 7, b[1..]).value.value, rest);
    }
  }

  lemma NumReads(n: Num, rest: Bytes)
    ensures ReadUnsigned(n.bytes + rest) == Some(Taken(n.value, rest))
  {
    hide UnsignedGrammar, ReadUnsigned;
    GrammarExtends(32, n.bytes, n.value, rest);
    UnsignedExact(n.bytes + rest);
  }

  lemma NumFound(b: Bytes) returns (n: Num)
    requires ReadUnsigned(b).Some?
    ensures b == n.bytes + ReadUnsigned(b).value.rest && ReadUnsigned(b).value.value == n.value
  {
    hide UnsignedGrammar, ReadUnsigned;
    UnsignedExact(b);
    GrammarPrefix(32, b);
    var t := ReadUnsigned(b).value;
    var k := |b| - |t.rest|;
    n := Num(b[..k], t.value);
    assert b == b[..k] + b[k..];
  }

  lemma NameReads(n: Name, rest: Bytes)
    ensures ReadName(NameSpelled(n) + rest) == Some(Taken(n.text, rest))
  {
    hide ReadUnsigned, IsNum, ValidUtf8;
    assert NameSpelled(n) + rest == n.size.bytes + (n.text + rest);
    NumReads(n.size, n.text + rest);
    assert (n.text + rest)[..|n.text|] == n.text && (n.text + rest)[|n.text|..] == rest;
  }

  lemma NameFound(b: Bytes) returns (n: Name)
    requires ReadName(b).Some?
    ensures b == NameSpelled(n) + ReadName(b).value.rest && ReadName(b).value.value == n.text
  {
    hide ReadUnsigned, IsNum, ValidUtf8;
    var size := NumFound(b);
    var rest := ReadUnsigned(b).value.rest;
    n := Name(size, rest[..size.value]);
    assert rest == rest[..size.value] + rest[size.value..];
  }

  // ----- Types -----

  lemma CodeIs(t: ValueType)
    ensures ValueTypeOf(TypeCode(t)) == Some(t)
  {
  }

  lemma CodeFound(b: Byte)
    requires ValueTypeOf(b).Some?
    ensures TypeCode(ValueTypeOf(b).value) == b
  {
  }

  lemma TypeCodesFirst(types: seq<ValueType>)
    requires types != []
    ensures TypeCodes(types) == [TypeCode(types[0])] + TypeCodes(types[1..])
  {
  }

  lemma {:induction false} TypesRead(types: seq<ValueType>, rest: Bytes, done: seq<ValueType>)
    ensures ReadValueTypes(|types|, TypeCodes(types) + rest, done) == Some(Taken(done + types, rest))
    decreases |types|
  {
    hide TypeCode, ValueTypeOf;
    if types == [] {
      assert TypeCodes(types) + rest == rest && done + types == done;
    } else {
      var t, more := types[0], types[1..];
      TypeCodesFirst(types);
      hide TypeCodes;
      var b := TypeCodes(types) + rest;
      assert b[0] == TypeCode(t) && b[1..] == TypeCodes(more) + rest;
      CodeIs(t);
      TypesRead(more, rest, done + [t]);
      assert done + [t] + more == done + types;
    }
  }

  lemma {:induction false} TypesFound(n: nat, b: Bytes, done: seq<ValueType>) returns (types: seq<ValueType>)
    requires ReadValueTypes(n, b, done).Some?
    ensures
      var t := ReadValueTypes(n, b, done).value;
      |types| == n && b == TypeCodes(types) + t.rest && t.value == done + types
    decreases n
  {
    hide TypeCode, ValueTypeOf;
    if n == 0 {
      types := [];
      assert TypeCodes(types) + b == b && done + types == done;
    } else {
      var t := ValueTypeOf(b[0]).value;
      CodeFound(b[0]);
      var more := TypesFound(n - 1, b[1..], done + [t]);
      types := [t] + more;
      TypeCodesFirst(types);
      hide TypeCodes;
      assert types[1..] == more;
      assert b == [b[0]] + b[1..];
      assert done + [t] + more == done + types;
    }
  }

  lemma TypeListReads(n: Num, types: seq<ValueType>, rest: Bytes)
    requires n.value == |types|
    ensures ReadTypeList(n.bytes + (TypeCodes(types) + rest)) == Some(Taken(types, rest))
  {
    hide ReadUnsigned, IsNum, ReadValueTypes, TypeCodes;
    NumReads(n, TypeCodes(types) + rest);
    TypesRead(types, rest, []);
    assert [] + types == types;
  }

  lemma TypeListFound(b: Bytes) returns (n: Num, types: seq<ValueType>)
    requires ReadTypeList(b).Some?
    ensures
      var t := ReadTypeList(b).value;
      n.value == |types| && b == n.bytes + (TypeCodes(types) + t.rest) && t.value == types
  {
    hide ReadUnsigned, IsNum, ReadValueTypes, TypeCodes;
    n := NumFound(b);
    types := TypesFound(n.value, ReadUnsigned(b).value.rest, []);
    assert [] + types == types;
  }

  lemma FunctionReads(f: Function, rest: Bytes)
    ensures ReadSignature(FunctionSpelled(f) + rest) == Some(Taken(FunctionMeant(f), rest))
  {
    hide ReadTypeList, IsNum, TypeCodes;
    var results := f.gives.bytes + (TypeCodes(Results(f.result)) + rest);
    var b := FunctionSpelled(f) + rest;
    FunctionParts([0x60], f.takes.bytes, TypeCodes(f.arguments), f.gives.bytes, TypeCodes(Results(f.result)), rest);
    assert b[0] == 0x60 && b[1..] == f.takes.bytes + (TypeCodes(f.arguments) + results);
    TypeListReads(f.takes, f.arguments, results);
    TypeListReads(f.gives, Results(f.result), rest);
  }

  lemma FunctionParts(a: Bytes, b: Bytes, c: Bytes, d: Bytes, e: Bytes, rest: Bytes)
    ensures a + b + c + d + e + rest == a + (b + (c + (d + (e + rest))))
  {
    assert a + b + c + d + e + rest == a + b + c + (d + (e + rest));
    assert a + b + c + (d + (e + rest)) == a + (b + (c + (d + (e + rest))));
  }

  lemma FunctionFound(b: Bytes) returns (f: Function)
    requires ReadSignature(b).Some?
    ensures b == FunctionSpelled(f) + ReadSignature(b).value.rest && ReadSignature(b).value.value == FunctionMeant(f)
  {
    hide ReadTypeList, IsNum, TypeCodes;
    var takes, arguments := TypeListFound(b[1..]);
    var gives, results := TypeListFound(ReadTypeList(b[1..]).value.rest);
    var result := if results == [] then None else Some(results[0]);
    assert Results(result) == results;
    f := Function(takes, arguments, gives, result);
    var rest := ReadSignature(b).value.rest;
    FunctionParts([0x60], takes.bytes, TypeCodes(arguments), gives.bytes, TypeCodes(results), rest);
    assert b == [b[0]] + b[1..];
  }

  // ----- Limits -----

  lemma BoundsRead(l: Bounds, rest: Bytes)
    ensures ReadLimits(BoundsSpelled(l) + rest) == Some(Taken(BoundsMeant(l), rest))
  {
    hide ReadUnsigned, IsNum;
    var last := (if l.maximum.Some? then l.maximum.value.bytes else []) + rest;
    assert BoundsSpelled(l) + rest == l.flags.bytes + (l.minimum.bytes + last);
    NumReads(l.flags, l.minimum.bytes + last);
    NumReads(l.minimum, last);
    if l.maximum.Some? {
      NumReads(l.maximum.value, rest);
    } else {
      assert last == rest;
    }
  }

  lemma BoundsFound(b: Bytes) returns (l: Bounds)
    requires ReadLimits(b).Some?
    ensures b == BoundsSpelled(l) + ReadLimits(b).value.rest && ReadLimits(b).value.value == BoundsMeant(l)
  {
    hide ReadUnsigned, IsNum;
    var flags := NumFound(b);
    var after := ReadUnsigned(b).value.rest;
    var minimum := NumFound(after);
    var last := ReadUnsigned(after).value.rest;
    var rest := ReadLimits(b).value.rest;
    if flags.value % 2 == 0 {
      l := Bounds(flags, minimum, None);
      Thrice(flags.bytes, minimum.bytes, [], rest);
    } else {
      var maximum := NumFound(last);
      l := Bounds(flags, minimum, Some(maximum));
      Thrice(flags.bytes, minimum.bytes, maximum.bytes, rest);
    }
  }

  lemma Twice(a: Bytes, b: Bytes, rest: Bytes)
    ensures a + b + rest == a + (b + rest)
  {
  }

  lemma Thrice(a: Bytes, b: Bytes, c: Bytes, rest: Bytes)
    ensures a + b + c + rest == a + (b + (c + rest)) && (c == [] ==> c + rest == rest)
  {
  }

  // ----- Imports -----

  /** What an import adds to a module. */
  function WithImport(m: Module, i: Imported): Module
    requires DescHolds(i.desc, m.types)
  {
    m.(importedFunctions := m.importedFunctions + ImportedTypes(i),
       imports := m.imports + [ImportMeant(i, m.types)],
       memories := m.memories + ImportedMemories(i))
  }

  lemma NoneAdded<T>(s: seq<T>)
    ensures s + [] == s
  {
  }

  lemma IndexReads(i: Imported, m: Module, rest: Bytes)
    requires DescHolds(i.desc, m.types) && (i.desc.FunctionDesc? || i.desc.TagDesc?)
    ensures
      ReadImportKind(DescSpelled(i.desc) + rest, m, i.from.text, i.name.text) == Some(Taken(WithImport(m, i), rest))
  {
    hide ReadUnsigned, ReadLimits, IsNum, IsBounds, IsName, BoundsSpelled, BoundsMeant;
    var b := DescSpelled(i.desc) + rest;
    NoneAdded(m.importedFunctions);
    NoneAdded(m.memories);
    NumReads(i.desc.kind, rest);
    if i.desc.FunctionDesc? {
      assert b[1..] == i.desc.kind.bytes + rest;
    } else {
      assert b[1..][1..] == i.desc.kind.bytes + rest;
    }
  }

  lemma SizedReads(i: Imported, m: Module, rest: Bytes)
    requires i.desc.TableDesc? || i.desc.MemoryDesc?
    ensures
      ReadImportKind(DescSpelled(i.desc) + rest, m, i.from.text, i.name.text) == Some(Taken(WithImport(m, i), rest))
  {
    hide ReadUnsigned, ReadLimits, IsNum, IsBounds, IsName, BoundsSpelled, BoundsMeant;
    var b := DescSpelled(i.desc) + rest;
    NoneAdded(m.importedFunctions);
    NoneAdded(m.memories);
    BoundsRead(i.desc.bounds, rest);
    if i.desc.TableDesc? {
      assert b[1..][1..] == BoundsSpelled(i.desc.bounds) + rest;
    } else {
      assert b[1..] == BoundsSpelled(i.desc.bounds) + rest;
    }
  }

  lemma GlobalReads(i: Imported, m: Module, rest: Bytes)
    requires i.desc.GlobalDesc?
    ensures
      ReadImportKind(DescSpelled(i.desc) + rest, m, i.from.text, i.name.text) == Some(Taken(WithImport(m, i), rest))
  {
    hide ReadUnsigned, ReadLimits, IsNum, IsBounds, IsName, BoundsSpelled, BoundsMeant;
    var b := DescSpelled(i.desc) + rest;
    NoneAdded(m.importedFunctions);
    NoneAdded(m.memories);
    assert b[1..] == [i.desc.code, i.desc.mutable] + rest;
    assert b[1..][2..] == rest;
  }

  /** A description of the grammar adds the import it describes. */
  lemma DescReads(i: Imported, m: Module, rest: Bytes)
    requires DescHolds(i.desc, m.types)
    ensures
      ReadImportKind(DescSpelled(i.desc) + rest, m, i.from.text, i.name.text) == Some(Taken(WithImport(m, i), rest))
  {
    hide ReadImportKind, DescSpelled, WithImport, IsDesc, IsName, IsBounds, IsNum;
    match i.desc
    case FunctionDesc(_) => IndexReads(i, m, rest);
    case TagDesc(_) => IndexReads(i, m, rest);
    case TableDesc(_, _) => SizedReads(i, m, rest);
    case MemoryDesc(_) => SizedReads(i, m, rest);
    case GlobalDesc(_, _) => GlobalReads(i, m, rest);
  }

  /** The bytes of an import that is read are those of a description. */
  lemma DescBytes(b: Bytes, m: Module, from: Bytes, name: Bytes) returns (d: Desc)
    requires ReadImportKind(b, m, from, name).Some?
    ensures DescHolds(d, m.types) && b == DescSpelled(d) + ReadImportKind(b, m, from, name).value.rest
  {
    hide ReadUnsigned, ReadLimits, IsNum, IsBounds, BoundsSpelled, BoundsMeant;
    var tail := b[1..];
    assert b == [b[0]] + tail;
    if b[0] == 0 {
      var kind := NumFound(tail);
      d := FunctionDesc(kind);
    } else if b[0] == 1 {
      var bounds := BoundsFound(tail[1..]);
      d := TableDesc(tail[0], bounds);
      assert tail == [tail[0]] + tail[1..];
    } else if b[0] == 2 {
      var bounds := BoundsFound(tail);
      d := MemoryDesc(bounds);
    } else if b[0] == 3 {
      d := GlobalDesc(tail[0], tail[1]);
      assert tail == [tail[0], tail[1]] + tail[2..];
    } else {
      var kind := NumFound(tail[1..]);
      d := TagDesc(kind);
      assert tail == [tail[0]] + tail[1..];
    }
  }

  lemma DescFound(b: Bytes, m: Module, from: Name, name: Name) returns (d: Desc)
    requires ReadImportKind(b, m, from.text, name.text).Some?
    ensures
      var t := ReadImportKind(b, m, from.text, name.text).value;
      DescHolds(d, m.types) && b == DescSpelled(d) + t.rest && t.value == WithImport(m, Imported(from, name, d))
  {
    hide ReadImportKind, DescSpelled, WithImport, IsName, IsDesc, DescHolds;
    d := DescBytes(b, m, from.text, name.text);
    DescReads(Imported(from, name, d), m, ReadImportKind(b, m, from.text, name.text).value.rest);
  }

  // ----- Exports -----

  /** What an export adds to a module. */
  function WithExport(m: Module, e: Exported): Module {
    m.(names := m.names + {e.name.text},
       exportedFunctions := m.exportedFunctions + ExportsOfKind(e, 0),
       exportedMemories := m.exportedMemories + ExportsOfKind(e, 2))
  }

  lemma ExportReads(e: Exported, m: Module, rest: Bytes)
    requires e.name.text !in m.names
    ensures ReadExport(ExportSpelled(e) + rest, m) == Some(Taken(WithExport(m, e), rest))
  {
    hide ReadUnsigned, ReadName, IsNum, IsName, NameSpelled;
    var tail := [e.kind] + e.index.bytes + rest;
    Thrice(NameSpelled(e.name), [e.kind], e.index.bytes, rest);
    assert tail == [e.kind] + (e.index.bytes + rest);
    NameReads(e.name, tail);
    assert tail[0] == e.kind && tail[1..] == e.index.bytes + rest;
    NumReads(e.index, rest);
    NoneAdded(m.exportedFunctions);
    NoneAdded(m.exportedMemories);
  }

  lemma ExportFound(b: Bytes, m: Module) returns (e: Exported)
    requires ReadExport(b, m).Some?
    ensures
      var t := ReadExport(b, m).value;
      e.name.text !in m.names && b == ExportSpelled(e) + t.rest && t.value == WithExport(m, e)
  {
    hide ReadUnsigned, ReadName, IsNum, IsName, NameSpelled;
    var name := NameFound(b);
    var tail := ReadName(b).value.rest;
    var index := NumFound(tail[1..]);
    e := Exported(name, tail[0], index);
    var rest := ReadExport(b, m).value.rest;
    assert tail == [tail[0]] + (index.bytes + rest);
    Thrice(NameSpelled(name), [tail[0]], index.bytes, rest);
    ExportReads(e, m, rest);
  }
}
