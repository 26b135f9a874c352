/**
 The sections of a WebAssembly module that an inspection looks into, as forms
 that spell bytes and say what they declare (section 5.5 of the WebAssembly Core
 Specification, with shared limits and tags).  Nothing here names a reader of
 sections.
 */
module WasmGrammar {
  import opened Prelude
  import opened HtaData
  import opened WasmBinary

  // ----- Numbers and names -----

  /** A number as it is written, in one of the ways the grammar of integers allows. */
  datatype AnyNum = Num(bytes: Bytes, value: nat)

  predicate IsNum(n: AnyNum) { UnsignedGrammar(32, n.bytes) == Some(Taken(n.value, [])) }

  type Num = n: AnyNum | IsNum(n) witness Num([0], 0)

  const ZERO: Num := assert [0][1..] == []; Num([0], 0)

  /** A size and so many bytes of UTF-8. */
  datatype AnyName = Name(size: Num, text: Bytes)

  predicate IsName(n: AnyName) { n.size.value == |n.text| && ValidUtf8(n.text) }

  type Name = n: AnyName | IsName(n) witness Name(ZERO, [])

  function NameSpelled(n: Name): Bytes { n.size.bytes + n.text }

  // ----- Types -----

  function TypeCode(t: ValueType): Byte {
    match t
    case I32 => 0x7f
    case I64 => 0x7e
    case F32 => 0x7d
    case F64 => 0x7c
  }

  function TypeCodes(types: seq<ValueType>): (b: Bytes)
    ensures |b| == |types|
  {
    seq(|types|, i requires 0 <= i < |types| => TypeCode(types[i]))
  }

  /** A function type: a count of arguments, the arguments, a count of results, and the result if there is one. */
  datatype AnyFunction = Function(takes: Num, arguments: seq<ValueType>, gives: Num, result: Option<ValueType>)

  function Results(result: Option<ValueType>): seq<ValueType> { if result.Some? then [result.value] else [] }

  predicate IsFunction(f: AnyFunction) { f.takes.value == |f.arguments| && f.gives.value == |Results(f.result)| }

  type Function = f: AnyFunction | IsFunction(f) witness Function(ZERO, [], ZERO, None)

  function FunctionSpelled(f: Function): Bytes {
    [0x60] + f.takes.bytes + TypeCodes(f.arguments) + f.gives.bytes + TypeCodes(Results(f.result))
  }

  function FunctionMeant(f: Function): Signature { Signature(f.arguments, f.result) }

  // ----- Limits -----

  /** Limits of a memory or a table: 0 for no maximum, 1 for a maximum, 3 for a shared one. */
  datatype AnyBounds = Bounds(flags: Num, minimum: Num, maximum: Option<Num>)

  predicate IsBounds(l: AnyBounds) {
    match l.maximum
    case None => l.flags.value == 0
    case Some(maximum) => (l.flags.value == 1 || l.flags.value == 3) && l.minimum.value <= maximum.value
  }

  type Bounds = l: AnyBounds | IsBounds(l) witness Bounds(ZERO, ZERO, None)

  function BoundsSpelled(l: Bounds): Bytes {
    l.flags.bytes + l.minimum.bytes + if l.maximum.Some? then l.maximum.value.bytes else []
  }

  function BoundsMeant(l: Bounds): Limits {
    Limits(l.minimum.value, if l.maximum.Some? then Some(l.maximum.value.value) else None, l.flags.value == 3)
  }

  // ----- Imports -----

  datatype AnyDesc =
    | FunctionDesc(kind: Num)
    | TableDesc(code: Byte, bounds: Bounds)
    | MemoryDesc(bounds: Bounds)
    | GlobalDesc(code: Byte, mutable: Byte)
    | TagDesc(kind: Num)

  const REFERENCES: seq<Byte> := [0x70, 0x6f]

  const GLOBALS: seq<Byte> := [0x7f, 0x7e, 0x7d, 0x7c, 0x7b, 0x70, 0x6f]

  predicate IsDesc(d: AnyDesc) {
    match d
    case TableDesc(code, _) => code in REFERENCES
    case GlobalDesc(code, mutable) => code in GLOBALS && mutable in [0, 1]
    case _ => true
  }

  type Desc = d: AnyDesc | IsDesc(d) witness FunctionDesc(ZERO)

  function DescSpelled(d: Desc): Bytes {
    match d
    case FunctionDesc(kind) => [0] + kind.bytes
    case TableDesc(code, bounds) => [1, code] + BoundsSpelled(bounds)
    case MemoryDesc(bounds) => [2] + BoundsSpelled(bounds)
    case GlobalDesc(code, mutable) => [3, code, mutable]
    case TagDesc(kind) => [4, 0] + kind.bytes
  }

  /** The types a function or a tag is of are among those declared before. */
  predicate DescHolds(d: Desc, types: seq<Signature>) {
    match d
    case FunctionDesc(kind) => kind.value < |types|
    case TagDesc(kind) => kind.value < |types|
    case _ => true
  }

  datatype Imported = Imported(from: Name, name: Name, desc: Desc)

  function ImportSpelled(i: Imported): Bytes { NameSpelled(i.from) + NameSpelled(i.name) + DescSpelled(i.desc) }

  function ImportMeant(i: Imported, types: seq<Signature>): Import
    requires DescHolds(i.desc, types)
  {
    var (kind, signature) :=
      match i.desc
      case FunctionDesc(kind) => (FunctionImport, Some(types[kind.value]))
      case TableDesc(_, _) => (TableImport, None)
      case MemoryDesc(_) => (MemoryImport, None)
      case GlobalDesc(_, _) => (GlobalImport, None)
      case TagDesc(_) => (TagImport, None);
    Import(i.from.text, i.name.text, kind, signature)
  }

  /** The types of the functions that are imported. */
  function ImportedTypes(i: Imported): seq<nat> { if i.desc.FunctionDesc? then [i.desc.kind.value] else [] }

  function ImportedMemories(i: Imported): seq<Memory> {
    if i.desc.MemoryDesc? then [Memory(true, BoundsMeant(i.desc.bounds))] else []
  }

  // ----- Exports -----

  /** What is exported: a function (0), a table (1), a memory (2), a global (3) or a tag (4). */
  datatype AnyExported = Exported(name: Name, kind: Byte, index: Num)

  type Exported = e: AnyExported | e.kind <= 4 witness Exported(Name(ZERO, []), 0, ZERO)

  function ExportSpelled(e: Exported): Bytes { NameSpelled(e.name) + [e.kind] + e.index.bytes }

  function ExportsOfKind(e: Exported, kind: Byte): seq<NamedIndex> {
    if e.kind == kind then [NamedIndex(e.name.text, e.index.value)] else []
  }
}
