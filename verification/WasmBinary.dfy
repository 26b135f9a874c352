/**
 What `direct_wasm.rs` reads off a WebAssembly module: 32-bit integers, names,
 types, imports, functions, memories and exports, section by section. Each
 reader is given by what it takes off the front and what it leaves.
 */
module WasmBinary {
  import opened Prelude
  import opened Powers
  import opened HtaData
  import HtaWire

  datatype Taken<+T> = Taken(value: T, rest: Bytes)

  // ----- Integers -----

  /** Unsigned integers of so many bits, as section 5.2.2 of the WebAssembly Core Specification gives them. */
  function UnsignedGrammar(bits: nat, b: Bytes): Option<Taken<nat>>
    decreases bits
  {
    if b == [] then None
    else if b[0] < 128 then if b[0] < Pow2(bits) then Some(Taken(b[0], b[1..])) else None
    else if bits <= 7 then None
    else
      match UnsignedGrammar(bits - 7, b[1..])
      case None => None
      case Some(t) => Some(Taken(128 * t.value + (b[0] - 128), t.rest))
  }

  /** Some low bits moved up to their place. */
  function Place(d: nat, shift: nat): nat { d * Pow2(shift) }

  /** `unsigned`: seven bits at a time from the low end, at most five bytes, the last one small. */
  function UnsignedFrom(b: Bytes, shift: nat, value: nat): Option<Taken<nat>>
    decreases |b|
  {
    if shift >= 35 || b == [] then None
    else if shift == 28 && b[0] >= 16 then None
    else
      var next := value + Place(b[0] % 128, shift);
      if b[0] < 128 then Some(Taken(next, b[1..])) else UnsignedFrom(b[1..], shift + 7, next)
  }

  function ReadUnsigned(b: Bytes): Option<Taken<nat>> { UnsignedFrom(b, 0, 0) }

  lemma {:induction false} Pow2Add(j: nat, k: nat)
    ensures Pow2(j + k) == Pow2(j) * Pow2(k)
    decreases j
  {
    if j > 0 {
      Pow2Add(j - 1, k);
      assert Pow2(j + k) == 2 * Pow2(j - 1 + k);
    }
  }

  lemma SmallPowers()
    ensures Pow2(4) == 16 && Pow2(7) == 128 && Pow2(11) == 2048 && Pow2(18) == 262144 && Pow2(25) == 33554432
  {
    assert Pow2(4) == 16;
    Pow2Add(7, 4);
    Pow2Add(7, 11);
    Pow2Add(7, 18);
  }

  lemma {:induction false} GrammarBound(bits: nat, b: Bytes)
    requires UnsignedGrammar(bits, b).Some?
    ensures var t := UnsignedGrammar(bits, b).value; t.value < Pow2(bits) && |t.rest| < |b|
    decreases bits
  {
    if b[0] >= 128 {
      GrammarBound(bits - 7, b[1..]);
      Pow2Add(7, bits - 7);
      assert Pow2(7) == 128;
    }
  }

  function ScaledUp(t: Option<Taken<nat>>, value: nat, shift: nat): Option<Taken<nat>> {
    if t.None? then None else Some(Taken(value + Place(t.value.value, shift), t.value.rest))
  }

  /** The loop reads the grammar, scaled by where it stands. */
  lemma {:induction false} UnsignedIsGrammar(b: Bytes, shift: nat, value: nat)
    requires shift == 0 || shift == 7 || shift == 14 || shift == 21 || shift == 28
    ensures UnsignedFrom(b, shift, value) == ScaledUp(UnsignedGrammar(32 - shift, b), value, shift)
    decreases 35 - shift
  {
    hide Place, UnsignedFrom, UnsignedGrammar, ScaledUp;
    if b == [] || b[0] < 128 || shift == 28 {
      UnsignedEnds(b, shift, value);
    } else {
      UnsignedStep(b, shift, value);
      UnsignedIsGrammar(b[1..], shift + 7, value + Place(b[0] - 128, shift));
      ScaledStep(b, shift, value);
    }
  }

  /** The last byte, or none, or one too many. */
  lemma UnsignedEnds(b: Bytes, shift: nat, value: nat)
    requires shift == 0 || shift == 7 || shift == 14 || shift == 21 || shift == 28
    requires b == [] || b[0] < 128 || shift == 28
    ensures UnsignedFrom(b, shift, value) == ScaledUp(UnsignedGrammar(32 - shift, b), value, shift)
  {
    hide Pow2, Place, UnsignedFrom, UnsignedGrammar;
    if shift == 28 { FourBits(); } else { WideEnough(32 - shift); }
    FromEnds(b, shift, value);
    GrammarEnds(b, 32 - shift);
  }

  lemma FromEnds(b: Bytes, shift: nat, value: nat)
    requires shift <= 28 && (b == [] || b[0] < 128 || shift == 28)
    ensures UnsignedFrom(b, shift, value) ==
      if b == [] || (shift == 28 && b[0] >= 16) then None else Some(Taken(value + Place(b[0], shift), b[1..]))
  {
    hide Place, Pow2;
    if b != [] && b[0] < 128 { assert b[0] % 128 == b[0]; }
  }

  lemma GrammarEnds(b: Bytes, bits: nat)
    requires b == [] || b[0] < 128 || bits <= 7
    ensures UnsignedGrammar(bits, b) ==
      if b == [] || b[0] >= 128 || b[0] >= Pow2(bits) then None else Some(Taken(b[0], b[1..]))
  {
    hide Pow2;
  }

  lemma FourBits()
    ensures Pow2(4) == 16
  {
  }

  /** One byte more, seen from the grammar. */
  lemma ScaledStep(b: Bytes, shift: nat, value: nat)
    requires b != [] && b[0] >= 128 && shift <= 21
    ensures ScaledUp(UnsignedGrammar(32 - shift, b), value, shift) ==
            ScaledUp(UnsignedGrammar(32 - (shift + 7), b[1..]), value + Place(b[0] - 128, shift), shift + 7)
  {
    hide Place, Pow2;
    assert 32 - shift - 7 == 32 - (shift + 7);
    var g := UnsignedGrammar(32 - (shift + 7), b[1..]);
    if g.Some? { Regroup(b[0] - 128, g.value.value, shift); }
  }

  lemma UnsignedStep(b: Bytes, shift: nat, value: nat)
    requires shift < 28 && b != [] && b[0] >= 128
    ensures UnsignedFrom(b, shift, value) == UnsignedFrom(b[1..], shift + 7, value + Place(b[0] - 128, shift))
  {
    hide Place;
    assert b[0] % 128 == b[0] - 128;
  }

  lemma WideEnough(bits: nat)
    requires bits == 32 || bits == 25 || bits == 18 || bits == 11
    ensures Pow2(bits) > 128
  {
    SmallPowers();
    Pow2Add(7, 25);
  }

  lemma Regroup(low: nat, m: nat, shift: nat)
    ensures Place(low, shift) + Place(m, shift + 7) == Place(128 * m + low, shift)
  {
    Pow2Add(7, shift);
    SmallPowers();
    hide Pow2;
    var p := Pow2(shift);
    assert Pow2(7 + shift) == 128 * p;
    assert low * p + m * (128 * p) == (128 * m + low) * p;
  }

  lemma PlaceZero(d: nat)
    ensures Place(d, 0) == d
  {
    assert Pow2(0) == 1;
  }

  /** `unsigned` accepts exactly the 32-bit grammar, with the right value. */
  lemma UnsignedExact(b: Bytes)
    ensures ReadUnsigned(b) == UnsignedGrammar(32, b)
    ensures ReadUnsigned(b).Some? ==> ReadUnsigned(b).value.value < TWO_32 && |ReadUnsigned(b).value.rest| < |b|
  {
    UnsignedIsGrammar(b, 0, 0);
    var g := UnsignedGrammar(32, b);
    hide UnsignedFrom, UnsignedGrammar, Place;
    if g.Some? {
      PlaceZero(g.value.value);
      GrammarBound(32, b);
      SmallPowers();
      Pow2Add(7, 25);
    }
  }

  /** The shortest encoding. */
  function WriteUnsigned(n: nat): Bytes
    decreases n
  {
    if n < 128 then [n] else [n % 128 + 128] + WriteUnsigned(n / 128)
  }

  lemma {:induction false} WrittenReads(n: nat, bits: nat, rest: Bytes)
    requires n < Pow2(bits) && bits > 0
    ensures UnsignedGrammar(bits, WriteUnsigned(n) + rest) == Some(Taken(n, rest))
    decreases n
  {
    var b := WriteUnsigned(n) + rest;
    if n < 128 {
      assert b[1..] == rest;
    } else {
      assert bits > 7 by { if bits <= 7 { PowBelow(bits); } }
      Pow2Add(7, bits - 7);
      assert Pow2(7) == 128;
      assert n / 128 < Pow2(bits - 7);
      WrittenReads(n / 128, bits - 7, rest);
      assert b[1..] == WriteUnsigned(n / 128) + rest;
    }
  }

  lemma PowBelow(bits: nat)
    requires bits <= 7
    ensures Pow2(bits) <= 128
  {
    Pow2Add(bits, 7 - bits);
    assert Pow2(7) == 128;
    assert Pow2(bits) * 1 <= Pow2(bits) * Pow2(7 - bits);
  }

  lemma UnsignedRoundTrip(n: nat, rest: Bytes)
    requires n < TWO_32
    ensures ReadUnsigned(WriteUnsigned(n) + rest) == Some(Taken(n, rest))
  {
    SmallPowers();
    Pow2Add(7, 25);
    assert Pow2(32) == TWO_32;
    WrittenReads(n, 32, rest);
    UnsignedExact(WriteUnsigned(n) + rest);
  }

  // ----- Small pieces -----

  function ReadByte(b: Bytes): Option<Taken<Byte>> { if b == [] then None else Some(Taken(b[0], b[1..])) }

  function ReadName(b: Bytes): Option<Taken<Bytes>> {
    match ReadUnsigned(b)
    case None => None
    case Some(size) =>
      if size.value > |size.rest| || !ValidUtf8(size.rest[..size.value]) then None
      else Some(Taken(size.rest[..size.value], size.rest[size.value..]))
  }

  datatype ValueType = I32 | I64 | F32 | F64

  function ValueTypeOf(b: Byte): Option<ValueType> {
    if b == 0x7f then Some(I32) else if b == 0x7e then Some(I64)
    else if b == 0x7d then Some(F32) else if b == 0x7c then Some(F64) else None
  }

  function ReadValueTypes(n: nat, b: Bytes, types: seq<ValueType>): Option<Taken<seq<ValueType>>> {
    if n == 0 then Some(Taken(types, b))
    else if b == [] then None
    else
      match ValueTypeOf(b[0])
      case None => None
      case Some(t) => ReadValueTypes(n - 1, b[1..], types + [t])
  }

  /** A count and so many value types. */
  function ReadTypeList(b: Bytes): Option<Taken<seq<ValueType>>> {
    match ReadUnsigned(b)
    case None => None
    case Some(n) => ReadValueTypes(n.value, n.rest, [])
  }

  datatype Signature = Signature(arguments: seq<ValueType>, result: Option<ValueType>)

  function ReadSignature(b: Bytes): Option<Taken<Signature>> {
    if b == [] || b[0] != 0x60 then None
    else
      match ReadTypeList(b[1..])
      case None => None
      case Some(arguments) =>
        match ReadTypeList(arguments.rest)
        case None => None
        case Some(results) =>
          if |results.value| > 1 then None
          else Some(Taken(Signature(arguments.value, if results.value == [] then None else Some(results.value[0])),
                          results.rest))
  }

  datatype Limits = Limits(minimum: nat, maximum: Option<nat>, shared: bool)

  function ReadLimits(b: Bytes): Option<Taken<Limits>> {
    match ReadUnsigned(b)
    case None => None
    case Some(flags) =>
      if flags.value > 3 then None
      else
        match ReadUnsigned(flags.rest)
        case None => None
        case Some(minimum) =>
          if flags.value % 2 == 0 then
            if flags.value >= 2 then None else Some(Taken(Limits(minimum.value, None, false), minimum.rest))
          else
            match ReadUnsigned(minimum.rest)
            case None => None
            case Some(maximum) =>
              if maximum.value < minimum.value then None
              else Some(Taken(Limits(minimum.value, Some(maximum.value), flags.value >= 2), maximum.rest))
  }

  function ReadTable(b: Bytes): Option<Taken<Limits>> {
    if b == [] || (b[0] != 0x70 && b[0] != 0x6f) then None else ReadLimits(b[1..])
  }

  function ReadGlobal(b: Bytes): Option<Taken<()>> {
    if |b| < 2 || !(0x7b <= b[0] <= 0x7f || b[0] == 0x70 || b[0] == 0x6f) || b[1] > 1 then None
    else Some(Taken((), b[2..]))
  }

  function ReadTag(b: Bytes, types: nat): Option<Taken<()>> {
    if b == [] || b[0] != 0 then None
    else
      match ReadUnsigned(b[1..])
      case None => None
      case Some(t) => if t.value >= types then None else Some(Taken((), t.rest))
  }

  // ----- Sections -----

  datatype ImportKind = FunctionImport | TableImport | MemoryImport | GlobalImport | TagImport

  datatype Import = Import(from: Bytes, name: Bytes, kind: ImportKind, signature: Option<Signature>)

  datatype Memory = Memory(imported: bool, limits: Limits)

  datatype NamedIndex = NamedIndex(name: Bytes, index: nat)

  /** What has been read of a module so far. */
  datatype Module = Module(
    types: seq<Signature>, importedFunctions: seq<nat>, functions: seq<nat>, imports: seq<Import>,
    memories: seq<Memory>, names: set<Bytes>, exportedFunctions: seq<NamedIndex>,
    exportedMemories: seq<NamedIndex>, start: Option<nat>)

  function ReadTypes(n: nat, b: Bytes, types: seq<Signature>): Option<Taken<seq<Signature>>> {
    if n == 0 then Some(Taken(types, b))
    else
      match ReadSignature(b)
      case None => None
      case Some(s) => ReadTypes(n - 1, s.rest, types + [s.value])
  }

  /** What an import describes, after its names. */
  function ReadImportKind(b: Bytes, m: Module, from: Bytes, name: Bytes): Option<Taken<Module>> {
    if b == [] then None
    else if b[0] == 0 then
      match ReadUnsigned(b[1..])
      case None => None
      case Some(t) =>
        if t.value >= |m.types| then None
        else
          Some(Taken(m.(importedFunctions := m.importedFunctions + [t.value],
                        imports := m.imports + [Import(from, name, FunctionImport, Some(m.types[t.value]))]),
                     t.rest))
    else if b[0] == 1 then
      match ReadTable(b[1..])
      case None => None
      case Some(t) => Some(Taken(m.(imports := m.imports + [Import(from, name, TableImport, None)]), t.rest))
    else if b[0] == 2 then
      match ReadLimits(b[1..])
      case None => None
      case Some(t) =>
        Some(Taken(m.(memories := m.memories + [Memory(true, t.value)],
                      imports := m.imports + [Import(from, name, MemoryImport, None)]),
                   t.rest))
    else if b[0] == 3 then
      match ReadGlobal(b[1..])
      case None => None
      case Some(t) => Some(Taken(m.(imports := m.imports + [Import(from, name, GlobalImport, None)]), t.rest))
    else if b[0] == 4 then
      match ReadTag(b[1..], |m.types|)
      case None => None
      case Some(t) => Some(Taken(m.(imports := m.imports + [Import(from, name, TagImport, None)]), t.rest))
    else None
  }

  function ReadImports(n: nat, b: Bytes, m: Module): Option<Taken<Module>> {
    if n == 0 then Some(Taken(m, b))
    else
      match ReadName(b)
      case None => None
      case Some(from) =>
        match ReadName(from.rest)
        case None => None
        case Some(name) =>
          match ReadImportKind(name.rest, m, from.value, name.value)
          case None => None
          case Some(t) => ReadImports(n - 1, t.rest, t.value)
  }

  function ReadFunctions(n: nat, b: Bytes, functions: seq<nat>): Option<Taken<seq<nat>>> {
    if n == 0 then Some(Taken(functions, b))
    else
      match ReadUnsigned(b)
      case None => None
      case Some(t) => ReadFunctions(n - 1, t.rest, functions + [t.value])
  }

  function ReadMemories(n: nat, b: Bytes, memories: seq<Memory>): Option<Taken<seq<Memory>>> {
    if n == 0 then Some(Taken(memories, b))
    else
      match ReadLimits(b)
      case None => None
      case Some(t) => ReadMemories(n - 1, t.rest, memories + [Memory(false, t.value)])
  }

  function ReadExport(b: Bytes, m: Module): Option<Taken<Module>> {
    match ReadName(b)
    case None => None
    case Some(name) =>
      if name.value in m.names || name.rest == [] then None
      else
        match ReadUnsigned(name.rest[1..])
        case None => None
        case Some(index) =>
          var kind := name.rest[0];
          var named := m.(names := m.names + {name.value});
          var entry := NamedIndex(name.value, index.value);
          if kind == 0 then Some(Taken(named.(exportedFunctions := m.exportedFunctions + [entry]), index.rest))
          else if kind == 2 then Some(Taken(named.(exportedMemories := m.exportedMemories + [entry]), index.rest))
          else if kind == 1 || kind == 3 || kind == 4 then Some(Taken(named, index.rest))
          else None
  }

  function ReadExports(n: nat, b: Bytes, m: Module): Option<Taken<Module>> {
    if n == 0 then Some(Taken(m, b))
    else
      match ReadExport(b, m)
      case None => None
      case Some(t) => ReadExports(n - 1, t.rest, t.value)
  }

  predicate Known(id: Byte) { id == 1 || id == 2 || id == 3 || id == 5 || id == 7 || id == 8 }

  /** The contents of a known section, from its count on. */
  function ReadBody(id: Byte, n: nat, b: Bytes, m: Module): Option<Taken<Module>>
    requires Known(id)
  {
    if id == 1 then
      match ReadTypes(n, b, m.types)
      case None => None
      case Some(t) => Some(Taken(m.(types := t.value), t.rest))
    else if id == 2 then ReadImports(n, b, m)
    else if id == 3 then
      match ReadFunctions(n, b, m.functions)
      case None => None
      case Some(t) => Some(Taken(m.(functions := t.value), t.rest))
    else if id == 5 then
      match ReadMemories(n, b, m.memories)
      case None => None
      case Some(t) => Some(Taken(m.(memories := t.value), t.rest))
    else if id == 7 then ReadExports(n, b, m)
    else Some(Taken(m.(start := Some(n)), b))
  }

  /** A known section must be read to its end; any other is passed over. */
  function ReadSection(id: Byte, content: Bytes, m: Module): Option<Module> {
    if !Known(id) then Some(m)
    else
      match ReadUnsigned(content)
      case None => None
      case Some(n) =>
        match ReadBody(id, n.value, n.rest, m)
        case None => None
        case Some(t) => if t.rest == [] then Some(t.value) else None
  }

  /** Sections one after the other to the end of the bytes. */
  function ReadSections(b: Bytes, m: Module): Option<Module>
    decreases |b|
  {
    if b == [] then Some(m)
    else
      match ReadUnsigned(b[1..])
      case None => None
      case Some(size) =>
        UnsignedExact(b[1..]);
        if size.value > |size.rest| then None
        else
          match ReadSection(b[0], size.rest[..size.value], m)
          case None => None
          case Some(next) => ReadSections(size.rest[size.value..], next)
  }

  const HEADER: Bytes := [0x00, 0x61, 0x73, 0x6d, 0x01, 0x00, 0x00, 0x00]

  const EMPTY := Module([], [], [], [], [], {}, [], [], None)

  // ----- Resolution -----

  datatype FunctionExport = FunctionExport(name: Bytes, signature: Signature, imported: bool)

  /** An export's type: an imported function's, or one of the defined ones after them. */
  function ResolveExport(m: Module, e: NamedIndex): Option<FunctionExport> {
    var imported := e.index < |m.importedFunctions|;
    var defined := e.index - |m.importedFunctions|;
    if !imported && defined >= |m.functions| then None
    else
      var t := if imported then m.importedFunctions[e.index] else m.functions[defined];
      if t < |m.types| then Some(FunctionExport(e.name, m.types[t], imported)) else None
  }

  function ResolveExports(m: Module, es: seq<NamedIndex>): Option<seq<FunctionExport>> {
    if es == [] then Some([])
    else
      match ResolveExport(m, es[0])
      case None => None
      case Some(e) =>
        match ResolveExports(m, es[1..])
        case None => None
        case Some(rest) => Some([e] + rest)
  }

  datatype Inspection = Inspection(
    imports: seq<Import>, memories: seq<Memory>, exports: seq<FunctionExport>,
    memoryNames: seq<seq<Bytes>>, start: Option<nat>)

  /** The names some exports give to one index, in the order of the exports. */
  function NamesAt(es: seq<NamedIndex>, i: nat): seq<Bytes> {
    if es == [] then []
    else
      var last := es[|es| - 1];
      NamesAt(es[..|es| - 1], i) + if last.index == i then [last.name] else []
  }

  function PlaceName(name: Bytes, names: seq<Bytes>): seq<Bytes> {
    if names == [] || HtaWire.LexLe(name, names[0]) then [name] + names
    else [names[0]] + PlaceName(name, names[1..])
  }

  function SortNames(names: seq<Bytes>): seq<Bytes> {
    if names == [] then [] else PlaceName(names[0], SortNames(names[1..]))
  }

  /** The names each memory is exported under, sorted. */
  function MemoryNames(m: Module): seq<seq<Bytes>> {
    seq(|m.memories|, i requires 0 <= i => SortNames(NamesAt(m.exportedMemories, i)))
  }

  /** `inspect`. */
  function Inspect(b: Bytes): Option<Inspection> {
    if !(HEADER <= b) then None
    else
      match ReadSections(b[|HEADER|..], EMPTY)
      case None => None
      case Some(m) =>
        match ResolveExports(m, m.exportedFunctions)
        case None => None
        case Some(exports) =>
          if exists k :: 0 <= k < |m.exportedMemories| && m.exportedMemories[k].index >= |m.memories| then None
          else Some(Inspection(m.imports, m.memories, exports, MemoryNames(m), m.start))
  }
}
