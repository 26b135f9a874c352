/**
 Whole modules: bytes are read to a module exactly when they are the header and
 sections of the grammar, and the module holds what the sections declare.
 */
module WasmSections {
  import opened Prelude
  import opened HtaData
  import opened WasmBinary
  import opened WasmGrammar
  import opened WasmElements
  import opened WasmLaws

  // ----- Forms of sections -----

  datatype Form =
    | TypeSection(count: Num, types: seq<Function>)
    | ImportSection(count: Num, imports: seq<Imported>)
    | FunctionSection(count: Num, functions: seq<Num>)
    | MemorySection(count: Num, memories: seq<Bounds>)
    | ExportSection(count: Num, exports: seq<Exported>)
    | StartSection(index: Num)
    | OtherSection(id: Byte, content: Bytes)

  function FormId(f: Form): Byte {
    match f
    case TypeSection(_, _) => 1
    case ImportSection(_, _) => 2
    case FunctionSection(_, _) => 3
    case MemorySection(_, _) => 5
    case ExportSection(_, _) => 7
    case StartSection(_) => 8
    case OtherSection(id, _) => id
  }

  function FunctionsSpelled(types: seq<Function>): Bytes {
    if types == [] then [] else FunctionSpelled(types[0]) + FunctionsSpelled(types[1..])
  }

  function ImportsSpelled(imports: seq<Imported>): Bytes {
    if imports == [] then [] else ImportSpelled(imports[0]) + ImportsSpelled(imports[1..])
  }

  function NumsSpelled(nums: seq<Num>): Bytes {
    if nums == [] then [] else nums[0].bytes + NumsSpelled(nums[1..])
  }

  function MemoriesSpelled(memories: seq<Bounds>): Bytes {
    if memories == [] then [] else BoundsSpelled(memories[0]) + MemoriesSpelled(memories[1..])
  }

  function ExportsSpelled(exports: seq<Exported>): Bytes {
    if exports == [] then [] else ExportSpelled(exports[0]) + ExportsSpelled(exports[1..])
  }

  function FormSpelled(f: Form): Bytes {
    match f
    case TypeSection(count, types) => count.bytes + FunctionsSpelled(types)
    case ImportSection(count, imports) => count.bytes + ImportsSpelled(imports)
    case FunctionSection(count, functions) => count.bytes + NumsSpelled(functions)
    case MemorySection(count, memories) => count.bytes + MemoriesSpelled(memories)
    case ExportSection(count, exports) => count.bytes + ExportsSpelled(exports)
    case StartSection(index) => index.bytes
    case OtherSection(_, content) => content
  }

  // ----- What sections declare -----

  function FunctionsMeant(types: seq<Function>): seq<Signature> {
    seq(|types|, i requires 0 <= i < |types| => FunctionMeant(types[i]))
  }

  function NumsMeant(nums: seq<Num>): seq<nat> { seq(|nums|, i requires 0 <= i < |nums| => nums[i].value) }

  function MemoriesMeant(memories: seq<Bounds>): seq<Memory> {
    seq(|memories|, i requires 0 <= i < |memories| => Memory(false, BoundsMeant(memories[i])))
  }

  predicate ImportsHold(imports: seq<Imported>, types: seq<Signature>) {
    forall i :: 0 <= i < |imports| ==> DescHolds(imports[i].desc, types)
  }

  function ImportsMeant(imports: seq<Imported>, types: seq<Signature>): seq<Import>
    requires ImportsHold(imports, types)
  {
    seq(|imports|, i requires 0 <= i < |imports| => ImportMeant(imports[i], types))
  }

  /** The types of all functions imported, in order. */
  function AllImportedTypes(imports: seq<Imported>): seq<nat> {
    if imports == [] then [] else ImportedTypes(imports[0]) + AllImportedTypes(imports[1..])
  }

  function AllImportedMemories(imports: seq<Imported>): seq<Memory> {
    if imports == [] then [] else ImportedMemories(imports[0]) + AllImportedMemories(imports[1..])
  }

  /** No name is taken, and none comes twice. */
  predicate ExportsHold(exports: seq<Exported>, names: set<Bytes>) {
    (forall i :: 0 <= i < |exports| ==> exports[i].name.text !in names) &&
    forall i, j :: 0 <= i < j < |exports| ==> exports[i].name.text != exports[j].name.text
  }

  function ExportedNames(exports: seq<Exported>): set<Bytes> { set i | 0 <= i < |exports| :: exports[i].name.text }

  /** All exports of one kind, in order. */
  function AllOfKind(exports: seq<Exported>, kind: Byte): seq<NamedIndex> {
    if exports == [] then [] else ExportsOfKind(exports[0], kind) + AllOfKind(exports[1..], kind)
  }

  /** A section that counts right and refers to what was declared before. */
  predicate FormHolds(f: Form, m: Module) {
    match f
    case TypeSection(count, types) => count.value == |types|
    case ImportSection(count, imports) => count.value == |imports| && ImportsHold(imports, m.types)
    case FunctionSection(count, functions) => count.value == |functions|
    case MemorySection(count, memories) => count.value == |memories|
    case ExportSection(count, exports) => count.value == |exports| && ExportsHold(exports, m.names)
    case StartSection(_) => true
    case OtherSection(id, _) => id !in {1, 2, 3, 5, 7, 8}
  }

  function WithImports(m: Module, imports: seq<Imported>): Module
    requires ImportsHold(imports, m.types)
  {
    m.(importedFunctions := m.importedFunctions + AllImportedTypes(imports),
       imports := m.imports + ImportsMeant(imports, m.types),
       memories := m.memories + AllImportedMemories(imports))
  }

  function WithExports(m: Module, exports: seq<Exported>): Module {
    m.(names := m.names + ExportedNames(exports),
       exportedFunctions := m.exportedFunctions + AllOfKind(exports, 0),
       exportedMemories := m.exportedMemories + AllOfKind(exports, 2))
  }

  /** What a module holds once a section has been added. */
  function With(m: Module, f: Form): Module
    requires FormHolds(f, m)
  {
    match f
    case TypeSection(_, types) => m.(types := m.types + FunctionsMeant(types))
    case ImportSection(_, imports) => WithImports(m, imports)
    case FunctionSection(_, functions) => m.(functions := m.functions + NumsMeant(functions))
    case MemorySection(_, memories) => m.(memories := m.memories + MemoriesMeant(memories))
    case ExportSection(_, exports) => WithExports(m, exports)
    case StartSection(index) => m.(start := Some(index.value))
    case OtherSection(_, _) => m
  }

  // ----- Lists of elements -----

  lemma {:induction false} FunctionsRead(types: seq<Function>, rest: Bytes, done: seq<Signature>)
    ensures ReadTypes(|types|, FunctionsSpelled(types) + rest, done) == Some(Taken(done + FunctionsMeant(types), rest))
    decreases |types|
  {
    hide ReadSignature, FunctionSpelled, FunctionMeant, IsFunction;
    if types == [] {
      assert [] + rest == rest && done + FunctionsMeant(types) == done;
    } else {
      var f, more := types[0], types[1..];
      FunctionReads(f, FunctionsSpelled(more) + rest);
      FunctionsRead(more, rest, done + [FunctionMeant(f)]);
      Twice(FunctionSpelled(f), FunctionsSpelled(more), rest);
      assert done + [FunctionMeant(f)] + FunctionsMeant(more) == done + FunctionsMeant(types);
    }
  }

  lemma {:induction false} FunctionsFound(n: nat, b: Bytes, done: seq<Signature>) returns (types: seq<Function>)
    requires ReadTypes(n, b, done).Some?
    ensures |types| == n && b == FunctionsSpelled(types) + ReadTypes(n, b, done).value.rest
    decreases n
  {
    hide ReadSignature, FunctionSpelled, IsFunction;
    if n == 0 {
      types := [];
      assert [] + b == b;
    } else {
      var f := FunctionFound(b);
      var t := ReadSignature(b).value;
      var more := FunctionsFound(n - 1, t.rest, done + [t.value]);
      types := [f] + more;
      assert types[1..] == more;
      var rest := ReadTypes(n, b, done).value.rest;
      Twice(FunctionSpelled(f), FunctionsSpelled(more), rest);
    }
  }

  lemma {:induction false} NumsRead(nums: seq<Num>, rest: Bytes, done: seq<nat>)
    ensures ReadFunctions(|nums|, NumsSpelled(nums) + rest, done) == Some(Taken(done + NumsMeant(nums), rest))
    decreases |nums|
  {
    hide ReadUnsigned, IsNum;
    if nums == [] {
      assert [] + rest == rest && done + NumsMeant(nums) == done;
    } else {
      var n, more := nums[0], nums[1..];
      NumReads(n, NumsSpelled(more) + rest);
      NumsRead(more, rest, done + [n.value]);
      Twice(n.bytes, NumsSpelled(more), rest);
      assert done + [n.value] + NumsMeant(more) == done + NumsMeant(nums);
    }
  }

  lemma {:induction false} NumsFound(n: nat, b: Bytes, done: seq<nat>) returns (nums: seq<Num>)
    requires ReadFunctions(n, b, done).Some?
    ensures |nums| == n && b == NumsSpelled(nums) + ReadFunctions(n, b, done).value.rest
    decreases n
  {
    hide ReadUnsigned, IsNum;
    if n == 0 {
      nums := [];
      assert [] + b == b;
    } else {
      var first := NumFound(b);
      var t := ReadUnsigned(b).value;
      var more := NumsFound(n - 1, t.rest, done + [t.value]);
      nums := [first] + more;
      assert nums[1..] == more;
      var rest := ReadFunctions(n, b, done).value.rest;
      Twice(first.bytes, NumsSpelled(more), rest);
    }
  }

  lemma {:induction false} MemoriesRead(memories: seq<Bounds>, rest: Bytes, done: seq<Memory>)
    ensures
      ReadMemories(|memories|, MemoriesSpelled(memories) + rest, done) ==
      Some(Taken(done + MemoriesMeant(memories), rest))
    decreases |memories|
  {
    hide ReadLimits, IsBounds, BoundsSpelled, BoundsMeant;
    if memories == [] {
      assert [] + rest == rest && done + MemoriesMeant(memories) == done;
    } else {
      var l, more := memories[0], memories[1..];
      var memory := Memory(false, BoundsMeant(l));
      BoundsRead(l, MemoriesSpelled(more) + rest);
      MemoriesRead(more, rest, done + [memory]);
      Twice(BoundsSpelled(l), MemoriesSpelled(more), rest);
      assert done + [memory] + MemoriesMeant(more) == done + MemoriesMeant(memories);
    }
  }

  lemma {:induction false} MemoriesFound(n: nat, b: Bytes, done: seq<Memory>) returns (memories: seq<Bounds>)
    requires ReadMemories(n, b, done).Some?
    ensures |memories| == n && b == MemoriesSpelled(memories) + ReadMemories(n, b, done).value.rest
    decreases n
  {
    hide ReadLimits, IsBounds, BoundsSpelled;
    if n == 0 {
      memories := [];
      assert [] + b == b;
    } else {
      var l := BoundsFound(b);
      var t := ReadLimits(b).value;
      var more := MemoriesFound(n - 1, t.rest, done + [Memory(false, t.value)]);
      memories := [l] + more;
      assert memories[1..] == more;
      var rest := ReadMemories(n, b, done).value.rest;
      Twice(BoundsSpelled(l), MemoriesSpelled(more), rest);
    }
  }

  /** One import more. */
  lemma ImportsNext(m: Module, i: Imported, more: seq<Imported>)
    requires DescHolds(i.desc, m.types) && ImportsHold(more, m.types)
    ensures ImportsHold([i] + more, m.types) && WithImports(WithImport(m, i), more) == WithImports(m, [i] + more)
  {
    hide DescHolds, ImportMeant, ImportedTypes, ImportedMemories;
    var all := [i] + more;
    assert all[1..] == more;
    assert ImportsMeant(all, m.types) == [ImportMeant(i, m.types)] + ImportsMeant(more, m.types);
    var a, b := ImportedTypes(i), AllImportedTypes(more);
    assert m.importedFunctions + a + b == m.importedFunctions + (a + b);
    var c, d := ImportedMemories(i), AllImportedMemories(more);
    assert m.memories + c + d == m.memories + (c + d);
    var e, f := [ImportMeant(i, m.types)], ImportsMeant(more, m.types);
    assert m.imports + e + f == m.imports + (e + f);
  }

  lemma ImportStep(n: nat, i: Imported, rest: Bytes, m: Module)
    requires n > 0 && DescHolds(i.desc, m.types)
    ensures ReadImports(n, ImportSpelled(i) + rest, m) == ReadImports(n - 1, rest, WithImport(m, i))
  {
    hide ReadName, ReadImportKind, NameSpelled, DescSpelled, WithImport, IsName, IsDesc, DescHolds;
    var name := NameSpelled(i.name) + (DescSpelled(i.desc) + rest);
    Thrice(NameSpelled(i.from), NameSpelled(i.name), DescSpelled(i.desc), rest);
    NameReads(i.from, name);
    NameReads(i.name, DescSpelled(i.desc) + rest);
    DescReads(i, m, rest);
  }

  lemma NoImports(m: Module)
    ensures ImportsHold([], m.types) && WithImports(m, []) == m
  {
    NoneAdded(m.importedFunctions);
    NoneAdded(m.memories);
    NoneAdded(m.imports);
    assert ImportsMeant([], m.types) == [];
  }

  lemma {:induction false} ImportsRead(imports: seq<Imported>, rest: Bytes, m: Module)
    requires ImportsHold(imports, m.types)
    ensures ReadImports(|imports|, ImportsSpelled(imports) + rest, m) == Some(Taken(WithImports(m, imports), rest))
    decreases |imports|
  {
    hide ReadName, ReadImportKind, ImportSpelled, WithImports, DescHolds, IsDesc, IsName;
    if imports == [] {
      NoImports(m);
      assert [] + rest == rest;
    } else {
      var i, more := imports[0], imports[1..];
      assert imports == [i] + more;
      ImportStep(|imports|, i, ImportsSpelled(more) + rest, m);
      ImportsRead(more, rest, WithImport(m, i));
      ImportsNext(m, i, more);
      Twice(ImportSpelled(i), ImportsSpelled(more), rest);
    }
  }

  lemma ImportFound(n: nat, b: Bytes, m: Module) returns (i: Imported, rest: Bytes)
    requires n > 0 && ReadImports(n, b, m).Some?
    ensures DescHolds(i.desc, m.types) && b == ImportSpelled(i) + rest
  {
    hide ReadImportKind, ReadName, NameSpelled, DescSpelled, IsName, IsDesc, DescHolds, WithImport;
    var from := NameFound(b);
    var after := ReadName(b).value.rest;
    var name := NameFound(after);
    var kind := ReadName(after).value.rest;
    var d := DescFound(kind, m, from, name);
    i, rest := Imported(from, name, d), ReadImportKind(kind, m, from.text, name.text).value.rest;
    Thrice(NameSpelled(from), NameSpelled(name), DescSpelled(d), rest);
  }

  lemma NoneRead(b: Bytes, m: Module)
    ensures ReadImports(0, b, m) == Some(Taken(m, b)) && ReadExports(0, b, m) == Some(Taken(m, b)) && [] + b == b
  {
  }

  lemma {:induction false} ImportsFound(n: nat, b: Bytes, m: Module) returns (imports: seq<Imported>)
    requires ReadImports(n, b, m).Some?
    ensures ImportsHold(imports, m.types) && |imports| == n
    ensures b == ImportsSpelled(imports) + ReadImports(n, b, m).value.rest
    decreases n
  {
    hide ReadImports, ImportSpelled, DescHolds, IsDesc, IsName, WithImports;
    if n == 0 {
      imports := [];
      NoneRead(b, m);
    } else {
      var i, after := ImportFound(n, b, m);
      ImportStep(n, i, after, m);
      var more := ImportsFound(n - 1, after, WithImport(m, i));
      imports := [i] + more;
      assert imports[1..] == more;
      ImportsNext(m, i, more);
      Twice(ImportSpelled(i), ImportsSpelled(more), ReadImports(n, b, m).value.rest);
    }
  }

  /** One export more. */
  lemma ExportsNext(m: Module, e: Exported, more: seq<Exported>)
    ensures ExportsHold([e] + more, m.names) <==>
      e.name.text !in m.names && ExportsHold(more, WithExport(m, e).names)
    ensures WithExports(WithExport(m, e), more) == WithExports(m, [e] + more)
  {
    hide ExportsOfKind, IsName;
    var all := [e] + more;
    assert all[1..] == more;
    forall i | 0 <= i < |more| ensures all[i + 1] == more[i] {}
    NamesGrow(e, more);
    var a, b := ExportsOfKind(e, 0), AllOfKind(more, 0);
    assert m.exportedFunctions + a + b == m.exportedFunctions + (a + b);
    var c, d := ExportsOfKind(e, 2), AllOfKind(more, 2);
    assert m.exportedMemories + c + d == m.exportedMemories + (c + d);
    assert m.names + {e.name.text} + ExportedNames(more) == m.names + ({e.name.text} + ExportedNames(more));
    ExportsHoldNext(m.names, e, more);
  }

  lemma ExportsHoldNext(names: set<Bytes>, e: Exported, more: seq<Exported>)
    ensures ExportsHold([e] + more, names) <==>
      e.name.text !in names && ExportsHold(more, names + {e.name.text})
  {
    hide IsName;
    var all := [e] + more;
    forall i | 0 <= i < |more| ensures all[i + 1] == more[i] {}
    if ExportsHold(all, names) {
      assert all[0] == e;
      forall i | 0 <= i < |more| ensures more[i].name.text !in names + {e.name.text} { assert all[i + 1] == more[i]; }
      forall i, j | 0 <= i < j < |more| ensures more[i].name.text != more[j].name.text {
        assert all[i + 1] == more[i] && all[j + 1] == more[j];
      }
    }
    if e.name.text !in names && ExportsHold(more, names + {e.name.text}) {
      forall i | 0 <= i < |all| ensures all[i].name.text !in names { assert i > 0 ==> all[i] == more[i - 1]; }
      forall i, j | 0 <= i < j < |all| ensures all[i].name.text != all[j].name.text {
        assert all[j] == more[j - 1] && (i > 0 ==> all[i] == more[i - 1]);
      }
    }
  }

  lemma NamesGrow(e: Exported, more: seq<Exported>)
    ensures ExportedNames([e] + more) == {e.name.text} + ExportedNames(more)
  {
    hide IsName;
    var all := [e] + more;
    forall i | 0 <= i < |more| ensures all[i + 1] == more[i] {}
    forall x | x in ExportedNames(all) ensures x in {e.name.text} + ExportedNames(more) {
      var i :| 0 <= i < |all| && all[i].name.text == x;
      assert i > 0 ==> all[i] == more[i - 1];
    }
    forall x | x in {e.name.text} + ExportedNames(more) ensures x in ExportedNames(all) {
      if x == e.name.text {
        assert all[0].name.text == x;
      } else {
        var i :| 0 <= i < |more| && more[i].name.text == x;
        assert all[i + 1].name.text == x;
      }
    }
  }

  lemma NoExports(m: Module)
    ensures WithExports(m, []) == m
  {
    NoneAdded(m.exportedFunctions);
    NoneAdded(m.exportedMemories);
    assert ExportedNames([]) == {} && m.names + {} == m.names;
  }

  lemma {:induction false} ExportsRead(exports: seq<Exported>, rest: Bytes, m: Module)
    requires ExportsHold(exports, m.names)
    ensures ReadExports(|exports|, ExportsSpelled(exports) + rest, m) == Some(Taken(WithExports(m, exports), rest))
    decreases |exports|
  {
    hide ReadExport, ExportSpelled, WithExports, WithExport, ExportsHold, IsName;
    if exports == [] {
      NoExports(m);
      assert [] + rest == rest;
    } else {
      var e, more := exports[0], exports[1..];
      assert exports == [e] + more;
      ExportsNext(m, e, more);
      ExportReads(e, m, ExportsSpelled(more) + rest);
      ExportsRead(more, rest, WithExport(m, e));
      Twice(ExportSpelled(e), ExportsSpelled(more), rest);
    }
  }

  lemma ExportStep(n: nat, b: Bytes, m: Module)
    requires n > 0 && ReadExports(n, b, m).Some?
    ensures ReadExport(b, m).Some?
    ensures ReadExports(n, b, m) == ReadExports(n - 1, ReadExport(b, m).value.rest, ReadExport(b, m).value.value)
  {
    hide ReadExport;
  }

  lemma {:induction false} ExportsFound(n: nat, b: Bytes, m: Module) returns (exports: seq<Exported>)
    requires ReadExports(n, b, m).Some?
    ensures ExportsHold(exports, m.names) && |exports| == n
    ensures b == ExportsSpelled(exports) + ReadExports(n, b, m).value.rest
    decreases n
  {
    hide ReadExports, ReadExport, ExportSpelled, WithExports, WithExport, IsName;
    if n == 0 {
      exports := [];
      NoneRead(b, m);
    } else {
      hide ExportsHold;
      ExportStep(n, b, m);
      var e := ExportFound(b, m);
      var t := ReadExport(b, m).value;
      var more := ExportsFound(n - 1, t.rest, t.value);
      exports := [e] + more;
      assert exports[1..] == more;
      ExportsNext(m, e, more);
      Twice(ExportSpelled(e), ExportsSpelled(more), ReadExports(n, b, m).value.rest);
    }
  }

  // ----- Sections -----

  /** A section of the grammar, read by its id, adds what it declares. */
  lemma FormReads(f: Form, m: Module)
    requires FormHolds(f, m)
    ensures ReadSection(FormId(f), FormSpelled(f), m) == Some(With(m, f))
  {
    hide ReadTypes, ReadImports, ReadFunctions, ReadMemories, ReadExports, ReadUnsigned, IsNum;
    hide FunctionsSpelled, ImportsSpelled, NumsSpelled, MemoriesSpelled, ExportsSpelled, WithImports, WithExports;
    hide FunctionsMeant, NumsMeant, MemoriesMeant, ImportsHold, ExportsHold;
    match f
    case TypeSection(count, types) =>
      NumReads(count, FunctionsSpelled(types));
      FunctionsRead(types, [], m.types);
      NoneAdded(FunctionsSpelled(types));
    case ImportSection(count, imports) =>
      NumReads(count, ImportsSpelled(imports));
      ImportsRead(imports, [], m);
      NoneAdded(ImportsSpelled(imports));
    case FunctionSection(count, functions) =>
      NumReads(count, NumsSpelled(functions));
      NumsRead(functions, [], m.functions);
      NoneAdded(NumsSpelled(functions));
    case MemorySection(count, memories) =>
      NumReads(count, MemoriesSpelled(memories));
      MemoriesRead(memories, [], m.memories);
      NoneAdded(MemoriesSpelled(memories));
    case ExportSection(count, exports) =>
      NumReads(count, ExportsSpelled(exports));
      ExportsRead(exports, [], m);
      NoneAdded(ExportsSpelled(exports));
    case StartSection(index) =>
      NumReads(index, []);
      NoneAdded(index.bytes);
    case OtherSection(_, _) =>
  }

  lemma FormFound(id: Byte, content: Bytes, m: Module) returns (f: Form)
    requires ReadSection(id, content, m).Some?
    ensures FormHolds(f, m) && FormId(f) == id && FormSpelled(f) == content
    ensures ReadSection(id, content, m) == Some(With(m, f))
  {
    f := FormBytes(id, content, m);
    hide ReadSection, FormSpelled, With, FormHolds;
    FormReads(f, m);
  }

  lemma FormBytes(id: Byte, content: Bytes, m: Module) returns (f: Form)
    requires ReadSection(id, content, m).Some?
    ensures FormHolds(f, m) && FormId(f) == id && FormSpelled(f) == content
  {
    hide ReadTypes, ReadImports, ReadFunctions, ReadMemories, ReadExports, ReadUnsigned, IsNum;
    hide FunctionsSpelled, ImportsSpelled, NumsSpelled, MemoriesSpelled, ExportsSpelled, ImportsHold, ExportsHold;
    if !Known(id) {
      f := OtherSection(id, content);
    } else {
      var count := NumFound(content);
      var n := ReadUnsigned(content).value;
      if id == 1 {
        var types := FunctionsFound(n.value, n.rest, m.types);
        f := TypeSection(count, types);
        NoneAdded(FunctionsSpelled(types));
      } else if id == 2 {
        var imports := ImportsFound(n.value, n.rest, m);
        f := ImportSection(count, imports);
        NoneAdded(ImportsSpelled(imports));
      } else if id == 3 {
        var functions := NumsFound(n.value, n.rest, m.functions);
        f := FunctionSection(count, functions);
        NoneAdded(NumsSpelled(functions));
      } else if id == 5 {
        var memories := MemoriesFound(n.value, n.rest, m.memories);
        f := MemorySection(count, memories);
        NoneAdded(MemoriesSpelled(memories));
      } else if id == 7 {
        var exports := ExportsFound(n.value, n.rest, m);
        f := ExportSection(count, exports);
        NoneAdded(ExportsSpelled(exports));
      } else {
        f := StartSection(count);
        NoneAdded(count.bytes);
      }
    }
  }

  // ----- Modules -----

  /** A section with the size written before it. */
  datatype AnySized = Sized(size: Num, form: Form)

  type Sized = s: AnySized | s.size.value == |FormSpelled(s.form)| witness Sized(ZERO, OtherSection(0, []))

  function SectionsSpelled(sections: seq<Sized>): Bytes {
    if sections == [] then []
    else
      [FormId(sections[0].form)] + sections[0].size.bytes + FormSpelled(sections[0].form) +
      SectionsSpelled(sections[1..])
  }

  /** Every section holds in the module declared before it. */
  predicate SectionsHold(sections: seq<Sized>, m: Module)
    decreases |sections|
  {
    sections == [] ||
    (FormHolds(sections[0].form, m) && SectionsHold(sections[1..], With(m, sections[0].form)))
  }

  /** What a module holds once all sections have been added in turn. */
  function Declared(sections: seq<Sized>, m: Module): Module
    requires SectionsHold(sections, m)
    decreases |sections|
  {
    if sections == [] then m else Declared(sections[1..], With(m, sections[0].form))
  }

  lemma SectionStep(s: Sized, rest: Bytes, m: Module)
    requires FormHolds(s.form, m)
    ensures
      ReadSections([FormId(s.form)] + (s.size.bytes + (FormSpelled(s.form) + rest)), m) ==
      ReadSections(rest, With(m, s.form))
  {
    hide ReadUnsigned, ReadSection, FormSpelled, With, FormHolds, IsNum;
    var content := FormSpelled(s.form);
    var b := [FormId(s.form)] + (s.size.bytes + (content + rest));
    assert b[1..] == s.size.bytes + (content + rest);
    NumReads(s.size, content + rest);
    assert (content + rest)[..|content|] == content && (content + rest)[|content|..] == rest;
    FormReads(s.form, m);
  }

  lemma {:induction false} SectionsRead(sections: seq<Sized>, m: Module)
    requires SectionsHold(sections, m)
    ensures ReadSections(SectionsSpelled(sections), m) == Some(Declared(sections, m))
    decreases |sections|
  {
    if sections != [] {
      hide ReadSections, FormSpelled, With, FormHolds;
      var s, more := sections[0], sections[1..];
      SectionStep(s, SectionsSpelled(more), m);
      SectionsRead(more, With(m, s.form));
      Thrice([FormId(s.form)], s.size.bytes, FormSpelled(s.form), SectionsSpelled(more));
    }
  }

  lemma FirstSection(b: Bytes, m: Module) returns (s: Sized, rest: Bytes)
    requires b != [] && ReadSections(b, m).Some?
    ensures FormHolds(s.form, m) && |rest| < |b|
    ensures b == [FormId(s.form)] + (s.size.bytes + (FormSpelled(s.form) + rest))
  {
    hide ReadSection, FormSpelled, With, FormHolds, IsNum, ReadUnsigned;
    UnsignedExact(b[1..]);
    var size := NumFound(b[1..]);
    var t := ReadUnsigned(b[1..]).value;
    var content := t.rest[..size.value];
    var f := FormFound(b[0], content, m);
    s, rest := Sized(size, f), t.rest[size.value..];
    assert t.rest == content + rest;
    assert b == [b[0]] + b[1..];
  }

  lemma {:induction false} SectionsFound(b: Bytes, m: Module) returns (sections: seq<Sized>)
    requires ReadSections(b, m).Some?
    ensures SectionsHold(sections, m) && SectionsSpelled(sections) == b
    decreases |b|
  {
    if b == [] {
      sections := [];
    } else {
      var s, rest := FirstSection(b, m);
      hide ReadSections, FormSpelled, With, FormHolds;
      SectionStep(s, rest, m);
      var more := SectionsFound(rest, With(m, s.form));
      sections := [s] + more;
      assert sections[1..] == more;
      Thrice([FormId(s.form)], s.size.bytes, FormSpelled(s.form), rest);
    }
  }

  /** The header, and sections that declare a module. */
  ghost predicate Declares(b: Bytes, m: Module) {
    exists sections: seq<Sized> ::
      SectionsHold(sections, EMPTY) && b == HEADER + SectionsSpelled(sections) && Declared(sections, EMPTY) == m
  }

  /** Bytes are read to a module exactly when they declare it. */
  lemma ModuleExactly(b: Bytes, m: Module)
    ensures HEADER <= b && ReadSections(b[|HEADER|..], EMPTY) == Some(m) <==> Declares(b, m)
  {
    hide ReadSections, SectionsSpelled, SectionsHold, Declared;
    if sections: seq<Sized> :|
      SectionsHold(sections, EMPTY) && b == HEADER + SectionsSpelled(sections) && Declared(sections, EMPTY) == m
    {
      SectionsRead(sections, EMPTY);
      assert b[|HEADER|..] == SectionsSpelled(sections);
    }
    if HEADER <= b && ReadSections(b[|HEADER|..], EMPTY) == Some(m) {
      var sections := SectionsFound(b[|HEADER|..], EMPTY);
      SectionsRead(sections, EMPTY);
      assert b == HEADER + b[|HEADER|..];
    }
  }

  /** Everything exported is there. */
  ghost predicate Complete(m: Module) {
    (forall i :: 0 <= i < |m.exportedFunctions| ==> Resolves(m, m.exportedFunctions[i])) &&
    forall i :: 0 <= i < |m.exportedMemories| ==> m.exportedMemories[i].index < |m.memories|
  }

  /** An export of an inspection is that of the module, with the type of its function. */
  ghost predicate ShowsExport(m: Module, e: NamedIndex, shown: FunctionExport) {
    Resolves(m, e) && shown.name == e.name && shown.signature == m.types[FunctionSpace(m)[e.index]] &&
    (shown.imported <==> e.index < |m.importedFunctions|)
  }

  /** The names of a memory are those it is exported under, rising. */
  ghost predicate ShowsNames(m: Module, at: nat, names: seq<Bytes>) {
    Rising(names) && forall n :: n in names <==> NamedIndex(n, at) in m.exportedMemories
  }

  /** What an inspection shows of a module. */
  ghost predicate Shows(m: Module, r: Inspection) {
    r.imports == m.imports && r.memories == m.memories && r.start == m.start &&
    |r.exports| == |m.exportedFunctions| && |r.memoryNames| == |m.memories| &&
    (forall i :: 0 <= i < |r.exports| ==> ShowsExport(m, m.exportedFunctions[i], r.exports[i])) &&
    forall at :: 0 <= at < |m.memories| ==> ShowsNames(m, at, r.memoryNames[at])
  }

  lemma ShowsResolved(b: Bytes, m: Module)
    requires ReadSections(b, EMPTY) == Some(m) && ResolveExports(m, m.exportedFunctions).Some?
    ensures
      Shows(m, Inspection(m.imports, m.memories, ResolveExports(m, m.exportedFunctions).value, MemoryNames(m), m.start))
  {
    hide ReadSections, ResolveExports, MemoryNames, NamesKept, Rising;
    ExportsResolve(m, m.exportedFunctions);
    NothingNamed();
    SectionsKeepNames(b, EMPTY);
    forall at | 0 <= at < |m.memories|
      ensures |MemoryNames(m)| == |m.memories| && ShowsNames(m, at, MemoryNames(m)[at])
    {
      MemoriesNamed(m, at);
    }
    MemoryNamesLength(m);
  }

  lemma NothingNamed()
    ensures NamesKept(EMPTY)
  {
  }

  /** An inspection answers exactly for bytes that declare a module complete in itself, and shows that module. */
  lemma InspectExactly(b: Bytes)
    ensures
      match Inspect(b)
      case None => forall m :: Declares(b, m) ==> !Complete(m)
      case Some(r) => exists m :: Declares(b, m) && Complete(m) && Shows(m, r)
  {
    hide ReadSections, Declares, ResolveExports, MemoryNames, Shows, Resolves;
    if HEADER <= b && ReadSections(b[|HEADER|..], EMPTY).Some? {
      var m := ReadSections(b[|HEADER|..], EMPTY).value;
      ModuleExactly(b, m);
      ExportsResolve(m, m.exportedFunctions);
      if Inspect(b).Some? { ShowsResolved(b[|HEADER|..], m); }
    }
    forall m | Declares(b, m) ensures HEADER <= b && ReadSections(b[|HEADER|..], EMPTY) == Some(m) {
      ModuleExactly(b, m);
    }
  }
}
