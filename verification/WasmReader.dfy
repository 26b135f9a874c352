/** `inspect` and its parsers as they run: a cursor that advances and lists that grow. */
module WasmReaders {
  import opened Prelude
  import opened HtaData
  import opened WasmBinary
  import WasmSections

  /** A parser took what the specification takes and stands where it stops. */
  ghost predicate Took<T>(spec: Option<Taken<T>>, r: Option<T>, left: Bytes) {
    match r
    case None => spec.None?
    case Some(v) => spec == Some(Taken(v, left))
  }

  class Cursor {
    const bytes: Bytes
    var at: nat

    ghost predicate Valid()
      reads this
    {
      at <= |bytes|
    }

    ghost function Left(): Bytes
      reads this
      requires Valid()
    {
      bytes[at..]
    }

    constructor (bytes: Bytes)
      ensures Valid() && Left() == bytes && this.bytes == bytes
    {
      this.bytes := bytes;
      at := 0;
    }

    method NextByte() returns (r: Option<Byte>)
      requires Valid()
      modifies this
      ensures Valid() && Took(ReadByte(old(Left())), r, Left())
    {
      if at >= |bytes| { return None; }
      at := at + 1;
      assert bytes[at..] == bytes[at - 1..][1..];
      return Some(bytes[at - 1]);
    }

    /** `unsigned`; the bits of each byte are added above those already there. */
    method Unsigned() returns (r: Option<nat>)
      requires Valid()
      modifies this
      ensures Valid() && Took(ReadUnsigned(old(Left())), r, Left())
    {
      hide Place;
      var value: nat := 0;
      var shift := 0;
      while shift < 35
        invariant Valid() && 0 <= shift
        invariant UnsignedFrom(Left(), shift, value) == ReadUnsigned(old(Left()))
      {
        var b := NextByte();
        if b.None? { return None; }
        if shift == 28 && b.value >= 16 { return None; }
        value := value + Place(b.value % 128, shift);
        if b.value < 128 { return Some(value); }
        shift := shift + 7;
      }
      return None;
    }

    method Name() returns (r: Option<Bytes>)
      requires Valid()
      modifies this
      ensures Valid() && Took(ReadName(old(Left())), r, Left())
    {
      hide ReadUnsigned, ValidUtf8;
      var size := Unsigned();
      if size.None? { return None; }
      var end := at + size.value;
      if end > |bytes| { return None; }
      var text := bytes[at..end];
      assert text == Left()[..size.value] && bytes[end..] == Left()[size.value..];
      if !ValidUtf8(text) { return None; }
      at := end;
      return Some(text);
    }

    method TypeList() returns (r: Option<seq<ValueType>>)
      requires Valid()
      modifies this
      ensures Valid() && Took(ReadTypeList(old(Left())), r, Left())
    {
      hide ReadUnsigned, ValueTypeOf;
      var n := Unsigned();
      if n.None? { return None; }
      var types: seq<ValueType> := [];
      var left := n.value;
      ghost var start := Left();
      while left > 0
        invariant Valid() && ReadValueTypes(left, Left(), types) == ReadValueTypes(n.value, start, [])
      {
        var b := NextByte();
        if b.None? { return None; }
        var t := ValueTypeOf(b.value);
        if t.None? { return None; }
        types := types + [t.value];
        left := left - 1;
      }
      return Some(types);
    }

    method OneSignature() returns (r: Option<Signature>)
      requires Valid()
      modifies this
      ensures Valid() && Took(ReadSignature(old(Left())), r, Left())
    {
      hide ReadTypeList;
      var b := NextByte();
      if b.None? || b.value != 0x60 { return None; }
      var arguments := TypeList();
      if arguments.None? { return None; }
      var results := TypeList();
      if results.None? || |results.value| > 1 { return None; }
      return Some(Signature(arguments.value, if results.value == [] then None else Some(results.value[0])));
    }

    method OneLimits() returns (r: Option<Limits>)
      requires Valid()
      modifies this
      ensures Valid() && Took(ReadLimits(old(Left())), r, Left())
    {
      hide ReadUnsigned;
      var flags := Unsigned();
      if flags.None? || flags.value > 3 { return None; }
      var minimum := Unsigned();
      if minimum.None? { return None; }
      var maximum: Option<nat> := None;
      if flags.value % 2 == 1 {
        maximum := Unsigned();
        if maximum.None? { return None; }
      }
      var shared := flags.value >= 2;
      if shared && maximum.None? { return None; }
      if maximum.Some? && maximum.value < minimum.value { return None; }
      return Some(Limits(minimum.value, maximum, shared));
    }

    method Types(n: nat, before: seq<Signature>) returns (r: Option<seq<Signature>>)
      requires Valid()
      modifies this
      ensures Valid() && Took(ReadTypes(n, old(Left()), before), r, Left())
    {
      hide ReadSignature;
      var types, left := before, n;
      while left > 0
        invariant Valid() && ReadTypes(left, Left(), types) == ReadTypes(n, old(Left()), before)
      {
        var s := OneSignature();
        if s.None? { return None; }
        types := types + [s.value];
        left := left - 1;
      }
      return Some(types);
    }

    /** The part of an import after its names. */
    method ImportKind(m: Module, from: Bytes, name: Bytes) returns (r: Option<Module>)
      requires Valid()
      modifies this
      ensures Valid() && Took(ReadImportKind(old(Left()), m, from, name), r, Left())
    {
      hide ReadUnsigned, ReadLimits;
      var kind := NextByte();
      if kind.None? { return None; }
      if kind.value == 0 {
        var t := Unsigned();
        if t.None? || t.value >= |m.types| { return None; }
        return Some(m.(importedFunctions := m.importedFunctions + [t.value],
                       imports := m.imports + [Import(from, name, FunctionImport, Some(m.types[t.value]))]));
      }
      if kind.value == 1 {
        var reference := NextByte();
        if reference.None? || (reference.value != 0x70 && reference.value != 0x6f) { return None; }
        var limits := OneLimits();
        if limits.None? { return None; }
        return Some(m.(imports := m.imports + [Import(from, name, TableImport, None)]));
      }
      if kind.value == 2 {
        var limits := OneLimits();
        if limits.None? { return None; }
        return Some(m.(memories := m.memories + [Memory(true, limits.value)],
                       imports := m.imports + [Import(from, name, MemoryImport, None)]));
      }
      if kind.value == 3 {
        ghost var start := Left();
        var t := NextByte();
        if t.None? || !(0x7b <= t.value <= 0x7f || t.value == 0x70 || t.value == 0x6f) { return None; }
        var mutability := NextByte();
        if mutability.None? || mutability.value > 1 { return None; }
        assert Left() == start[1..][1..] == start[2..];
        return Some(m.(imports := m.imports + [Import(from, name, GlobalImport, None)]));
      }
      if kind.value == 4 {
        var attribute := NextByte();
        if attribute.None? || attribute.value != 0 { return None; }
        var t := Unsigned();
        if t.None? || t.value >= |m.types| { return None; }
        return Some(m.(imports := m.imports + [Import(from, name, TagImport, None)]));
      }
      return None;
    }

    method Imports(n: nat, before: Module) returns (r: Option<Module>)
      requires Valid()
      modifies this
      ensures Valid() && Took(ReadImports(n, old(Left()), before), r, Left())
    {
      hide ReadName, ReadImportKind;
      var m, left := before, n;
      while left > 0
        invariant Valid() && ReadImports(left, Left(), m) == ReadImports(n, old(Left()), before)
      {
        var from := Name();
        if from.None? { return None; }
        var name := Name();
        if name.None? { return None; }
        var next := ImportKind(m, from.value, name.value);
        if next.None? { return None; }
        m := next.value;
        left := left - 1;
      }
      return Some(m);
    }

    method Functions(n: nat, before: seq<nat>) returns (r: Option<seq<nat>>)
      requires Valid()
      modifies this
      ensures Valid() && Took(ReadFunctions(n, old(Left()), before), r, Left())
    {
      hide ReadUnsigned;
      var functions, left := before, n;
      while left > 0
        invariant Valid() && ReadFunctions(left, Left(), functions) == ReadFunctions(n, old(Left()), before)
      {
        var t := Unsigned();
        if t.None? { return None; }
        functions := functions + [t.value];
        left := left - 1;
      }
      return Some(functions);
    }

    method Memories(n: nat, before: seq<Memory>) returns (r: Option<seq<Memory>>)
      requires Valid()
      modifies this
      ensures Valid() && Took(ReadMemories(n, old(Left()), before), r, Left())
    {
      hide ReadLimits;
      var memories, left := before, n;
      while left > 0
        invariant Valid() && ReadMemories(left, Left(), memories) == ReadMemories(n, old(Left()), before)
      {
        var limits := OneLimits();
        if limits.None? { return None; }
        memories := memories + [Memory(false, limits.value)];
        left := left - 1;
      }
      return Some(memories);
    }

    method OneExport(m: Module) returns (r: Option<Module>)
      requires Valid()
      modifies this
      ensures Valid() && Took(ReadExport(old(Left()), m), r, Left())
    {
      hide ReadName, ReadUnsigned;
      var name := Name();
      if name.None? { return None; }
      if name.value in m.names { return None; }
      var named := m.(names := m.names + {name.value});
      var kind := NextByte();
      if kind.None? { return None; }
      var index := Unsigned();
      if index.None? { return None; }
      var entry := NamedIndex(name.value, index.value);
      if kind.value == 0 { return Some(named.(exportedFunctions := m.exportedFunctions + [entry])); }
      if kind.value == 2 { return Some(named.(exportedMemories := m.exportedMemories + [entry])); }
      if kind.value == 1 || kind.value == 3 || kind.value == 4 { return Some(named); }
      return None;
    }

    method Exports(n: nat, before: Module) returns (r: Option<Module>)
      requires Valid()
      modifies this
      ensures Valid() && Took(ReadExports(n, old(Left()), before), r, Left())
    {
      hide ReadExport;
      var m, left := before, n;
      while left > 0
        invariant Valid() && ReadExports(left, Left(), m) == ReadExports(n, old(Left()), before)
      {
        var next := OneExport(m);
        if next.None? { return None; }
        m := next.value;
        left := left - 1;
      }
      return Some(m);
    }

    /** A known section from its count on. */
    method Body(id: Byte, n: nat, m: Module) returns (r: Option<Module>)
      requires Valid() && Known(id)
      modifies this
      ensures Valid() && Took(ReadBody(id, n, old(Left()), m), r, Left())
    {
      hide ReadTypes, ReadImports, ReadFunctions, ReadMemories, ReadExports;
      if id == 1 {
        var types := Types(n, m.types);
        if types.None? { return None; }
        return Some(m.(types := types.value));
      }
      if id == 2 {
        r := Imports(n, m);
        return;
      }
      if id == 3 {
        var functions := Functions(n, m.functions);
        if functions.None? { return None; }
        return Some(m.(functions := functions.value));
      }
      if id == 5 {
        var memories := Memories(n, m.memories);
        if memories.None? { return None; }
        return Some(m.(memories := memories.value));
      }
      if id == 7 {
        r := Exports(n, m);
        return;
      }
      return Some(m.(start := Some(n)));
    }
  }

  /** How a known section is read, in its three steps. */
  lemma SectionSteps(id: Byte, content: Bytes, m: Module)
    requires Known(id)
    ensures
      var n := ReadUnsigned(content);
      if n.None? then ReadSection(id, content, m).None?
      else
        var t := ReadBody(id, n.value.value, n.value.rest, m);
        if t.None? || t.value.rest != [] then ReadSection(id, content, m).None?
        else ReadSection(id, content, m) == Some(t.value.value)
  {
    hide ReadUnsigned, ReadBody;
  }

  lemma UnknownSection(id: Byte, content: Bytes, m: Module)
    requires !Known(id)
    ensures ReadSection(id, content, m) == Some(m)
  {
  }

  /** What is known once the count of a section has been read. */
  lemma SectionRest(id: Byte, content: Bytes, m: Module)
    requires Known(id) && ReadUnsigned(content).Some?
    ensures
      var n := ReadUnsigned(content).value;
      var t := ReadBody(id, n.value, n.rest, m);
      ReadSection(id, content, m) == if t.None? || t.value.rest != [] then None else Some(t.value.value)
  {
    hide ReadUnsigned, ReadBody, ReadSection, Known;
    SectionSteps(id, content, m);
  }

  method SectionBody(id: Byte, content: Bytes, m: Module) returns (r: Option<Module>)
    ensures r == ReadSection(id, content, m)
  {
    hide ReadUnsigned, ReadBody, ReadSection, Known;
    if !Known(id) {
      UnknownSection(id, content, m);
      return Some(m);
    }
    r := KnownBody(id, content, m);
  }

  method KnownBody(id: Byte, content: Bytes, m: Module) returns (r: Option<Module>)
    requires Known(id)
    ensures r == ReadSection(id, content, m)
  {
    hide ReadUnsigned, ReadBody, ReadSection, Known;
    var cursor := new Cursor(content);
    var n := cursor.Unsigned();
    if n.None? {
      SectionSteps(id, content, m);
      return None;
    }
    SectionRest(id, content, m);
    r := cursor.Body(id, n.value, m);
    if r.Some? && cursor.at != |content| { r := None; }
  }

  /** How one section is taken off the front. */
  lemma SectionsStep(b: Bytes, m: Module)
    requires b != []
    ensures
      var size := ReadUnsigned(b[1..]);
      if size.None? || size.value.value > |size.value.rest| then ReadSections(b, m).None?
      else
        |size.value.rest| < |b| &&
        var next := ReadSection(b[0], size.value.rest[..size.value.value], m);
        if next.None? then ReadSections(b, m).None?
        else ReadSections(b, m) == ReadSections(size.value.rest[size.value.value..], next.value)
  {
    UnsignedExact(b[1..]);
    hide ReadUnsigned, ReadSection;
  }

  /** Takes one section off the front. */
  method OneSection(cursor: Cursor, m: Module) returns (r: Option<Module>)
    requires cursor.Valid() && cursor.at < |cursor.bytes|
    modifies cursor
    ensures cursor.Valid()
    ensures r.None? ==> ReadSections(old(cursor.Left()), m).None?
    ensures r.Some? ==>
      old(cursor.at) < cursor.at && ReadSections(old(cursor.Left()), m) == ReadSections(cursor.Left(), r.value)
  {
    hide ReadUnsigned, ReadSection, ReadSections;
    SectionsStep(cursor.Left(), m);
    var id := cursor.NextByte();
    var size := cursor.Unsigned();
    if size.None? { return None; }
    var start, end := cursor.at, cursor.at + size.value;
    if end > |cursor.bytes| { return None; }
    var content := cursor.bytes[start..end];
    assert content == cursor.Left()[..size.value] && cursor.bytes[end..] == cursor.Left()[size.value..];
    cursor.at := end;
    r := SectionBody(id.value, content, m);
  }

  /** `inspect` up to the resolution of exports: section after section to the last byte. */
  method Sections(bytes: Bytes) returns (r: Option<Module>)
    ensures r == ReadSections(bytes, EMPTY)
  {
    hide ReadSections;
    var m := EMPTY;
    var cursor := new Cursor(bytes);
    while cursor.at < |bytes|
      invariant fresh(cursor) && cursor.bytes == bytes && cursor.Valid()
      invariant ReadSections(cursor.Left(), m) == ReadSections(bytes, EMPTY)
      decreases |bytes| - cursor.at
    {
      var next := OneSection(cursor, m);
      if next.None? { return None; }
      m := next.value;
    }
    assert cursor.Left() == [];
    SectionsDone(m);
    return Some(m);
  }

  lemma SectionsDone(m: Module)
    ensures ReadSections([], m) == Some(m)
  {
  }

  /** Exports resolved one after the other, against imported functions first and defined ones after. */
  method ResolveAll(m: Module) returns (r: Option<seq<FunctionExport>>)
    ensures r == ResolveExports(m, m.exportedFunctions)
  {
    hide ResolveExport;
    var es := m.exportedFunctions;
    var found: seq<FunctionExport> := [];
    var i := 0;
    assert es[0..] == es;
    ghost var all := ResolveExports(m, es);
    assert all.Some? ==> [] + all.value == all.value;
    while i < |es|
      invariant 0 <= i <= |es|
      invariant ResolveExports(m, es) ==
        match ResolveExports(m, es[i..])
        case None => None
        case Some(rest) => Some(found + rest)
    {
      assert es[i..][1..] == es[i + 1..];
      var e := ResolveExport(m, es[i]);
      if e.None? { return None; }
      ghost var rest := ResolveExports(m, es[i + 1..]);
      assert rest.Some? ==> found + ([e.value] + rest.value) == found + [e.value] + rest.value;
      found := found + [e.value];
      i := i + 1;
    }
    assert found + [] == found;
    return Some(found);
  }

  /** `inspect`. */
  method InspectModule(bytes: Bytes) returns (r: Option<Inspection>)
    ensures r == Inspect(bytes)
    ensures r.None? ==> forall m :: WasmSections.Declares(bytes, m) ==> !WasmSections.Complete(m)
    ensures r.Some? ==>
      exists m :: WasmSections.Declares(bytes, m) && WasmSections.Complete(m) && WasmSections.Shows(m, r.value)
  {
    WasmSections.InspectExactly(bytes);
    hide WasmSections.Declares, WasmSections.Complete, WasmSections.Shows;
    hide ReadSections, ResolveExports, MemoryNames;
    if !(HEADER <= bytes) { return None; }
    var m := Sections(bytes[|HEADER|..]);
    if m.None? { return None; }
    var exports := ResolveAll(m.value);
    if exports.None? { return None; }
    var names := NameMemories(m.value);
    if names.None? { return None; }
    return Some(Inspection(m.value.imports, m.value.memories, exports.value, names.value, m.value.start));
  }

  /** The last two loops of `inspect`: each name goes to its memory, then each memory's names are sorted. */
  method NameMemories(m: Module) returns (r: Option<seq<seq<Bytes>>>)
    ensures r.None? <==> exists k :: 0 <= k < |m.exportedMemories| && m.exportedMemories[k].index >= |m.memories|
    ensures r.Some? ==> r.value == MemoryNames(m)
  {
    hide SortNames;
    var es := m.exportedMemories;
    var names: seq<seq<Bytes>> := seq(|m.memories|, _ => []);
    var i := 0;
    while i < |es|
      invariant 0 <= i <= |es| && |names| == |m.memories|
      invariant forall k :: 0 <= k < i ==> es[k].index < |m.memories|
      invariant forall j :: 0 <= j < |names| ==> names[j] == NamesAt(es[..i], j)
    {
      var at := es[i].index;
      if at >= |m.memories| { return None; }
      assert es[..i + 1][..i] == es[..i];
      names := names[at := names[at] + [es[i].name]];
      i := i + 1;
    }
    assert es[..i] == es;
    hide NamesAt;
    var j := 0;
    while j < |names|
      invariant 0 <= j <= |names| == |m.memories|
      invariant forall k :: 0 <= k < j ==> names[k] == SortNames(NamesAt(es, k))
      invariant forall k :: j <= k < |names| ==> names[k] == NamesAt(es, k)
    {
      names := names[j := SortNames(names[j])];
      j := j + 1;
    }
    return Some(names);
  }
}
