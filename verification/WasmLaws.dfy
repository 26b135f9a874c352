/** What an inspected module is: sections that tile its bytes, exports that resolve in one index space. */
module WasmLaws {
  import opened Prelude
  import opened Powers
  import opened HtaData
  import HtaLaws
  import HtaWire
  import opened WasmBinary

  // ----- Sections tile the bytes -----

  /** A section as it lies in the bytes: its id, its size as written, its contents. */
  datatype Section = Section(id: Byte, size: Bytes, content: Bytes)

  function Flatten(sections: seq<Section>): Bytes {
    if sections == [] then []
    else [sections[0].id] + sections[0].size + sections[0].content + Flatten(sections[1..])
  }

  /** The written size is the size. */
  predicate SizesHold(sections: seq<Section>) {
    forall i :: 0 <= i < |sections| ==>
      UnsignedGrammar(32, sections[i].size) == Some(Taken(|sections[i].content|, []))
  }

  /** The sections read in turn. */
  function ReadAll(sections: seq<Section>, m: Module): Option<Module>
    decreases |sections|
  {
    if sections == [] then Some(m)
    else
      match ReadSection(sections[0].id, sections[0].content, m)
      case None => None
      case Some(next) => ReadAll(sections[1..], next)
  }

  /** An integer is read off a prefix that stands alone. */
  lemma {:induction false} GrammarPrefix(bits: nat, b: Bytes)
    requires UnsignedGrammar(bits, b).Some?
    ensures
      var t := UnsignedGrammar(bits, b).value;
      |t.rest| < |b| &&
      var k := |b| - |t.rest|;
      t.rest == b[k..] && UnsignedGrammar(bits, b[..k]) == Some(Taken(t.value, []))
    decreases bits
  {
    hide Pow2;
    var t := UnsignedGrammar(bits, b).value;
    if b[0] < 128 {
      assert |b| - |t.rest| == 1;
      assert b[..1] == [b[0]] && [b[0]][1..] == [];
    } else {
      GrammarPrefix(bits - 7, b[1..]);
      var k := |b| - |t.rest|;
      assert b[..k][1..] == b[1..][..k - 1];
      assert b[1..][k - 1..] == b[k..];
    }
  }

  /** All bytes after the header belong to sections, none left over, and the module is what they say in turn. */
  lemma {:induction false} SectionsTile(b: Bytes, m: Module) returns (sections: seq<Section>)
    requires ReadSections(b, m).Some?
    ensures Flatten(sections) == b && SizesHold(sections) && ReadAll(sections, m) == ReadSections(b, m)
    decreases |b|
  {
    if b == [] {
      sections := [];
    } else {
      hide ReadSection, UnsignedGrammar, ReadUnsigned, Flatten, SizesHold, ReadAll;
      UnsignedExact(b[1..]);
      GrammarPrefix(32, b[1..]);
      var size := ReadUnsigned(b[1..]).value;
      var content, after := size.rest[..size.value], size.rest[size.value..];
      var others := SectionsTile(after, ReadSection(b[0], content, m).value);
      var k := |b[1..]| - |size.rest|;
      var first := Section(b[0], b[1..][..k], content);
      sections := [first] + others;
      Pieces(b, k, size.value);
      OneMore(first, others, m);
    }
  }

  lemma Pieces(b: Bytes, k: nat, n: nat)
    requires b != [] && k <= |b[1..]| && n <= |b[1..][k..]|
    ensures [b[0]] + b[1..][..k] + b[1..][k..][..n] + b[1..][k..][n..] == b
  {
    var tail, rest := b[1..], b[1..][k..];
    assert tail == tail[..k] + rest;
    assert rest == rest[..n] + rest[n..];
    Rebracket([b[0]], tail[..k], rest[..n], rest[n..]);
    assert b == [b[0]] + tail;
  }

  lemma Rebracket(a: Bytes, b: Bytes, c: Bytes, d: Bytes)
    ensures a + b + c + d == a + (b + (c + d))
  {
  }

  lemma OneMore(first: Section, others: seq<Section>, m: Module)
    requires UnsignedGrammar(32, first.size) == Some(Taken(|first.content|, [])) && SizesHold(others)
    ensures
      var all := [first] + others;
      Flatten(all) == [first.id] + first.size + first.content + Flatten(others) && SizesHold(all) &&
      (ReadSection(first.id, first.content, m).Some? ==>
         ReadAll(all, m) == ReadAll(others, ReadSection(first.id, first.content, m).value))
  {
    hide ReadSection, UnsignedGrammar;
    assert ([first] + others)[1..] == others;
  }

  // ----- Exports -----

  /** Functions by index: the imported ones, then the defined ones. */
  function FunctionSpace(m: Module): seq<nat> { m.importedFunctions + m.functions }

  /** An export within the index space, whose type exists. */
  predicate Resolves(m: Module, e: NamedIndex) {
    e.index < |FunctionSpace(m)| && FunctionSpace(m)[e.index] < |m.types|
  }

  lemma ResolvesExactly(m: Module, e: NamedIndex)
    ensures ResolveExport(m, e) ==
      if Resolves(m, e)
      then Some(FunctionExport(e.name, m.types[FunctionSpace(m)[e.index]], e.index < |m.importedFunctions|))
      else None
  {
  }

  /** Every export resolves in the one index space, or there is no inspection. */
  lemma {:induction false} ExportsResolve(m: Module, es: seq<NamedIndex>)
    ensures ResolveExports(m, es).Some? <==> forall i :: 0 <= i < |es| ==> Resolves(m, es[i])
    ensures ResolveExports(m, es).Some? ==>
      var exports := ResolveExports(m, es).value;
      |exports| == |es| &&
      forall i :: 0 <= i < |es| ==>
        Resolves(m, es[i]) && exports[i].name == es[i].name &&
        exports[i].signature == m.types[FunctionSpace(m)[es[i].index]] &&
        (exports[i].imported <==> es[i].index < |m.importedFunctions|)
    decreases |es|
  {
    hide ResolveExport, Resolves;
    if es != [] {
      ResolvesExactly(m, es[0]);
      ExportsResolve(m, es[1..]);
      assert forall i :: 0 < i < |es| ==> es[i] == es[1..][i - 1];
      if ResolveExports(m, es).None? && ResolveExports(m, es[1..]).None? {
        var i :| 0 <= i < |es[1..]| && !Resolves(m, es[1..][i]);
        assert !Resolves(m, es[i + 1]);
      }
      if ResolveExports(m, es).Some? {
        assert ResolveExports(m, es).value[1..] == ResolveExports(m, es[1..]).value;
      }
    }
  }

  // ----- Names -----

  predicate DistinctNames(es: seq<NamedIndex>) {
    forall i, j :: 0 <= i < j < |es| ==> es[i].name != es[j].name
  }

  /** Names are kept, and none is exported twice. */
  predicate NamesKept(m: Module) {
    DistinctNames(m.exportedFunctions) && DistinctNames(m.exportedMemories) &&
    (forall i :: 0 <= i < |m.exportedFunctions| ==> m.exportedFunctions[i].name in m.names) &&
    (forall i :: 0 <= i < |m.exportedMemories| ==> m.exportedMemories[i].name in m.names) &&
    forall i, j :: 0 <= i < |m.exportedFunctions| && 0 <= j < |m.exportedMemories| ==>
      m.exportedFunctions[i].name != m.exportedMemories[j].name
  }

  lemma ExportKeepsNames(b: Bytes, m: Module)
    requires NamesKept(m) && ReadExport(b, m).Some?
    ensures NamesKept(ReadExport(b, m).value.value)
  {
    hide ReadName, ReadUnsigned;
  }

  lemma {:induction false} ExportsKeepNames(n: nat, b: Bytes, m: Module)
    requires NamesKept(m) && ReadExports(n, b, m).Some?
    ensures NamesKept(ReadExports(n, b, m).value.value)
    decreases n
  {
    hide ReadExport, NamesKept;
    if n > 0 {
      ExportKeepsNames(b, m);
      var t := ReadExport(b, m).value;
      ExportsKeepNames(n - 1, t.rest, t.value);
    }
  }

  /** Two modules that export alike. */
  predicate SameExports(m: Module, n: Module) {
    m.exportedFunctions == n.exportedFunctions && m.exportedMemories == n.exportedMemories && m.names == n.names
  }

  lemma {:induction false} ImportsKeepExports(n: nat, b: Bytes, m: Module)
    requires ReadImports(n, b, m).Some?
    ensures SameExports(ReadImports(n, b, m).value.value, m)
    decreases n
  {
    hide ReadName, ReadUnsigned, ReadLimits, ReadTable, ReadGlobal, ReadTag;
    if n > 0 {
      var from := ReadName(b).value;
      var name := ReadName(from.rest).value;
      var t := ReadImportKind(name.rest, m, from.value, name.value).value;
      ImportsKeepExports(n - 1, t.rest, t.value);
    }
  }

  lemma SectionKeepsNames(id: Byte, content: Bytes, m: Module)
    requires NamesKept(m) && ReadSection(id, content, m).Some?
    ensures NamesKept(ReadSection(id, content, m).value)
  {
    hide ReadTypes, ReadFunctions, ReadMemories, ReadImports, ReadExports, ReadUnsigned;
    if Known(id) {
      var n := ReadUnsigned(content).value;
      if id == 2 {
        ImportsKeepExports(n.value, n.rest, m);
      } else if id == 7 {
        ExportsKeepNames(n.value, n.rest, m);
      }
    }
  }

  /** In any module that is read, no name is exported twice. */
  lemma {:induction false} SectionsKeepNames(b: Bytes, m: Module)
    requires NamesKept(m) && ReadSections(b, m).Some?
    ensures NamesKept(ReadSections(b, m).value)
    decreases |b|
  {
    hide ReadSection, NamesKept, ReadUnsigned;
    if b != [] {
      UnsignedExact(b[1..]);
      var size := ReadUnsigned(b[1..]).value;
      var content := size.rest[..size.value];
      SectionKeepsNames(b[0], content, m);
      SectionsKeepNames(size.rest[size.value..], ReadSection(b[0], content, m).value);
    }
  }

  // ----- Memories -----

  /** Names in strictly rising order, so none twice. */
  ghost predicate Rising(names: seq<Bytes>) {
    forall i, j :: 0 <= i < j < |names| ==> HtaWire.LexLe(names[i], names[j]) && names[i] != names[j]
  }

  lemma {:induction false} PlaceRises(name: Bytes, names: seq<Bytes>)
    requires Rising(names) && name !in names
    ensures Rising(PlaceName(name, names))
    ensures forall n :: n in PlaceName(name, names) <==> n == name || n in names
  {
    hide HtaWire.LexLe;
    if names == [] {
    } else if HtaWire.LexLe(name, names[0]) {
      forall j | 0 <= j < |names| ensures HtaWire.LexLe(name, names[j]) && name != names[j] {
        if j > 0 { HtaLaws.LexTransitive(name, names[0], names[j]); }
        assert names[j] in names;
      }
    } else {
      HtaLaws.LexTotal(name, names[0]);
      PlaceRises(name, names[1..]);
      var rest := PlaceName(name, names[1..]);
      forall j | 0 <= j < |rest| ensures HtaWire.LexLe(names[0], rest[j]) && names[0] != rest[j] {
        assert rest[j] in rest;
      }
    }
  }

  lemma {:induction false} SortRises(names: seq<Bytes>)
    requires forall i, j :: 0 <= i < j < |names| ==> names[i] != names[j]
    ensures Rising(SortNames(names))
    ensures forall n :: n in SortNames(names) <==> n in names
  {
    if names != [] {
      SortRises(names[1..]);
      assert names == [names[0]] + names[1..];
      assert forall i :: 0 <= i < |names[1..]| ==> names[1..][i] == names[i + 1];
      PlaceRises(names[0], SortNames(names[1..]));
    }
  }

  lemma {:induction false} NamesAtHold(es: seq<NamedIndex>, at: nat)
    requires DistinctNames(es)
    ensures forall n :: n in NamesAt(es, at) <==> NamedIndex(n, at) in es
    ensures forall i, j :: 0 <= i < j < |NamesAt(es, at)| ==> NamesAt(es, at)[i] != NamesAt(es, at)[j]
  {
    if es != [] {
      var front, last := es[..|es| - 1], es[|es| - 1];
      NamesAtHold(front, at);
      assert es == front + [last];
      if last.index == at {
        var before := NamesAt(front, at);
        forall i | 0 <= i < |before| ensures before[i] != last.name {
          assert before[i] in before;
          assert NamedIndex(before[i], at) in front;
        }
      }
    }
  }

  lemma MemoryNamesLength(m: Module)
    ensures |MemoryNames(m)| == |m.memories|
  {
  }

  /** Each memory lists the names it is exported under, sorted, each once. */
  lemma MemoriesNamed(m: Module, at: nat)
    requires NamesKept(m) && at < |m.memories|
    ensures
      |MemoryNames(m)| == |m.memories| && Rising(MemoryNames(m)[at]) &&
      forall n :: n in MemoryNames(m)[at] <==> NamedIndex(n, at) in m.exportedMemories
  {
    hide Rising, SortNames, NamesAt;
    NamesAtHold(m.exportedMemories, at);
    SortRises(NamesAt(m.exportedMemories, at));
  }

  /** A module that is inspected: tiled by its sections, its exports resolved in one index space, no name twice. */
  lemma Inspected(b: Bytes) returns (sections: seq<Section>, m: Module)
    requires Inspect(b).Some?
    ensures b == HEADER + Flatten(sections) && SizesHold(sections) && ReadAll(sections, EMPTY) == Some(m)
    ensures NamesKept(m)
    ensures
      var r := Inspect(b).value;
      |r.exports| == |m.exportedFunctions| &&
      forall i :: 0 <= i < |r.exports| ==>
        Resolves(m, m.exportedFunctions[i]) && r.exports[i].name == m.exportedFunctions[i].name &&
        r.exports[i].signature == m.types[FunctionSpace(m)[m.exportedFunctions[i].index]] &&
        (r.exports[i].imported <==> m.exportedFunctions[i].index < |m.importedFunctions|)
    ensures
      var r := Inspect(b).value;
      r.memories == m.memories && |r.memoryNames| == |m.memories| &&
      forall at :: 0 <= at < |m.memories| ==>
        Rising(r.memoryNames[at]) && forall n :: n in r.memoryNames[at] <==> NamedIndex(n, at) in m.exportedMemories
  {
    assert NamesKept(EMPTY);
    hide ReadSections, ResolveExports, Flatten, SizesHold, ReadAll, NamesKept, Resolves, FunctionSpace, MemoryNames;
    hide Rising;
    var body := b[|HEADER|..];
    m := ReadSections(body, EMPTY).value;
    sections := SectionsTile(body, EMPTY);
    SectionsKeepNames(body, EMPTY);
    ExportsResolve(m, m.exportedFunctions);
    forall at: nat | at < |m.memories|
      ensures |MemoryNames(m)| == |m.memories| && Rising(MemoryNames(m)[at])
      ensures forall n :: n in MemoryNames(m)[at] <==> NamedIndex(n, at) in m.exportedMemories
    {
      MemoriesNamed(m, at);
    }
    assert |MemoryNames(m)| == |m.memories| by { MemoryNamesLength(m); }
    assert b == HEADER + body;
  }
}
