/**
 Portable values and the node graph that carries them across a Component
 boundary (`component_value.rs`).

 Collections are listed in their iteration order. A node refers to its children
 by index; metadata is a list of key and value references on some nodes.
 */
module GraphData {
  import opened Prelude

  datatype Atom =
    | Nil
    | Boolean(b: bool)
    | Integer(i: int)
    | Float(x: real)
    | Character(c: char)
    | Regex(pattern: string)
    | Text(text: string)

  datatype SequenceKind = List | Vector | Cons | Deque | Queue | Set | OrderedSet | SortedSet
  datatype MappingKind = Map | OrderedMap | SortedMap | PriorityMap | Trie

  datatype MetaPair = MetaPair(key: Meta, value: Meta)

  /** What may stand in metadata. */
  datatype Meta =
    | MetaPlain(atom: Atom)
    | MetaNonFinite
    | MetaBigInteger(n: int)
    | MetaKeyword(name: string)
    | MetaSymbol(name: string, meta: Metadata)
    | MetaTagged(tag: string, form: Meta)
    | MetaVector(items: seq<Meta>)
    | MetaList(items: seq<Meta>)
    | MetaSet(items: seq<Meta>)
    | MetaMap(entries: seq<MetaPair>)
    | Runtime

  datatype Metadata = NoMeta | HasMeta(pairs: seq<MetaPair>)

  datatype Pair = Pair(key: Value, value: Value)

  datatype Value =
    | Plain(atom: Atom)
    | NonFinite
    | Bytes(bytes: seq<nat>)
    | BigInteger(n: int)
    | Keyword(name: string)
    | Symbol(name: string, meta: Metadata)
    | Sequence(sequence: SequenceKind, items: seq<Value>, meta: Metadata)
    | Tuple(items: seq<Value>, meta: Metadata)
    | Mapping(mapping: MappingKind, entries: seq<Pair>, meta: Metadata)
    | Tagged(tag: string, form: Value)
    | MapEntry(key: Value, value: Value, meta: Metadata)
    | Pointer(context: string, entries: seq<Pair>, meta: Metadata)
    | Structure(open: bool, typeName: string, fields: seq<string>, items: seq<Value>, meta: Metadata)
    | Exception(message: string, data: Value, cause: Option<Value>, sites: seq<string>)
    | Unsupported(reason: string)

  datatype Entry = Entry(key: nat, value: nat)

  datatype GraphNode =
    | PlainNode(atom: Atom)
    | BytesNode(bytes: seq<nat>)
    | BigIntegerNode(digits: string)
    | KeywordNode(name: string)
    | SymbolNode(name: string, meta: Option<seq<Entry>>)
    | SequenceNode(sequence: SequenceKind, items: seq<nat>, meta: Option<seq<Entry>>)
    | MappingNode(mapping: MappingKind, entries: seq<Entry>, meta: Option<seq<Entry>>)
    | TaggedNode(tag: string, form: nat)
    | MapEntryNode(key: nat, value: nat, meta: Option<seq<Entry>>)
    | PointerNode(context: string, entries: seq<Entry>, meta: Option<seq<Entry>>)
    | StructureNode(typeName: string, fields: seq<string>, items: seq<nat>, meta: Option<seq<Entry>>)
    | ExceptionNode(message: string, data: nat, cause: Option<nat>, sites: seq<string>)

  datatype Graph = Graph(root: nat, nodes: seq<GraphNode>)

  /** `Invalid` stands for every wire-invalid report, whatever its detail text. */
  datatype Error = TooManyNodes | NotSupported(reason: string) | Invalid

  /** An index is a 32-bit number. */
  const LIMIT := 0x1_0000_0000

  // ----- Keywords -----

  function Slashes(s: string): nat {
    if s == [] then 0 else (if s[0] == '/' then 1 else 0) + Slashes(s[1..])
  }

  /** The names `Keyword::parse` takes. */
  predicate IsKeyword(s: string) {
    s != "" && s != "/" && Slashes(s) <= 1 && s[0] != '/' && s[|s| - 1] != '/'
  }

  // ----- References -----

  function EntryRefs(entries: seq<Entry>): seq<nat> {
    if entries == [] then [] else [entries[0].key, entries[0].value] + EntryRefs(entries[1..])
  }

  function MetaRefs(meta: Option<seq<Entry>>): seq<nat> {
    if meta.None? then [] else EntryRefs(meta.value)
  }

  /** `GraphNode::children`. */
  function Children(node: GraphNode): seq<nat> {
    match node
    case SymbolNode(_, meta) => MetaRefs(meta)
    case SequenceNode(_, items, meta) => items + MetaRefs(meta)
    case MappingNode(_, entries, meta) => EntryRefs(entries) + MetaRefs(meta)
    case PointerNode(_, entries, meta) => EntryRefs(entries) + MetaRefs(meta)
    case TaggedNode(_, form) => [form]
    case MapEntryNode(key, value, meta) => [key, value] + MetaRefs(meta)
    case StructureNode(_, _, items, meta) => items + MetaRefs(meta)
    case ExceptionNode(_, data, cause, _) => [data] + if cause.Some? then [cause.value] else []
    case _ => []
  }

  // ----- Values as trees of values -----

  /** Metadata seen as the value it is carried as. */
  function AsValue(m: Meta): Value {
    match m
    case MetaPlain(atom) => Plain(atom)
    case MetaNonFinite => NonFinite
    case MetaBigInteger(n) => BigInteger(n)
    case MetaKeyword(name) => Keyword(name)
    case MetaSymbol(name, meta) => Symbol(name, meta)
    case MetaTagged(tag, form) => Tagged(tag, AsValue(form))
    case MetaVector(items) => Sequence(Vector, AsValues(items), NoMeta)
    case MetaList(items) => Sequence(List, AsValues(items), NoMeta)
    case MetaSet(items) => Sequence(Set, AsValues(items), NoMeta)
    case MetaMap(entries) => Mapping(Map, AsPairs(entries), NoMeta)
    case Runtime => Unsupported("process-local metadata")
  }

  function AsValues(items: seq<Meta>): (r: seq<Value>)
    ensures |r| == |items|
  {
    if items == [] then [] else [AsValue(items[0])] + AsValues(items[1..])
  }

  function AsPairs(entries: seq<MetaPair>): (r: seq<Pair>)
    ensures |r| == |entries|
  {
    if entries == [] then [] else [AsPair(entries[0])] + AsPairs(entries[1..])
  }

  function AsPair(p: MetaPair): Pair { Pair(AsValue(p.key), AsValue(p.value)) }

  /** Keys and values in the order they are carried. */
  function Flat(entries: seq<Pair>): (r: seq<Value>)
    ensures |r| == 2 * |entries|
  {
    if entries == [] then [] else [entries[0].key, entries[0].value] + Flat(entries[1..])
  }

  function MetaKids(meta: Metadata): seq<Value> {
    if meta.NoMeta? then [] else Flat(AsPairs(meta.pairs))
  }

  /** The values a value is carried after, in order. */
  function Kids(v: Value): seq<Value> {
    match v
    case Symbol(_, meta) => MetaKids(meta)
    case Sequence(_, items, meta) => items + MetaKids(meta)
    case Tuple(items, meta) => items + MetaKids(meta)
    case Mapping(_, entries, meta) => Flat(entries) + MetaKids(meta)
    case Tagged(_, form) => [form]
    case MapEntry(key, value, meta) => [key, value] + MetaKids(meta)
    case Pointer(_, entries, meta) => Flat(entries) + MetaKids(meta)
    case Structure(_, _, _, items, meta) => items + MetaKids(meta)
    case Exception(_, data, cause, _) => [data] + if cause.Some? then [cause.value] else []
    case _ => []
  }

  // ----- Node counts -----

  function MetaCount(m: Meta): nat {
    match m
    case MetaSymbol(_, meta) => 1 + MetadataCount(meta)
    case MetaTagged(_, form) => 1 + MetaCount(form)
    case MetaVector(items) => 1 + MetaItemCount(items)
    case MetaList(items) => 1 + MetaItemCount(items)
    case MetaSet(items) => 1 + MetaItemCount(items)
    case MetaMap(entries) => 1 + MetaPairCount(entries)
    case _ => 1
  }

  function MetaItemCount(items: seq<Meta>): nat {
    if items == [] then 0 else MetaCount(items[0]) + MetaItemCount(items[1..])
  }

  function MetaPairCount(entries: seq<MetaPair>): nat {
    if entries == [] then 0 else MetaEntryCount(entries[0]) + MetaPairCount(entries[1..])
  }

  function MetaEntryCount(p: MetaPair): nat { MetaCount(p.key) + MetaCount(p.value) }

  function MetadataCount(meta: Metadata): nat { if meta.NoMeta? then 0 else MetaPairCount(meta.pairs) }

  /** How many nodes carry a value. */
  function Count(v: Value): (n: nat)
    ensures n >= 1
  {
    match v
    case Symbol(_, meta) => 1 + MetadataCount(meta)
    case Sequence(_, items, meta) => 1 + CountAll(items) + MetadataCount(meta)
    case Tuple(items, meta) => 1 + CountAll(items) + MetadataCount(meta)
    case Mapping(_, entries, meta) => 1 + CountPairs(entries) + MetadataCount(meta)
    case Tagged(_, form) => 1 + Count(form)
    case MapEntry(key, value, meta) => 1 + Count(key) + Count(value) + MetadataCount(meta)
    case Pointer(_, entries, meta) => 1 + CountPairs(entries) + MetadataCount(meta)
    case Structure(_, _, _, items, meta) => 1 + CountAll(items) + MetadataCount(meta)
    case Exception(_, data, cause, _) => 1 + Count(data) + if cause.Some? then Count(cause.value) else 0
    case _ => 1
  }

  function CountAll(vs: seq<Value>): nat {
    if vs == [] then 0 else Count(vs[0]) + CountAll(vs[1..])
  }

  function CountPairs(entries: seq<Pair>): nat {
    if entries == [] then 0 else CountPair(entries[0]) + CountPairs(entries[1..])
  }

  function CountPair(p: Pair): nat { Count(p.key) + Count(p.value) }

  lemma {:induction false} CountConcat(vs: seq<Value>, ws: seq<Value>)
    ensures CountAll(vs + ws) == CountAll(vs) + CountAll(ws)
  {
    if vs == [] {
      assert vs + ws == ws;
    } else {
      CountConcat(vs[1..], ws);
      assert (vs + ws)[1..] == vs[1..] + ws;
    }
  }

  lemma {:induction false} CountFlat(entries: seq<Pair>)
    ensures CountAll(Flat(entries)) == CountPairs(entries)
  {
    if entries != [] {
      CountFlat(entries[1..]);
      var a, b, rest := entries[0].key, entries[0].value, Flat(entries[1..]);
      CountTwo(a, b);
      CountConcat([a, b], rest);
    }
  }

  lemma CountTwo(a: Value, b: Value)
    ensures CountAll([a, b]) == Count(a) + Count(b)
    ensures CountAll([a]) == Count(a)
  {
    assert [a, b][1..] == [b] && [b][1..] == [] && [a][1..] == [];
    assert CountAll([b]) == Count(b) + CountAll([]);
  }

  lemma {:induction false} CountAsValue(m: Meta)
    ensures Count(AsValue(m)) == MetaCount(m)
    decreases m, 0
  {
    match m
    case MetaTagged(_, form) => CountAsValue(form);
    case MetaVector(items) => CountAsValues(items);
    case MetaList(items) => CountAsValues(items);
    case MetaSet(items) => CountAsValues(items);
    case MetaMap(entries) => CountAsPairs(entries);
    case _ =>
  }

  lemma {:induction false} CountAsValues(items: seq<Meta>)
    ensures CountAll(AsValues(items)) == MetaItemCount(items)
    decreases items, 1
  {
    if items != [] {
      CountAsValue(items[0]);
      CountAsValues(items[1..]);
      assert AsValues(items)[1..] == AsValues(items[1..]);
    }
  }

  lemma {:induction false} CountAsPairs(entries: seq<MetaPair>)
    ensures CountPairs(AsPairs(entries)) == MetaPairCount(entries)
    decreases entries, 1
  {
    if entries != [] {
      CountAsPair(entries[0]);
      CountAsPairs(entries[1..]);
      assert AsPairs(entries)[1..] == AsPairs(entries[1..]);
    }
  }

  lemma {:induction false} CountAsPair(p: MetaPair)
    ensures CountPair(AsPair(p)) == MetaEntryCount(p)
    decreases p, 1
  {
    CountAsValue(p.key);
    CountAsValue(p.value);
  }

  lemma CountMetaKids(meta: Metadata)
    ensures CountAll(MetaKids(meta)) == MetadataCount(meta)
  {
    if meta.HasMeta? {
      CountAsPairs(meta.pairs);
      CountFlat(AsPairs(meta.pairs));
    }
  }

  /** A value's node comes after those of its kids, and there are no others. */
  lemma CountKids(v: Value)
    ensures Count(v) == 1 + CountAll(Kids(v))
  {
    hide Count, Kids, CountAll;
    if v.Sequence? || v.Tuple? || v.Structure? {
      CountItemKids(v);
    } else if v.Mapping? || v.Pointer? {
      CountEntryKids(v);
    } else {
      CountOtherKids(v);
    }
  }

  lemma CountItemKids(v: Value)
    requires v.Sequence? || v.Tuple? || v.Structure?
    ensures Count(v) == 1 + CountAll(Kids(v))
  {
    hide CountAll, MetaKids;
    CountMetaKids(v.meta);
    CountConcat(v.items, MetaKids(v.meta));
  }

  lemma CountEntryKids(v: Value)
    requires v.Mapping? || v.Pointer?
    ensures Count(v) == 1 + CountAll(Kids(v))
  {
    hide CountAll, MetaKids;
    CountFlatKids(v.entries, v.meta);
  }

  lemma CountOtherKids(v: Value)
    requires !(v.Sequence? || v.Tuple? || v.Structure? || v.Mapping? || v.Pointer?)
    ensures Count(v) == 1 + CountAll(Kids(v))
  {
    match v
    case Symbol(_, meta) => CountMetaKids(meta);
    case Tagged(_, form) => CountTwo(form, form);
    case MapEntry(key, value, meta) =>
      CountMetaKids(meta); CountTwo(key, value); CountConcat([key, value], MetaKids(meta));
    case Exception(_, data, cause, _) =>
      if cause.Some? {
        CountTwo(data, cause.value);
        assert Kids(v) == [data, cause.value];
      } else {
        CountTwo(data, data);
        assert Kids(v) == [data];
      }
    case _ =>
  }

  lemma CountFlatKids(entries: seq<Pair>, meta: Metadata)
    ensures CountAll(Flat(entries) + MetaKids(meta)) == CountPairs(entries) + MetadataCount(meta)
  {
    CountFlat(entries);
    CountMetaKids(meta);
    CountConcat(Flat(entries), MetaKids(meta));
  }
}
