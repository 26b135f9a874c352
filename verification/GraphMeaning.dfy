/**
 What a node of a graph stands for, reference by reference, and that reading a
 graph back gives a value exactly when its root stands for the value.
 */
module GraphMeaning {
  import opened Prelude
  import opened GraphData
  import opened GraphSpec
  import opened GraphTheorems
  import Decimal

  // ----- Standing for a value -----

  /** A node stands for a value: its own data is the value's, and its references stand for the value's parts. */
  ghost predicate Carries(nodes: seq<GraphNode>, i: nat, v: Value)
    decreases v, 1
  {
    i < |nodes| &&
    match v
    case Plain(atom) => nodes[i] == PlainNode(atom)
    case Bytes(bytes) => nodes[i] == BytesNode(bytes)
    case BigInteger(n) => nodes[i].BigIntegerNode? && Decimal.ParseDecimal(nodes[i].digits) == Some(n)
    case Keyword(name) => nodes[i] == KeywordNode(name) && IsKeyword(name)
    case Symbol(name, meta) => nodes[i].SymbolNode? && nodes[i].name == name && CarriesMeta(nodes, nodes[i].meta, meta)
    case Sequence(kind, items, meta) =>
      nodes[i].SequenceNode? && nodes[i].sequence == kind && (kind == Cons ==> items != []) &&
      CarriesAll(nodes, nodes[i].items, items) && CarriesMeta(nodes, nodes[i].meta, meta)
    case Mapping(kind, entries, meta) =>
      nodes[i].MappingNode? && nodes[i].mapping == kind && (kind == Trie ==> StringKeys(entries)) &&
      CarriesPairs(nodes, nodes[i].entries, entries) && CarriesMeta(nodes, nodes[i].meta, meta)
    case Tagged(tag, form) => nodes[i].TaggedNode? && nodes[i].tag == tag && Carries(nodes, nodes[i].form, form)
    case MapEntry(key, value, meta) =>
      nodes[i].MapEntryNode? && Carries(nodes, nodes[i].key, key) && Carries(nodes, nodes[i].value, value) &&
      CarriesMeta(nodes, nodes[i].meta, meta)
    case Pointer(context, entries, meta) =>
      nodes[i].PointerNode? && nodes[i].context == context && IsKeyword(context) &&
      CarriesPairs(nodes, nodes[i].entries, entries) && CarriesMeta(nodes, nodes[i].meta, meta)
    case Structure(open, typeName, fields, items, meta) =>
      nodes[i].StructureNode? && !open && nodes[i].typeName == typeName && nodes[i].fields == fields &&
      |fields| == |items| && CarriesAll(nodes, nodes[i].items, items) && CarriesMeta(nodes, nodes[i].meta, meta)
    case Exception(message, data, cause, sites) =>
      nodes[i].ExceptionNode? && nodes[i].message == message && nodes[i].sites == sites &&
      Carries(nodes, nodes[i].data, data) && CarriesCause(nodes, nodes[i].cause, cause)
    case _ => false
  }

  ghost predicate CarriesCause(nodes: seq<GraphNode>, i: Option<nat>, cause: Option<Value>)
    decreases cause, 2
  {
    match cause
    case None => i.None?
    case Some(v) => i.Some? && Carries(nodes, i.value, v)
  }

  ghost predicate CarriesAll(nodes: seq<GraphNode>, refs: seq<nat>, vs: seq<Value>)
    decreases vs, 2
  {
    |refs| == |vs| && forall k :: 0 <= k < |vs| ==> Carries(nodes, refs[k], vs[k])
  }

  ghost predicate CarriesPairs(nodes: seq<GraphNode>, entries: seq<Entry>, pairs: seq<Pair>)
    decreases pairs, 2
  {
    |entries| == |pairs| && forall k :: 0 <= k < |pairs| ==> CarriesPair(nodes, entries[k], pairs[k])
  }

  ghost predicate CarriesPair(nodes: seq<GraphNode>, e: Entry, p: Pair)
    decreases p, 2
  {
    Carries(nodes, e.key, p.key) && Carries(nodes, e.value, p.value)
  }

  /** Metadata is there exactly where the node has it, and its references stand for its keys and values. */
  ghost predicate CarriesMeta(nodes: seq<GraphNode>, entries: Option<seq<Entry>>, meta: Metadata)
    decreases meta, 3
  {
    match meta
    case NoMeta => entries.None?
    case HasMeta(pairs) => entries.Some? && CarriesMetaPairs(nodes, entries.value, pairs)
  }

  ghost predicate CarriesMetaPairs(nodes: seq<GraphNode>, entries: seq<Entry>, pairs: seq<MetaPair>)
    decreases pairs, 2
  {
    |entries| == |pairs| && forall k :: 0 <= k < |pairs| ==> MetaPairCarried(nodes, entries[k], pairs[k])
  }

  ghost predicate MetaPairCarried(nodes: seq<GraphNode>, e: Entry, p: MetaPair)
    decreases p, 2
  {
    MetaCarried(nodes, e.key, p.key) && MetaCarried(nodes, e.value, p.value)
  }

  ghost predicate MetaItemsCarried(nodes: seq<GraphNode>, refs: seq<nat>, items: seq<Meta>)
    decreases items, 2
  {
    |refs| == |items| && forall k :: 0 <= k < |items| ==> MetaCarried(nodes, refs[k], items[k])
  }

  /** A node inside metadata: plain data, names, and vectors, lists, sets and maps without metadata of their own. */
  ghost predicate MetaCarried(nodes: seq<GraphNode>, i: nat, m: Meta)
    decreases m, 1
  {
    i < |nodes| &&
    match m
    case MetaPlain(atom) => nodes[i] == PlainNode(atom)
    case MetaBigInteger(n) => nodes[i].BigIntegerNode? && Decimal.ParseDecimal(nodes[i].digits) == Some(n)
    case MetaKeyword(name) => nodes[i] == KeywordNode(name) && IsKeyword(name)
    case MetaSymbol(name, meta) =>
      nodes[i].SymbolNode? && nodes[i].name == name && CarriesMeta(nodes, nodes[i].meta, meta)
    case MetaTagged(tag, form) => nodes[i].TaggedNode? && nodes[i].tag == tag && MetaCarried(nodes, nodes[i].form, form)
    case MetaVector(items) => MetaSequence(nodes[i], Vector) && MetaItemsCarried(nodes, nodes[i].items, items)
    case MetaList(items) => MetaSequence(nodes[i], List) && MetaItemsCarried(nodes, nodes[i].items, items)
    case MetaSet(items) => MetaSequence(nodes[i], Set) && MetaItemsCarried(nodes, nodes[i].items, items)
    case MetaMap(entries) =>
      nodes[i].MappingNode? && nodes[i].mapping == Map && nodes[i].meta.None? &&
      CarriesMetaPairs(nodes, nodes[i].entries, entries)
    case _ => false
  }

  predicate MetaSequence(node: GraphNode, kind: SequenceKind) {
    node.SequenceNode? && node.sequence == kind && node.meta.None?
  }

  // ----- Metadata as values -----

  lemma {:induction false} MetaOfAllAt(vs: seq<Value>, ms: seq<Meta>)
    ensures MetaOfAll(vs) == Ok(ms) <==> |vs| == |ms| && forall k :: 0 <= k < |vs| ==> MetaOf(vs[k]) == Ok(ms[k])
    decreases |vs|
  {
    hide MetaOf;
    if vs != [] && ms != [] {
      MetaOfAllAt(vs[1..], ms[1..]);
      assert forall k :: 0 < k < |vs| ==> vs[k] == vs[1..][k - 1];
      assert forall k :: 0 < k < |ms| ==> ms[k] == ms[1..][k - 1];
      assert forall k :: 0 <= k < |vs[1..]| ==> vs[1..][k] == vs[k + 1];
      assert forall k :: 0 <= k < |ms[1..]| ==> ms[1..][k] == ms[k + 1];
      assert ms == [ms[0]] + ms[1..];
    }
  }

  lemma {:induction false} MetaOfPairsAt(ps: seq<Pair>, ms: seq<MetaPair>)
    ensures MetaOfPairs(ps) == Ok(ms) <==> |ps| == |ms| && forall k :: 0 <= k < |ps| ==> MetaOfPair(ps[k]) == Ok(ms[k])
    decreases |ps|
  {
    hide MetaOfPair;
    if ps != [] && ms != [] {
      MetaOfPairsAt(ps[1..], ms[1..]);
      assert forall k :: 0 < k < |ps| ==> ps[k] == ps[1..][k - 1];
      assert forall k :: 0 < k < |ms| ==> ms[k] == ms[1..][k - 1];
      assert forall k :: 0 <= k < |ps[1..]| ==> ps[1..][k] == ps[k + 1];
      assert forall k :: 0 <= k < |ms[1..]| ==> ms[1..][k] == ms[k + 1];
      assert ms == [ms[0]] + ms[1..];
    }
  }

  /** What stands for a value that can be metadata is carried as that metadata. */
  lemma {:induction false} MetaDown(nodes: seq<GraphNode>, i: nat, v: Value, m: Meta)
    requires Carries(nodes, i, v) && MetaOf(v) == Ok(m)
    ensures MetaCarried(nodes, i, m)
    decreases v, 1
  {
    hide CarriesMeta, Decimal.ParseDecimal, IsKeyword, CarriesAll, CarriesPairs, MetaItemsCarried, CarriesMetaPairs;
    match v
    case Tagged(_, form) => MetaDown(nodes, nodes[i].form, form, m.form);
    case Sequence(_, items, meta) =>
      ItemsDown(nodes, nodes[i].items, items, m.items);
      NoneCarried(nodes, nodes[i].meta, meta);
    case Mapping(_, entries, meta) =>
      PairsDown(nodes, nodes[i].entries, entries, m.entries);
      NoneCarried(nodes, nodes[i].meta, meta);
    case _ =>
  }

  lemma NoneCarried(nodes: seq<GraphNode>, entries: Option<seq<Entry>>, meta: Metadata)
    ensures CarriesMeta(nodes, entries, meta) && meta.NoMeta? ==> entries.None?
  {
  }

  lemma {:induction false} ItemsDown(nodes: seq<GraphNode>, refs: seq<nat>, vs: seq<Value>, ms: seq<Meta>)
    requires CarriesAll(nodes, refs, vs) && MetaOfAll(vs) == Ok(ms)
    ensures MetaItemsCarried(nodes, refs, ms)
    decreases vs, 0
  {
    hide Carries, MetaOf, MetaCarried, MetaOfAll;
    MetaOfAllAt(vs, ms);
    forall k | 0 <= k < |ms| ensures MetaCarried(nodes, refs[k], ms[k]) { MetaDown(nodes, refs[k], vs[k], ms[k]); }
  }

  lemma {:induction false} PairsDown(nodes: seq<GraphNode>, entries: seq<Entry>, ps: seq<Pair>, ms: seq<MetaPair>)
    requires CarriesPairs(nodes, entries, ps) && MetaOfPairs(ps) == Ok(ms)
    ensures CarriesMetaPairs(nodes, entries, ms)
    decreases ps, 0
  {
    hide CarriesPair, MetaPairCarried, MetaOfPairs, MetaOfPair;
    MetaOfPairsAt(ps, ms);
    forall k | 0 <= k < |ms| ensures MetaPairCarried(nodes, entries[k], ms[k]) {
      PairDown(nodes, entries[k], ps[k], ms[k]);
    }
  }

  lemma {:induction false} PairDown(nodes: seq<GraphNode>, e: Entry, p: Pair, m: MetaPair)
    requires CarriesPair(nodes, e, p) && MetaOfPair(p) == Ok(m)
    ensures MetaPairCarried(nodes, e, m)
    decreases p, 2
  {
    hide Carries, MetaOf, MetaCarried;
    MetaDown(nodes, e.key, p.key, m.key);
    MetaDown(nodes, e.value, p.value, m.value);
  }

  /** What is carried as metadata stands for the value of the metadata. */
  lemma {:induction false} MetaUp(nodes: seq<GraphNode>, i: nat, m: Meta)
    requires MetaCarried(nodes, i, m)
    ensures Carries(nodes, i, AsValue(m)) && MetaOf(AsValue(m)) == Ok(m)
    decreases m, 1
  {
    hide CarriesMeta, Decimal.ParseDecimal, IsKeyword, CarriesAll, CarriesPairs, MetaItemsCarried, CarriesMetaPairs;
    hide AsValues, AsPairs, MetaOfAll, MetaOfPairs;
    NothingMeta(nodes);
    match m
    case MetaTagged(_, form) => MetaUp(nodes, nodes[i].form, form);
    case MetaVector(items) => ItemsUp(nodes, nodes[i].items, items);
    case MetaList(items) => ItemsUp(nodes, nodes[i].items, items);
    case MetaSet(items) => ItemsUp(nodes, nodes[i].items, items);
    case MetaMap(entries) => MetaPairsUp(nodes, nodes[i].entries, entries);
    case _ =>
  }

  lemma NothingMeta(nodes: seq<GraphNode>)
    ensures CarriesMeta(nodes, None, NoMeta)
  {
  }

  lemma {:induction false} AsValuesAt(items: seq<Meta>, k: nat)
    requires k < |items|
    ensures AsValues(items)[k] == AsValue(items[k])
  {
    hide AsValue;
    if k > 0 { AsValuesAt(items[1..], k - 1); }
  }

  lemma {:induction false} AsPairsAt(entries: seq<MetaPair>, k: nat)
    requires k < |entries|
    ensures AsPairs(entries)[k] == AsPair(entries[k])
  {
    hide AsPair;
    if k > 0 { AsPairsAt(entries[1..], k - 1); }
  }

  lemma {:induction false} ItemsUp(nodes: seq<GraphNode>, refs: seq<nat>, items: seq<Meta>)
    requires MetaItemsCarried(nodes, refs, items)
    ensures CarriesAll(nodes, refs, AsValues(items)) && MetaOfAll(AsValues(items)) == Ok(items)
    decreases items, 0
  {
    hide Carries, MetaOf, MetaCarried, MetaOfAll, AsValue, AsValues;
    var vs := AsValues(items);
    forall k | 0 <= k < |items| ensures Carries(nodes, refs[k], vs[k]) && MetaOf(vs[k]) == Ok(items[k]) {
      AsValuesAt(items, k);
      MetaUp(nodes, refs[k], items[k]);
    }
    MetaOfAllAt(vs, items);
  }

  lemma {:induction false} MetaPairsUp(nodes: seq<GraphNode>, entries: seq<Entry>, ms: seq<MetaPair>)
    requires CarriesMetaPairs(nodes, entries, ms)
    ensures CarriesPairs(nodes, entries, AsPairs(ms)) && MetaOfPairs(AsPairs(ms)) == Ok(ms)
    decreases ms, 0
  {
    hide CarriesPair, MetaPairCarried, MetaOfPairs, MetaOfPair, AsPair, AsPairs;
    var ps := AsPairs(ms);
    forall k | 0 <= k < |ms| ensures CarriesPair(nodes, entries[k], ps[k]) && MetaOfPair(ps[k]) == Ok(ms[k]) {
      AsPairsAt(ms, k);
      MetaPairUp(nodes, entries[k], ms[k]);
    }
    MetaOfPairsAt(ps, ms);
  }

  lemma {:induction false} MetaPairUp(nodes: seq<GraphNode>, e: Entry, m: MetaPair)
    requires MetaPairCarried(nodes, e, m)
    ensures CarriesPair(nodes, e, AsPair(m)) && MetaOfPair(AsPair(m)) == Ok(m)
    decreases m, 2
  {
    hide Carries, MetaOf, MetaCarried, AsValue;
    MetaUp(nodes, e.key, m.key);
    MetaUp(nodes, e.value, m.value);
  }

  // ----- References in a row -----

  lemma RowSplit(nodes: seq<GraphNode>, a: seq<nat>, b: seq<nat>, vs: seq<Value>)
    requires |vs| == |a| + |b|
    ensures CarriesAll(nodes, a + b, vs) <==> CarriesAll(nodes, a, vs[..|a|]) && CarriesAll(nodes, b, vs[|a|..])
  {
    hide Carries;
    var n := |a|;
    if CarriesAll(nodes, a + b, vs) {
      forall k | 0 <= k < n ensures Carries(nodes, a[k], vs[..n][k]) { assert (a + b)[k] == a[k]; }
      forall k | 0 <= k < |b| ensures Carries(nodes, b[k], vs[n..][k]) { assert (a + b)[n + k] == b[k]; }
    }
    if CarriesAll(nodes, a, vs[..n]) && CarriesAll(nodes, b, vs[n..]) {
      forall k | 0 <= k < |vs| ensures Carries(nodes, (a + b)[k], vs[k]) {
        if k < n { assert vs[..n][k] == vs[k]; } else { assert vs[n..][k - n] == vs[k]; }
      }
    }
  }

  lemma {:induction false} PairsOfAt(vs: seq<Value>, k: nat)
    requires |vs| % 2 == 0 && 2 * k + 1 < |vs|
    ensures |PairsOf(vs)| == |vs| / 2 && PairsOf(vs)[k] == Pair(vs[2 * k], vs[2 * k + 1])
    decreases |vs|
  {
    PairsOfLength(vs);
    if k > 0 {
      PairsOfAt(vs[2..], k - 1);
      assert PairsOf(vs)[1..] == PairsOf(vs[2..]);
    }
  }

  lemma {:induction false} PairsOfLength(vs: seq<Value>)
    ensures |PairsOf(vs)| == |vs| / 2
    decreases |vs|
  {
    if |vs| >= 2 { PairsOfLength(vs[2..]); }
  }

  lemma {:induction false} EntryRefsAt(entries: seq<Entry>, k: nat)
    requires k < |entries|
    ensures |EntryRefs(entries)| == 2 * |entries|
    ensures EntryRefs(entries)[2 * k] == entries[k].key && EntryRefs(entries)[2 * k + 1] == entries[k].value
  {
    EntryRefsLength(entries);
    if k > 0 {
      EntryRefsAt(entries[1..], k - 1);
      EntryRefsLength(entries[1..]);
      assert EntryRefs(entries)[2..] == EntryRefs(entries[1..]);
    }
  }

  /** Keys and values in a row are pairs. */
  lemma RowOfPairs(nodes: seq<GraphNode>, entries: seq<Entry>, vs: seq<Value>)
    requires |vs| == 2 * |entries|
    ensures CarriesAll(nodes, EntryRefs(entries), vs) <==> CarriesPairs(nodes, entries, PairsOf(vs))
  {
    hide Carries, EntryRefs, PairsOf;
    EntryRefsLength(entries);
    PairsOfLength(vs);
    var refs, ps := EntryRefs(entries), PairsOf(vs);
    forall k | 0 <= k < |entries|
      ensures refs[2 * k] == entries[k].key && refs[2 * k + 1] == entries[k].value
      ensures ps[k] == Pair(vs[2 * k], vs[2 * k + 1])
    {
      EntryRefsAt(entries, k);
      PairsOfAt(vs, k);
    }
    if CarriesAll(nodes, refs, vs) {
      forall k | 0 <= k < |entries| ensures CarriesPair(nodes, entries[k], ps[k]) {
        assert Carries(nodes, refs[2 * k], vs[2 * k]) && Carries(nodes, refs[2 * k + 1], vs[2 * k + 1]);
      }
    }
    if CarriesPairs(nodes, entries, ps) {
      forall j | 0 <= j < |vs| ensures Carries(nodes, refs[j], vs[j]) {
        var k := j / 2;
        assert j == 2 * k || j == 2 * k + 1;
        assert CarriesPair(nodes, entries[k], ps[k]);
      }
    }
  }

  lemma {:induction false} FlatBack(ps: seq<Pair>)
    ensures PairsOf(Flat(ps)) == ps
  {
    if ps != [] {
      FlatBack(ps[1..]);
      assert Flat(ps)[2..] == Flat(ps[1..]);
      assert ps == [ps[0]] + ps[1..];
    }
  }

  // ----- Metadata of a node -----

  lemma MetaRowUp(nodes: seq<GraphNode>, entries: Option<seq<Entry>>, meta: Metadata)
    requires CarriesMeta(nodes, entries, meta)
    ensures CarriesAll(nodes, MetaRefs(entries), MetaKids(meta)) && MetaFrom(entries, MetaKids(meta)) == Ok(meta)
  {
    hide Carries, MetaOfPairs, CarriesMetaPairs, CarriesPairs, AsPairs, EntryRefs, PairsOf, Flat;
    if meta.HasMeta? {
      var ps := AsPairs(meta.pairs);
      MetaPairsUp(nodes, entries.value, meta.pairs);
      FlatBack(ps);
      SameLength(nodes, entries.value, ps);
      RowOfPairs(nodes, entries.value, Flat(ps));
    }
  }

  lemma SameLength(nodes: seq<GraphNode>, entries: seq<Entry>, ps: seq<Pair>)
    requires CarriesPairs(nodes, entries, ps)
    ensures |entries| == |ps|
  {
  }

  lemma MetaRowDown(nodes: seq<GraphNode>, entries: Option<seq<Entry>>, kids: seq<Value>, meta: Metadata)
    requires CarriesAll(nodes, MetaRefs(entries), kids) && MetaFrom(entries, kids) == Ok(meta)
    ensures CarriesMeta(nodes, entries, meta)
  {
    hide Carries, MetaOfPairs, CarriesMetaPairs, CarriesPairs, EntryRefs, PairsOf;
    if entries.Some? {
      EntryRefsLength(entries.value);
      RowOfPairs(nodes, entries.value, kids);
      PairsDown(nodes, entries.value, PairsOf(kids), meta.pairs);
    }
  }

  // ----- One node -----

  /** Items and then metadata. */
  lemma ItemsNodeUp(nodes: seq<GraphNode>, i: nat, v: Value) returns (kids: seq<Value>)
    requires Carries(nodes, i, v) && (v.Sequence? || v.Structure?)
    ensures CarriesAll(nodes, Children(nodes[i]), kids) && Assemble(nodes[i], kids) == Ok(v)
  {
    var refs, entries := nodes[i].items, nodes[i].meta;
    kids := v.items + MetaKids(v.meta);
    MetaRowUp(nodes, entries, v.meta);
    RowLength(nodes, refs, v.items);
    RowLength(nodes, MetaRefs(entries), MetaKids(v.meta));
    assert kids[..|refs|] == v.items && kids[|refs|..] == MetaKids(v.meta);
    RowSplit(nodes, refs, MetaRefs(entries), kids);
    hide CarriesAll, CarriesMeta, MetaFrom, MetaKids, MetaRefs;
  }

  lemma RowLength(nodes: seq<GraphNode>, refs: seq<nat>, vs: seq<Value>)
    requires CarriesAll(nodes, refs, vs)
    ensures |refs| == |vs|
  {
  }

  lemma ItemsNodeDown(nodes: seq<GraphNode>, i: nat, kids: seq<Value>, v: Value)
    requires i < |nodes| && (nodes[i].SequenceNode? || nodes[i].StructureNode?)
    requires CarriesAll(nodes, Children(nodes[i]), kids) && Assemble(nodes[i], kids) == Ok(v)
    ensures Carries(nodes, i, v)
  {
    var refs, entries := nodes[i].items, nodes[i].meta;
    RowLength(nodes, refs + MetaRefs(entries), kids);
    RowSplit(nodes, refs, MetaRefs(entries), kids);
    MetaRowDown(nodes, entries, kids[|refs|..], v.meta);
    RowLength(nodes, refs, kids[..|refs|]);
    hide CarriesAll, CarriesMeta, MetaFrom, MetaRefs;
  }

  /** Entries and then metadata. */
  lemma EntriesNodeUp(nodes: seq<GraphNode>, i: nat, v: Value) returns (kids: seq<Value>)
    requires Carries(nodes, i, v) && (v.Mapping? || v.Pointer?)
    ensures CarriesAll(nodes, Children(nodes[i]), kids) && Assemble(nodes[i], kids) == Ok(v)
  {
    var entries, meta := nodes[i].entries, nodes[i].meta;
    kids := Flat(v.entries) + MetaKids(v.meta);
    MetaRowUp(nodes, meta, v.meta);
    SameLength(nodes, entries, v.entries);
    FlatBack(v.entries);
    RowOfPairs(nodes, entries, Flat(v.entries));
    EntryRefsLength(entries);
    RowLength(nodes, MetaRefs(meta), MetaKids(v.meta));
    var n := 2 * |entries|;
    assert kids[..n] == Flat(v.entries) && kids[n..] == MetaKids(v.meta);
    RowSplit(nodes, EntryRefs(entries), MetaRefs(meta), kids);
    hide CarriesAll, CarriesPairs, CarriesMeta, MetaFrom, MetaKids, MetaRefs, EntryRefs, Flat, PairsOf, StringKeys;
  }

  lemma EntriesNodeDown(nodes: seq<GraphNode>, i: nat, kids: seq<Value>, v: Value)
    requires i < |nodes| && (nodes[i].MappingNode? || nodes[i].PointerNode?)
    requires CarriesAll(nodes, Children(nodes[i]), kids) && Assemble(nodes[i], kids) == Ok(v)
    ensures Carries(nodes, i, v)
  {
    var entries, meta := nodes[i].entries, nodes[i].meta;
    var refs := EntryRefs(entries);
    EntryRefsLength(entries);
    RowLength(nodes, refs + MetaRefs(meta), kids);
    RowSplit(nodes, refs, MetaRefs(meta), kids);
    RowOfPairs(nodes, entries, kids[..|refs|]);
    MetaRowDown(nodes, meta, kids[|refs|..], v.meta);
    hide CarriesAll, CarriesPairs, CarriesMeta, MetaFrom, MetaRefs, EntryRefs, PairsOf, StringKeys;
  }

  lemma RowOfOne(nodes: seq<GraphNode>, a: nat, v: Value)
    ensures CarriesAll(nodes, [a], [v]) <==> Carries(nodes, a, v)
  {
    hide Carries;
    if CarriesAll(nodes, [a], [v]) { assert Carries(nodes, [a][0], [v][0]); }
  }

  lemma RowOfTwo(nodes: seq<GraphNode>, a: nat, b: nat, v: Value, w: Value)
    ensures CarriesAll(nodes, [a, b], [v, w]) <==> Carries(nodes, a, v) && Carries(nodes, b, w)
  {
    hide Carries;
    if CarriesAll(nodes, [a, b], [v, w]) {
      assert Carries(nodes, [a, b][0], [v, w][0]) && Carries(nodes, [a, b][1], [v, w][1]);
    }
  }

  lemma PairNodeUp(nodes: seq<GraphNode>, i: nat, v: Value) returns (kids: seq<Value>)
    requires Carries(nodes, i, v) && (v.Symbol? || v.Tagged? || v.MapEntry? || v.Exception?)
    ensures CarriesAll(nodes, Children(nodes[i]), kids) && Assemble(nodes[i], kids) == Ok(v)
  {
    match v
    case Symbol(_, meta) =>
      MetaRowUp(nodes, nodes[i].meta, meta);
      kids := MetaKids(meta);
    case Tagged(_, form) =>
      kids := [form];
      RowOfOne(nodes, nodes[i].form, form);
    case MapEntry(key, value, meta) =>
      MetaRowUp(nodes, nodes[i].meta, meta);
      RowOfTwo(nodes, nodes[i].key, nodes[i].value, key, value);
      kids := [key, value] + MetaKids(meta);
      RowLength(nodes, MetaRefs(nodes[i].meta), MetaKids(meta));
      assert kids[..2] == [key, value] && kids[2..] == MetaKids(meta);
      RowSplit(nodes, [nodes[i].key, nodes[i].value], MetaRefs(nodes[i].meta), kids);
      hide CarriesAll, CarriesMeta, MetaFrom, MetaKids, MetaRefs;
    case Exception(_, data, cause, _) =>
      kids := [data] + if cause.Some? then [cause.value] else [];
      RowOfOne(nodes, nodes[i].data, data);
      if cause.Some? {
        RowOfTwo(nodes, nodes[i].data, nodes[i].cause.value, data, cause.value);
        assert [data] + [cause.value] == [data, cause.value];
        assert [nodes[i].data] + [nodes[i].cause.value] == [nodes[i].data, nodes[i].cause.value];
      } else {
        assert [data] + [] == [data] && [nodes[i].data] + [] == [nodes[i].data];
      }
      hide CarriesAll;
  }

  lemma PairNodeDown(nodes: seq<GraphNode>, i: nat, kids: seq<Value>, v: Value)
    requires i < |nodes|
    requires nodes[i].SymbolNode? || nodes[i].TaggedNode? || nodes[i].MapEntryNode? || nodes[i].ExceptionNode?
    requires CarriesAll(nodes, Children(nodes[i]), kids) && Assemble(nodes[i], kids) == Ok(v)
    ensures Carries(nodes, i, v)
  {
    match nodes[i]
    case SymbolNode(_, meta) => MetaRowDown(nodes, meta, kids, v.meta);
    case TaggedNode(_, form) =>
      assert kids == [kids[0]];
      RowOfOne(nodes, form, kids[0]);
    case MapEntryNode(key, value, meta) =>
      var refs := [key, value];
      RowLength(nodes, refs + MetaRefs(meta), kids);
      RowSplit(nodes, refs, MetaRefs(meta), kids);
      assert kids[..2] == [kids[0], kids[1]];
      RowOfTwo(nodes, key, value, kids[0], kids[1]);
      MetaRowDown(nodes, meta, kids[2..], v.meta);
      hide CarriesAll, CarriesMeta, MetaFrom, MetaRefs;
    case ExceptionNode(_, data, cause, _) =>
      RowLength(nodes, Children(nodes[i]), kids);
      if cause.Some? {
        assert Children(nodes[i]) == [data, cause.value] && kids == [kids[0], kids[1]];
        RowOfTwo(nodes, data, cause.value, kids[0], kids[1]);
      } else {
        assert Children(nodes[i]) == [data] && kids == [kids[0]];
        RowOfOne(nodes, data, kids[0]);
      }
      hide CarriesAll;
  }

  // ----- Whole graphs -----

  lemma {:induction false} UnfoldAllAt(nodes: seq<GraphNode>, i: nat, refs: seq<nat>, vs: seq<Value>)
    requires Backward(nodes) && i <= |nodes| && InRange(refs, i)
    ensures UnfoldAll(nodes, i, refs) == Ok(vs) <==>
      |vs| == |refs| && forall k :: 0 <= k < |refs| ==> Unfold(nodes, refs[k]) == Ok(vs[k])
    decreases |refs|
  {
    hide Unfold, Backward;
    if refs != [] && vs != [] {
      UnfoldAllAt(nodes, i, refs[1..], vs[1..]);
      assert forall k :: 0 < k < |refs| ==> refs[k] == refs[1..][k - 1];
      assert forall k :: 0 < k < |vs| ==> vs[k] == vs[1..][k - 1];
      assert forall k :: 0 <= k < |refs[1..]| ==> refs[1..][k] == refs[k + 1];
      assert forall k :: 0 <= k < |vs[1..]| ==> vs[1..][k] == vs[k + 1];
      assert vs == [vs[0]] + vs[1..];
    }
  }

  lemma NodeUp(nodes: seq<GraphNode>, i: nat, v: Value) returns (kids: seq<Value>)
    requires Carries(nodes, i, v)
    ensures |kids| == |Children(nodes[i])| && CarriesAll(nodes, Children(nodes[i]), kids)
    ensures Assemble(nodes[i], kids) == Ok(v)
  {
    if v.Sequence? || v.Structure? {
      kids := ItemsNodeUp(nodes, i, v);
    } else if v.Mapping? || v.Pointer? {
      kids := EntriesNodeUp(nodes, i, v);
    } else if v.Symbol? || v.Tagged? || v.MapEntry? || v.Exception? {
      kids := PairNodeUp(nodes, i, v);
    } else {
      kids := [];
    }
  }

  lemma NodeDown(nodes: seq<GraphNode>, i: nat, kids: seq<Value>, v: Value)
    requires i < |nodes| && |kids| == |Children(nodes[i])| && CarriesAll(nodes, Children(nodes[i]), kids)
    requires Assemble(nodes[i], kids) == Ok(v)
    ensures Carries(nodes, i, v)
  {
    match nodes[i]
    case SequenceNode(_, _, _) => ItemsNodeDown(nodes, i, kids, v);
    case StructureNode(_, _, _, _) => ItemsNodeDown(nodes, i, kids, v);
    case MappingNode(_, _, _) => EntriesNodeDown(nodes, i, kids, v);
    case PointerNode(_, _, _) => EntriesNodeDown(nodes, i, kids, v);
    case SymbolNode(_, _) => PairNodeDown(nodes, i, kids, v);
    case TaggedNode(_, _) => PairNodeDown(nodes, i, kids, v);
    case MapEntryNode(_, _, _) => PairNodeDown(nodes, i, kids, v);
    case ExceptionNode(_, _, _, _) => PairNodeDown(nodes, i, kids, v);
    case _ =>
  }

  /** Following references from a node gives a value exactly when the node stands for it. */
  lemma {:induction false} UnfoldExactly(nodes: seq<GraphNode>, i: nat, v: Value)
    requires Backward(nodes) && i < |nodes|
    ensures Unfold(nodes, i) == Ok(v) <==> Carries(nodes, i, v)
    decreases i
  {
    var refs := Children(nodes[i]);
    forall k, w | 0 <= k < |refs| ensures Unfold(nodes, refs[k]) == Ok(w) <==> Carries(nodes, refs[k], w) {
      UnfoldExactly(nodes, refs[k], w);
    }
    if Carries(nodes, i, v) {
      var kids := NodeUp(nodes, i, v);
      UnfoldAllAt(nodes, i, refs, kids);
      hide Carries, Assemble, Children;
    }
    if Unfold(nodes, i) == Ok(v) {
      var kids := UnfoldAll(nodes, i, refs).value;
      UnfoldAllAt(nodes, i, refs, kids);
      hide Carries, Assemble, Children;
      NodeDown(nodes, i, kids, v);
    }
  }

  /** A well-formed graph is read to a value exactly when its root stands for the value. */
  lemma MaterializeExactly(g: Graph, v: Value)
    requires WellFormed(g)
    ensures Materialize(g) == Ok(v) <==> Carries(g.nodes, g.root, v)
  {
    hide Carries, Unfold, Materialize, Backward;
    SharingDoesNotShow(g);
    UnfoldExactly(g.nodes, g.root, v);
  }

  /** A reading of a graph answers with what its root stands for, and fails where it stands for nothing. */
  ghost predicate Answers(g: Graph, r: Result<Value, Error>) {
    WellFormed(g) ==> forall v :: r == Ok(v) <==> Carries(g.nodes, g.root, v)
  }

  lemma MaterializeAnswers(g: Graph)
    ensures Answers(g, Materialize(g))
  {
    hide Carries, Materialize, WellFormed;
    if WellFormed(g) {
      forall v ensures Materialize(g) == Ok(v) <==> Carries(g.nodes, g.root, v) { MaterializeExactly(g, v); }
    }
  }

  /** The graph made of a sound value stands for it, with every tuple a vector. */
  lemma FlattenedStands(v: Value)
    requires Append([], v).Ok? && Sound(v)
    ensures
      var g := Append([], v).value;
      Carries(g.nodes, g.refs[0], Canon(v))
  {
    hide Carries, Append, Sound, Canon, Materialize, WellFormed;
    var g := Append([], v).value;
    AppendedIsWellFormed(v);
    RoundTrip(v);
    MaterializeExactly(Graph(g.refs[0], g.nodes), Canon(v));
  }
}
