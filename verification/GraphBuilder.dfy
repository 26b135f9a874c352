/** `GraphBuilder`, `Graph::validate` and `Graph::materialize` as they run. */
module GraphBuilders {
  import opened Prelude
  import opened GraphData
  import opened GraphSpec
  import opened GraphLaws
  import opened GraphTheorems
  import GraphMeaning
  import Decimal

  // ----- Putting appends together -----

  function AndThen(first: Result<Grown, Error>, vs: seq<Value>): Result<Grown, Error> {
    if first.Err? then first
    else
      var rest := AppendAll(first.value.nodes, vs);
      if rest.Err? then rest else Ok(Grown(rest.value.nodes, first.value.refs + rest.value.refs))
  }

  lemma {:induction false} AppendConcat(nodes: seq<GraphNode>, vs: seq<Value>, ws: seq<Value>)
    ensures AppendAll(nodes, vs + ws) == AndThen(AppendAll(nodes, vs), ws)
    decreases |vs|
  {
    hide Append;
    if vs == [] {
      assert vs + ws == ws;
      var rest := AppendAll(nodes, ws);
      assert rest.Ok? ==> [] + rest.value.refs == rest.value.refs;
    } else {
      var first := Append(nodes, vs[0]);
      assert (vs + ws)[0] == vs[0] && (vs + ws)[1..] == vs[1..] + ws;
      if first.Ok? {
        AppendConcat(first.value.nodes, vs[1..], ws);
        var mid := AppendAll(first.value.nodes, vs[1..]);
        if mid.Ok? {
          var rest := AppendAll(mid.value.nodes, ws);
          if rest.Ok? {
            assert first.value.refs + mid.value.refs + rest.value.refs ==
                   first.value.refs + (mid.value.refs + rest.value.refs);
          }
        }
      }
    }
  }

  lemma AppendOne(nodes: seq<GraphNode>, v: Value)
    ensures AppendAll(nodes, [v]) == Append(nodes, v)
  {
    hide Append;
    assert [v][1..] == [];
    var first := Append(nodes, v);
    assert first.Ok? ==> first.value.refs + [] == first.value.refs;
  }

  lemma AppendTwo(nodes: seq<GraphNode>, a: Value, b: Value)
    ensures AppendAll(nodes, [a, b]) == AndThen(Append(nodes, a), [b])
  {
    AppendOne(nodes, a);
    AppendConcat(nodes, [a], [b]);
    assert [a] + [b] == [a, b];
  }

  lemma {:induction false} EntryRefsBack(entries: seq<Entry>)
    ensures PairRefs(EntryRefs(entries)) == entries && |EntryRefs(entries)| == 2 * |entries|
  {
    if entries != [] {
      EntryRefsBack(entries[1..]);
      var all := EntryRefs(entries);
      assert all[2..] == EntryRefs(entries[1..]);
      assert [entries[0]] + entries[1..] == entries;
    }
  }

  lemma {:induction false} EntryRefsConcat(a: seq<Entry>, b: seq<Entry>)
    ensures EntryRefs(a + b) == EntryRefs(a) + EntryRefs(b)
  {
    if a == [] {
      assert a + b == b;
    } else {
      EntryRefsConcat(a[1..], b);
      assert (a + b)[1..] == a[1..] + b;
    }
  }

  lemma {:induction false} FlatConcat(a: seq<Pair>, b: seq<Pair>)
    ensures Flat(a + b) == Flat(a) + Flat(b)
  {
    if a == [] {
      assert a + b == b;
    } else {
      FlatConcat(a[1..], b);
      assert (a + b)[1..] == a[1..] + b;
    }
  }

  lemma {:induction false} AsPairsConcat(a: seq<MetaPair>, b: seq<MetaPair>)
    ensures AsPairs(a + b) == AsPairs(a) + AsPairs(b)
  {
    if a == [] {
      assert a + b == b;
    } else {
      AsPairsConcat(a[1..], b);
      assert (a + b)[1..] == a[1..] + b;
    }
  }

  lemma {:induction false} AsValuesConcat(a: seq<Meta>, b: seq<Meta>)
    ensures AsValues(a + b) == AsValues(a) + AsValues(b)
  {
    if a == [] {
      assert a + b == b;
    } else {
      AsValuesConcat(a[1..], b);
      assert (a + b)[1..] == a[1..] + b;
    }
  }

  lemma {:induction false} CountAt(vs: seq<Value>, i: nat)
    requires i < |vs|
    ensures Count(vs[i]) <= CountAll(vs)
  {
    if i > 0 { CountAt(vs[1..], i - 1); }
  }

  lemma {:induction false} CountPairAt(entries: seq<Pair>, i: nat)
    requires i < |entries|
    ensures Count(entries[i].key) + Count(entries[i].value) <= CountPairs(entries)
  {
    if i > 0 { CountPairAt(entries[1..], i - 1); }
  }

  lemma {:induction false} MetaCountAt(items: seq<Meta>, i: nat)
    requires i < |items|
    ensures MetaCount(items[i]) <= MetaItemCount(items)
  {
    if i > 0 { MetaCountAt(items[1..], i - 1); }
  }

  lemma {:induction false} MetaPairAt(entries: seq<MetaPair>, i: nat)
    requires i < |entries|
    ensures MetaCount(entries[i].key) + MetaCount(entries[i].value) <= MetaPairCount(entries)
  {
    if i > 0 { MetaPairAt(entries[1..], i - 1); }
  }

  /** The report of a builder call matches the specified growth. */
  ghost predicate Placed(spec: Result<Grown, Error>, r: Result<nat, Error>, nodes: seq<GraphNode>) {
    match r
    case Err(e) => spec == Err(e)
    case Ok(i) => spec == Ok(Grown(nodes, [i]))
  }

  ghost predicate AllPlaced(spec: Result<Grown, Error>, r: Result<seq<nat>, Error>, nodes: seq<GraphNode>) {
    match r
    case Err(e) => spec == Err(e)
    case Ok(refs) => spec == Ok(Grown(nodes, refs))
  }

  ghost predicate PairsPlaced(spec: Result<Grown, Error>, r: Result<seq<Entry>, Error>, nodes: seq<GraphNode>) {
    match r
    case Err(e) => spec == Err(e)
    case Ok(entries) => spec == Ok(Grown(nodes, EntryRefs(entries)))
  }

  ghost predicate MetaPlaced(meta: Metadata, spec: Result<Grown, Error>, r: Result<Option<seq<Entry>>, Error>,
                             nodes: seq<GraphNode>) {
    match r
    case Err(e) => spec == Err(e)
    case Ok(m) => spec == Ok(Grown(nodes, MetaRefs(m))) && (m.None? <==> meta.NoMeta?)
  }

  /** One more value after some. */
  lemma AppendNext(nodes: seq<GraphNode>, vs: seq<Value>, v: Value)
    ensures AppendAll(nodes, vs + [v]) == AndThen(AppendAll(nodes, vs), [v])
    ensures AppendAll(nodes, vs).Ok? ==>
      var g := AppendAll(nodes, vs).value;
      AppendAll(nodes, vs + [v]) ==
        match Append(g.nodes, v)
        case Err(e) => Err(e)
        case Ok(h) => Ok(Grown(h.nodes, g.refs + h.refs))
  {
    AppendConcat(nodes, vs, [v]);
    if AppendAll(nodes, vs).Ok? { AppendOne(AppendAll(nodes, vs).value.nodes, v); }
  }

  /** A failure among the first values is the failure of all. */
  lemma AppendFailsEarly(nodes: seq<GraphNode>, vs: seq<Value>, n: nat)
    requires n <= |vs| && AppendAll(nodes, vs[..n]).Err?
    ensures AppendAll(nodes, vs) == AppendAll(nodes, vs[..n])
  {
    assert vs == vs[..n] + vs[n..];
    AppendConcat(nodes, vs[..n], vs[n..]);
  }

  // ----- Nodes as pushed -----

  lemma MetaNodeBack(meta: Metadata, m: Option<seq<Entry>>)
    requires m.None? <==> meta.NoMeta?
    ensures MetaNode(meta, MetaRefs(m)) == m
  {
    if m.Some? { EntryRefsBack(m.value); }
  }

  lemma ItemsNode(v: Value, refs: seq<nat>, m: Option<seq<Entry>>)
    requires v.Sequence? || v.Tuple? || (v.Structure? && !v.open)
    requires |refs| == |v.items| && |refs + MetaRefs(m)| == |Kids(v)| && (m.None? <==> v.meta.NoMeta?)
    ensures NodeOf(v, refs + MetaRefs(m)) ==
      if v.Structure? then StructureNode(v.typeName, v.fields, refs, m)
      else SequenceNode(if v.Tuple? then Vector else v.sequence, refs, m)
  {
    MetaNodeBack(v.meta, m);
    hide MetaNode, MetaRefs, Kids;
    var all := refs + MetaRefs(m);
    assert all[..|v.items|] == refs && all[|v.items|..] == MetaRefs(m);
  }

  lemma EntriesNode(v: Value, entries: seq<Entry>, m: Option<seq<Entry>>)
    requires v.Mapping? || v.Pointer?
    requires |entries| == |v.entries| && |EntryRefs(entries) + MetaRefs(m)| == |Kids(v)|
    requires m.None? <==> v.meta.NoMeta?
    ensures NodeOf(v, EntryRefs(entries) + MetaRefs(m)) ==
      if v.Mapping? then MappingNode(v.mapping, entries, m) else PointerNode(v.context, entries, m)
  {
    MetaNodeBack(v.meta, m);
    EntryRefsBack(entries);
    hide MetaNode, MetaRefs, Kids, PairRefs, EntryRefs;
    var all := EntryRefs(entries) + MetaRefs(m);
    assert all[..2 * |v.entries|] == EntryRefs(entries) && all[2 * |v.entries|..] == MetaRefs(m);
  }

  class GraphBuilder {
    var nodes: seq<GraphNode>

    constructor ()
      ensures nodes == []
    {
      nodes := [];
    }

    method PushNode(node: GraphNode) returns (r: Result<nat, Error>)
      modifies this
      ensures Placed(Push(old(nodes), node), r, nodes)
    {
      if |nodes| >= LIMIT { return Err(TooManyNodes); }
      var index := |nodes|;
      nodes := nodes + [node];
      return Ok(index);
    }

    /** `append_metadata_value`: the same nodes as for the value it stands for. */
    method AppendMetadataValue(m: Meta) returns (r: Result<nat, Error>)
      modifies this
      ensures Placed(Append(old(nodes), AsValue(m)), r, nodes)
      decreases MetaCount(m), 0
    {
      hide Append, AppendAll, NodeOf, Push;
      AppendParts(nodes, AsValue(m));
      LeafParts(AsValue(m));
      match m {
        case Runtime => r := Err(NotSupported("process-local metadata"));
        case MetaNonFinite => r := Err(NotSupported("non-finite-float"));
        case MetaPlain(atom) => r := PushNode(PlainNode(atom));
        case MetaBigInteger(n) => r := PushNode(BigIntegerNode(Decimal.ToDecimal(n)));
        case MetaKeyword(name) => r := PushNode(KeywordNode(name));
        case MetaSymbol(name, meta) =>
          var entries := AppendMetadata(meta);
          if entries.Err? { return Err(entries.error); }
          SymbolParts(name, meta, entries.value);
          r := PushNode(SymbolNode(name, entries.value));
        case MetaTagged(tag, form) =>
          AppendOne(nodes, AsValue(form));
          var f := AppendMetadataValue(form);
          if f.Err? { return f; }
          TaggedParts(tag, AsValue(form), f.value);
          r := PushNode(TaggedNode(tag, f.value));
        case MetaVector(items) => r := AppendMetadataItems(Vector, items, m);
        case MetaList(items) => r := AppendMetadataItems(List, items, m);
        case MetaSet(items) => r := AppendMetadataItems(Set, items, m);
        case MetaMap(entries) =>
          assert Kids(AsValue(m)) == Flat(AsPairs(entries)) by { NoMetaKids(Flat(AsPairs(entries))); }
          var pairs := AppendMetadataPairs(entries);
          if pairs.Err? { return Err(pairs.error); }
          MetaMapParts(entries, pairs.value);
          r := PushNode(MappingNode(Map, pairs.value, None));
      }
    }

    method AppendMetadataItems(kind: SequenceKind, items: seq<Meta>, ghost m: Meta) returns (r: Result<nat, Error>)
      requires AsValue(m) == Sequence(kind, AsValues(items), NoMeta) && MetaItemCount(items) < MetaCount(m)
      modifies this
      ensures Placed(Append(old(nodes), AsValue(m)), r, nodes)
      decreases MetaItemCount(items), 1
    {
      hide Append, AppendAll, NodeOf, Push;
      AppendParts(nodes, AsValue(m));
      var refs: seq<nat> := [];
      var i := 0;
      AppendStart(nodes);
      assert AsValues(items[..0]) == [];
      while i < |items|
        invariant 0 <= i <= |items|
        invariant AppendAll(old(nodes), AsValues(items[..i])) == Ok(Grown(nodes, refs))
      {
        MetaCountAt(items, i);
        assert items[..i + 1] == items[..i] + [items[i]];
        AsValuesConcat(items[..i], [items[i]]);
        assert AsValues([items[i]]) == [AsValue(items[i])];
        AppendNext(old(nodes), AsValues(items[..i]), AsValue(items[i]));
        var one := AppendMetadataValue(items[i]);
        if one.Err? {
          AsValuesPrefix(items, i + 1);
          AppendFailsEarly(old(nodes), AsValues(items), i + 1);
          assert AsValues(items) + [] == AsValues(items);
          return one;
        }
        refs := refs + [one.value];
        i := i + 1;
      }
      assert items[..i] == items;
      assert AsValues(items) + [] == AsValues(items);
      MetaItemsParts(kind, AsValues(items), refs);
      r := PushNode(SequenceNode(kind, refs, None));
    }

    method AppendMetadataPairs(entries: seq<MetaPair>) returns (r: Result<seq<Entry>, Error>)
      modifies this
      ensures PairsPlaced(AppendAll(old(nodes), Flat(AsPairs(entries))), r, nodes)
      ensures r.Ok? ==> |r.value| == |entries|
      decreases MetaPairCount(entries), 1
    {
      hide Append, AppendAll, EntryRefs;
      var made: seq<Entry> := [];
      var i := 0;
      AppendStart(nodes);
      assert EntryRefs([]) == [] && Flat(AsPairs(entries[..0])) == [] by { FlatNone(); }
      while i < |entries|
        invariant 0 <= i <= |entries| && |made| == i
        invariant AppendAll(old(nodes), Flat(AsPairs(entries[..i]))) == Ok(Grown(nodes, EntryRefs(made)))
      {
        MetaPairAt(entries, i);
        assert entries[..i + 1] == entries[..i] + [entries[i]];
        var key, value := entries[i].key, entries[i].value;
        ghost var before := Flat(AsPairs(entries[..i]));
        AsPairsNext(entries, i);
        AppendNext(old(nodes), before, AsValue(key));
        var k := AppendMetadataValue(key);
        if k.Err? {
          FlatFails(old(nodes), AsPairs(entries), i, 1);
          return Err(k.error);
        }
        AppendNext(old(nodes), before + [AsValue(key)], AsValue(value));
        var v := AppendMetadataValue(value);
        if v.Err? {
          FlatFails(old(nodes), AsPairs(entries), i, 2);
          return Err(v.error);
        }
        EntryNext(made, k.value, v.value);
        made := made + [Entry(k.value, v.value)];
        i := i + 1;
      }
      assert entries[..i] == entries;
      return Ok(made);
    }

    method AppendMetadata(meta: Metadata) returns (r: Result<Option<seq<Entry>>, Error>)
      modifies this
      ensures MetaPlaced(meta, AppendAll(old(nodes), MetaKids(meta)), r, nodes)
      decreases MetadataCount(meta), 2
    {
      if meta.NoMeta? { return Ok(None); }
      var entries := AppendMetadataPairs(meta.pairs);
      if entries.Err? { return Err(entries.error); }
      return Ok(Some(entries.value));
    }

    /** Appends values one after the other. */
    method AppendItems(vs: seq<Value>) returns (r: Result<seq<nat>, Error>)
      modifies this
      ensures AllPlaced(AppendAll(old(nodes), vs), r, nodes)
      decreases CountAll(vs), 3
    {
      hide GraphSpec.Append, AppendAll;
      var refs: seq<nat> := [];
      var i := 0;
      AppendStart(nodes);
      assert vs[..0] == [];
      while i < |vs|
        invariant 0 <= i <= |vs|
        invariant AppendAll(old(nodes), vs[..i]) == Ok(Grown(nodes, refs))
      {
        CountAt(vs, i);
        assert vs[..i + 1] == vs[..i] + [vs[i]];
        AppendNext(old(nodes), vs[..i], vs[i]);
        var one := AppendValue(vs[i]);
        if one.Err? {
          AppendFailsEarly(old(nodes), vs, i + 1);
          return Err(one.error);
        }
        refs := refs + [one.value];
        i := i + 1;
      }
      assert vs[..i] == vs;
      return Ok(refs);
    }

    /** `append_pairs`: each key, then its value. */
    method AppendPairs(entries: seq<Pair>) returns (r: Result<seq<Entry>, Error>)
      modifies this
      ensures PairsPlaced(AppendAll(old(nodes), Flat(entries)), r, nodes)
      ensures r.Ok? ==> |r.value| == |entries|
      decreases CountPairs(entries), 1
    {
      hide GraphSpec.Append, AppendAll, EntryRefs, Flat;
      var made: seq<Entry> := [];
      var i := 0;
      AppendStart(nodes);
      assert EntryRefs([]) == [] && Flat(entries[..0]) == [] by { FlatNone(); }
      while i < |entries|
        invariant 0 <= i <= |entries| && |made| == i
        invariant AppendAll(old(nodes), Flat(entries[..i])) == Ok(Grown(nodes, EntryRefs(made)))
      {
        CountPairAt(entries, i);
        var key, value := entries[i].key, entries[i].value;
        ghost var before := Flat(entries[..i]);
        FlatNext(entries, i);
        AppendNext(old(nodes), before, key);
        var k := AppendValue(key);
        if k.Err? {
          FlatFails(old(nodes), entries, i, 1);
          return Err(k.error);
        }
        AppendNext(old(nodes), before + [key], value);
        var v := AppendValue(value);
        if v.Err? {
          FlatFails(old(nodes), entries, i, 2);
          return Err(v.error);
        }
        EntryNext(made, k.value, v.value);
        made := made + [Entry(k.value, v.value)];
        i := i + 1;
      }
      assert entries[..i] == entries;
      return Ok(made);
    }

    /** `append_sequence`, and the sequence-like part of a struct: items, then metadata, then the node. */
    method AppendSequence(v: Value) returns (r: Result<nat, Error>)
      requires v.Sequence? || v.Tuple? || (v.Structure? && !v.open)
      modifies this
      ensures Placed(Append(old(nodes), v), r, nodes)
      decreases Count(v), 0
    {
      hide GraphSpec.Append, AppendAll, NodeOf, Push, Kids, MetaRefs, MetaKids;
      AppendParts(nodes, v);
      KidsParts(v);
      AppendConcat(nodes, v.items, MetaKids(v.meta));
      var items := AppendItems(v.items);
      if items.Err? { return Err(items.error); }
      var meta := AppendMetadata(v.meta);
      if meta.Err? { return Err(meta.error); }
      assert AppendAll(old(nodes), Kids(v)) == Ok(Grown(nodes, items.value + MetaRefs(meta.value)));
      ItemsNode(v, items.value, meta.value);
      if v.Structure? {
        r := PushNode(StructureNode(v.typeName, v.fields, items.value, meta.value));
      } else if v.Tuple? {
        r := PushNode(SequenceNode(Vector, items.value, meta.value));
      } else {
        r := PushNode(SequenceNode(v.sequence, items.value, meta.value));
      }
    }

    /** `append_mapping`, and a pointer's fields: pairs, then metadata, then the node. */
    method AppendMapping(v: Value) returns (r: Result<nat, Error>)
      requires v.Mapping? || v.Pointer?
      modifies this
      ensures Placed(Append(old(nodes), v), r, nodes)
      decreases Count(v), 0
    {
      hide GraphSpec.Append, AppendAll, NodeOf, Push, Kids, MetaRefs, MetaKids, EntryRefs;
      AppendParts(nodes, v);
      KidsParts(v);
      AppendConcat(nodes, Flat(v.entries), MetaKids(v.meta));
      var entries := AppendPairs(v.entries);
      if entries.Err? { return Err(entries.error); }
      var meta := AppendMetadata(v.meta);
      if meta.Err? { return Err(meta.error); }
      assert AppendAll(old(nodes), Kids(v)) == Ok(Grown(nodes, EntryRefs(entries.value) + MetaRefs(meta.value)));
      EntriesNode(v, entries.value, meta.value);
      if v.Mapping? {
        r := PushNode(MappingNode(v.mapping, entries.value, meta.value));
      } else {
        r := PushNode(PointerNode(v.context, entries.value, meta.value));
      }
    }

    method AppendMapEntry(v: Value) returns (r: Result<nat, Error>)
      requires v.MapEntry?
      modifies this
      ensures Placed(Append(old(nodes), v), r, nodes)
      decreases Count(v), 0
    {
      hide GraphSpec.Append, AppendAll, NodeOf, Push, Kids, MetaRefs, MetaKids;
      AppendParts(nodes, v);
      KidsParts(v);
      AppendConcat(nodes, [v.key, v.value], MetaKids(v.meta));
      AppendTwo(nodes, v.key, v.value);
      var k := AppendValue(v.key);
      if k.Err? { return k; }
      AppendOne(nodes, v.value);
      var w := AppendValue(v.value);
      if w.Err? { return w; }
      assert [k.value] + [w.value] == [k.value, w.value];
      var meta := AppendMetadata(v.meta);
      if meta.Err? { return Err(meta.error); }
      MapEntryParts(v, k.value, w.value, meta.value);
      r := PushNode(MapEntryNode(k.value, w.value, meta.value));
    }

    method AppendException(v: Value) returns (r: Result<nat, Error>)
      requires v.Exception?
      modifies this
      ensures Placed(Append(old(nodes), v), r, nodes)
      decreases Count(v), 0
    {
      hide GraphSpec.Append, AppendAll, NodeOf, Push, Kids;
      AppendParts(nodes, v);
      KidsParts(v);
      AppendOne(nodes, v.data);
      if v.cause.Some? { AppendTwo(nodes, v.data, v.cause.value); }
      var data := AppendValue(v.data);
      if data.Err? { return data; }
      var cause: Option<nat> := None;
      if v.cause.Some? {
        AppendOne(nodes, v.cause.value);
        var c := AppendValue(v.cause.value);
        if c.Err? { return c; }
        assert [data.value] + [c.value] == [data.value, c.value];
        cause := Some(c.value);
      }
      ExceptionParts(v, data.value, cause);
      r := PushNode(ExceptionNode(v.message, data.value, cause, v.sites));
    }

    /** `append`. */
    method AppendValue(v: Value) returns (r: Result<nat, Error>)
      modifies this
      ensures Placed(Append(old(nodes), v), r, nodes)
      decreases Count(v), 2
    {
      hide GraphSpec.Append, AppendAll, NodeOf, Push, Kids;
      AppendParts(nodes, v);
      match v {
        case Plain(atom) => LeafParts(v); r := PushNode(PlainNode(atom));
        case NonFinite => r := Err(NotSupported("non-finite-float"));
        case Bytes(bytes) => LeafParts(v); r := PushNode(BytesNode(bytes));
        case BigInteger(n) => LeafParts(v); r := PushNode(BigIntegerNode(Decimal.ToDecimal(n)));
        case Keyword(name) => LeafParts(v); r := PushNode(KeywordNode(name));
        case Symbol(name, meta) =>
          KidsParts(v);
          var entries := AppendMetadata(meta);
          if entries.Err? { return Err(entries.error); }
          SymbolParts(name, meta, entries.value);
          r := PushNode(SymbolNode(name, entries.value));
        case Tagged(tag, form) =>
          AppendOne(nodes, form);
          TaggedParts(tag, form, 0);
          var f := AppendValue(form);
          if f.Err? { return f; }
          TaggedParts(tag, form, f.value);
          r := PushNode(TaggedNode(tag, f.value));
        case Sequence(_, _, _) => r := AppendSequence(v);
        case Tuple(_, _) => r := AppendSequence(v);
        case Mapping(_, _, _) => r := AppendMapping(v);
        case Pointer(_, _, _) => r := AppendMapping(v);
        case MapEntry(_, _, _) => r := AppendMapEntry(v);
        case Structure(open, _, _, _, _) =>
          if open { return Err(NotSupported("open record")); }
          r := AppendSequence(v);
        case Exception(_, _, _, _) => r := AppendException(v);
        case Unsupported(reason) => r := Err(NotSupported(reason));
      }
    }
  }

  /** `lower` without the wire: flatten, then check and read back, as `lift` does. */
  method Carry(v: Value) returns (r: Result<Value, Error>)
    ensures r.Ok? <==> Supported(v) && Count(v) <= LIMIT && Sound(v)
    ensures r.Ok? ==> r.value == Canon(v)
  {
    hide Append, Supported, Sound, Canon, Materialize, WellFormed, Extended, Count;
    var builder := new GraphBuilder();
    AppendExtends([], v);
    var root := builder.AppendValue(v);
    if root.Err? { return Err(root.error); }
    var g := Graph(root.value, builder.nodes);
    AppendedIsWellFormed(v);
    RoundTrip(v);
    var valid := Validate(g);
    assert valid.Ok?;
    r := MaterializeGraph(g);
  }

  /** `validate`: accepts exactly the well-formed graphs. */
  method Validate(g: Graph) returns (r: Result<(), Error>)
    ensures r.Ok? <==> WellFormed(g)
  {
    hide Reaches, Backward;
    if g.nodes == [] { return Err(Invalid); }
    if g.root != |g.nodes| - 1 { return Err(Invalid); }
    var backward := CheckBackward(g.nodes);
    if !backward { return Err(Invalid); }
    var seen := Search(g);
    SeenAll(g.nodes, seen);
    if |seen| != |g.nodes| { return Err(Invalid); }
    return Ok(());
  }

  method CheckBackward(nodes: seq<GraphNode>) returns (ok: bool)
    ensures ok == Backward(nodes)
  {
    hide Children;
    var index := 0;
    while index < |nodes|
      invariant 0 <= index <= |nodes|
      invariant forall i :: 0 <= i < index ==> InRange(Children(nodes[i]), i)
    {
      var children := Children(nodes[index]);
      var k := 0;
      while k < |children|
        invariant 0 <= k <= |children|
        invariant forall i :: 0 <= i < k ==> children[i] < index
      {
        if children[k] >= index {
          assert !InRange(children, index);
          return false;
        }
        k := k + 1;
      }
      index := index + 1;
    }
    return true;
  }

  /** What the worklist keeps: all it holds is reached, and nothing reached next is lost. */
  ghost predicate Searching(nodes: seq<GraphNode>, root: nat, seen: set<nat>, pending: seq<nat>) {
    (forall i | i in pending :: i < |nodes| && Reaches(nodes, root, i)) &&
    (forall i | i in seen :: i < |nodes| && Reaches(nodes, root, i)) &&
    (root in seen || root in pending) &&
    forall i | i in seen :: Followed(nodes, seen, pending, i)
  }

  /** The worklist: every index the root reaches. */
  method Search(g: Graph) returns (seen: set<nat>)
    requires Backward(g.nodes) && g.root < |g.nodes|
    ensures forall i: nat :: i in seen <==> i < |g.nodes| && Reaches(g.nodes, g.root, i)
  {
    hide Searching, Reaches, Children, Backward;
    seen := {};
    var pending: seq<nat> := [g.root];
    SearchStarts(g.nodes, g.root);
    while pending != []
      invariant Searching(g.nodes, g.root, seen, pending)
      decreases FirstIndices(|g.nodes|) - seen, |pending|
    {
      var index := pending[|pending| - 1];
      SearchIndex(g.nodes, g.root, seen, pending);
      SearchGoesOn(g.nodes, g.root, seen, pending);
      pending := pending[..|pending| - 1];
      if index !in seen {
        assert index in FirstIndices(|g.nodes|);
        seen := seen + {index};
        pending := pending + Children(g.nodes[index]);
      }
    }
    SearchEnds(g.nodes, g.root, seen);
  }

  lemma SearchStarts(nodes: seq<GraphNode>, root: nat)
    requires root < |nodes|
    ensures Searching(nodes, root, {}, [root])
  {
    ReachesItself(nodes, root);
  }

  lemma SearchIndex(nodes: seq<GraphNode>, root: nat, seen: set<nat>, pending: seq<nat>)
    requires Searching(nodes, root, seen, pending) && pending != []
    ensures pending[|pending| - 1] < |nodes| && Reaches(nodes, root, pending[|pending| - 1])
  {
    hide Reaches;
    assert pending[|pending| - 1] in pending;
  }

  lemma SearchGoesOn(nodes: seq<GraphNode>, root: nat, seen: set<nat>, pending: seq<nat>)
    requires Backward(nodes) && Searching(nodes, root, seen, pending) && pending != []
    requires pending[|pending| - 1] < |nodes| && Reaches(nodes, root, pending[|pending| - 1])
    ensures
      var index := pending[|pending| - 1];
      if index in seen then Searching(nodes, root, seen, pending[..|pending| - 1])
      else Searching(nodes, root, seen + {index}, pending[..|pending| - 1] + Children(nodes[index]))
  {
    hide Reaches, Children, Followed;
    var index := pending[|pending| - 1];
    assert pending == pending[..|pending| - 1] + [index];
    if index in seen {
      FollowSame(nodes, seen, pending);
    } else {
      FollowMore(nodes, seen, pending, index);
      assert InRange(Children(nodes[index]), index);
      forall c | c in Children(nodes[index]) ensures c < |nodes| && Reaches(nodes, root, c) {
        ReachesNext(nodes, root, index, c);
      }
    }
  }

  lemma SearchEnds(nodes: seq<GraphNode>, root: nat, seen: set<nat>)
    requires Searching(nodes, root, seen, [])
    ensures forall i: nat :: i in seen <==> i < |nodes| && Reaches(nodes, root, i)
  {
    hide Reaches, Children, Followed;
    forall i: nat | i < |nodes| && Reaches(nodes, root, i) ensures i in seen {
      ClosedHolds(nodes, seen, root, i);
    }
  }

  function FirstIndices(n: nat): (s: set<nat>)
    ensures |s| == n && forall i: nat :: i in s <==> i < n
  {
    if n == 0 then {} else FirstIndices(n - 1) + {n - 1}
  }

  /** The children of a seen node are seen or waiting. */
  ghost predicate Followed(nodes: seq<GraphNode>, seen: set<nat>, pending: seq<nat>, i: nat) {
    i < |nodes| ==> forall c | c in Children(nodes[i]) :: c in seen || c in pending
  }

  lemma FollowMore(nodes: seq<GraphNode>, seen: set<nat>, pending: seq<nat>, index: nat)
    requires pending != [] && index == pending[|pending| - 1] && index < |nodes|
    requires forall i | i in seen :: Followed(nodes, seen, pending, i)
    ensures
      var after := pending[..|pending| - 1] + Children(nodes[index]);
      forall i | i in seen + {index} :: Followed(nodes, seen + {index}, after, i)
  {
    hide Children;
    var after := pending[..|pending| - 1] + Children(nodes[index]);
    assert pending == pending[..|pending| - 1] + [index];
    forall i | i in seen + {index} ensures Followed(nodes, seen + {index}, after, i) {
      if i in seen { assert Followed(nodes, seen, pending, i); }
    }
  }

  lemma FollowSame(nodes: seq<GraphNode>, seen: set<nat>, pending: seq<nat>)
    requires pending != [] && pending[|pending| - 1] in seen
    requires forall i | i in seen :: Followed(nodes, seen, pending, i)
    ensures forall i | i in seen :: Followed(nodes, seen, pending[..|pending| - 1], i)
  {
    hide Children;
    assert pending == pending[..|pending| - 1] + [pending[|pending| - 1]];
    forall i | i in seen ensures Followed(nodes, seen, pending[..|pending| - 1], i) {
      assert Followed(nodes, seen, pending, i);
    }
  }

  /** A set closed under references holds all that is reached from it. */
  lemma ClosedHolds(nodes: seq<GraphNode>, seen: set<nat>, from: nat, to: nat)
    requires from in seen && (forall i | i in seen :: Followed(nodes, seen, [], i)) && Reaches(nodes, from, to)
    ensures to in seen
  {
    var trail :| Trail(nodes, trail) && trail[0] == from && trail[|trail| - 1] == to;
    TrailStays(nodes, seen, trail, |trail| - 1);
  }

  lemma {:induction false} TrailStays(nodes: seq<GraphNode>, seen: set<nat>, trail: seq<nat>, k: nat)
    requires Trail(nodes, trail) && trail[0] in seen && k < |trail|
    requires forall i | i in seen :: Followed(nodes, seen, [], i)
    ensures trail[k] in seen
  {
    hide Children;
    if k > 0 {
      TrailStays(nodes, seen, trail, k - 1);
      assert Followed(nodes, seen, [], trail[k - 1]);
      assert trail[k - 1 + 1] in Children(nodes[trail[k - 1]]);
    }
  }

  /** Counting tells whether everything was seen. */
  lemma SeenAll(nodes: seq<GraphNode>, seen: set<nat>)
    requires forall i | i in seen :: i < |nodes|
    ensures |seen| == |nodes| <==> forall i :: 0 <= i < |nodes| ==> i in seen
  {
    var all := FirstIndices(|nodes|);
    assert seen <= all;
    if |seen| == |nodes| { SubsetFull(seen, all); }
    if forall i :: 0 <= i < |nodes| ==> i in seen { assert seen == all; }
  }

  lemma {:induction false} SubsetFull(a: set<nat>, b: set<nat>)
    requires a <= b && |a| == |b|
    ensures a == b
  {
    assert |b - a| == |b| - |a|;
    assert b - a == {};
  }

  /** `materialize`: a table filled front to back. */
  method MaterializeGraph(g: Graph) returns (r: Result<Value, Error>)
    ensures r == Materialize(g)
    ensures GraphMeaning.Answers(g, r)
  {
    GraphMeaning.MaterializeAnswers(g);
    hide Build, GraphMeaning.Answers;
    var values: seq<Value> := [];
    var index := 0;
    assert g.nodes[..0] == [];
    while index < |g.nodes|
      invariant 0 <= index <= |g.nodes|
      invariant MaterializeAll(g.nodes[..index]) == Ok(values)
    {
      var value := Build(g.nodes[index], values);
      MaterializeOneMore(g.nodes[..index], g.nodes[index]);
      assert g.nodes[..index + 1] == g.nodes[..index] + [g.nodes[index]];
      if value.Err? {
        MaterializeFailure(g.nodes, index + 1);
        return Err(value.error);
      }
      values := values + [value.value];
      index := index + 1;
    }
    assert g.nodes[..index] == g.nodes;
    if g.root < |values| { return Ok(values[g.root]); }
    return Err(Invalid);
  }

  lemma {:induction false} MaterializeFailure(nodes: seq<GraphNode>, n: nat)
    requires n <= |nodes| && MaterializeAll(nodes[..n]).Err?
    ensures MaterializeAll(nodes) == MaterializeAll(nodes[..n])
    decreases |nodes|
  {
    hide Build;
    if n < |nodes| {
      var front := nodes[..|nodes| - 1];
      assert front[..n] == nodes[..n];
      MaterializeFailure(front, n);
    } else {
      assert nodes[..n] == nodes;
    }
  }

  // ----- Small unfoldings -----

  lemma AppendParts(nodes: seq<GraphNode>, v: Value)
    ensures Refusal(v).Some? ==> Append(nodes, v) == Err(Refusal(v).value)
    ensures Refusal(v).None? ==>
      Append(nodes, v) ==
        match AppendAll(nodes, Kids(v))
        case Err(e) => Err(e)
        case Ok(g) => Push(g.nodes, NodeOf(v, g.refs))
    ensures Kids(v) == [] && Refusal(v).None? ==> Append(nodes, v) == Push(nodes, NodeOf(v, []))
  {
    hide NodeOf, Push;
    AppendStart(nodes);
  }

  lemma AppendStart(nodes: seq<GraphNode>)
    ensures AppendAll(nodes, []) == Ok(Grown(nodes, []))
  {
  }

  lemma SymbolParts(name: string, meta: Metadata, m: Option<seq<Entry>>)
    requires m.None? <==> meta.NoMeta?
    requires |MetaRefs(m)| == |MetaKids(meta)|
    ensures Kids(Symbol(name, meta)) == MetaKids(meta)
    ensures NodeOf(Symbol(name, meta), MetaRefs(m)) == SymbolNode(name, m)
  {
    MetaNodeBack(meta, m);
  }

  lemma TaggedParts(tag: string, form: Value, i: nat)
    ensures Kids(Tagged(tag, form)) == [form]
    ensures NodeOf(Tagged(tag, form), [i]) == TaggedNode(tag, i)
  {
  }

  lemma MetaItemsParts(kind: SequenceKind, items: seq<Value>, refs: seq<nat>)
    requires |refs| == |items|
    ensures Kids(Sequence(kind, items, NoMeta)) == items
    ensures NodeOf(Sequence(kind, items, NoMeta), refs) == SequenceNode(kind, refs, None)
  {
    assert items + [] == items;
    assert refs[..|items|] == refs;
  }

  lemma MetaMapParts(entries: seq<MetaPair>, made: seq<Entry>)
    requires |made| == |entries|
    ensures Kids(Mapping(Map, AsPairs(entries), NoMeta)) == Flat(AsPairs(entries))
    ensures |EntryRefs(made)| == 2 * |entries|
    ensures NodeOf(Mapping(Map, AsPairs(entries), NoMeta), EntryRefs(made)) == MappingNode(Map, made, None)
  {
    EntryRefsBack(made);
    assert Flat(AsPairs(entries)) + [] == Flat(AsPairs(entries));
    var refs := EntryRefs(made);
    assert refs[..2 * |entries|] == refs;
  }

  lemma LeafParts(v: Value)
    ensures v.Plain? || v.Bytes? || v.BigInteger? || v.Keyword? ==> Kids(v) == []
    ensures v.Plain? ==> NodeOf(v, []) == PlainNode(v.atom)
    ensures v.Bytes? ==> NodeOf(v, []) == BytesNode(v.bytes)
    ensures v.BigInteger? ==> NodeOf(v, []) == BigIntegerNode(Decimal.ToDecimal(v.n))
    ensures v.Keyword? ==> NodeOf(v, []) == KeywordNode(v.name)
  {
  }

  lemma MapEntryParts(v: Value, k: nat, w: nat, m: Option<seq<Entry>>)
    requires v.MapEntry? && |[k, w] + MetaRefs(m)| == |Kids(v)| && (m.None? <==> v.meta.NoMeta?)
    ensures NodeOf(v, [k, w] + MetaRefs(m)) == MapEntryNode(k, w, m)
  {
    MetaNodeBack(v.meta, m);
    hide MetaNode, MetaRefs, Kids;
    assert ([k, w] + MetaRefs(m))[2..] == MetaRefs(m);
  }

  lemma ExceptionParts(v: Value, data: nat, cause: Option<nat>)
    requires v.Exception? && (cause.None? <==> v.cause.None?)
    ensures
      var refs := if cause.Some? then [data, cause.value] else [data];
      |refs| == |Kids(v)| && NodeOf(v, refs) == ExceptionNode(v.message, data, cause, v.sites)
  {
  }

  lemma NoMetaKids(vs: seq<Value>)
    ensures vs + MetaKids(NoMeta) == vs
  {
  }

  lemma AsValuesPrefix(items: seq<Meta>, n: nat)
    requires n <= |items|
    ensures AsValues(items)[..n] == AsValues(items[..n])
  {
    assert items == items[..n] + items[n..];
    AsValuesConcat(items[..n], items[n..]);
  }

  lemma FlatNone()
    ensures EntryRefs([]) == [] && Flat([]) == [] && AsPairs([]) == []
  {
  }

  lemma FlatOne(p: Pair)
    ensures Flat([p]) == [p.key, p.value]
  {
    assert [p][1..] == [];
  }

  /** Flattened pairs, one pair further. */
  lemma FlatNext(entries: seq<Pair>, i: nat)
    requires i < |entries|
    ensures Flat(entries[..i + 1]) == Flat(entries[..i]) + [entries[i].key] + [entries[i].value]
    ensures Flat(entries)[..2 * i] == Flat(entries[..i])
    ensures Flat(entries)[..2 * i + 1] == Flat(entries[..i]) + [entries[i].key]
    ensures Flat(entries)[..2 * i + 2] == Flat(entries[..i]) + [entries[i].key] + [entries[i].value]
  {
    hide Flat;
    assert entries[..i + 1] == entries[..i] + [entries[i]];
    FlatConcat(entries[..i], [entries[i]]);
    FlatOne(entries[i]);
    assert entries == entries[..i + 1] + entries[i + 1..];
    FlatConcat(entries[..i + 1], entries[i + 1..]);
    var two := Flat(entries[..i]) + [entries[i].key] + [entries[i].value];
    assert Flat(entries[..i + 1]) == two;
    assert Flat(entries) == two + Flat(entries[i + 1..]);
  }

  lemma AsPairsNext(entries: seq<MetaPair>, i: nat)
    requires i < |entries|
    ensures
      Flat(AsPairs(entries[..i + 1])) ==
      Flat(AsPairs(entries[..i])) + [AsValue(entries[i].key)] + [AsValue(entries[i].value)]
    ensures AsPairs(entries)[..i] == AsPairs(entries[..i])
    ensures AsPairs(entries)[i] == AsPair(entries[i])
  {
    hide Flat;
    assert entries == entries[..i] + entries[i..];
    AsPairsConcat(entries[..i], entries[i..]);
    assert AsPairs(entries)[i] == AsPairs(entries[i..])[0];
    assert entries == entries[..i + 1] + entries[i + 1..];
    AsPairsConcat(entries[..i + 1], entries[i + 1..]);
    FlatNext(AsPairs(entries), i);
    assert AsPairs(entries)[..i + 1] == AsPairs(entries[..i + 1]);
  }

  /** A failure at a key or a value of pair `i` is the failure of all pairs. */
  lemma FlatFails(nodes: seq<GraphNode>, entries: seq<Pair>, i: nat, n: nat)
    requires i < |entries| && 1 <= n <= 2
    requires
      var before := Flat(entries[..i]) + [entries[i].key];
      AppendAll(nodes, if n == 1 then before else before + [entries[i].value]).Err?
    ensures
      var before := Flat(entries[..i]) + [entries[i].key];
      AppendAll(nodes, Flat(entries)) == AppendAll(nodes, if n == 1 then before else before + [entries[i].value])
  {
    hide AppendAll;
    FlatNext(entries, i);
    AppendFailsEarly(nodes, Flat(entries), 2 * i + n);
  }

  lemma EntryNext(made: seq<Entry>, k: nat, v: nat)
    ensures EntryRefs(made) + [k] + [v] == EntryRefs(made + [Entry(k, v)])
  {
    EntryRefsConcat(made, [Entry(k, v)]);
    assert [Entry(k, v)][1..] == [];
    assert EntryRefs([Entry(k, v)]) == [k, v];
    assert EntryRefs(made) + [k] + [v] == EntryRefs(made) + [k, v];
  }
}
