/**
 What the node graph promises: flattening makes a well-formed graph, and reading
 it back gives the value, with every tuple a vector.
 */
module GraphLaws {
  import opened Prelude
  import opened GraphData
  import opened GraphSpec
  import Decimal

  // ----- Lists of references and pairs -----

  lemma {:induction false} PairRefsBack(refs: seq<nat>)
    requires |refs| % 2 == 0
    ensures EntryRefs(PairRefs(refs)) == refs && |PairRefs(refs)| == |refs| / 2
    decreases |refs|
  {
    if |refs| >= 2 {
      PairRefsBack(refs[2..]);
      assert [refs[0], refs[1]] + refs[2..] == refs;
      assert PairRefs(refs)[1..] == PairRefs(refs[2..]);
    }
  }

  lemma MetaKidsEven(meta: Metadata)
    ensures |MetaKids(meta)| % 2 == 0 && (meta.NoMeta? ==> MetaKids(meta) == [])
  {
  }

  lemma MetaRefsBack(meta: Metadata, refs: seq<nat>)
    requires |refs| == |MetaKids(meta)|
    ensures MetaRefs(MetaNode(meta, refs)) == refs
  {
    MetaKidsEven(meta);
    if meta.HasMeta? { PairRefsBack(refs); }
  }

  lemma {:induction false} CanonConcat(vs: seq<Value>, ws: seq<Value>)
    ensures CanonAll(vs + ws) == CanonAll(vs) + CanonAll(ws)
  {
    hide Canon;
    if vs == [] {
      assert vs + ws == ws;
    } else {
      CanonConcat(vs[1..], ws);
      assert (vs + ws)[1..] == vs[1..] + ws;
    }
  }

  lemma {:induction false} PairsOfFlat(entries: seq<Pair>)
    ensures PairsOf(CanonAll(Flat(entries))) == CanonPairs(entries)
  {
    if entries != [] {
      PairsOfFlat(entries[1..]);
      var k, v, rest := entries[0].key, entries[0].value, Flat(entries[1..]);
      CanonConcat([k, v], rest);
      CanonTwo(k, v);
      var all := CanonAll(Flat(entries));
      assert all == [Canon(k), Canon(v)] + CanonAll(rest);
      assert all[2..] == CanonAll(rest);
    }
  }

  lemma CanonTwo(a: Value, b: Value)
    ensures CanonAll([a, b]) == [Canon(a), Canon(b)] && CanonAll([a]) == [Canon(a)]
  {
    assert [a, b][1..] == [b] && [b][1..] == [] && [a][1..] == [];
    assert CanonAll([b]) == [Canon(b)] + CanonAll([]);
  }

  // ----- Metadata comes back -----

  lemma {:induction false} CanonAsValue(m: Meta)
    ensures Canon(AsValue(m)) == AsValue(m)
    decreases m, 0
  {
    match m
    case MetaTagged(_, form) => CanonAsValue(form);
    case MetaVector(items) => CanonAsValues(items);
    case MetaList(items) => CanonAsValues(items);
    case MetaSet(items) => CanonAsValues(items);
    case MetaMap(entries) => CanonAsPairs(entries);
    case _ =>
  }

  lemma {:induction false} CanonAsValues(items: seq<Meta>)
    ensures CanonAll(AsValues(items)) == AsValues(items)
    decreases items, 1
  {
    if items != [] {
      CanonAsValue(items[0]);
      CanonAsValues(items[1..]);
      assert AsValues(items)[1..] == AsValues(items[1..]);
    }
  }

  lemma {:induction false} CanonAsPairs(entries: seq<MetaPair>)
    ensures CanonPairs(AsPairs(entries)) == AsPairs(entries)
    decreases entries, 1
  {
    if entries != [] {
      CanonAsPair(entries[0]);
      CanonAsPairs(entries[1..]);
      assert AsPairs(entries)[1..] == AsPairs(entries[1..]);
    }
  }

  lemma {:induction false} CanonAsPair(p: MetaPair)
    ensures CanonPair(AsPair(p)) == AsPair(p)
    decreases p, 1
  {
    CanonAsValue(p.key);
    CanonAsValue(p.value);
  }

  lemma {:induction false} SupportedConcat(vs: seq<Value>, ws: seq<Value>)
    ensures AllSupported(vs + ws) <==> AllSupported(vs) && AllSupported(ws)
    decreases |vs|
  {
    hide Supported;
    if vs == [] {
      assert vs + ws == ws;
    } else {
      SupportedConcat(vs[1..], ws);
      assert (vs + ws)[1..] == vs[1..] + ws;
    }
  }

  lemma SupportedTwo(a: Value, b: Value, rest: seq<Value>)
    ensures AllSupported([a, b] + rest) <==> Supported(a) && Supported(b) && AllSupported(rest)
    ensures AllSupported([a]) <==> Supported(a)
  {
    hide Supported;
    assert ([a, b] + rest)[1..] == [b] + rest && ([b] + rest)[1..] == rest && [a][1..] == [];
    assert AllSupported([b] + rest) <==> Supported(b) && AllSupported(rest);
    assert AllSupported([]);
  }

  /** Metadata of supported values survives being carried as values. */
  lemma {:induction false} MetaBack(m: Meta)
    requires Supported(AsValue(m))
    ensures MetaOf(AsValue(m)) == Ok(m)
    decreases m, 0
  {
    match m
    case MetaTagged(tag, form) =>
      assert Kids(AsValue(m)) == [AsValue(form)];
      SupportedTwo(AsValue(form), AsValue(form), []);
      MetaBack(form);
    case MetaVector(items) =>
      assert Kids(AsValue(m)) == AsValues(items);
      MetaBackAll(items);
    case MetaList(items) =>
      assert Kids(AsValue(m)) == AsValues(items);
      MetaBackAll(items);
    case MetaSet(items) =>
      assert Kids(AsValue(m)) == AsValues(items);
      MetaBackAll(items);
    case MetaMap(entries) =>
      assert Kids(AsValue(m)) == Flat(AsPairs(entries));
      MetaBackPairs(entries);
    case _ =>
  }

  lemma {:induction false} MetaBackAll(items: seq<Meta>)
    requires AllSupported(AsValues(items))
    ensures MetaOfAll(AsValues(items)) == Ok(items)
    decreases items, 1
  {
    hide Supported, MetaOf;
    if items != [] {
      assert AsValues(items)[0] == AsValue(items[0]) && AsValues(items)[1..] == AsValues(items[1..]);
      MetaBack(items[0]);
      MetaBackAll(items[1..]);
      assert [items[0]] + items[1..] == items;
    }
  }

  lemma {:induction false} MetaBackPairs(entries: seq<MetaPair>)
    requires AllSupported(Flat(AsPairs(entries)))
    ensures MetaOfPairs(AsPairs(entries)) == Ok(entries)
    decreases entries, 1
  {
    hide Supported, MetaOf, MetaOfPair;
    if entries != [] {
      var first := AsPair(entries[0]);
      assert AsPairs(entries)[0] == first && AsPairs(entries)[1..] == AsPairs(entries[1..]);
      SupportedTwo(first.key, first.value, Flat(AsPairs(entries[1..])));
      MetaBackPair(entries[0]);
      MetaBackPairs(entries[1..]);
      assert [entries[0]] + entries[1..] == entries;
    }
  }

  lemma {:induction false} MetaBackPair(p: MetaPair)
    requires Supported(AsValue(p.key)) && Supported(AsValue(p.value))
    ensures MetaOfPair(AsPair(p)) == Ok(p)
    decreases p, 1
  {
    MetaBack(p.key);
    MetaBack(p.value);
  }

  lemma MetadataBack(meta: Metadata, refs: seq<nat>)
    requires AllSupported(MetaKids(meta))
    ensures MetaFrom(MetaNode(meta, refs), CanonAll(MetaKids(meta))) == Ok(meta)
  {
    if meta.HasMeta? {
      PairsOfFlat(AsPairs(meta.pairs));
      CanonAsPairs(meta.pairs);
      MetaBackPairs(meta.pairs);
    }
  }

  // ----- One node -----

  lemma ItemChildren(v: Value, refs: seq<nat>)
    requires v.Sequence? || v.Tuple? || (v.Structure? && !v.open)
    requires |refs| == |Kids(v)|
    ensures Children(NodeOf(v, refs)) == refs
  {
    hide PairRefs, MetaRefs, MetaNode, MetaKids;
    SplitRefs(v.meta, refs, |v.items|);
  }

  lemma EntryChildren(v: Value, refs: seq<nat>)
    requires v.Mapping? || v.Pointer?
    requires |refs| == |Kids(v)|
    ensures Children(NodeOf(v, refs)) == refs
  {
    hide PairRefs, EntryRefs, MetaRefs, MetaNode, MetaKids;
    SplitRefs(v.meta, refs, 2 * |v.entries|);
    PairRefsBack(refs[..2 * |v.entries|]);
  }

  lemma OtherChildren(v: Value, refs: seq<nat>)
    requires !(v.Sequence? || v.Tuple? || v.Structure? || v.Mapping? || v.Pointer?)
    requires |refs| == |Kids(v)| && Refusal(v).None?
    ensures Children(NodeOf(v, refs)) == refs
  {
    hide PairRefs, EntryRefs, MetaRefs, MetaNode, MetaKids;
    if v.Symbol? {
      MetaRefsBack(v.meta, refs);
    } else if v.MapEntry? {
      SplitRefs(v.meta, refs, 2);
      assert refs[..2] == [refs[0], refs[1]];
    }
  }

  /** The node of a value refers to exactly the places of its kids. */
  lemma ChildrenOfNode(v: Value, refs: seq<nat>)
    requires |refs| == |Kids(v)| && Refusal(v).None?
    ensures Children(NodeOf(v, refs)) == refs
  {
    hide Kids, Children, NodeOf;
    if v.Sequence? || v.Tuple? || v.Structure? {
      ItemChildren(v, refs);
    } else if v.Mapping? || v.Pointer? {
      EntryChildren(v, refs);
    } else {
      OtherChildren(v, refs);
    }
  }

  lemma KidsParts(v: Value)
    ensures v.Symbol? ==> Kids(v) == MetaKids(v.meta)
    ensures v.Sequence? || v.Tuple? || v.Structure? ==> Kids(v) == v.items + MetaKids(v.meta)
    ensures v.Mapping? || v.Pointer? ==> Kids(v) == Flat(v.entries) + MetaKids(v.meta)
    ensures v.MapEntry? ==> Kids(v) == [v.key, v.value] + MetaKids(v.meta)
    ensures v.Tagged? ==> Kids(v) == [v.form]
    ensures v.Exception? ==> Kids(v) == if v.cause.Some? then [v.data, v.cause.value] else [v.data]
    ensures v.Plain? || v.NonFinite? || v.Bytes? || v.BigInteger? || v.Keyword? || v.Unsupported? ==> Kids(v) == []
  {
  }

  lemma SplitRefs(meta: Metadata, refs: seq<nat>, n: nat)
    requires |refs| == n + |MetaKids(meta)|
    ensures refs[..n] + MetaRefs(MetaNode(meta, refs[n..])) == refs
  {
    MetaRefsBack(meta, refs[n..]);
  }

  /** What reading the node of a value back must give, once its children came back. */
  ghost predicate ComesBack(v: Value, refs: seq<nat>)
    requires |refs| == |Kids(v)| && Refusal(v).None?
  {
    |Children(NodeOf(v, refs))| == |Kids(v)| &&
    Assemble(NodeOf(v, refs), CanonAll(Kids(v))) == if Readable(v) then Ok(Canon(v)) else Err(Invalid)
  }

  lemma ItemsBack(v: Value, refs: seq<nat>)
    requires v.Sequence? || v.Tuple?
    requires |refs| == |Kids(v)| && AllSupported(Kids(v))
    ensures ComesBack(v, refs)
  {
    ItemChildren(v, refs);
    KidsParts(v);
    hide Kids, PairRefs, MetaRefs, MetaNode, MetaFrom, MetaKids, AllSupported, CanonAll, Children;
    SplitBack(v.items, v.meta, refs);
  }

  lemma StructureBack(v: Value, refs: seq<nat>)
    requires v.Structure? && !v.open
    requires |refs| == |Kids(v)| && AllSupported(Kids(v))
    ensures ComesBack(v, refs)
  {
    ItemChildren(v, refs);
    KidsParts(v);
    hide Kids, PairRefs, MetaRefs, MetaNode, MetaFrom, MetaKids, AllSupported, CanonAll, Children;
    SplitBack(v.items, v.meta, refs);
  }

  lemma MappingBack(v: Value, refs: seq<nat>)
    requires v.Mapping?
    requires |refs| == |Kids(v)| && AllSupported(Kids(v))
    ensures ComesBack(v, refs)
  {
    EntryChildren(v, refs);
    KidsParts(v);
    hide Kids, PairRefs, MetaRefs, MetaNode, MetaFrom, MetaKids, AllSupported, CanonAll, CanonPairs, PairsOf, Children,
         IsKeyword, StringKeys, Flat;
    SplitBack(Flat(v.entries), v.meta, refs);
    EntriesBack(v.entries, refs[..2 * |v.entries|]);
  }

  lemma PointerBack(v: Value, refs: seq<nat>)
    requires v.Pointer?
    requires |refs| == |Kids(v)| && AllSupported(Kids(v))
    ensures ComesBack(v, refs)
  {
    EntryChildren(v, refs);
    KidsParts(v);
    hide Kids, PairRefs, MetaRefs, MetaNode, MetaFrom, MetaKids, AllSupported, CanonAll, CanonPairs, PairsOf, Children,
         IsKeyword, StringKeys, Flat;
    SplitBack(Flat(v.entries), v.meta, refs);
    EntriesBack(v.entries, refs[..2 * |v.entries|]);
  }

  lemma OthersBack(v: Value, refs: seq<nat>)
    requires !(v.Sequence? || v.Tuple? || v.Structure? || v.Mapping? || v.Pointer?)
    requires |refs| == |Kids(v)| && Refusal(v).None? && AllSupported(Kids(v))
    ensures ComesBack(v, refs)
  {
    OtherChildren(v, refs);
    KidsParts(v);
    hide Kids, PairRefs, MetaRefs, MetaNode, MetaFrom, MetaKids, AllSupported, CanonAll, Children, IsKeyword,
         Decimal.ParseDecimal, Decimal.ToDecimal;
    if v.BigInteger? {
      Decimal.DecimalRoundTrip(v.n);
    } else if v.Symbol? {
      MetadataBack(v.meta, refs);
    } else if v.MapEntry? {
      SplitBack([v.key, v.value], v.meta, refs);
      CanonTwo(v.key, v.value);
      assert CanonAll(Kids(v))[..2] == [Canon(v.key), Canon(v.value)];
    } else if v.Tagged? {
      CanonTwo(v.form, v.form);
    } else if v.Exception? {
      if v.cause.Some? { CanonTwo(v.data, v.cause.value); } else { CanonTwo(v.data, v.data); }
    }
  }

  /** What a node reads back to when its children came back. */
  lemma AssembleBack(v: Value, refs: seq<nat>)
    requires |refs| == |Kids(v)| && Refusal(v).None? && AllSupported(Kids(v))
    ensures ComesBack(v, refs)
  {
    hide Kids, AllSupported, ComesBack;
    if v.Sequence? || v.Tuple? {
      ItemsBack(v, refs);
    } else if v.Structure? {
      StructureBack(v, refs);
    } else if v.Mapping? {
      MappingBack(v, refs);
    } else if v.Pointer? {
      PointerBack(v, refs);
    } else {
      OthersBack(v, refs);
    }
  }

  lemma SplitBack(items: seq<Value>, meta: Metadata, refs: seq<nat>)
    requires |refs| == |items + MetaKids(meta)| && AllSupported(items + MetaKids(meta))
    ensures
      var all := CanonAll(items + MetaKids(meta));
      all[..|items|] == CanonAll(items) &&
      MetaFrom(MetaNode(meta, refs[|items|..]), all[|items|..]) == Ok(meta)
  {
    CanonConcat(items, MetaKids(meta));
    SupportedConcat(items, MetaKids(meta));
    MetadataBack(meta, refs[|items|..]);
    hide CanonAll, MetaKids, MetaFrom, MetaNode, AllSupported;
    var all := CanonAll(items + MetaKids(meta));
    assert all[|items|..] == CanonAll(MetaKids(meta));
  }

  lemma EntriesBack(entries: seq<Pair>, refs: seq<nat>)
    requires |refs| == 2 * |entries|
    ensures |PairRefs(refs)| == |entries| && PairsOf(CanonAll(Flat(entries))) == CanonPairs(entries)
    ensures StringKeys(CanonPairs(entries)) <==> StringKeys(entries)
  {
    PairRefsBack(refs);
    PairsOfFlat(entries);
    CanonKeys(entries);
  }

  lemma {:induction false} CanonPairsAt(entries: seq<Pair>, i: nat)
    requires i < |entries|
    ensures CanonPairs(entries)[i] == CanonPair(entries[i])
  {
    if i > 0 { CanonPairsAt(entries[1..], i - 1); }
  }

  lemma CanonKeys(entries: seq<Pair>)
    ensures StringKeys(CanonPairs(entries)) <==> StringKeys(entries)
  {
    forall i | 0 <= i < |entries|
      ensures CanonPairs(entries)[i].key == Canon(entries[i].key)
      ensures Canon(entries[i].key).Plain? <==> entries[i].key.Plain?
      ensures entries[i].key.Plain? ==> Canon(entries[i].key) == entries[i].key
    {
      CanonPairsAt(entries, i);
    }
    hide Canon, CanonPairs;
  }
}
