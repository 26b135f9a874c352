/**
 Flattening a value to nodes and reading nodes back, as functions
 (`component_value.rs`).
 */
module GraphSpec {
  import opened Prelude
  import opened GraphData
  import Decimal

  // ----- Flattening -----

  /** The nodes after an append, and where the appended values ended up. */
  datatype Grown = Grown(nodes: seq<GraphNode>, refs: seq<nat>)

  /** Values the boundary turns away at once. */
  function Refusal(v: Value): Option<Error> {
    match v
    case NonFinite => Some(NotSupported("non-finite-float"))
    case Structure(open, _, _, _, _) => if open then Some(NotSupported("open record")) else None
    case Unsupported(reason) => Some(NotSupported(reason))
    case _ => None
  }

  function Push(nodes: seq<GraphNode>, node: GraphNode): Result<Grown, Error> {
    if |nodes| >= LIMIT then Err(TooManyNodes) else Ok(Grown(nodes + [node], [|nodes|]))
  }

  function PairRefs(refs: seq<nat>): seq<Entry> {
    if |refs| < 2 then [] else [Entry(refs[0], refs[1])] + PairRefs(refs[2..])
  }

  function MetaNode(meta: Metadata, refs: seq<nat>): Option<seq<Entry>> {
    if meta.NoMeta? then None else Some(PairRefs(refs))
  }

  /** The node of a value whose kids went to `refs`. */
  function NodeOf(v: Value, refs: seq<nat>): GraphNode
    requires |refs| == |Kids(v)| && Refusal(v).None?
  {
    match v
    case Plain(atom) => PlainNode(atom)
    case Bytes(bytes) => BytesNode(bytes)
    case BigInteger(n) => BigIntegerNode(Decimal.ToDecimal(n))
    case Keyword(name) => KeywordNode(name)
    case Symbol(name, meta) => SymbolNode(name, MetaNode(meta, refs))
    case Sequence(kind, items, meta) => SequenceNode(kind, refs[..|items|], MetaNode(meta, refs[|items|..]))
    case Tuple(items, meta) => SequenceNode(Vector, refs[..|items|], MetaNode(meta, refs[|items|..]))
    case Mapping(kind, entries, meta) =>
      MappingNode(kind, PairRefs(refs[..2 * |entries|]), MetaNode(meta, refs[2 * |entries|..]))
    case Tagged(tag, _) => TaggedNode(tag, refs[0])
    case MapEntry(_, _, meta) => MapEntryNode(refs[0], refs[1], MetaNode(meta, refs[2..]))
    case Pointer(context, entries, meta) =>
      PointerNode(context, PairRefs(refs[..2 * |entries|]), MetaNode(meta, refs[2 * |entries|..]))
    case Structure(_, name, fields, items, meta) =>
      StructureNode(name, fields, refs[..|items|], MetaNode(meta, refs[|items|..]))
    case Exception(message, _, cause, sites) =>
      ExceptionNode(message, refs[0], if cause.Some? then Some(refs[1]) else None, sites)
  }

  function Append(nodes: seq<GraphNode>, v: Value): (r: Result<Grown, Error>)
    ensures r.Ok? ==> |r.value.refs| == 1
    decreases Count(v), 0
  {
    if Refusal(v).Some? then Err(Refusal(v).value)
    else
      CountKids(v);
      var kids := AppendAll(nodes, Kids(v));
      if kids.Err? then kids else Push(kids.value.nodes, NodeOf(v, kids.value.refs))
  }

  function AppendAll(nodes: seq<GraphNode>, vs: seq<Value>): (r: Result<Grown, Error>)
    ensures r.Ok? ==> |r.value.refs| == |vs|
    decreases CountAll(vs), 1
  {
    if vs == [] then Ok(Grown(nodes, []))
    else
      var first := Append(nodes, vs[0]);
      if first.Err? then first
      else
        var rest := AppendAll(first.value.nodes, vs[1..]);
        if rest.Err? then rest else Ok(Grown(rest.value.nodes, first.value.refs + rest.value.refs))
  }

  // ----- Validity -----

  predicate Backward(nodes: seq<GraphNode>) {
    forall i :: 0 <= i < |nodes| ==> InRange(Children(nodes[i]), i)
  }

  /** A walk along child references. */
  predicate Trail(nodes: seq<GraphNode>, trail: seq<nat>) {
    trail != [] && (forall k :: 0 <= k < |trail| ==> trail[k] < |nodes|) &&
    forall k :: 0 <= k < |trail| - 1 ==> trail[k + 1] in Children(nodes[trail[k]])
  }

  ghost predicate Reaches(nodes: seq<GraphNode>, from: nat, to: nat) {
    exists trail :: Trail(nodes, trail) && trail[0] == from && trail[|trail| - 1] == to
  }

  /** What a graph must be: post-order, root last, nothing left over. */
  ghost predicate WellFormed(g: Graph) {
    g.nodes != [] && g.root == |g.nodes| - 1 && Backward(g.nodes) &&
    forall i :: 0 <= i < |g.nodes| ==> Reaches(g.nodes, g.root, i)
  }

  // ----- Reading back -----

  function PairsOf(kids: seq<Value>): seq<Pair> {
    if |kids| < 2 then [] else [Pair(kids[0], kids[1])] + PairsOf(kids[2..])
  }

  /** Whether a value carries metadata of its own. */
  predicate HasMetadata(v: Value) {
    match v
    case Symbol(_, meta) => meta.HasMeta?
    case Sequence(_, _, meta) => meta.HasMeta?
    case Tuple(_, meta) => meta.HasMeta?
    case Mapping(_, _, meta) => meta.HasMeta?
    case MapEntry(_, _, meta) => meta.HasMeta?
    case Pointer(_, _, meta) => meta.HasMeta?
    case Structure(_, _, _, _, meta) => meta.HasMeta?
    case _ => false
  }

  /** `metadata_value`: the values that may stand in metadata. */
  function MetaOf(v: Value): Result<Meta, Error>
    decreases v, 1
  {
    if HasMetadata(v) && !v.Symbol? then Err(Invalid)
    else
      match v
      case Plain(atom) => Ok(MetaPlain(atom))
      case NonFinite => Ok(MetaNonFinite)
      case BigInteger(n) => Ok(MetaBigInteger(n))
      case Keyword(name) => Ok(MetaKeyword(name))
      case Symbol(name, meta) => Ok(MetaSymbol(name, meta))
      case Tagged(tag, form) =>
        (match MetaOf(form)
         case Err(e) => Err(e)
         case Ok(m) => Ok(MetaTagged(tag, m)))
      case Sequence(kind, items, _) =>
        if kind != Vector && kind != List && kind != Set then Err(Invalid)
        else
          (match MetaOfAll(items)
           case Err(e) => Err(e)
           case Ok(ms) =>
             Ok(if kind == Vector then MetaVector(ms) else if kind == List then MetaList(ms) else MetaSet(ms)))
      case Tuple(items, _) =>
        (match MetaOfAll(items)
         case Err(e) => Err(e)
         case Ok(ms) => Ok(MetaVector(ms)))
      case Mapping(kind, entries, _) =>
        if kind != Map then Err(Invalid)
        else
          (match MetaOfPairs(entries)
           case Err(e) => Err(e)
           case Ok(ms) => Ok(MetaMap(ms)))
      case _ => Err(Invalid)
  }

  function MetaOfAll(items: seq<Value>): Result<seq<Meta>, Error>
    decreases items, 0
  {
    if items == [] then Ok([])
    else
      match MetaOf(items[0])
      case Err(e) => Err(e)
      case Ok(m) =>
        match MetaOfAll(items[1..])
        case Err(e) => Err(e)
        case Ok(ms) => Ok([m] + ms)
  }

  function MetaOfPairs(entries: seq<Pair>): Result<seq<MetaPair>, Error>
    decreases entries, 0
  {
    if entries == [] then Ok([])
    else
      match MetaOfPair(entries[0])
      case Err(e) => Err(e)
      case Ok(m) =>
        match MetaOfPairs(entries[1..])
        case Err(e) => Err(e)
        case Ok(ms) => Ok([m] + ms)
  }

  function MetaOfPair(p: Pair): Result<MetaPair, Error>
    decreases p, 2
  {
    match MetaOf(p.key)
    case Err(e) => Err(e)
    case Ok(k) =>
      match MetaOf(p.value)
      case Err(e) => Err(e)
      case Ok(v) => Ok(MetaPair(k, v))
  }

  function MetaFrom(meta: Option<seq<Entry>>, kids: seq<Value>): Result<Metadata, Error> {
    if meta.None? then Ok(NoMeta)
    else
      match MetaOfPairs(PairsOf(kids))
      case Err(e) => Err(e)
      case Ok(pairs) => Ok(HasMeta(pairs))
  }

  predicate StringKeys(entries: seq<Pair>) {
    forall i :: 0 <= i < |entries| ==> entries[i].key.Plain? && entries[i].key.atom.Text?
  }

  /** The value of a node whose children have the given values, in order. */
  function Assemble(node: GraphNode, kids: seq<Value>): Result<Value, Error>
    requires |kids| == |Children(node)|
  {
    match node
    case PlainNode(atom) => Ok(Plain(atom))
    case BytesNode(bytes) => Ok(Bytes(bytes))
    case BigIntegerNode(digits) =>
      (match Decimal.ParseDecimal(digits)
       case None => Err(Invalid)
       case Some(n) => Ok(BigInteger(n)))
    case KeywordNode(name) => if IsKeyword(name) then Ok(Keyword(name)) else Err(Invalid)
    case SymbolNode(name, meta) =>
      (match MetaFrom(meta, kids)
       case Err(e) => Err(e)
       case Ok(m) => Ok(Symbol(name, m)))
    case SequenceNode(kind, items, meta) =>
      if kind == Cons && items == [] then Err(Invalid)
      else
        (match MetaFrom(meta, kids[|items|..])
         case Err(e) => Err(e)
         case Ok(m) => Ok(Sequence(kind, kids[..|items|], m)))
    case MappingNode(kind, entries, meta) =>
      EntryRefsLength(entries);
      var pairs := PairsOf(kids[..2 * |entries|]);
      if kind == Trie && !StringKeys(pairs) then Err(Invalid)
      else
        (match MetaFrom(meta, kids[2 * |entries|..])
         case Err(e) => Err(e)
         case Ok(m) => Ok(Mapping(kind, pairs, m)))
    case TaggedNode(tag, _) => Ok(Tagged(tag, kids[0]))
    case MapEntryNode(_, _, meta) =>
      (match MetaFrom(meta, kids[2..])
       case Err(e) => Err(e)
       case Ok(m) => Ok(MapEntry(kids[0], kids[1], m)))
    case PointerNode(context, entries, meta) =>
      EntryRefsLength(entries);
      if !IsKeyword(context) then Err(Invalid)
      else
        (match MetaFrom(meta, kids[2 * |entries|..])
         case Err(e) => Err(e)
         case Ok(m) => Ok(Pointer(context, PairsOf(kids[..2 * |entries|]), m)))
    case StructureNode(name, fields, items, meta) =>
      if |fields| != |items| then Err(Invalid)
      else
        (match MetaFrom(meta, kids[|items|..])
         case Err(e) => Err(e)
         case Ok(m) => Ok(Structure(false, name, fields, kids[..|items|], m)))
    case ExceptionNode(message, _, cause, sites) =>
      Ok(Exception(message, kids[0], if cause.Some? then Some(kids[1]) else None, sites))
  }

  lemma {:induction false} EntryRefsLength(entries: seq<Entry>)
    ensures |EntryRefs(entries)| == 2 * |entries|
  {
    if entries != [] { EntryRefsLength(entries[1..]); }
  }

  predicate InRange(refs: seq<nat>, n: nat) { forall i :: 0 <= i < |refs| ==> refs[i] < n }

  function Select(values: seq<Value>, refs: seq<nat>): (r: seq<Value>)
    requires InRange(refs, |values|)
    ensures |r| == |refs| && forall i :: 0 <= i < |refs| ==> r[i] == values[refs[i]]
  {
    seq(|refs|, i requires 0 <= i < |refs| => values[refs[i]])
  }

  /** The value of a node over the values made so far. */
  function Build(node: GraphNode, values: seq<Value>): Result<Value, Error> {
    if !InRange(Children(node), |values|) then Err(Invalid)
    else Assemble(node, Select(values, Children(node)))
  }

  function MaterializeAll(nodes: seq<GraphNode>): (r: Result<seq<Value>, Error>)
    ensures r.Ok? ==> |r.value| == |nodes|
    decreases |nodes|
  {
    if nodes == [] then Ok([])
    else
      match MaterializeAll(nodes[..|nodes| - 1])
      case Err(e) => Err(e)
      case Ok(values) =>
        match Build(nodes[|nodes| - 1], values)
        case Err(e) => Err(e)
        case Ok(v) => Ok(values + [v])
  }

  function Materialize(g: Graph): Result<Value, Error> {
    match MaterializeAll(g.nodes)
    case Err(e) => Err(e)
    case Ok(values) => if g.root < |values| then Ok(values[g.root]) else Err(Invalid)
  }

  /** The value below a node, read by following references with no table. */
  function Unfold(nodes: seq<GraphNode>, i: nat): Result<Value, Error>
    requires Backward(nodes) && i < |nodes|
    decreases i, 1, 0
  {
    match UnfoldAll(nodes, i, Children(nodes[i]))
    case Err(e) => Err(e)
    case Ok(kids) => Assemble(nodes[i], kids)
  }

  function UnfoldAll(nodes: seq<GraphNode>, i: nat, refs: seq<nat>): (r: Result<seq<Value>, Error>)
    requires Backward(nodes) && i <= |nodes| && InRange(refs, i)
    ensures r.Ok? ==> |r.value| == |refs|
    decreases i, 0, |refs|
  {
    if refs == [] then Ok([])
    else
      match Unfold(nodes, refs[0])
      case Err(e) => Err(e)
      case Ok(v) =>
        match UnfoldAll(nodes, i, refs[1..])
        case Err(e) => Err(e)
        case Ok(vs) => Ok([v] + vs)
  }

  // ----- What comes back -----

  /** The same value with every tuple a vector. */
  function Canon(v: Value): Value {
    match v
    case Sequence(kind, items, meta) => Sequence(kind, CanonAll(items), meta)
    case Tuple(items, meta) => Sequence(Vector, CanonAll(items), meta)
    case Mapping(kind, entries, meta) => Mapping(kind, CanonPairs(entries), meta)
    case Tagged(tag, form) => Tagged(tag, Canon(form))
    case MapEntry(key, value, meta) => MapEntry(Canon(key), Canon(value), meta)
    case Pointer(context, entries, meta) => Pointer(context, CanonPairs(entries), meta)
    case Structure(open, name, fields, items, meta) => Structure(open, name, fields, CanonAll(items), meta)
    case Exception(message, data, cause, sites) =>
      Exception(message, Canon(data), if cause.Some? then Some(Canon(cause.value)) else None, sites)
    case _ => v
  }

  function CanonAll(vs: seq<Value>): (r: seq<Value>)
    ensures |r| == |vs|
  {
    if vs == [] then [] else [Canon(vs[0])] + CanonAll(vs[1..])
  }

  function CanonPairs(entries: seq<Pair>): (r: seq<Pair>)
    ensures |r| == |entries|
  {
    if entries == [] then [] else [CanonPair(entries[0])] + CanonPairs(entries[1..])
  }

  function CanonPair(p: Pair): Pair { Pair(Canon(p.key), Canon(p.value)) }

  /** Values no node of which is turned away. */
  predicate Supported(v: Value)
    decreases Count(v), 0
  {
    CountKids(v);
    Refusal(v).None? && AllSupported(Kids(v))
  }

  predicate AllSupported(vs: seq<Value>)
    decreases CountAll(vs), 1
  {
    vs == [] || (Supported(vs[0]) && AllSupported(vs[1..]))
  }

  /** What reading back asks of one value: names that parse and shapes its type already has. */
  predicate Readable(v: Value) {
    match v
    case Keyword(name) => IsKeyword(name)
    case Sequence(kind, items, _) => kind == Cons ==> items != []
    case Mapping(kind, entries, _) => kind == Trie ==> StringKeys(entries)
    case Pointer(context, _, _) => IsKeyword(context)
    case Structure(_, _, fields, items, _) => |fields| == |items|
    case _ => true
  }

  predicate Sound(v: Value)
    decreases Count(v), 0
  {
    CountKids(v);
    Readable(v) && AllSound(Kids(v))
  }

  predicate AllSound(vs: seq<Value>)
    decreases CountAll(vs), 1
  {
    vs == [] || (Sound(vs[0]) && AllSound(vs[1..]))
  }
}
