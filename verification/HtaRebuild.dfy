/**
 What the host makes of a decoded value.  The decoder hands every collection to
 the host's constructors, which drop repeated keys and choose the order in
 which the encoder will later visit what is left.

 The host's equality and order are parameters.  They are given on encodings:
 two values met in one frame are always two objects, so what the host may say
 of them depends on their contents alone.  An order by address (atoms) has more
 than one possible answer.
 */
module HtaRebuild {
  import opened HtaData
  import opened HtaWire
  import HtaLaws

  datatype Answer = Less | Equal | Greater

  type Order = (Bytes, Bytes) -> set<Answer>

  /** Equality, order, and which keys hash by address. */
  datatype Host = Host(same: (Bytes, Bytes) -> bool, order: Order, wanders: Bytes -> bool)

  // ----- Values and their parts -----

  function Flat(entries: seq<Pair>): (r: seq<Value>)
    ensures |r| == 2 * |entries|
    ensures forall i :: 0 <= i < |entries| ==> r[2 * i] == entries[i].key && r[2 * i + 1] == entries[i].value
  {
    if entries == [] then [] else [entries[0].key, entries[0].value] + Flat(entries[1..])
  }

  function Unflat(parts: seq<Value>): (r: seq<Pair>)
    ensures |r| == |parts| / 2
    ensures forall i :: 0 <= i < |r| ==> r[i] == Pair(parts[2 * i], parts[2 * i + 1])
  {
    if |parts| < 2 then [] else [Pair(parts[0], parts[1])] + Unflat(parts[2..])
  }

  /** The values right inside a value. */
  function Parts(v: Value): seq<Value> {
    match v
    case Sequence(_, items) => items
    case Unordered(_, items) => items
    case Map(entries) => Flat(entries)
    case Entries(_, entries) => Flat(entries)
    case Atom(content) => [content]
    case Tagged(_, form) => [form]
    case Struct(_, _, values) => values
    case Success(data, context) => [data] + Flat(context)
    case Pointer(_, entries) => Flat(entries)
    case _ => []
  }

  /** The same value with other parts. */
  function With(v: Value, parts: seq<Value>): Value
    requires |parts| == |Parts(v)|
  {
    match v
    case Sequence(kind, _) => Sequence(kind, parts)
    case Unordered(kind, _) => Unordered(kind, parts)
    case Map(_) => Map(Unflat(parts))
    case Entries(kind, _) => Entries(kind, Unflat(parts))
    case Atom(_) => Atom(parts[0])
    case Tagged(tag, _) => Tagged(tag, parts[0])
    case Struct(name, fields, _) => Struct(name, fields, parts)
    case Success(_, _) => Success(parts[0], Unflat(parts[1..]))
    case Pointer(target, _) => Pointer(target, Unflat(parts))
    case _ => v
  }

  lemma PartSmaller(v: Value, i: nat)
    requires i < |Parts(v)|
    ensures Parts(v)[i] < v
  {
    match v
    case Map(entries) => FlatSmaller(entries, i);
    case Entries(_, entries) => FlatSmaller(entries, i);
    case Success(_, context) => if i > 0 { FlatSmaller(context, i - 1); }
    case Pointer(_, entries) => FlatSmaller(entries, i);
    case _ =>
  }

  lemma FlatSmaller(entries: seq<Pair>, i: nat)
    requires i < 2 * |entries|
    ensures Flat(entries)[i] < entries[i / 2]
  {
    assert i == 2 * (i / 2) || i == 2 * (i / 2) + 1;
  }

  // ----- Listings -----

  /** The entries of a collection, in the order they are visited; a set's elements stand as keys. */
  function Listing(v: Value): seq<Pair> {
    match v
    case Sequence(_, items) => Lone(items)
    case Unordered(_, items) => Lone(items)
    case Map(entries) => entries
    case Entries(_, entries) => entries
    case Success(_, context) => context
    case Pointer(_, entries) => entries
    case _ => []
  }

  function Lone(items: seq<Value>): (r: seq<Pair>)
    ensures |r| == |items| && forall i :: 0 <= i < |items| ==> r[i] == Pair(items[i], Nil)
  {
    seq(|items|, i requires 0 <= i < |items| => Pair(items[i], Nil))
  }

  function Keys(list: seq<Pair>): (r: seq<Value>)
    ensures |r| == |list| && forall i :: 0 <= i < |list| ==> r[i] == list[i].key
  {
    seq(|list|, i requires 0 <= i < |list| => list[i].key)
  }

  /** The same collection with another listing. */
  function Relisted(v: Value, list: seq<Pair>): Value {
    match v
    case Sequence(kind, _) => Sequence(kind, Keys(list))
    case Unordered(kind, _) => Unordered(kind, Keys(list))
    case Map(_) => Map(list)
    case Entries(kind, _) => Entries(kind, list)
    case Success(data, _) => Success(data, list)
    case Pointer(target, _) => Pointer(target, list)
    case _ => v
  }

  // ----- One collection -----

  /** How a collection takes in one entry after the other. */
  datatype Rule =
    | Gather                // in order of arrival, one entry per key
    | Ranked(order: Order)  // in order of the keys
    | Priority              // in order of the values, one entry per key

  /** The text in the encoding of a string, after its tag and length. */
  function Letters(b: Bytes): Bytes { if |b| >= 5 then b[5..] else [] }

  /** The order of a trie: that of the characters of its keys, which UTF-8 keeps in its bytes. */
  function TextOrder(a: Bytes, b: Bytes): set<Answer> {
    if Letters(a) == Letters(b) then {Equal} else if LexLe(Letters(a), Letters(b)) then {Less} else {Greater}
  }

  predicate IsCollection(v: Value) {
    match v
    case Sequence(kind, _) => kind == OrderedSet
    case Unordered(_, _) => true
    case Map(_) => true
    case Entries(kind, _) => kind != Object
    case Success(_, _) => true
    case Pointer(_, _) => true
    case _ => false
  }

  function RuleOf(h: Host, v: Value): Rule {
    match v
    case Unordered(kind, _) => if kind == SortedSet then Ranked(h.order) else Gather
    case Entries(kind, _) =>
      (match kind
       case SortedMap => Ranked(h.order)
       case Trie => Ranked(TextOrder)
       case PriorityMap => Priority
       case _ => Gather)
    case _ => Gather
  }

  /** Visited in the order of hashes. */
  predicate Hashed(v: Value) {
    v.Map? || v.Pointer? || v.Success? || (v.Unordered? && v.collection == Set)
  }

  predicate SameKey(h: Host, p: Pair, q: Pair) { h.same(Wire(p.key), Wire(q.key)) }

  predicate HasKey(h: Host, list: seq<Pair>, x: Pair) {
    exists i :: 0 <= i < |list| && SameKey(h, list[i], x)
  }

  /** What may be left of two entries with one key. */
  predicate Merges(m: Pair, p: Pair, q: Pair) {
    (m.key == p.key || m.key == q.key) && (m.value == p.value || m.value == q.value)
  }

  /** `assoc` of the hashed and ordered kinds. */
  ghost predicate Gathered(h: Host, list: seq<Pair>, x: Pair, next: seq<Pair>) {
    if HasKey(h, list, x)
    then exists i, m :: 0 <= i < |list| && SameKey(h, list[i], x) && Merges(m, list[i], x) && next == list[i := m]
    else next == list + [x]
  }

  /** What an entry is ordered by. */
  function Rank(byValue: bool, p: Pair): Bytes { if byValue then Wire(p.value) else Wire(p.key) }

  /**
   A place for `x` in a search tree: both neighbours of a new leaf have been
   compared with it on the way down.  By value, equals come before it.
   */
  predicate Slot(order: Order, byValue: bool, list: seq<Pair>, x: Pair, at: nat) {
    && at <= |list|
    && (at > 0 ==>
          var o := order(Rank(byValue, x), Rank(byValue, list[at - 1]));
          Greater in o || (byValue && Equal in o))
    && (at < |list| ==> Less in order(Rank(byValue, x), Rank(byValue, list[at])))
  }

  /** A priority equal to one already there takes its place for all its keys. */
  function Shared(order: Order, byValue: bool, p: Pair, x: Pair): Pair {
    if byValue && Equal in order(Wire(x.value), Wire(p.value)) then p.(value := x.value) else p
  }

  function SharedAll(order: Order, byValue: bool, list: seq<Pair>, x: Pair): (r: seq<Pair>)
    ensures |r| == |list| && forall i :: 0 <= i < |list| ==> r[i] == Shared(order, byValue, list[i], x)
  {
    seq(|list|, i requires 0 <= i < |list| => Shared(order, byValue, list[i], x))
  }

  function Placed(order: Order, byValue: bool, list: seq<Pair>, x: Pair, at: nat): (r: seq<Pair>)
    requires at <= |list|
    ensures |r| == |list| + 1
  {
    var shared := SharedAll(order, byValue, list, x);
    shared[..at] + [x] + shared[at..]
  }

  /** `assoc` of the sorted kinds: an equal key is replaced. */
  ghost predicate Inserted(order: Order, list: seq<Pair>, x: Pair, next: seq<Pair>) {
    || (exists at: nat :: Slot(order, false, list, x, at) && next == Placed(order, false, list, x, at))
    || (exists i :: 0 <= i < |list| && Equal in order(Wire(x.key), Wire(list[i].key)) && next == list[i := x])
  }

  /** `assoc` of a priority map: a key already there keeps its place or moves to that of its new priority. */
  ghost predicate Prioritised(h: Host, list: seq<Pair>, x: Pair, next: seq<Pair>) {
    if HasKey(h, list, x)
    then
      || next == list
      || exists i, at: nat ::
           && 0 <= i < |list| && SameKey(h, list[i], x) && Slot(h.order, true, HtaLaws.Without(list, i), x, at)
           && next == Placed(h.order, true, HtaLaws.Without(list, i), x, at)
    else exists at: nat :: Slot(h.order, true, list, x, at) && next == Placed(h.order, true, list, x, at)
  }

  ghost predicate Taken(h: Host, rule: Rule, list: seq<Pair>, x: Pair, next: seq<Pair>) {
    match rule
    case Gather => Gathered(h, list, x, next)
    case Ranked(order) => Inserted(order, list, x, next)
    case Priority => Prioritised(h, list, x, next)
  }

  function Front(entries: seq<Pair>): seq<Pair>
    requires entries != []
  {
    entries[..|entries| - 1]
  }

  function Last(entries: seq<Pair>): Pair
    requires entries != []
  {
    entries[|entries| - 1]
  }

  /** What a collection may hold after taking in `entries`, first to last. */
  ghost predicate Built(h: Host, rule: Rule, entries: seq<Pair>, list: seq<Pair>)
    decreases |entries|
  {
    if entries == [] then list == []
    else
      exists before :: Built(h, rule, Front(entries), before) && Taken(h, rule, before, Last(entries), list)
  }

  /** The values of a structure are kept by field name, so a repeated name shows its last value. */
  function Shown(fields: seq<Bytes>, values: seq<Value>): (r: seq<Value>)
    requires |fields| == |values|
    ensures |r| == |values| && forall i :: 0 <= i < |r| ==> r[i] == values[LastOf(fields, fields[i])]
  {
    seq(|values|, i requires 0 <= i < |values| => values[LastOf(fields, fields[i])])
  }

  function LastOf(fields: seq<Bytes>, name: Bytes): (i: nat)
    requires name in fields
    ensures i < |fields| && fields[i] == name && forall j :: i < j < |fields| ==> fields[j] != name
  {
    if fields[|fields| - 1] == name then |fields| - 1 else LastOf(fields[..|fields| - 1], name)
  }

  /** The entries with one key encoding, in their order. */
  function Under(key: Bytes, list: seq<Pair>): seq<Pair> {
    if list == [] then [] else (if Wire(list[0].key) == key then [list[0]] else []) + Under(key, list[1..])
  }

  /**
   An order of hashes: any order, except that keys with one encoding have one
   hash and stay in order of arrival, unless they hash by address.
   */
  ghost predicate Visited(h: Host, built: seq<Pair>, list: seq<Pair>) {
    multiset(list) == multiset(built) && forall key | !h.wanders(key) :: Under(key, list) == Under(key, built)
  }

  /** What the host built, and the order it is visited in. */
  ghost predicate BuiltAs(h: Host, u: Value, built: seq<Pair>, list: seq<Pair>, w: Value) {
    && Built(h, RuleOf(h, u), Listing(u), built)
    && (if Hashed(u) then Visited(h, built, list) else list == built)
    && w == Relisted(u, list)
  }

  /** What the host may make of a value whose parts are its own already. */
  ghost predicate Settles(h: Host, u: Value, w: Value) {
    if IsCollection(u) then
      exists built, list :: BuiltAs(h, u, built, list, w)
    else if u.Struct? && |u.fields| == |u.values| then w == u.(values := Shown(u.fields, u.values))
    else w == u
  }

  // ----- All levels -----

  /** What the host may make of a value just decoded: its parts first, then the value itself. */
  ghost predicate Rebuilt(h: Host, v: Value, w: Value)
    decreases v
  {
    exists parts: seq<Value> ::
      && |parts| == |Parts(v)|
      && (forall i :: 0 <= i < |parts| ==> (PartSmaller(v, i); Rebuilt(h, Parts(v)[i], parts[i])))
      && Settles(h, With(v, parts), w)
  }
}
