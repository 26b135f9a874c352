/**
 One level of rebuilding: what every rebuilt value satisfies, and exactly when
 rebuilding leaves the encoding alone.
 */
module HtaSettling {
  import opened HtaData
  import opened HtaWire
  import opened HtaRoundTrip
  import opened HtaLaws
  import opened HtaOrder
  import opened HtaStability
  import opened HtaRebuild
  import opened HtaListing

  predicate IsSortedSet(u: Value) { u.Unordered? && u.collection == SortedSet }

  predicate IsRanked(u: Value) {
    u.Entries? && (u.mapping == SortedMap || u.mapping == Trie || u.mapping == PriorityMap)
  }

  /** Repeated field names have one value. */
  ghost predicate FieldsAgree(fields: seq<Bytes>, values: seq<Value>) {
    |fields| == |values| ==>
      forall i, j | 0 <= i < |values| && 0 <= j < |values| ::
        fields[i] == fields[j] ==> Wire(values[i]) == Wire(values[j])
  }

  /** What a collection is like after the host has built it. */
  ghost predicate Proper(h: Host, u: Value) {
    if IsSortedSet(u) then Apart(h.order, Listing(u))
    else if IsCollection(u) then Orderly(h, RuleOf(h, u), Listing(u))
    else u.Struct? ==> FieldsAgree(u.fields, u.values)
  }

  /** Entries under one key encoding that may change places have one value encoding. */
  ghost predicate WanderersAgree(h: Host, p: seq<Pair>) {
    forall x, y :: x in p && y in p && Wire(x.key) == Wire(y.key) && h.wanders(Wire(x.key)) ==>
      Wire(x.value) == Wire(y.value)
  }

  /** Entries that the host may visit in either order show no difference. */
  ghost predicate Unmoved(h: Host, u: Value) {
    if u.Map? || u.Pointer? || u.Success? then WanderersAgree(h, Listing(u))
    else IsRanked(u) ==> Still(OrderOf(h, RuleOf(h, u)), RuleOf(h, u).Priority?, Listing(u))
  }

  // ----- Only encodings matter -----

  predicate SameWires(a: seq<Value>, b: seq<Value>) {
    |a| == |b| && forall i :: 0 <= i < |a| ==> Wire(a[i]) == Wire(b[i])
  }

  lemma {:induction false} ItemsWire(a: seq<Value>, b: seq<Value>)
    requires SameWires(a, b)
    ensures WireAll(a) == WireAll(b)
  {
    hide HtaWire.Wire;
    if a != [] { ItemsWire(a[1..], b[1..]); }
  }

  lemma {:induction false} PairsWire(a: seq<Pair>, b: seq<Pair>)
    requires SameBytes(a, b)
    ensures WirePairs(a) == WirePairs(b)
  {
    hide HtaWire.Wire;
    if a != [] {
      assert SameEntry(a[0], b[0]);
      forall i | 0 <= i < |a[1..]| ensures SameEntry(a[1..][i], b[1..][i]) { assert SameEntry(a[i + 1], b[i + 1]); }
      PairsWire(a[1..], b[1..]);
      assert EntryWire(a[0]) == EntryWire(b[0]);
    }
  }

  lemma SetWire(kind: SetKind, a: seq<Value>, b: seq<Value>)
    requires SameWires(a, b)
    ensures Wire(Unordered(kind, a)) == Wire(Unordered(kind, b))
  {
    hide HtaData.BE, HtaWire.Sort, HtaWire.ConcatKeys;
    KeysOnly(KeyItems(a));
    KeysOnly(KeyItems(b));
    assert Image(Bare<Value>, KeyItems(a)) == Image(Bare<Value>, KeyItems(b));
  }

  lemma MapsWire(a: seq<Pair>, b: seq<Pair>)
    requires SameBytes(a, b)
    ensures MapWire(a) == MapWire(b)
  {
    hide HtaData.BE, HtaWire.Sort, PlainBytes, Image, HtaWire.Wire, HtaWire.MapWire;
    MapBytes(a);
    MapBytes(b);
    forall i | 0 <= i < |a| ensures Image(PlainEntry, a)[i] == Image(PlainEntry, b)[i] {
      assert SameEntry(a[i], b[i]);
    }
    assert Image(PlainEntry, a) == Image(PlainEntry, b);
  }

  /** Listings with the same bytes give the same encoding. */
  lemma RelistedWire(u: Value, list: seq<Pair>)
    requires IsCollection(u) && SameBytes(list, Listing(u))
    ensures Wire(Relisted(u, list)) == Wire(u)
  {
    hide HtaData.BE, HtaWire.Sort, HtaWire.MapWire, HtaWire.WirePairs, HtaWire.WireAll, HtaWire.StructHeader,
         HtaWire.TextWire;
    match u
    case Sequence(_, items) => KeysWires(list, items); ItemsWire(Keys(list), items);
    case Unordered(kind, items) => KeysWires(list, items); SetWire(kind, Keys(list), items);
    case Map(entries) => MapsWire(list, entries);
    case Entries(_, entries) => PairsWire(list, entries);
    case Success(_, context) => MapsWire(list, context);
    case Pointer(_, entries) => MapsWire(list, entries);
  }

  lemma KeysWires(list: seq<Pair>, items: seq<Value>)
    requires SameBytes(list, Lone(items))
    ensures SameWires(Keys(list), items)
  {
    hide HtaWire.Wire;
    forall i | 0 <= i < |items| ensures Wire(Keys(list)[i]) == Wire(items[i]) {
      assert SameEntry(list[i], Lone(items)[i]);
    }
  }

  lemma UnflatBytes(parts: seq<Value>, entries: seq<Pair>)
    requires SameWires(parts, Flat(entries))
    ensures SameBytes(Unflat(parts), entries)
  {
    hide HtaWire.Wire;
    forall i | 0 <= i < |entries| ensures SameEntry(Unflat(parts)[i], entries[i]) {
      assert Wire(parts[2 * i]) == Wire(Flat(entries)[2 * i]);
      assert Wire(parts[2 * i + 1]) == Wire(Flat(entries)[2 * i + 1]);
    }
  }

  lemma LoneBytes(a: seq<Value>, b: seq<Value>)
    requires SameWires(a, b)
    ensures SameBytes(Lone(a), Lone(b))
  {
    hide HtaWire.Wire;
  }

  /** The parts after the first. */
  lemma TailWires(a: seq<Value>, b: seq<Value>, first: Value)
    requires SameWires(a, [first] + b)
    ensures |a| == |b| + 1 && Wire(a[0]) == Wire(first) && SameWires(a[1..], b)
  {
    hide HtaWire.Wire;
    var all := [first] + b;
    assert Wire(a[0]) == Wire(all[0]);
    forall i | 0 <= i < |b| ensures Wire(a[1..][i]) == Wire(b[i]) { assert Wire(a[i + 1]) == Wire(all[i + 1]); }
  }

  lemma WithListing(v: Value, parts: seq<Value>)
    requires SameWires(parts, Parts(v)) && IsCollection(v)
    ensures SameBytes(Listing(With(v, parts)), Listing(v))
  {
    hide HtaWire.Wire, Flat, Unflat, Lone, SameBytes, SameWires;
    match v
    case Sequence(_, items) => LoneBytes(parts, items);
    case Unordered(_, items) => LoneBytes(parts, items);
    case Map(entries) => UnflatBytes(parts, entries);
    case Entries(_, entries) => UnflatBytes(parts, entries);
    case Success(data, context) => TailWires(parts, Flat(context), data); UnflatBytes(parts[1..], context);
    case Pointer(_, entries) => UnflatBytes(parts, entries);
  }

  lemma MapWith(v: Value, parts: seq<Value>)
    requires SameWires(parts, Parts(v)) && (v.Map? || v.Pointer?)
    ensures Wire(With(v, parts)) == Wire(v)
  {
    hide HtaWire.MapWire, HtaWire.TextWire, SameBytes, Unflat, Flat;
    UnflatBytes(parts, v.entries);
    MapsWire(Unflat(parts), v.entries);
  }

  lemma EntriesWith(v: Value, parts: seq<Value>)
    requires SameWires(parts, Parts(v)) && v.Entries?
    ensures Wire(With(v, parts)) == Wire(v)
  {
    hide HtaData.BE, HtaWire.WirePairs, Unflat, Flat;
    UnflatBytes(parts, v.entries);
    PairsWire(Unflat(parts), v.entries);
  }

  lemma SuccessWith(v: Value, parts: seq<Value>)
    requires SameWires(parts, Parts(v)) && v.Success?
    ensures Wire(With(v, parts)) == Wire(v)
  {
    hide HtaData.BE, HtaWire.MapWire, HtaWire.StructHeader, HtaWire.TextWire, SameBytes;
    TailWires(parts, Flat(v.context), v.data);
    UnflatBytes(parts[1..], v.context);
    MapsWire(Unflat(parts[1..]), v.context);
  }

  lemma ListWith(v: Value, parts: seq<Value>)
    requires SameWires(parts, Parts(v)) && (v.Sequence? || v.Struct?)
    ensures Wire(With(v, parts)) == Wire(v)
  {
    hide HtaData.BE, HtaWire.WireAll, HtaWire.StructHeader;
    ItemsWire(parts, Parts(v));
  }

  lemma OneWith(v: Value, parts: seq<Value>)
    requires SameWires(parts, Parts(v)) && (v.Atom? || v.Tagged?)
    ensures Wire(With(v, parts)) == Wire(v)
  {
    hide HtaWire.TextWire;
  }

  /** The encoding of a value depends on those of its parts. */
  lemma WithWire(v: Value, parts: seq<Value>)
    requires SameWires(parts, Parts(v))
    ensures Wire(With(v, parts)) == Wire(v)
  {
    hide HtaWire.Wire;
    match v
    case Sequence(_, _) => ListWith(v, parts);
    case Struct(_, _, _) => ListWith(v, parts);
    case Unordered(kind, items) => SetWire(kind, parts, items);
    case Map(_) => MapWith(v, parts);
    case Entries(_, _) => EntriesWith(v, parts);
    case Pointer(_, _) => MapWith(v, parts);
    case Success(_, _) => SuccessWith(v, parts);
    case Atom(_) => OneWith(v, parts);
    case Tagged(_, _) => OneWith(v, parts);
    case _ =>
  }

  lemma SameOrderly(h: Host, rule: Rule, a: seq<Pair>, b: seq<Pair>)
    requires SameBytes(a, b)
    ensures Orderly(h, rule, a) <==> Orderly(h, rule, b)
  {
    hide HtaWire.Wire;
    assert forall i :: 0 <= i < |a| ==> SameEntry(a[i], b[i]);
  }

  lemma SameApart(order: Order, a: seq<Pair>, b: seq<Pair>)
    requires SameBytes(a, b)
    ensures Apart(order, a) <==> Apart(order, b)
  {
    hide HtaWire.Wire;
    assert forall i :: 0 <= i < |a| ==> SameEntry(a[i], b[i]);
  }

  lemma SameStill(order: Order, byValue: bool, a: seq<Pair>, b: seq<Pair>)
    requires SameBytes(a, b) && Still(order, byValue, a)
    ensures Still(order, byValue, b)
  {
    hide HtaWire.Wire;
    forall i, j, k | 0 <= i <= k <= j < |b| && i < j && Less in order(Rank(byValue, b[j]), Rank(byValue, b[i]))
      ensures SameEntry(b[k], b[j])
    {
      assert SameEntry(a[i], b[i]) && SameEntry(a[j], b[j]) && SameEntry(a[k], b[k]);
      assert SameEntry(a[k], a[j]);
    }
  }

  lemma SameAgree(h: Host, a: seq<Pair>, b: seq<Pair>)
    requires SameBytes(a, b) && WanderersAgree(h, a)
    ensures WanderersAgree(h, b)
  {
    hide HtaWire.Wire;
    forall x, y | x in b && y in b && Wire(x.key) == Wire(y.key) && h.wanders(Wire(x.key))
      ensures Wire(x.value) == Wire(y.value)
    {
      var i :| 0 <= i < |b| && b[i] == x;
      var j :| 0 <= j < |b| && b[j] == y;
      assert SameEntry(a[i], b[i]) && SameEntry(a[j], b[j]);
      assert a[i] in a && a[j] in a;
    }
  }

  lemma WithKind(h: Host, v: Value, parts: seq<Value>)
    requires |parts| == |Parts(v)|
    ensures
      var u := With(v, parts);
      && IsCollection(u) == IsCollection(v) && RuleOf(h, u) == RuleOf(h, v) && IsSortedSet(u) == IsSortedSet(v)
      && IsRanked(u) == IsRanked(v) && (u.Map? || u.Pointer? || u.Success?) == (v.Map? || v.Pointer? || v.Success?)
      && u.Struct? == v.Struct? && (v.Struct? ==> u.fields == v.fields && u.values == parts && Parts(v) == v.values)
  {
    hide Flat, Unflat;
  }

  lemma FieldsAlike(fields: seq<Bytes>, a: seq<Value>, b: seq<Value>)
    requires SameWires(a, b)
    ensures FieldsAgree(fields, a) <==> FieldsAgree(fields, b)
  {
    hide HtaWire.Wire;
  }

  /** So do being proper and being unmoved. */
  lemma WithProper(h: Host, v: Value, parts: seq<Value>)
    requires SameWires(parts, Parts(v))
    ensures Proper(h, With(v, parts)) <==> Proper(h, v)
    ensures Unmoved(h, With(v, parts)) <==> Unmoved(h, v)
  {
    hide HtaWire.Wire, Orderly, Still, Apart, FieldsAgree, WanderersAgree, With, Parts, Listing, IsCollection, RuleOf;
    WithKind(h, v, parts);
    if IsCollection(v) {
      WithListing(v, parts);
      var a, b := Listing(With(v, parts)), Listing(v);
      SameBack(a, b);
      SameOrderly(h, RuleOf(h, v), a, b);
      SameApart(h.order, a, b);
      MovesAlike(h, v, a, b);
    } else {
      Uncollected(v);
      if v.Struct? { FieldsAlike(v.fields, parts, v.values); }
    }
  }

  lemma Uncollected(v: Value)
    ensures !IsCollection(v) ==> !IsSortedSet(v) && !IsRanked(v) && !v.Map? && !v.Pointer? && !v.Success?
    ensures IsSortedSet(v) ==> IsCollection(v)
  {
  }

  lemma MovesAlike(h: Host, v: Value, a: seq<Pair>, b: seq<Pair>)
    requires SameBytes(a, b) && SameBytes(b, a)
    ensures WanderersAgree(h, a) <==> WanderersAgree(h, b)
    ensures
      var order, byValue := OrderOf(h, RuleOf(h, v)), RuleOf(h, v).Priority?;
      Still(order, byValue, a) <==> Still(order, byValue, b)
  {
    hide HtaWire.Wire, Still, WanderersAgree;
    var order, byValue := OrderOf(h, RuleOf(h, v)), RuleOf(h, v).Priority?;
    if Still(order, byValue, a) { SameStill(order, byValue, a, b); }
    if Still(order, byValue, b) { SameStill(order, byValue, b, a); }
    if WanderersAgree(h, a) { SameAgree(h, a, b); }
    if WanderersAgree(h, b) { SameAgree(h, b, a); }
  }

  // ----- What is built -----

  lemma RuleLawful(h: Host, u: Value)
    requires Lawful(h)
    ensures RuleOf(h, u).Ranked? ==> LawfulOrder(RuleOf(h, u).order)
    ensures LawfulOrder(OrderOf(h, RuleOf(h, u)))
  {
    hide LawfulOrder;
    TextIsLawful();
  }

  /** A collection's listing taken apart and put together. */
  lemma RelistedListing(u: Value, list: seq<Pair>)
    requires IsCollection(u) && (u.Sequence? || u.Unordered? ==> forall p <- list :: p.value == Nil)
    ensures Listing(Relisted(u, list)) == list
    ensures Relisted(u, Listing(u)) == u
  {
    if u.Sequence? || u.Unordered? {
      forall i | 0 <= i < |list| ensures Lone(Keys(list))[i] == list[i] { assert list[i] in list; }
      assert Lone(Keys(list)) == list;
      assert Keys(Lone(u.items)) == u.items;
    }
  }

  lemma SettledParts(h: Host, u: Value, w: Value) returns (built: seq<Pair>, list: seq<Pair>)
    requires IsCollection(u) && Settles(h, u, w)
    ensures BuiltAs(h, u, built, list, w) && Listing(w) == list && Selected(Listing(u), list)
  {
    hide HtaWire.Wire, Built;
    built, list :| BuiltAs(h, u, built, list, w);
    BuiltSelected(h, RuleOf(h, u), Listing(u), built);
    SelectedPermuted(Listing(u), built, list);
    NilValues(u, list);
    RelistedListing(u, list);
  }

  lemma SelectedPermuted(entries: seq<Pair>, a: seq<Pair>, b: seq<Pair>)
    requires Selected(entries, a) && multiset(a) == multiset(b)
    ensures Selected(entries, b)
  {
    assert |multiset(a)| == |multiset(b)|;
    forall p | p in b ensures p in a { assert p in multiset(b); }
  }

  lemma NilValues(u: Value, list: seq<Pair>)
    requires Selected(Listing(u), list)
    ensures u.Sequence? || u.Unordered? ==> forall p <- list :: p.value == Nil
  {
  }

  lemma SettlesExists(h: Host, u: Value) returns (w: Value)
    requires Lawful(h)
    ensures Settles(h, u, w)
  {
    hide HtaWire.Wire, Built, Lawful;
    if IsCollection(u) {
      RuleLawful(h, u);
      var list := BuiltExists(h, RuleOf(h, u), Listing(u));
      w := Relisted(u, list);
      assert BuiltAs(h, u, list, list, w);
    } else if u.Struct? && |u.fields| == |u.values| {
      w := u.(values := Shown(u.fields, u.values));
    } else {
      w := u;
    }
  }

  // ----- Every rebuilt value is proper -----

  lemma FindPlace(a: seq<Pair>, p: Pair) returns (k: nat)
    requires p in multiset(a)
    ensures k < |a| && a[k] == p
  {
    k :| 0 <= k < |a| && a[k] == p;
  }

  /** Two places of a listing, found in a rearrangement of it. */
  lemma TwoPlaces(a: seq<Pair>, b: seq<Pair>, i: nat, j: nat) returns (k: nat, l: nat)
    requires multiset(a) == multiset(b) && i < |b| && j < |b| && i != j
    ensures k < |a| && l < |a| && k != l && a[k] == b[i] && a[l] == b[j]
  {
    assert b[i] in multiset(b);
    k := FindPlace(a, b[i]);
    WithoutMultiset(a, k);
    WithoutMultiset(b, i);
    assert Without(b, i)[if j < i then j else j - 1] == b[j];
    assert b[j] in multiset(Without(b, i));
    hide Without;
    var m := FindPlace(Without(a, k), b[j]);
    WithoutAt(a, k, m);
    l := if m < k then m else m + 1;
  }

  lemma WithoutAt(a: seq<Pair>, k: nat, m: nat)
    requires k < |a| && m < |a| - 1
    ensures Without(a, k)[m] == a[if m < k then m else m + 1]
  {
  }

  lemma NoRepeatPermuted(h: Host, a: seq<Pair>, b: seq<Pair>)
    requires multiset(a) == multiset(b) && NoRepeat(h, a)
    ensures NoRepeat(h, b)
  {
    hide HtaWire.Wire, SameKey;
    forall i, j | 0 <= i < |b| && 0 <= j < |b| && i != j ensures !SameKey(h, b[i], b[j]) {
      var k, l := TwoPlaces(a, b, i, j);
    }
  }

  lemma ApartPermuted(order: Order, a: seq<Pair>, b: seq<Pair>)
    requires multiset(a) == multiset(b) && Apart(order, a)
    ensures Apart(order, b)
  {
    hide HtaWire.Wire;
    forall i, j | 0 <= i < |b| && 0 <= j < |b| && i != j
      ensures Equal !in order(Wire(b[i].key), Wire(b[j].key))
    {
      var k, l := TwoPlaces(a, b, i, j);
    }
  }

  lemma RisingApart(order: Order, list: seq<Pair>)
    requires LawfulOrder(order) && Rising(order, false, list)
    ensures Apart(order, list)
  {
    hide HtaWire.Wire, LawfulOrder;
    forall i, j | 0 <= i < |list| && 0 <= j < |list| && i != j
      ensures Equal !in order(Wire(list[i].key), Wire(list[j].key))
    {
      assert if i < j then Follows(order, false, list[j], list[i]) else Follows(order, false, list[i], list[j]);
      Answers(order, Wire(list[i].key), Wire(list[j].key));
      Answers(order, Wire(list[j].key), Wire(list[i].key));
    }
  }

  lemma SettlesProper(h: Host, u: Value, w: Value)
    requires Lawful(h) && Settles(h, u, w)
    ensures Proper(h, w)
  {
    hide HtaWire.Wire, Lawful, LawfulOrder, Built;
    if IsCollection(u) {
      var built, list := SettledParts(h, u, w);
      RuleLawful(h, u);
      BuiltOrderly(h, RuleOf(h, u), Listing(u), built);
      if IsSortedSet(u) { RisingApart(h.order, built); }
      if Hashed(u) { NoRepeatPermuted(h, built, list); }
    } else if u.Struct? && |u.fields| == |u.values| {
      ShownAgree(u.fields, u.values);
    }
  }

  lemma ShownAgree(fields: seq<Bytes>, values: seq<Value>)
    requires |fields| == |values|
    ensures FieldsAgree(fields, Shown(fields, values))
  {
    hide HtaWire.Wire;
  }

  // ----- Rebuilding selects parts -----

  lemma SelectedFlat(entries: seq<Pair>, list: seq<Pair>)
    requires Selected(entries, list)
    ensures forall z <- Flat(list) :: z in Flat(entries)
  {
    hide Flat;
    forall z | z in Flat(list) ensures z in Flat(entries) {
      var p := FlatFrom(list, z);
      var q :| q in entries && q.key == p.key;
      var r :| r in entries && r.value == p.value;
      FlatHolds(entries, q);
      FlatHolds(entries, r);
    }
  }

  lemma FlatFrom(entries: seq<Pair>, x: Value) returns (p: Pair)
    requires x in Flat(entries)
    ensures p in entries && (x == p.key || x == p.value)
  {
    var i :| 0 <= i < |Flat(entries)| && Flat(entries)[i] == x;
    p := entries[i / 2];
    assert i == 2 * (i / 2) || i == 2 * (i / 2) + 1;
  }

  lemma FlatHolds(entries: seq<Pair>, q: Pair)
    requires q in entries
    ensures q.key in Flat(entries) && q.value in Flat(entries)
  {
    var k :| 0 <= k < |entries| && entries[k] == q;
    assert Flat(entries)[2 * k] == q.key && Flat(entries)[2 * k + 1] == q.value;
  }

  lemma SelectedKeys(items: seq<Value>, list: seq<Pair>)
    requires Selected(Lone(items), list)
    ensures forall z <- Keys(list) :: z in items
  {
    forall z | z in Keys(list) ensures z in items {
      var i :| 0 <= i < |list| && Keys(list)[i] == z;
      assert list[i] in list;
      var q :| q in Lone(items) && q.key == list[i].key;
    }
  }

  lemma PartsSelected(h: Host, u: Value, w: Value)
    requires Settles(h, u, w)
    ensures forall z <- Parts(w) :: z in Parts(u)
  {
    hide HtaWire.Wire, Built, Selected, Flat;
    if IsCollection(u) {
      var built, list := SettledParts(h, u, w);
      if u.Sequence? || u.Unordered? {
        SelectedKeys(u.items, list);
      } else {
        SelectedFlat(Listing(u), list);
      }
    }
  }

  // ----- What can stay, and what always stays -----

  function KeyOf(p: Pair): Value { p.key }

  lemma KeysPermuted(a: seq<Pair>, b: seq<Pair>)
    requires multiset(a) == multiset(b)
    ensures multiset(Keys(a)) == multiset(Keys(b))
  {
    ImagePermuted(KeyOf, a, b);
    assert Keys(a) == Image(KeyOf, a) && Keys(b) == Image(KeyOf, b);
  }

  /** Any arrangement of a set's elements is written alike. */
  lemma SetRelisted(u: Value, list: seq<Pair>)
    requires u.Unordered? && multiset(list) == multiset(Listing(u))
    ensures Wire(Relisted(u, list)) == Wire(u)
  {
    hide HtaWire.Wire;
    KeysPermuted(list, Listing(u));
    assert Keys(Listing(u)) == u.items;
    SetOrder(u.collection, Keys(list), u.items);
  }

  lemma {:induction false} UnderOnly(key: Bytes, list: seq<Pair>)
    ensures Only(Image(PlainEntry, list), key) == Image(PlainEntry, Under(key, list))
  {
    hide HtaWire.Wire;
    if list != [] {
      UnderOnly(key, list[1..]);
      assert Image(PlainEntry, list)[1..] == Image(PlainEntry, list[1..]);
    }
  }

  /** Entries as bytes, under each key, whichever way they are visited. */
  lemma SameUnder(h: Host, p: seq<Pair>, q: seq<Pair>, key: Bytes)
    requires Visited(h, p, q) && WanderersAgree(h, p)
    ensures Only(Image(PlainEntry, p), key) == Only(Image(PlainEntry, q), key)
  {
    hide HtaWire.Wire, Image, Only, Under;
    UnderOnly(key, p);
    UnderOnly(key, q);
    if h.wanders(key) {
      ImagePermuted(PlainEntry, p, q);
      var s := Image(PlainEntry, p);
      forall x, y | x in s && y in s && x.key == key && y.key == key ensures x == y {
        var i :| 0 <= i < |s| && s[i] == x;
        var j :| 0 <= j < |s| && s[j] == y;
        assert p[i] in p && p[j] in p;
      }
      AlikeOnly(s, Image(PlainEntry, q), key);
    }
  }

  lemma VisitedWire(h: Host, p: seq<Pair>, q: seq<Pair>)
    requires Visited(h, p, q) && WanderersAgree(h, p)
    ensures MapWire(q) == MapWire(p)
  {
    hide HtaWire.Wire, HtaWire.MapWire, HtaWire.Sort, PlainBytes, Image, Only, HtaData.BE, WanderersAgree;
    assert |multiset(p)| == |multiset(q)|;
    MapBytes(p);
    MapBytes(q);
    forall key ensures Only(Image(PlainEntry, p), key) == Only(Image(PlainEntry, q), key) { SameUnder(h, p, q, key); }
    SortByKeys(Image(PlainEntry, p), Image(PlainEntry, q));
  }

  /** So is any visit of a map's entries, when those that may change places agree. */
  lemma MapRelisted(h: Host, u: Value, list: seq<Pair>)
    requires (u.Map? || u.Pointer? || u.Success?) && Visited(h, Listing(u), list) && WanderersAgree(h, Listing(u))
    ensures Wire(Relisted(u, list)) == Wire(u)
  {
    hide HtaWire.MapWire, HtaWire.TextWire, HtaWire.StructHeader, HtaWire.SequenceHeader, WanderersAgree, Visited;
    VisitedWire(h, Listing(u), list);
  }

  lemma ShownWire(u: Value)
    requires u.Struct? && |u.fields| == |u.values| && FieldsAgree(u.fields, u.values)
    ensures Wire(u.(values := Shown(u.fields, u.values))) == Wire(u)
  {
    hide HtaWire.Wire;
    var shown := Shown(u.fields, u.values);
    forall i | 0 <= i < |shown| ensures Wire(shown[i]) == Wire(u.values[i]) {
      var j := LastOf(u.fields, u.fields[i]);
      assert u.fields[j] == u.fields[i];
    }
    WithWire(u, shown);
  }

  /** A proper value can be rebuilt to the same bytes. */
  lemma ProperKeeps(h: Host, u: Value) returns (w: Value)
    requires Lawful(h) && Proper(h, u)
    ensures Settles(h, u, w) && Wire(w) == Wire(u)
  {
    hide HtaWire.Wire, Lawful, LawfulOrder, Built, Orderly, SameBytes;
    if IsCollection(u) {
      var rule, list := RuleOf(h, u), Listing(u);
      RuleLawful(h, u);
      if IsSortedSet(u) {
        list := BuiltExists(h, rule, Listing(u));
        ApartKept(h, h.order, Listing(u), list);
        SetRelisted(u, list);
      } else if rule.Gather? {
        KeepsGathered(h, u);
      } else {
        list := OrderlyKeeps(h, rule, Listing(u));
        RelistedWire(u, list);
      }
      w := Relisted(u, list);
      assert BuiltAs(h, u, list, list, w);
    } else if u.Struct? && |u.fields| == |u.values| {
      w := u.(values := Shown(u.fields, u.values));
      ShownWire(u);
    } else {
      w := u;
    }
  }

  lemma KeepsGathered(h: Host, u: Value)
    requires IsCollection(u) && RuleOf(h, u).Gather? && Orderly(h, Gather, Listing(u))
    ensures Built(h, Gather, Listing(u), Listing(u)) && Relisted(u, Listing(u)) == u
  {
    GatherStays(h, Listing(u), Listing(u));
    NilListing(u);
    RelistedListing(u, Listing(u));
  }

  lemma NilListing(u: Value)
    ensures u.Sequence? || u.Unordered? ==> forall p <- Listing(u) :: p.value == Nil
  {
  }

  /** A proper, unmoved value is always rebuilt to the same bytes. */
  lemma SettledStays(h: Host, u: Value, w: Value)
    requires Lawful(h) && Proper(h, u) && Unmoved(h, u) && Settles(h, u, w)
    ensures Wire(w) == Wire(u)
  {
    hide HtaWire.Wire, Lawful, LawfulOrder, Built, Orderly, Still, WanderersAgree, SameBytes, Selected;
    if IsCollection(u) {
      var built, list := SettledParts(h, u, w);
      var rule := RuleOf(h, u);
      RuleLawful(h, u);
      if IsSortedSet(u) {
        ApartKept(h, h.order, Listing(u), built);
        SetRelisted(u, list);
      } else if rule.Gather? {
        GatheredStays(h, u, built, list);
      } else {
        StillStays(h, rule, Listing(u), list);
        RelistedWire(u, list);
      }
    } else if u.Struct? && |u.fields| == |u.values| {
      ShownWire(u);
    }
  }

  lemma GatheredStays(h: Host, u: Value, built: seq<Pair>, list: seq<Pair>)
    requires IsCollection(u) && RuleOf(h, u).Gather? && Orderly(h, Gather, Listing(u)) && Unmoved(h, u)
    requires BuiltAs(h, u, built, list, Relisted(u, list))
    ensures Wire(Relisted(u, list)) == Wire(u)
  {
    hide HtaWire.Wire, Built, WanderersAgree;
    KeepsGathered(h, u);
    GatherStays(h, Listing(u), built);
    if Hashed(u) {
      if u.Unordered? { SetRelisted(u, list); } else { MapRelisted(h, u, list); }
    }
  }

  // ----- Canonical form -----

  /** The listing of a collection with every part in canonical form. */
  function CanonListed(u: Value): (r: seq<Pair>) {
    match u
    case Sequence(_, items) => Lone(CanonAll(items))
    case Unordered(_, items) => Lone(CanonAll(items))
    case _ => CanonPairs(Listing(u))
  }

  lemma CanonListedBytes(u: Value)
    requires IsCollection(u)
    ensures SameBytes(CanonListed(u), Listing(u))
  {
    hide HtaWire.Wire, HtaWire.Canon;
    if u.Sequence? || u.Unordered? {
      CanonWires(u.items);
      LoneBytes(CanonAll(u.items), u.items);
    } else {
      CanonPairsBytes(Listing(u));
    }
  }

  lemma CanonWires(items: seq<Value>)
    ensures SameWires(CanonAll(items), items)
  {
    hide HtaWire.Wire, HtaWire.Canon;
    forall i | 0 <= i < |items| ensures Wire(CanonAll(items)[i]) == Wire(items[i]) { CanonStable(items[i]); }
  }

  lemma CanonPairsBytes(entries: seq<Pair>)
    ensures SameBytes(CanonPairs(entries), entries)
  {
    hide HtaWire.Wire, HtaWire.Canon;
    forall i | 0 <= i < |entries| ensures SameEntry(CanonPairs(entries)[i], entries[i]) {
      assert CanonPairs(entries)[i] == CanonPair(entries[i]);
      CanonStable(entries[i].key);
      CanonStable(entries[i].value);
    }
  }

  lemma CanonUnfolds(u: Value)
    ensures u.Sequence? ==> Canon(u) == Sequence(if u.sequence == Tuple then Vector else u.sequence, CanonAll(u.items))
    ensures u.Unordered? ==> Canon(u) == Unordered(u.collection, Payloads(Sort(KeyItems(u.items))))
    ensures u.Map? ==> Canon(u) == Map(CanonMap(u.entries))
    ensures u.Entries? ==> Canon(u) == Entries(u.mapping, CanonPairs(u.entries))
    ensures u.Atom? ==> Canon(u) == Atom(Canon(u.content))
    ensures u.Tagged? ==> Canon(u) == Tagged(u.tag, Canon(u.form))
    ensures u.Struct? ==> Canon(u) == Struct(u.name, u.fields, CanonAll(u.values))
    ensures u.Success? ==> Canon(u) == Success(Canon(u.data), CanonMap(u.context))
    ensures u.Pointer? ==> Canon(u) == Pointer(u.target, CanonMap(u.entries))
    ensures Parts(u) == [] && !IsCollection(u) && !u.Struct? ==> Parts(Canon(u)) == [] && !IsCollection(Canon(u))
    ensures Canon(u).Struct? ==> u.Struct?
  {
    hide HtaWire.CanonMap, HtaWire.CanonAll, HtaWire.CanonPairs, HtaWire.Sort, HtaWire.KeyItems;
  }

  function CanonOf(x: Keyed<Value>): Pair { Pair(x.payload, Nil) }

  function CanonEntryOf(x: Keyed<WirePair>): Pair { x.payload.canon }

  lemma SetArranged(items: seq<Value>)
    ensures multiset(Lone(Payloads(Sort(KeyItems(items))))) == multiset(Lone(CanonAll(items)))
  {
    hide HtaWire.Wire, HtaWire.Canon, HtaWire.Sort;
    var k := KeyItems(items);
    SortMembers(k);
    ImagePermuted(CanonOf, Sort(k), k);
    assert Image(CanonOf, Sort(k)) == Lone(Payloads(Sort(k)));
    assert Image(CanonOf, k) == Lone(CanonAll(items));
  }

  lemma MapArranged(entries: seq<Pair>)
    ensures multiset(CanonMap(entries)) == multiset(CanonPairs(entries))
  {
    hide HtaWire.Wire, HtaWire.Canon, HtaWire.Sort;
    var k := KeyPairs(entries);
    SortMembers(k);
    ImagePermuted(CanonEntryOf, Sort(k), k);
    assert Image(CanonEntryOf, Sort(k)) == CanonMap(entries);
    assert Image(CanonEntryOf, k) == CanonPairs(entries);
  }

  /** Canonical form rearranges sets and maps and nothing else. */
  lemma CanonArranged(u: Value)
    requires IsCollection(u)
    ensures multiset(Listing(Canon(u))) == multiset(CanonListed(u))
    ensures !Hashed(u) && !IsSortedSet(u) ==> Listing(Canon(u)) == CanonListed(u)
  {
    hide HtaWire.Wire, HtaWire.CanonMap, HtaWire.Sort, HtaWire.Canon, HtaWire.KeyItems, HtaWire.CanonAll,
         HtaWire.CanonPairs, Lone;
    CanonUnfolds(u);
    match u
    case Sequence(_, _) =>
    case Unordered(_, items) => SetArranged(items);
    case Map(entries) => MapArranged(entries);
    case Entries(_, _) =>
    case Success(_, context) => MapArranged(context);
    case Pointer(_, entries) => MapArranged(entries);
  }

  lemma CanonKind(h: Host, u: Value)
    ensures IsCollection(Canon(u)) == IsCollection(u) && RuleOf(h, Canon(u)) == RuleOf(h, u)
    ensures Hashed(Canon(u)) == Hashed(u) && IsSortedSet(Canon(u)) == IsSortedSet(u)
    ensures u.Struct? ==> Canon(u) == Struct(u.name, u.fields, CanonAll(u.values))
    ensures Canon(u).Struct? ==> u.Struct?
  {
    hide HtaWire.Canon, HtaWire.CanonMap, HtaWire.Sort, HtaWire.KeyItems;
    CanonUnfolds(u);
  }

  lemma ProperCanon(h: Host, u: Value)
    requires Proper(h, u)
    ensures Proper(h, Canon(u))
  {
    hide HtaWire.Wire, HtaWire.Canon;
    CanonKind(h, u);
    if IsCollection(u) {
      CanonArranged(u);
      CanonListedBytes(u);
      var mid := CanonListed(u);
      SameOrderly(h, RuleOf(h, u), mid, Listing(u));
      SameApart(h.order, mid, Listing(u));
      if IsSortedSet(u) {
        ApartPermuted(h.order, mid, Listing(Canon(u)));
      } else if Hashed(u) {
        NoRepeatPermuted(h, mid, Listing(Canon(u)));
      }
    } else if u.Struct? {
      CanonWires(u.values);
    }
  }

  /** The parts of a canonical form are canonical forms of parts. */
  lemma CanonParts(u: Value)
    ensures forall x <- Parts(Canon(u)) :: exists z <- Parts(u) :: x == Canon(z)
  {
    hide HtaWire.Wire, HtaWire.CanonMap, HtaWire.Sort, Flat, HtaWire.Canon, HtaWire.KeyItems, HtaWire.CanonAll,
         HtaWire.CanonPairs;
    CanonUnfolds(u);
    match u
    case Sequence(_, items) => CanonItems(items, CanonAll(items));
    case Unordered(_, items) => CanonSetItems(items);
    case Map(entries) => MapArranged(entries); CanonFlat(entries, CanonMap(entries));
    case Entries(_, entries) => CanonFlat(entries, CanonPairs(entries));
    case Struct(_, _, values) => CanonItems(values, CanonAll(values));
    case Success(data, context) =>
      MapArranged(context);
      CanonFlat(context, CanonMap(context));
      CanonResult(data, context);
    case Pointer(_, entries) => MapArranged(entries); CanonFlat(entries, CanonMap(entries));
    case _ =>
  }

  lemma CanonItems(items: seq<Value>, canon: seq<Value>)
    requires multiset(canon) == multiset(CanonAll(items))
    ensures forall x <- canon :: exists z <- items :: x == Canon(z)
  {
    hide HtaWire.Canon;
    forall x | x in canon ensures exists z <- items :: x == Canon(z) {
      assert x in multiset(CanonAll(items));
      var i :| 0 <= i < |items| && CanonAll(items)[i] == x;
      assert items[i] in items;
    }
  }

  lemma CanonSetItems(items: seq<Value>)
    ensures forall x <- Payloads(Sort(KeyItems(items))) :: exists z <- items :: x == Canon(z)
  {
    hide HtaWire.Wire, HtaWire.Canon, HtaWire.Sort;
    SetArranged(items);
    var sorted := Payloads(Sort(KeyItems(items)));
    KeysPermuted(Lone(sorted), Lone(CanonAll(items)));
    assert Keys(Lone(sorted)) == sorted && Keys(Lone(CanonAll(items))) == CanonAll(items);
    CanonItems(items, sorted);
  }

  lemma CanonFlat(entries: seq<Pair>, canon: seq<Pair>)
    requires multiset(canon) == multiset(CanonPairs(entries))
    ensures forall x <- Flat(canon) :: exists z <- Flat(entries) :: x == Canon(z)
  {
    hide HtaWire.Canon, Flat;
    forall x | x in Flat(canon) ensures exists z <- Flat(entries) :: x == Canon(z) {
      var p := FlatFrom(canon, x);
      var q := CanonFrom(entries, canon, p);
      FlatHolds(entries, q);
    }
  }

  lemma CanonFrom(entries: seq<Pair>, canon: seq<Pair>, p: Pair) returns (q: Pair)
    requires multiset(canon) == multiset(CanonPairs(entries)) && p in canon
    ensures q in entries && p == Pair(Canon(q.key), Canon(q.value))
  {
    hide HtaWire.Canon;
    assert p in multiset(CanonPairs(entries));
    var j :| 0 <= j < |entries| && CanonPairs(entries)[j] == p;
    q := entries[j];
  }

  lemma CanonResult(data: Value, context: seq<Pair>)
    requires forall x <- Flat(CanonMap(context)) :: exists z <- Flat(context) :: x == Canon(z)
    ensures forall x <- [Canon(data)] + Flat(CanonMap(context)) :: exists z <- [data] + Flat(context) :: x == Canon(z)
  {
    hide HtaWire.Canon, Flat, HtaWire.CanonMap;
    var all := [data] + Flat(context);
    assert all[0] == data && data in all;
    assert forall z <- Flat(context) :: z in all;
  }
}
