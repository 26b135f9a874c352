/**
 The canonical decoder: decode, let the host rebuild the collections, encode
 again and compare.  A frame is accepted whatever the host does, or possibly,
 or never; the first two are given by conditions on the value in the frame.
 */
module HtaCanonical {
  import opened HtaData
  import opened HtaWire
  import opened HtaTheorems
  import opened HtaLaws
  import opened HtaOrder
  import opened HtaSoundness
  import opened HtaRebuild
  import opened HtaListing
  import opened HtaSettling
  import opened HtaRebuiltSound

  // ----- Conditions on a value -----

  /** Proper at every level: no key twice, sorted kinds in order, repeated fields alike. */
  ghost predicate Regular(h: Host, v: Value)
    decreases v
  {
    Proper(h, v) && forall i :: 0 <= i < |Parts(v)| ==> (PartSmaller(v, i); Regular(h, Parts(v)[i]))
  }

  /** Regular, and at every level entries that may be visited in either order show no difference. */
  ghost predicate Steady(h: Host, v: Value)
    decreases v
  {
    Proper(h, v) && Unmoved(h, v) &&
    forall i :: 0 <= i < |Parts(v)| ==> (PartSmaller(v, i); Steady(h, Parts(v)[i]))
  }

  /** Rebuilding never changes the encoding. */
  ghost predicate Kept(h: Host, v: Value) { forall w | Rebuilt(h, v, w) :: Wire(w) == Wire(v) }

  /** Rebuilding can leave the encoding alone. */
  ghost predicate CanKeep(h: Host, v: Value) { exists w :: Rebuilt(h, v, w) && Wire(w) == Wire(v) }

  // ----- Building from parts -----

  lemma RebuiltFrom(h: Host, v: Value, parts: seq<Value>, w: Value)
    requires |parts| == |Parts(v)| && Settles(h, With(v, parts), w)
    requires forall i :: 0 <= i < |parts| ==> Rebuilt(h, Parts(v)[i], parts[i])
    ensures Rebuilt(h, v, w)
  {
    hide Settles, Parts, With;
    forall i | 0 <= i < |parts| ensures (PartSmaller(v, i); Rebuilt(h, Parts(v)[i], parts[i])) {
      PartSmaller(v, i);
    }
  }

  lemma WithParts(v: Value, parts: seq<Value>)
    requires |parts| == |Parts(v)|
    ensures Parts(With(v, parts)) == parts
  {
    hide Flat, Unflat;
    match v
    case Map(_) => FlatUnflat(parts);
    case Entries(_, _) => FlatUnflat(parts);
    case Success(_, _) => FlatUnflat(parts[1..]); assert [parts[0]] + parts[1..] == parts;
    case Pointer(_, _) => FlatUnflat(parts);
    case _ =>
  }

  lemma FlatUnflat(parts: seq<Value>)
    requires |parts| % 2 == 0
    ensures Flat(Unflat(parts)) == parts
  {
    forall i | 0 <= i < |parts| ensures Flat(Unflat(parts))[i] == parts[i] {
      assert i == 2 * (i / 2) || i == 2 * (i / 2) + 1;
      assert Unflat(parts)[i / 2] == Pair(parts[2 * (i / 2)], parts[2 * (i / 2) + 1]);
    }
  }

  /** A rebuild, one that keeps the encoding if there is such. */
  ghost function Chosen(h: Host, v: Value): (w: Value)
    ensures (exists w' :: Rebuilt(h, v, w')) ==> Rebuilt(h, v, w)
    ensures CanKeep(h, v) ==> Rebuilt(h, v, w) && Wire(w) == Wire(v)
  {
    if CanKeep(h, v) then
      var w :| Rebuilt(h, v, w) && Wire(w) == Wire(v); w
    else if exists w' :: Rebuilt(h, v, w') then
      var w :| Rebuilt(h, v, w); w
    else v
  }

  ghost function AllChosen(h: Host, vs: seq<Value>): (r: seq<Value>)
    ensures |r| == |vs| && forall i :: 0 <= i < |vs| ==> r[i] == Chosen(h, vs[i])
  {
    seq(|vs|, i requires 0 <= i < |vs| => Chosen(h, vs[i]))
  }

  /** The host always makes something of a value. */
  lemma {:induction false} RebuiltExists(h: Host, v: Value)
    requires Lawful(h)
    ensures exists w :: Rebuilt(h, v, w)
    decreases v
  {
    hide Lawful, Settles, Parts, With, Rebuilt, HtaWire.Wire;
    var parts := AllChosen(h, Parts(v));
    forall i | 0 <= i < |parts| ensures Rebuilt(h, Parts(v)[i], parts[i]) {
      PartSmaller(v, i);
      RebuiltExists(h, Parts(v)[i]);
    }
    var w := SettlesExists(h, With(v, parts));
    RebuiltFrom(h, v, parts, w);
  }

  // ----- Steady values are kept -----

  lemma {:induction false} SteadyKept(h: Host, v: Value)
    requires Lawful(h) && Steady(h, v)
    ensures Kept(h, v)
    decreases v
  {
    hide Lawful, Settles, Parts, With, Rebuilt, HtaWire.Wire, Proper, Unmoved;
    forall w | Rebuilt(h, v, w) ensures Wire(w) == Wire(v) {
      var parts := RebuiltParts(h, v, w);
      forall i | 0 <= i < |parts| ensures Wire(parts[i]) == Wire(Parts(v)[i]) {
        PartSmaller(v, i);
        SteadyKept(h, Parts(v)[i]);
      }
      WithWire(v, parts);
      WithProper(h, v, parts);
      SettledStays(h, With(v, parts), w);
    }
  }

  /** With parts that can be kept, a proper value can. */
  lemma KeepsWhole(h: Host, v: Value)
    requires Lawful(h) && Proper(h, v) && forall x <- Parts(v) :: CanKeep(h, x)
    ensures CanKeep(h, v)
  {
    hide Lawful, Settles, Parts, With, Rebuilt, HtaWire.Wire, Proper, CanKeep;
    var parts := AllChosen(h, Parts(v));
    forall i | 0 <= i < |parts|
      ensures Rebuilt(h, Parts(v)[i], parts[i]) && Wire(parts[i]) == Wire(Parts(v)[i])
    {
      assert Parts(v)[i] in Parts(v);
    }
    WithWire(v, parts);
    WithProper(h, v, parts);
    var w := ProperKeeps(h, With(v, parts));
    RebuiltFrom(h, v, parts, w);
    CanKeepBy(h, v, w);
  }

  lemma CanKeepBy(h: Host, v: Value, w: Value)
    requires Rebuilt(h, v, w) && Wire(w) == Wire(v)
    ensures CanKeep(h, v)
  {
  }

  lemma {:induction false} RegularCanKeep(h: Host, v: Value)
    requires Lawful(h) && Regular(h, v)
    ensures CanKeep(h, v)
    decreases v
  {
    hide Lawful, Parts, Rebuilt, HtaWire.Wire, Proper, CanKeep;
    forall x | x in Parts(v) ensures CanKeep(h, x) {
      var i :| 0 <= i < |Parts(v)| && Parts(v)[i] == x;
      PartSmaller(v, i);
      RegularCanKeep(h, x);
    }
    KeepsWhole(h, v);
  }

  // ----- What has been rebuilt can be kept -----

  /** A part of what is rebuilt is a rebuilt part. */
  lemma PartFrom(h: Host, a: Value, parts: seq<Value>, w: Value, x: Value) returns (k: nat)
    requires |parts| == |Parts(a)| && Settles(h, With(a, parts), w) && x in Parts(Canon(w))
    ensures k < |parts| && x == Canon(parts[k])
  {
    hide Settles, Parts, With, HtaWire.Canon, HtaWire.Wire;
    CanonParts(w);
    var z :| z in Parts(w) && x == Canon(z);
    PartsSelected(h, With(a, parts), w);
    WithParts(a, parts);
    k :| 0 <= k < |parts| && parts[k] == z;
  }

  lemma {:induction false} RebuiltRegular(h: Host, a: Value, w: Value)
    requires Lawful(h) && Rebuilt(h, a, w)
    ensures Regular(h, Canon(w))
    decreases a
  {
    hide Lawful, Settles, Parts, With, Rebuilt, HtaWire.Canon, HtaWire.Wire, Proper;
    var parts := RebuiltParts(h, a, w);
    SettlesProper(h, With(a, parts), w);
    ProperCanon(h, w);
    var c := Canon(w);
    forall i | 0 <= i < |Parts(c)| ensures (PartSmaller(c, i); Regular(h, Parts(c)[i])) {
      PartSmaller(c, i);
      var k := PartFrom(h, a, parts, w, Parts(c)[i]);
      PartSmaller(a, k);
      RebuiltRegular(h, Parts(a)[k], parts[k]);
    }
  }

  // ----- Kept values are steady -----

  /** Somewhere in the frame a part is as fine as the whole. */
  lemma PartFine(v: Value, i: nat, e: nat, depth: int) returns (e': nat, depth': int)
    requires e <= depth && Fine(v, e, depth) && i < |Parts(v)|
    ensures e' <= depth' && Fine(Parts(v)[i], e', depth')
  {
    hide Fine, Flat;
    var x := Parts(v)[i];
    match v
    case Sequence(_, items) => SequenceParts(v, e, depth); e', depth' := e + 1, depth + 1; assert x in items;
    case Unordered(_, items) => SetParts(v, e, depth); e', depth' := e + 1, depth + 1; assert x in items;
    case Map(entries) =>
      EntryParts(v, e, depth); e', depth' := e + 1, depth + 1; FlatFine(entries, i, e', depth');
    case Entries(_, entries) =>
      EntryParts(v, e, depth); e', depth' := e + 1, depth + 1; FlatFine(entries, i, e', depth');
    case Struct(_, _, values) => StructureParts(v, e, depth); e', depth' := e + 1, depth + 2; assert x in values;
    case Success(_, context) =>
      SuccessParts(v, e, depth);
      if i == 0 {
        e', depth' := e + 1, depth + 2;
      } else {
        e', depth' := e + 2, depth + 3;
        FlatFine(context, i - 1, e', depth');
      }
    case Pointer(_, entries) =>
      PointerParts(v, e, depth); e', depth' := e + 2, depth + 2; FlatFine(entries, i, e', depth');
    case Atom(_) => e', depth' := e + 1, depth + 1; OneFine(v, e, depth);
    case Tagged(_, _) => e', depth' := e + 1, depth + 1; OneFine(v, e, depth);
  }

  lemma FlatFine(entries: seq<Pair>, i: nat, e: nat, depth: int)
    requires PairsFine(entries, e, depth) && i < 2 * |entries|
    ensures Fine(Flat(entries)[i], e, depth)
  {
    hide Fine;
    assert i == 2 * (i / 2) || i == 2 * (i / 2) + 1;
    assert entries[i / 2] in entries;
  }

  lemma OneFine(v: Value, e: nat, depth: int)
    requires Fine(v, e, depth) && (v.Atom? || v.Tagged?)
    ensures Fine(Parts(v)[0], e + 1, depth + 1)
  {
  }

  /** Fine values with one encoding have one canonical form. */
  lemma OneMeaning(a: Value, b: Value, e: nat, depth: int, e': nat, depth': int)
    requires Fine(a, e, depth) && Fine(b, e', depth') && Wire(a) == Wire(b)
    ensures Canon(a) == Canon(b)
  {
    hide HtaWire.Wire, HtaWire.Canon, HtaWire.WellFormed, HtaWire.Encodable, HtaWire.Readable;
    SelfDelimiting(a, b, e, e');
  }

  /** What a kept value is rebuilt to means the value itself. */
  lemma KeptMeans(h: Host, v: Value, w: Value, e: nat, depth: int)
    requires e <= depth && Fine(v, e, depth) && Canon(v) == v && Rebuilt(h, v, w) && Wire(w) == Wire(v)
    ensures Canon(w) == v
  {
    hide HtaWire.Wire, HtaWire.Canon, Fine, Rebuilt;
    RebuiltReplaces(h, v, w);
    OneMeaning(w, v, e, depth, e, depth);
  }

  lemma CanonPart(v: Value, i: nat)
    requires Canon(v) == v && i < |Parts(v)|
    ensures Canon(Parts(v)[i]) == Parts(v)[i]
  {
    hide HtaWire.Canon, Parts;
    CanonParts(v);
    assert Parts(v)[i] in Parts(v);
    var z :| z in Parts(v) && Parts(v)[i] == Canon(z);
    CanonStable(z);
  }

  /** The parts of a value, one of them and its likes replaced, the others kept. */
  ghost function Replaced(h: Host, vs: seq<Value>, x: Value, y: Value): (r: seq<Value>)
    ensures |r| == |vs|
    ensures forall i :: 0 <= i < |vs| ==> r[i] == if vs[i] == x then y else Chosen(h, vs[i])
  {
    seq(|vs|, i requires 0 <= i < |vs| => if vs[i] == x then y else Chosen(h, vs[i]))
  }

  /** A part of a kept value is kept: were it to change, nothing in the whole would stand for it. */
  lemma PartKept(h: Host, v: Value, j: nat, y: Value, e: nat, depth: int)
    requires Lawful(h) && e <= depth && Fine(v, e, depth) && Canon(v) == v && Kept(h, v)
    requires j < |Parts(v)| && Rebuilt(h, Parts(v)[j], y)
    ensures Wire(y) == Wire(Parts(v)[j])
  {
    hide Lawful, Settles, Parts, With, Rebuilt, HtaWire.Canon, HtaWire.Wire, Fine, Regular;
    KeptParts(h, v, e, depth);
    var x := Parts(v)[j];
    var parts := Replaced(h, Parts(v), x, y);
    forall i | 0 <= i < |parts| ensures Rebuilt(h, Parts(v)[i], parts[i]) {
      assert CanKeep(h, Parts(v)[i]);
    }
    var w := SettlesExists(h, With(v, parts));
    RebuiltFrom(h, v, parts, w);
    KeptMeans(h, v, w, e, depth);
    var k := PartFrom(h, v, parts, w, x);
    CanonStable(parts[k]);
    if Parts(v)[k] != x { SameWireSamePart(v, j, k, e, depth); }
  }

  /** Parts of a canonical value with one encoding are one value. */
  lemma SameWireSamePart(v: Value, j: nat, k: nat, e: nat, depth: int)
    requires e <= depth && Fine(v, e, depth) && Canon(v) == v && j < |Parts(v)| && k < |Parts(v)|
    ensures Wire(Parts(v)[j]) == Wire(Parts(v)[k]) ==> Parts(v)[j] == Parts(v)[k]
  {
    hide Parts, HtaWire.Canon, HtaWire.Wire, Fine;
    var e1, d1 := PartFine(v, j, e, depth);
    var e2, d2 := PartFine(v, k, e, depth);
    CanonPart(v, j);
    CanonPart(v, k);
    if Wire(Parts(v)[j]) == Wire(Parts(v)[k]) { OneMeaning(Parts(v)[j], Parts(v)[k], e1, d1, e2, d2); }
  }

  /** Every part of a kept value can be kept. */
  lemma KeptParts(h: Host, v: Value, e: nat, depth: int)
    requires Lawful(h) && e <= depth && Fine(v, e, depth) && Canon(v) == v && Kept(h, v)
    ensures Regular(h, v) && forall i :: 0 <= i < |Parts(v)| ==> CanKeep(h, Parts(v)[i])
  {
    hide Lawful, Parts, Rebuilt, HtaWire.Canon, HtaWire.Wire, Fine, Proper, CanKeep;
    RebuiltExists(h, v);
    var w :| Rebuilt(h, v, w);
    KeptMeans(h, v, w, e, depth);
    RebuiltRegular(h, v, w);
    forall i | 0 <= i < |Parts(v)| ensures CanKeep(h, Parts(v)[i]) {
      PartSmaller(v, i);
      RegularCanKeep(h, Parts(v)[i]);
    }
  }

  lemma FineIsSound(v: Value, e: nat, depth: int)
    requires Fine(v, e, depth)
    ensures Sound(v, e) && depth <= MAX_NESTING_DEPTH
  {
    hide HtaWire.WellFormed, HtaWire.Encodable;
  }

  /** A map inside a value, at the level where it stands. */
  lemma MapInside(u: Value, e: nat, depth: int) returns (e': nat)
    requires e <= depth && Fine(u, e, depth) && (u.Map? || u.Pointer? || u.Success?)
    ensures Sound(Map(Listing(u)), e')
  {
    hide Fine, PairsFine, Sound;
    match u
    case Map(_) =>
      e' := e;
      FineIsSound(u, e, depth);
    case Pointer(_, entries) =>
      e' := e + 1;
      PointerParts(u, e, depth);
      MapMade(entries, e', depth + 1);
      FineIsSound(Map(entries), e', depth + 1);
    case Success(data, context) =>
      e' := e + 1;
      SuccessParts(u, e, depth);
      FineIsSound(data, e', depth + 2);
      MapMade(context, e', depth + 2);
      FineIsSound(Map(context), e', depth + 2);
  }

  lemma MapSeen(u: Value, list: seq<Pair>)
    requires u.Map? || u.Pointer? || u.Success?
    ensures Wire(Relisted(u, list)) == Wire(u) ==> Wire(Map(list)) == Wire(Map(Listing(u)))
  {
    hide HtaWire.MapWire, HtaWire.TextWire, HtaWire.StructHeader, HtaWire.SequenceHeader;
    assert Wire(Map(list)) == MapWire(list) && Wire(Map(Listing(u))) == MapWire(Listing(u));
    var front := BeforeMap(u);
    assert Wire(Relisted(u, list)) == front + MapWire(list) && Wire(u) == front + MapWire(Listing(u));
    if Wire(Relisted(u, list)) == Wire(u) {
      assert (front + MapWire(list))[|front|..] == MapWire(list);
      assert (front + MapWire(Listing(u)))[|front|..] == MapWire(Listing(u));
    }
  }

  /** What is written of a value before its map. */
  function BeforeMap(u: Value): Bytes {
    match u
    case Pointer(target, _) => [TagByte(PointerTag)] + TextWire(KeywordText, target)
    case Success(data, _) =>
      StructHeader(RESULT_NAME, RESULT_FIELDS) + SequenceHeader(Vector, 4)
      + TextWire(KeywordText, SUCCESS) + Wire(data) + [TagByte(NilTag)]
    case _ => []
  }

  lemma {:induction false} UnderConcat(key: Bytes, a: seq<Pair>, b: seq<Pair>)
    ensures Under(key, a + b) == Under(key, a) + Under(key, b)
  {
    hide HtaWire.Wire;
    if a == [] {
      assert a + b == b;
    } else {
      UnderConcat(key, a[1..], b);
      assert (a + b)[1..] == a[1..] + b;
    }
  }

  lemma UnderOne(key: Bytes, x: Pair)
    ensures Under(key, [x]) == if Wire(x.key) == key then [x] else []
  {
    hide HtaWire.Wire;
    assert [x][1..] == [];
  }

  /** Taking an entry out leaves the others under other keys. */
  lemma UnderWithout(key: Bytes, p: seq<Pair>, i: nat)
    requires i < |p| && Wire(p[i].key) != key
    ensures Under(key, Without(p, i)) == Under(key, p)
  {
    hide HtaWire.Wire, Under;
    UnderConcat(key, p[..i], p[i + 1..]);
    UnderConcat(key, p[..i], [p[i]] + p[i + 1..]);
    UnderConcat(key, [p[i]], p[i + 1..]);
    UnderOne(key, p[i]);
    assert p == p[..i] + ([p[i]] + p[i + 1..]);
  }

  lemma UnderFront(key: Bytes, x: Pair, y: Pair, rest: seq<Pair>)
    requires Wire(x.key) != key && Wire(y.key) != key
    ensures Under(key, [x, y] + rest) == Under(key, rest)
  {
    hide HtaWire.Wire, Under;
    UnderConcat(key, [x], [y]);
    UnderConcat(key, [x] + [y], rest);
    UnderOne(key, x);
    UnderOne(key, y);
    assert [x, y] == [x] + [y];
  }

  lemma TakenOut(p: seq<Pair>, x: Pair) returns (rest: seq<Pair>)
    requires x in p
    ensures multiset(p) == multiset{x} + multiset(rest)
    ensures forall key | key != Wire(x.key) :: Under(key, rest) == Under(key, p)
  {
    hide HtaWire.Wire, Under;
    var i :| 0 <= i < |p| && p[i] == x;
    rest := Without(p, i);
    WithoutMultiset(p, i);
    forall key | key != Wire(x.key) ensures Under(key, rest) == Under(key, p) { UnderWithout(key, p, i); }
  }

  /** Two entries under a wandering key may come first, in either order. */
  lemma WanderersFirst(h: Host, p: seq<Pair>, x: Pair, y: Pair) returns (rest: seq<Pair>)
    requires x in p && y in p && x != y && Wire(x.key) == Wire(y.key) && h.wanders(Wire(x.key))
    ensures Visited(h, p, [x, y] + rest) && Visited(h, p, [y, x] + rest)
  {
    hide HtaWire.Wire, Under, Without;
    var others := TakenOut(p, x);
    assert y in multiset(p);
    assert y in multiset(others);
    rest := TakenOut(others, y);
    TwoFirst(x, y, rest);
    TwoFirst(y, x, rest);
    forall key | !h.wanders(key)
      ensures Under(key, [x, y] + rest) == Under(key, p) && Under(key, [y, x] + rest) == Under(key, p)
    {
      UnderFront(key, x, y, rest);
      UnderFront(key, y, x, rest);
    }
  }

  lemma MapMoves(h: Host, u: Value, e: nat, depth: int) returns (w: Value)
    requires e <= depth && Fine(u, e, depth) && (u.Map? || u.Pointer? || u.Success?)
    requires NoRepeat(h, Listing(u)) && !WanderersAgree(h, Listing(u))
    ensures Settles(h, u, w) && Wire(w) != Wire(u)
  {
    hide HtaWire.Wire, Fine, Built, NoRepeat, Visited, Sound;
    var p := Listing(u);
    var x, y :|
      x in p && y in p && Wire(x.key) == Wire(y.key) && h.wanders(Wire(x.key)) && Wire(x.value) != Wire(y.value);
    var rest := WanderersFirst(h, p, x, y);
    var e' := MapInside(u, e, depth);
    ValueInside(p, x, e');
    ValueInside(p, y, e');
    GatherStays(h, p, p);
    var a, b := [x, y] + rest, [y, x] + rest;
    assert BuiltAs(h, u, p, a, Relisted(u, a)) && BuiltAs(h, u, p, b, Relisted(u, b));
    MapSeen(u, a);
    MapSeen(u, b);
    if Wire(Map(a)) == Wire(Map(b)) { SwapShows(x, y, rest, e' + 1, e' + 1); }
    w := if Wire(Relisted(u, a)) == Wire(u) then Relisted(u, b) else Relisted(u, a);
  }

  lemma ValueInside(p: seq<Pair>, x: Pair, e: nat)
    requires Sound(Map(p), e) && x in p
    ensures Sound(x.value, e + 1)
  {
  }

  lemma CanonShows(a: seq<Pair>, b: seq<Pair>)
    requires CanonPairs(a) == CanonPairs(b)
    ensures SameBytes(a, b)
  {
    hide SameBytes, HtaWire.CanonPairs;
    CanonPairsBytes(a);
    CanonPairsBytes(b);
    SameBack(CanonPairs(a), a);
    SameTwice(a, CanonPairs(a), b);
  }

  lemma RankedMoves(h: Host, u: Value, e: nat, depth: int) returns (w: Value)
    requires Lawful(h) && e <= depth && Fine(u, e, depth) && IsRanked(u) && Proper(h, u) && !Unmoved(h, u)
    ensures Settles(h, u, w) && Wire(w) != Wire(u)
  {
    hide HtaWire.Wire, Lawful, LawfulOrder, Fine, Built, Orderly, Still, SameBytes, HtaWire.CanonPairs;
    RuleLawful(h, u);
    var list := MoveShows(h, RuleOf(h, u), Listing(u));
    w := Relisted(u, list);
    assert BuiltAs(h, u, list, list, w);
    SettlesFine(h, u, w, e, depth);
    if Wire(w) == Wire(u) {
      OneMeaning(w, u, e, depth, e, depth);
      CanonUnfolds(w);
      CanonUnfolds(u);
      CanonShows(list, Listing(u));
    }
  }

  /** Where entries may move and show it, some rebuild has another encoding. */
  lemma UnmovedShows(h: Host, u: Value, e: nat, depth: int) returns (w: Value)
    requires Lawful(h) && e <= depth && Fine(u, e, depth) && Proper(h, u) && !Unmoved(h, u)
    ensures Settles(h, u, w) && Wire(w) != Wire(u)
  {
    hide HtaWire.Wire, Lawful, Fine, WanderersAgree, Still, NoRepeat, Rising, Apart;
    if IsRanked(u) { w := RankedMoves(h, u, e, depth); } else { w := MapMoves(h, u, e, depth); }
  }

  /** A canonical value that is always rebuilt to the same bytes is steady. */
  lemma {:induction false} KeptSteady(h: Host, v: Value, e: nat, depth: int)
    requires Lawful(h) && e <= depth && Fine(v, e, depth) && Canon(v) == v && Kept(h, v)
    ensures Steady(h, v)
    decreases v
  {
    hide Lawful, Settles, Parts, With, Rebuilt, HtaWire.Canon, HtaWire.Wire, Fine, Proper, Unmoved, CanKeep;
    KeptParts(h, v, e, depth);
    forall i | 0 <= i < |Parts(v)| ensures (PartSmaller(v, i); Steady(h, Parts(v)[i])) {
      PartSmaller(v, i);
      var e', d' := PartFine(v, i, e, depth);
      CanonPart(v, i);
      forall y | Rebuilt(h, Parts(v)[i], y) ensures Wire(y) == Wire(Parts(v)[i]) {
        PartKept(h, v, i, y, e, depth);
      }
      KeptSteady(h, Parts(v)[i], e', d');
    }
    if !Unmoved(h, v) { MovedNotKept(h, v, e, depth); }
  }

  lemma MovedNotKept(h: Host, v: Value, e: nat, depth: int)
    requires Lawful(h) && e <= depth && Fine(v, e, depth) && Proper(h, v) && !Unmoved(h, v)
    requires forall i :: 0 <= i < |Parts(v)| ==> CanKeep(h, Parts(v)[i])
    ensures !Kept(h, v)
  {
    hide Lawful, Settles, Parts, With, Rebuilt, HtaWire.Wire, Fine, Proper, Unmoved, CanKeep;
    var parts := AllChosen(h, Parts(v));
    forall i | 0 <= i < |parts| ensures Replaces(Parts(v)[i], parts[i]) {
      assert CanKeep(h, Parts(v)[i]);
      RebuiltReplaces(h, Parts(v)[i], parts[i]);
    }
    WithWire(v, parts);
    WithProper(h, v, parts);
    WithFine(v, parts, e, depth);
    var w := UnmovedShows(h, With(v, parts), e, depth);
    RebuiltFrom(h, v, parts, w);
  }
}
