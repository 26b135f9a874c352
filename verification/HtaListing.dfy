/**
 The listings a host builds: what every one of them satisfies, which of them
 can stay as they are, and which always do.
 */
module HtaListing {
  import opened HtaData
  import opened HtaWire
  import opened HtaRebuild
  import opened HtaLaws

  // ----- Laws of a host -----

  /** The possible answers of a total preorder; equality is always known. */
  ghost predicate LawfulOrder(order: Order) {
    && (forall a, b :: order(a, b) != {})
    && (forall a, b :: Less in order(a, b) <==> Greater in order(b, a))
    && (forall a, b :: Equal in order(a, b) ==> order(a, b) == {Equal})
    && (forall a, b, c :: Equal in order(a, b) ==> order(a, c) == order(b, c))
    && (forall a, b, c :: Greater in order(b, a) && Greater in order(c, b) ==> Greater in order(c, a))
  }

  ghost predicate LawfulSame(same: (Bytes, Bytes) -> bool) {
    && (forall a, b :: same(a, b) ==> same(b, a))
    && (forall a, b, c :: same(a, b) && same(b, c) ==> same(a, c))
  }

  ghost predicate Lawful(h: Host) { LawfulSame(h.same) && LawfulOrder(h.order) }

  lemma Answers(order: Order, a: Bytes, b: Bytes)
    requires LawfulOrder(order)
    ensures Less in order(a, b) || Equal in order(a, b) || Greater in order(a, b)
    ensures Equal in order(a, b) ==> order(a, b) == {Equal} && order(b, a) == {Equal}
    ensures Less in order(a, b) <==> Greater in order(b, a)
  {
    assert order(a, b) != {} && order(b, a) != {};
    assert Less in order(a, b) <==> Greater in order(b, a);
    assert Less in order(b, a) <==> Greater in order(a, b);
    assert Equal in order(b, a) ==> order(b, a) == {Equal};
    var x :| x in order(a, b);
    var y :| y in order(b, a);
    match x { case Less => case Equal => case Greater => }
    if order(a, b) == {Equal} {
      assert Less !in order(a, b) && Greater !in order(a, b);
      assert y == Equal;
    }
  }

  /** Equals answer alike, on either side. */
  lemma Alike(order: Order, a: Bytes, b: Bytes, c: Bytes)
    requires LawfulOrder(order) && Equal in order(a, b)
    ensures order(a, c) == order(b, c)
    ensures Greater in order(c, a) <==> Greater in order(c, b)
    ensures Equal in order(c, a) <==> Equal in order(c, b)
  {
    Answers(order, a, c);
    Answers(order, b, c);
    Answers(order, c, a);
    Answers(order, c, b);
  }

  lemma Climbs(order: Order, a: Bytes, b: Bytes, c: Bytes)
    requires LawfulOrder(order) && Greater in order(b, a) && Greater in order(c, b)
    ensures Greater in order(c, a)
  {
  }

  lemma TextIsLawful()
    ensures LawfulOrder(TextOrder)
  {
    hide LexLe;
    forall a, b ensures Less in TextOrder(a, b) <==> Greater in TextOrder(b, a) {
      if LexLe(Letters(a), Letters(b)) && LexLe(Letters(b), Letters(a)) { LexAntisymmetric(Letters(a), Letters(b)); }
      LexTotal(Letters(a), Letters(b));
    }
    forall a, b, c | Greater in TextOrder(b, a) && Greater in TextOrder(c, b) ensures Greater in TextOrder(c, a) {
      LexTotal(Letters(a), Letters(b));
      LexTotal(Letters(b), Letters(c));
      LexTransitive(Letters(a), Letters(b), Letters(c));
      if LexLe(Letters(c), Letters(a)) {
        LexTransitive(Letters(c), Letters(a), Letters(b));
        LexAntisymmetric(Letters(c), Letters(b));
      }
    }
  }

  // ----- Bytes of entries -----

  predicate SameEntry(p: Pair, q: Pair) { Wire(p.key) == Wire(q.key) && Wire(p.value) == Wire(q.value) }

  predicate SameBytes(a: seq<Pair>, b: seq<Pair>) {
    |a| == |b| && forall i :: 0 <= i < |a| ==> SameEntry(a[i], b[i])
  }

  // ----- What a listing satisfies -----

  ghost predicate NoRepeat(h: Host, list: seq<Pair>) {
    forall i, j :: 0 <= i < |list| && 0 <= j < |list| && i != j ==> !SameKey(h, list[i], list[j])
  }

  /** No two keys the order may take for one. */
  ghost predicate Apart(order: Order, list: seq<Pair>) {
    forall i, j :: 0 <= i < |list| && 0 <= j < |list| && i != j ==>
      Equal !in order(Wire(list[i].key), Wire(list[j].key))
  }

  /** `q` may stand after `p`. */
  predicate Follows(order: Order, byValue: bool, q: Pair, p: Pair) {
    var o := order(Rank(byValue, q), Rank(byValue, p));
    Greater in o || (byValue && Equal in o && Wire(q.value) == Wire(p.value))
  }

  ghost predicate Rising(order: Order, byValue: bool, list: seq<Pair>) {
    forall i, j :: 0 <= i < j < |list| ==> Follows(order, byValue, list[j], list[i])
  }

  /** Entries that might also stand the other way round are alike, with all between them. */
  ghost predicate Still(order: Order, byValue: bool, list: seq<Pair>) {
    forall i, j, k | 0 <= i <= k <= j < |list| && i < j ::
      Less in order(Rank(byValue, list[j]), Rank(byValue, list[i])) ==> SameEntry(list[k], list[j])
  }

  ghost predicate Orderly(h: Host, rule: Rule, list: seq<Pair>) {
    match rule
    case Gather => NoRepeat(h, list)
    case Ranked(order) => Rising(order, false, list)
    case Priority => NoRepeat(h, list) && Rising(h.order, true, list)
  }

  // ----- Building -----

  lemma BuiltStep(h: Host, rule: Rule, entries: seq<Pair>, before: seq<Pair>, x: Pair, list: seq<Pair>)
    requires Built(h, rule, entries, before) && Taken(h, rule, before, x, list)
    ensures Built(h, rule, entries + [x], list)
  {
    hide Taken;
    assert Front(entries + [x]) == entries && Last(entries + [x]) == x;
  }

  lemma BuiltFrom(h: Host, rule: Rule, entries: seq<Pair>, list: seq<Pair>) returns (before: seq<Pair>)
    requires entries != [] && Built(h, rule, entries, list)
    ensures Built(h, rule, Front(entries), before) && Taken(h, rule, before, Last(entries), list)
  {
    before :| Built(h, rule, Front(entries), before) && Taken(h, rule, before, Last(entries), list);
  }

  // ----- There is always a next listing -----

  /** The first entry `x` need not come after. */
  lemma FindSlot(order: Order, byValue: bool, list: seq<Pair>, x: Pair) returns (at: nat)
    requires LawfulOrder(order)
    ensures at <= |list|
    ensures
      || Slot(order, byValue, list, x, at)
      || (!byValue && at < |list| && Equal in order(Wire(x.key), Wire(list[at].key)))
  {
    hide LawfulOrder, HtaWire.Wire;
    at := 0;
    while at < |list| && Slot(order, byValue, list[..at + 1], x, at + 1)
      invariant at <= |list| && Slot(order, byValue, list[..at], x, at)
    {
      at := at + 1;
    }
    if at < |list| { Answers(order, Rank(byValue, x), Rank(byValue, list[at])); }
    if at == |list| { assert list[..at] == list; }
  }

  lemma TakenExists(h: Host, rule: Rule, list: seq<Pair>, x: Pair) returns (next: seq<Pair>)
    requires Lawful(h) && (rule.Ranked? ==> LawfulOrder(rule.order))
    ensures Taken(h, rule, list, x, next)
  {
    hide LawfulOrder, HtaWire.Wire, Slot;
    match rule
    case Gather =>
      if HasKey(h, list, x) {
        var i :| 0 <= i < |list| && SameKey(h, list[i], x);
        assert Merges(x, list[i], x);
        next := list[i := x];
      } else {
        next := list + [x];
      }
    case Ranked(order) =>
      var at := FindSlot(order, false, list, x);
      next := if Slot(order, false, list, x, at) then Placed(order, false, list, x, at) else list[at := x];
    case Priority =>
      if HasKey(h, list, x) {
        next := list;
      } else {
        var at := FindSlot(h.order, true, list, x);
        next := Placed(h.order, true, list, x, at);
      }
  }

  lemma {:induction false} BuiltExists(h: Host, rule: Rule, entries: seq<Pair>) returns (list: seq<Pair>)
    requires Lawful(h) && (rule.Ranked? ==> LawfulOrder(rule.order))
    ensures Built(h, rule, entries, list)
    decreases |entries|
  {
    hide Lawful, LawfulOrder, Taken;
    if entries == [] {
      list := [];
    } else {
      var before := BuiltExists(h, rule, Front(entries));
      list := TakenExists(h, rule, before, Last(entries));
    }
  }

  // ----- What a listing is made of -----

  /** Every key and every value comes from the entries taken in, which are no fewer. */
  ghost predicate Selected(entries: seq<Pair>, list: seq<Pair>) {
    && |list| <= |entries|
    && forall p <- list :: (exists q <- entries :: q.key == p.key) && exists q <- entries :: q.value == p.value
  }

  /** Keys and values of `next` are those of `list` or of `x`. */
  ghost predicate Stems(list: seq<Pair>, x: Pair, next: seq<Pair>) {
    && |next| <= |list| + 1
    && forall p <- next ::
         && (p.key == x.key || exists q <- list :: q.key == p.key)
         && (p.value == x.value || exists q <- list :: q.value == p.value)
  }

  lemma PlacedStems(order: Order, byValue: bool, list: seq<Pair>, x: Pair, at: nat)
    requires at <= |list|
    ensures Stems(list, x, Placed(order, byValue, list, x, at))
  {
    hide HtaWire.Wire;
    var next := Placed(order, byValue, list, x, at);
    forall p | p in next
      ensures p.key == x.key || exists q <- list :: q.key == p.key
      ensures p.value == x.value || exists q <- list :: q.value == p.value
    {
      var i :| 0 <= i < |next| && next[i] == p;
      if i < at { assert list[i] in list; }
      if i > at { assert list[i - 1] in list; }
    }
  }

  lemma ReplacedStems(list: seq<Pair>, x: Pair, i: nat, m: Pair)
    requires i < |list| && Merges(m, list[i], x)
    ensures Stems(list, x, list[i := m])
  {
    forall p | p in list[i := m] ensures p == m || p in list {}
    assert list[i] in list;
  }

  lemma TakenStems(h: Host, rule: Rule, list: seq<Pair>, x: Pair, next: seq<Pair>)
    requires Taken(h, rule, list, x, next)
    ensures Stems(list, x, next)
  {
    hide HtaWire.Wire, Stems;
    match rule
    case Gather =>
      if HasKey(h, list, x) {
        var i, m :| 0 <= i < |list| && SameKey(h, list[i], x) && Merges(m, list[i], x) && next == list[i := m];
        ReplacedStems(list, x, i, m);
      } else {
        JoinedStems(list, x);
      }
    case Ranked(order) =>
      if at: nat :| Slot(order, false, list, x, at) && next == Placed(order, false, list, x, at) {
        PlacedStems(order, false, list, x, at);
      } else {
        var i :| 0 <= i < |list| && Equal in order(Wire(x.key), Wire(list[i].key)) && next == list[i := x];
        ReplacedStems(list, x, i, x);
      }
    case Priority => PrioritisedStems(h, list, x, next);
  }

  lemma JoinedStems(list: seq<Pair>, x: Pair)
    ensures Stems(list, x, list + [x]) && Stems(list, x, list)
  {
  }

  lemma PrioritisedStems(h: Host, list: seq<Pair>, x: Pair, next: seq<Pair>)
    requires Prioritised(h, list, x, next)
    ensures Stems(list, x, next)
  {
    hide HtaWire.Wire, Stems;
    if !HasKey(h, list, x) {
      var at: nat :| Slot(h.order, true, list, x, at) && next == Placed(h.order, true, list, x, at);
      PlacedStems(h.order, true, list, x, at);
    } else if next == list {
      JoinedStems(list, x);
    } else {
      var i, at: nat :|
        && 0 <= i < |list| && SameKey(h, list[i], x) && Slot(h.order, true, Without(list, i), x, at)
        && next == Placed(h.order, true, Without(list, i), x, at);
      PlacedStems(h.order, true, Without(list, i), x, at);
      FewerStems(list, i, x, next);
    }
  }

  lemma FewerStems(list: seq<Pair>, i: nat, x: Pair, next: seq<Pair>)
    requires i < |list| && Stems(Without(list, i), x, next)
    ensures Stems(list, x, next)
  {
    assert forall q <- Without(list, i) :: q in list;
  }

  lemma TakenSelected(h: Host, rule: Rule, entries: seq<Pair>, list: seq<Pair>, x: Pair, next: seq<Pair>)
    requires Selected(entries, list) && Taken(h, rule, list, x, next)
    ensures Selected(entries + [x], next)
  {
    hide Taken;
    TakenStems(h, rule, list, x, next);
    assert x in entries + [x] && forall q <- entries :: q in entries + [x];
  }

  lemma {:induction false} BuiltSelected(h: Host, rule: Rule, entries: seq<Pair>, list: seq<Pair>)
    requires Built(h, rule, entries, list)
    ensures Selected(entries, list)
    decreases |entries|
  {
    hide Taken, Selected;
    if entries == [] {
      NoneSelected();
    } else {
      var before := BuiltFrom(h, rule, entries, list);
      BuiltSelected(h, rule, Front(entries), before);
      TakenSelected(h, rule, Front(entries), before, Last(entries), list);
      assert Front(entries) + [Last(entries)] == entries;
    }
  }

  lemma NoneSelected()
    ensures Selected([], [])
  {
  }

  // ----- Every listing built is orderly -----

  lemma GatheredNoRepeat(h: Host, list: seq<Pair>, x: Pair, next: seq<Pair>)
    requires LawfulSame(h.same) && NoRepeat(h, list) && Gathered(h, list, x, next)
    ensures NoRepeat(h, next)
  {
    hide HtaWire.Wire;
    if HasKey(h, list, x) {
      var i, m :| 0 <= i < |list| && SameKey(h, list[i], x) && Merges(m, list[i], x) && next == list[i := m];
      forall j | 0 <= j < |list| && j != i ensures !SameKey(h, list[j], m) && !SameKey(h, m, list[j]) {
        Others(h, list[i], x, list[j]);
      }
    } else {
      forall j | 0 <= j < |list| ensures !SameKey(h, list[j], x) && !SameKey(h, x, list[j]) {}
    }
  }

  /** What is not the same as one of two that are is not the same as the other. */
  lemma Others(h: Host, p: Pair, x: Pair, q: Pair)
    requires LawfulSame(h.same) && SameKey(h, p, x) && !SameKey(h, p, q) && !SameKey(h, q, p)
    ensures !SameKey(h, x, q) && !SameKey(h, q, x)
  {
    hide HtaWire.Wire;
    var a, b, c := Wire(p.key), Wire(x.key), Wire(q.key);
    assert h.same(b, a);
    assert h.same(a, b) && h.same(b, c) ==> h.same(a, c);
    assert h.same(c, b) && h.same(b, a) ==> h.same(c, a);
  }

  /** Whatever comes before a slot comes before `x`, or shares its place. */
  lemma BeforeSlot(order: Order, byValue: bool, list: seq<Pair>, x: Pair, at: nat, l: nat)
    requires LawfulOrder(order) && Rising(order, byValue, list) && Slot(order, byValue, list, x, at) && l < at
    ensures
      var o := order(Rank(byValue, x), Rank(byValue, list[l]));
      Greater in o || (byValue && Equal in o)
  {
    hide HtaWire.Wire, LawfulOrder;
    if l < at - 1 {
      var p, q := Rank(byValue, list[l]), Rank(byValue, list[at - 1]);
      assert Follows(order, byValue, list[at - 1], list[l]);
      if Greater in order(q, p) {
        if Greater in order(Rank(byValue, x), q) {
          Climbs(order, p, q, Rank(byValue, x));
        } else {
          Alike(order, Rank(byValue, x), q, p);
        }
      }
    }
  }

  lemma AfterSlot(order: Order, byValue: bool, list: seq<Pair>, x: Pair, at: nat, l: nat)
    requires LawfulOrder(order) && Rising(order, byValue, list) && Slot(order, byValue, list, x, at)
    requires at <= l < |list|
    ensures Greater in order(Rank(byValue, list[l]), Rank(byValue, x))
    ensures Equal !in order(Rank(byValue, x), Rank(byValue, list[l]))
  {
    hide HtaWire.Wire, LawfulOrder;
    var r, p, q := Rank(byValue, x), Rank(byValue, list[at]), Rank(byValue, list[l]);
    Answers(order, r, p);
    if at < l {
      assert Follows(order, byValue, list[l], list[at]);
      if Greater in order(q, p) { Climbs(order, r, p, q); }
    }
    Answers(order, r, q);
  }

  lemma EqualToItself(order: Order, a: Bytes, b: Bytes)
    requires LawfulOrder(order) && Equal in order(a, b)
    ensures Equal in order(a, a)
  {
    hide LawfulOrder;
    Answers(order, a, b);
    Alike(order, a, b, a);
  }

  lemma PlacedRises(order: Order, byValue: bool, list: seq<Pair>, x: Pair, at: nat)
    requires at <= |list|
    requires LawfulOrder(order) && Rising(order, byValue, list) && Slot(order, byValue, list, x, at)
    ensures Rising(order, byValue, Placed(order, byValue, list, x, at))
  {
    hide HtaWire.Wire, LawfulOrder, Rising, Slot, Follows, Placed, Shared;
    var next := Placed(order, byValue, list, x, at);
    forall i, j | 0 <= i < j < |next| ensures Follows(order, byValue, next[j], next[i]) {
      PlacedAt(order, byValue, list, x, at, i);
      PlacedAt(order, byValue, list, x, at, j);
      if j < at {
        BothBefore(order, byValue, list, x, at, i, j);
      } else if j == at {
        XAfter(order, byValue, list, x, at, i);
      } else if i == at {
        XBefore(order, byValue, list, x, at, j - 1);
      } else if i < at {
        Across(order, byValue, list, x, at, i, j - 1);
      } else {
        BothAfter(order, byValue, list, x, at, i - 1, j - 1);
      }
    }
    RisingIs(order, byValue, next);
  }

  lemma PlacedAt(order: Order, byValue: bool, list: seq<Pair>, x: Pair, at: nat, i: nat)
    requires at <= |list| && i <= |list|
    ensures
      var next := Placed(order, byValue, list, x, at);
      |next| == |list| + 1 &&
      next[i] == if i == at then x else Shared(order, byValue, list[if i < at then i else i - 1], x)
  {
    hide HtaWire.Wire;
  }

  lemma RisingIs(order: Order, byValue: bool, list: seq<Pair>)
    requires forall i, j :: 0 <= i < j < |list| ==> Follows(order, byValue, list[j], list[i])
    ensures Rising(order, byValue, list)
  {
  }

  lemma XAfter(order: Order, byValue: bool, list: seq<Pair>, x: Pair, at: nat, i: nat)
    requires LawfulOrder(order) && Rising(order, byValue, list) && Slot(order, byValue, list, x, at) && i < at
    ensures Follows(order, byValue, x, Shared(order, byValue, list[i], x))
  {
    hide HtaWire.Wire, LawfulOrder;
    BeforeSlot(order, byValue, list, x, at, i);
    var r := Rank(byValue, x);
    if byValue && Equal in order(r, Rank(byValue, list[i])) { EqualToItself(order, r, Rank(byValue, list[i])); }
  }

  lemma XBefore(order: Order, byValue: bool, list: seq<Pair>, x: Pair, at: nat, j: nat)
    requires LawfulOrder(order) && Rising(order, byValue, list) && Slot(order, byValue, list, x, at)
    requires at <= j < |list|
    ensures Follows(order, byValue, Shared(order, byValue, list[j], x), x)
  {
    hide HtaWire.Wire, LawfulOrder;
    AfterSlot(order, byValue, list, x, at, j);
  }

  lemma Across(order: Order, byValue: bool, list: seq<Pair>, x: Pair, at: nat, i: nat, j: nat)
    requires LawfulOrder(order) && Rising(order, byValue, list) && Slot(order, byValue, list, x, at)
    requires i < at <= j < |list|
    ensures Follows(order, byValue, Shared(order, byValue, list[j], x), Shared(order, byValue, list[i], x))
  {
    hide HtaWire.Wire, LawfulOrder;
    AfterSlot(order, byValue, list, x, at, j);
    assert Follows(order, byValue, list[j], list[i]);
  }

  lemma BothAfter(order: Order, byValue: bool, list: seq<Pair>, x: Pair, at: nat, i: nat, j: nat)
    requires LawfulOrder(order) && Rising(order, byValue, list) && Slot(order, byValue, list, x, at)
    requires at <= i < j < |list|
    ensures Follows(order, byValue, Shared(order, byValue, list[j], x), Shared(order, byValue, list[i], x))
  {
    hide HtaWire.Wire, LawfulOrder;
    AfterSlot(order, byValue, list, x, at, i);
    AfterSlot(order, byValue, list, x, at, j);
    assert Follows(order, byValue, list[j], list[i]);
  }

  lemma BothBefore(order: Order, byValue: bool, list: seq<Pair>, x: Pair, at: nat, i: nat, j: nat)
    requires LawfulOrder(order) && Rising(order, byValue, list) && Slot(order, byValue, list, x, at)
    requires i < j < at
    ensures Follows(order, byValue, Shared(order, byValue, list[j], x), Shared(order, byValue, list[i], x))
  {
    hide HtaWire.Wire, LawfulOrder;
    assert Follows(order, byValue, list[j], list[i]);
    BeforeSlot(order, byValue, list, x, at, i);
    BeforeSlot(order, byValue, list, x, at, j);
    var r, p, q := Rank(byValue, x), Rank(byValue, list[i]), Rank(byValue, list[j]);
    if byValue && Equal in order(r, p) {
      EqualToItself(order, r, p);
      Answers(order, r, p);
      Alike(order, r, p, q);
    }
  }

  lemma ReplacedRises(order: Order, list: seq<Pair>, i: nat, x: Pair)
    requires LawfulOrder(order) && Rising(order, false, list)
    requires i < |list| && Equal in order(Wire(x.key), Wire(list[i].key))
    ensures Rising(order, false, list[i := x])
  {
    hide HtaWire.Wire, LawfulOrder;
    forall j | 0 <= j < |list|
      ensures j < i ==> Follows(order, false, x, list[j])
      ensures i < j ==> Follows(order, false, list[j], x)
    {
      Alike(order, Wire(x.key), Wire(list[i].key), Wire(list[j].key));
      if j < i { assert Follows(order, false, list[i], list[j]); }
      if i < j { assert Follows(order, false, list[j], list[i]); }
    }
  }

  lemma WithoutOrderly(h: Host, list: seq<Pair>, i: nat)
    requires i < |list| && Orderly(h, Priority, list)
    ensures Orderly(h, Priority, Without(list, i))
  {
    hide HtaWire.Wire, SameKey, Follows;
    var rest := Without(list, i);
    assert forall j :: 0 <= j < |rest| ==> rest[j] == list[if j < i then j else j + 1];
  }

  lemma InsertedOrderly(order: Order, list: seq<Pair>, x: Pair, next: seq<Pair>)
    requires LawfulOrder(order) && Rising(order, false, list) && Inserted(order, list, x, next)
    ensures Rising(order, false, next)
  {
    hide HtaWire.Wire, LawfulOrder, Rising;
    if at: nat :| Slot(order, false, list, x, at) && next == Placed(order, false, list, x, at) {
      PlacedRises(order, false, list, x, at);
    } else {
      var i :| 0 <= i < |list| && Equal in order(Wire(x.key), Wire(list[i].key)) && next == list[i := x];
      ReplacedRises(order, list, i, x);
    }
  }

  /** A key that is not in a listing joins it under a priority. */
  lemma PlacedOrderly(h: Host, list: seq<Pair>, x: Pair, at: nat)
    requires at <= |list|
    requires Lawful(h) && Orderly(h, Priority, list) && Slot(h.order, true, list, x, at)
    requires forall p <- list :: !SameKey(h, p, x) && !SameKey(h, x, p)
    ensures Orderly(h, Priority, Placed(h.order, true, list, x, at))
  {
    hide HtaWire.Wire, LawfulOrder, LawfulSame, Rising;
    PlacedRises(h.order, true, list, x, at);
    var next := Placed(h.order, true, list, x, at);
    hide Placed, Slot;
    forall i, j | 0 <= i < |next| && 0 <= j < |next| && i != j ensures !SameKey(h, next[i], next[j]) {
      PlacedAt(h.order, true, list, x, at, i);
      PlacedAt(h.order, true, list, x, at, j);
      if i == at { assert list[if j < at then j else j - 1] in list; }
      if j == at { assert list[if i < at then i else i - 1] in list; }
      SharedKey(h, list, x, at, i);
      SharedKey(h, list, x, at, j);
    }
  }

  /** Sharing a priority leaves the key. */
  lemma SharedKey(h: Host, list: seq<Pair>, x: Pair, at: nat, i: nat)
    requires at <= |list| && i <= |list|
    ensures Placed(h.order, true, list, x, at)[i].key
         == if i == at then x.key else list[if i < at then i else i - 1].key
  {
    hide HtaWire.Wire;
  }

  lemma PrioritisedOrderly(h: Host, list: seq<Pair>, x: Pair, next: seq<Pair>)
    requires Lawful(h) && Orderly(h, Priority, list) && Prioritised(h, list, x, next)
    ensures Orderly(h, Priority, next)
  {
    hide HtaWire.Wire, LawfulOrder, Rising;
    if !HasKey(h, list, x) {
      var at: nat :| Slot(h.order, true, list, x, at) && next == Placed(h.order, true, list, x, at);
      assert forall p <- list :: !SameKey(h, p, x) && !SameKey(h, x, p);
      PlacedOrderly(h, list, x, at);
    } else if next != list {
      var i, at: nat :|
        && 0 <= i < |list| && SameKey(h, list[i], x) && Slot(h.order, true, Without(list, i), x, at)
        && next == Placed(h.order, true, Without(list, i), x, at);
      WithoutOrderly(h, list, i);
      forall p | p in Without(list, i) ensures !SameKey(h, p, x) && !SameKey(h, x, p) {
        var j :| 0 <= j < |list| && j != i && list[j] == p;
        Others(h, list[i], x, list[j]);
      }
      PlacedOrderly(h, Without(list, i), x, at);
    }
  }

  lemma {:induction false} BuiltOrderly(h: Host, rule: Rule, entries: seq<Pair>, list: seq<Pair>)
    requires Lawful(h) && (rule.Ranked? ==> LawfulOrder(rule.order)) && Built(h, rule, entries, list)
    ensures Orderly(h, rule, list)
    decreases |entries|
  {
    hide HtaWire.Wire, LawfulOrder, LawfulSame, Gathered, Inserted, Prioritised;
    if entries != [] {
      var before := BuiltFrom(h, rule, entries, list);
      BuiltOrderly(h, rule, Front(entries), before);
      match rule
      case Gather => GatheredNoRepeat(h, before, Last(entries), list);
      case Ranked(order) => InsertedOrderly(order, before, Last(entries), list);
      case Priority => PrioritisedOrderly(h, before, Last(entries), list);
    }
  }

  // ----- Listings that stay -----

  lemma {:induction false} GatherStays(h: Host, entries: seq<Pair>, list: seq<Pair>)
    requires NoRepeat(h, entries)
    ensures Built(h, Gather, entries, list) <==> list == entries
    decreases |entries|
  {
    hide HtaWire.Wire, SameKey;
    if entries != [] {
      var front, x := Front(entries), Last(entries);
      GatherStays(h, front, front);
      assert !HasKey(h, front, x);
      assert Taken(h, Gather, front, x, entries);
      if Built(h, Gather, entries, list) {
        var before := BuiltFrom(h, Gather, entries, list);
        GatherStays(h, front, before);
      }
    }
  }

  lemma KeyPlaced(order: Order, list: seq<Pair>, x: Pair, at: nat)
    requires at <= |list|
    ensures multiset(Placed(order, false, list, x, at)) == multiset(list) + multiset{x}
  {
    hide HtaWire.Wire;
    assert SharedAll(order, false, list, x) == list;
    assert list == list[..at] + list[at..];
  }

  /** Keys that are apart are all kept, in whatever order. */
  lemma {:induction false} ApartKept(h: Host, order: Order, entries: seq<Pair>, list: seq<Pair>)
    requires Apart(order, entries) && Built(h, Ranked(order), entries, list)
    ensures multiset(list) == multiset(entries)
    decreases |entries|
  {
    hide HtaWire.Wire, Slot;
    if entries != [] {
      var front, x := Front(entries), Last(entries);
      var before := BuiltFrom(h, Ranked(order), entries, list);
      ApartKept(h, order, front, before);
      assert entries == front + [x];
      forall i | 0 <= i < |before| ensures Equal !in order(Wire(x.key), Wire(before[i].key)) {
        assert before[i] in multiset(front);
        var j :| 0 <= j < |front| && front[j] == before[i];
        assert entries[j] == before[i] && entries[|entries| - 1] == x;
      }
      ApartInserted(order, before, x, list);
    }
  }

  lemma ApartInserted(order: Order, list: seq<Pair>, x: Pair, next: seq<Pair>)
    requires Inserted(order, list, x, next)
    requires forall i :: 0 <= i < |list| ==> Equal !in order(Wire(x.key), Wire(list[i].key))
    ensures multiset(next) == multiset(list) + multiset{x}
  {
    hide HtaWire.Wire;
    var at: nat :| Slot(order, false, list, x, at) && next == Placed(order, false, list, x, at);
    KeyPlaced(order, list, x, at);
  }

  // ----- Ranked listings -----

  function OrderOf(h: Host, rule: Rule): Order { if rule.Ranked? then rule.order else h.order }

  /** Sharing a priority changes no bytes where equals are already alike. */
  lemma SharedAlike(order: Order, byValue: bool, p: Pair, q: Pair, x: Pair)
    requires LawfulOrder(order) && SameEntry(p, q) && Follows(order, byValue, x, q)
    ensures SameEntry(Shared(order, byValue, p, x), q)
  {
    hide HtaWire.Wire, LawfulOrder;
    Answers(order, Rank(byValue, x), Rank(byValue, q));
  }

  lemma PlacedBytes(order: Order, byValue: bool, list: seq<Pair>, shown: seq<Pair>, x: Pair, at: nat)
    requires LawfulOrder(order) && SameBytes(list, shown) && at <= |list|
    requires forall i :: 0 <= i < |shown| ==> Follows(order, byValue, x, shown[i])
    ensures SameBytes(Placed(order, byValue, list, x, at), shown[..at] + [x] + shown[at..])
  {
    hide HtaWire.Wire, LawfulOrder, Follows, Shared, SameEntry;
    var all := SharedAll(order, byValue, list, x);
    forall i | 0 <= i < |all| ensures SameEntry(all[i], shown[i]) {
      SharedAlike(order, byValue, list[i], shown[i], x);
    }
    assert SameEntry(x, x) by { Itself(x); }
  }

  lemma Itself(x: Pair)
    ensures SameEntry(x, x)
  {
  }

  /** An entry that may follow all others can be put last, or before one that it need not follow. */
  lemma PutAt(h: Host, rule: Rule, list: seq<Pair>, shown: seq<Pair>, x: Pair, at: nat) returns (next: seq<Pair>)
    requires !rule.Gather? && LawfulOrder(OrderOf(h, rule)) && SameBytes(list, shown) && at <= |shown|
    requires forall i :: 0 <= i < |shown| ==> Follows(OrderOf(h, rule), rule.Priority?, x, shown[i])
    requires rule.Priority? ==> forall i :: 0 <= i < |shown| ==> !SameKey(h, shown[i], x)
    requires at < |shown| ==> Less in OrderOf(h, rule)(Rank(rule.Priority?, x), Rank(rule.Priority?, shown[at]))
    ensures Taken(h, rule, list, x, next) && SameBytes(next, shown[..at] + [x] + shown[at..])
  {
    hide HtaWire.Wire, LawfulOrder;
    var order := OrderOf(h, rule);
    next := Placed(order, rule.Priority?, list, x, at);
    PlacedBytes(order, rule.Priority?, list, shown, x, at);
    if at > 0 { assert SameEntry(list[at - 1], shown[at - 1]) && Follows(order, rule.Priority?, x, shown[at - 1]); }
    if at < |shown| { assert SameEntry(list[at], shown[at]); }
    assert Slot(order, rule.Priority?, list, x, at);
    if rule.Priority? {
      forall i | 0 <= i < |list| ensures !SameKey(h, list[i], x) { assert SameEntry(list[i], shown[i]); }
    }
  }

  /** Entries that may follow one another, all distinct for a priority map. */
  lemma OrderlyLast(h: Host, rule: Rule, entries: seq<Pair>, m: nat)
    requires !rule.Gather? && Orderly(h, rule, entries) && m < |entries|
    ensures forall i :: 0 <= i < m ==> Follows(OrderOf(h, rule), rule.Priority?, entries[m], entries[i])
    ensures rule.Priority? ==> forall i :: 0 <= i < m ==> !SameKey(h, entries[i], entries[m])
  {
    hide HtaWire.Wire, Follows, SameKey;
  }

  lemma FrontOrderly(h: Host, rule: Rule, entries: seq<Pair>, m: nat)
    requires m <= |entries| && Orderly(h, rule, entries)
    ensures Orderly(h, rule, entries[..m])
  {
    hide HtaWire.Wire, Follows, SameKey;
  }

  /** An orderly listing can come out as it went in. */
  lemma {:induction false} OrderlyKeeps(h: Host, rule: Rule, entries: seq<Pair>) returns (list: seq<Pair>)
    requires !rule.Gather? && LawfulOrder(OrderOf(h, rule)) && Orderly(h, rule, entries)
    ensures Built(h, rule, entries, list) && SameBytes(list, entries)
    decreases |entries|
  {
    hide HtaWire.Wire, LawfulOrder, Orderly, Taken, SameKey, Follows;
    if entries == [] {
      list := [];
    } else {
      var m := |entries| - 1;
      FrontOrderly(h, rule, entries, m);
      var before := OrderlyKeeps(h, rule, Front(entries));
      OrderlyLast(h, rule, entries, m);
      list := PutAt(h, rule, before, Front(entries), Last(entries), m);
      assert Front(entries)[..m] + [Last(entries)] + Front(entries)[m..] == entries;
    }
  }

  // ----- Listings that always stay -----

  lemma StillFront(order: Order, byValue: bool, entries: seq<Pair>)
    requires entries != [] && Still(order, byValue, entries)
    ensures Still(order, byValue, Front(entries))
  {
    hide HtaWire.Wire, SameEntry;
    var front := Front(entries);
    forall i, j, k | 0 <= i <= k <= j < |front| && i < j
      && Less in order(Rank(byValue, front[j]), Rank(byValue, front[i]))
      ensures SameEntry(front[k], front[j])
    {
      assert SameEntry(entries[k], entries[j]);
    }
  }

  /** Moving an entry among its likes shows nothing. */
  lemma AmongLikes(shown: seq<Pair>, x: Pair, at: nat)
    requires at <= |shown| && forall k :: at <= k < |shown| ==> SameEntry(shown[k], x)
    ensures SameBytes(shown[..at] + [x] + shown[at..], shown + [x])
  {
    hide HtaWire.Wire;
    var moved := shown[..at] + [x] + shown[at..];
    forall i | 0 <= i < |moved| ensures SameEntry(moved[i], (shown + [x])[i]) {
      if i > at && i < |shown| { assert SameEntry(shown[i - 1], x) && SameEntry(shown[i], x); }
    }
  }

  lemma SameTwice(a: seq<Pair>, b: seq<Pair>, c: seq<Pair>)
    requires SameBytes(a, b) && SameBytes(b, c)
    ensures SameBytes(a, c)
  {
    hide HtaWire.Wire;
    forall i | 0 <= i < |a| ensures SameEntry(a[i], c[i]) {
      assert SameEntry(a[i], b[i]) && SameEntry(b[i], c[i]);
    }
  }

  /** Wherever a still entry finds a slot, the bytes are as if it had gone last. */
  lemma SlotIsLast(order: Order, byValue: bool, list: seq<Pair>, entries: seq<Pair>, at: nat)
    requires LawfulOrder(order) && entries != [] && SameBytes(list, Front(entries))
    requires Still(order, byValue, entries) && Slot(order, byValue, list, Last(entries), at)
    requires forall i :: 0 <= i < |entries| - 1 ==> Follows(order, byValue, Last(entries), entries[i])
    ensures SameBytes(Placed(order, byValue, list, Last(entries), at), entries)
  {
    hide HtaWire.Wire, LawfulOrder, Follows;
    var front, x := Front(entries), Last(entries);
    PlacedBytes(order, byValue, list, front, x, at);
    if at < |front| {
      assert SameEntry(list[at], front[at]);
      assert Less in order(Rank(byValue, entries[|entries| - 1]), Rank(byValue, entries[at]));
    }
    AmongLikes(front, x, at);
    assert front + [x] == entries;
    SameTwice(Placed(order, byValue, list, x, at), front[..at] + [x] + front[at..], entries);
  }

  lemma {:induction false} StillStays(h: Host, rule: Rule, entries: seq<Pair>, list: seq<Pair>)
    requires !rule.Gather? && LawfulOrder(OrderOf(h, rule)) && Orderly(h, rule, entries)
    requires Still(OrderOf(h, rule), rule.Priority?, entries) && Built(h, rule, entries, list)
    ensures SameBytes(list, entries)
    decreases |entries|
  {
    hide HtaWire.Wire, LawfulOrder, Orderly, Still, Follows, Slot, SameBytes;
    if entries == [] {
      NoBytes();
    } else {
      var order, m := OrderOf(h, rule), |entries| - 1;
      var before := BuiltFrom(h, rule, entries, list);
      FrontOrderly(h, rule, entries, m);
      StillFront(order, rule.Priority?, entries);
      StillStays(h, rule, Front(entries), before);
      OrderlyLast(h, rule, entries, m);
      var at := FoundSlot(h, rule, entries, before, list);
      SlotIsLast(order, rule.Priority?, before, entries, at);
    }
  }

  lemma NoBytes()
    ensures SameBytes([], [])
  {
  }

  /** An entry that follows all others under its own key is put in a slot. */
  lemma FoundSlot(h: Host, rule: Rule, entries: seq<Pair>, before: seq<Pair>, list: seq<Pair>) returns (at: nat)
    requires !rule.Gather? && LawfulOrder(OrderOf(h, rule)) && entries != []
    requires SameBytes(before, Front(entries)) && Taken(h, rule, before, Last(entries), list)
    requires forall i :: 0 <= i < |entries| - 1 ==> Follows(OrderOf(h, rule), rule.Priority?, Last(entries), entries[i])
    requires rule.Priority? ==> forall i :: 0 <= i < |entries| - 1 ==> !SameKey(h, entries[i], Last(entries))
    ensures at <= |before| && Slot(OrderOf(h, rule), rule.Priority?, before, Last(entries), at)
    ensures list == Placed(OrderOf(h, rule), rule.Priority?, before, Last(entries), at)
  {
    hide HtaWire.Wire, LawfulOrder;
    var x := Last(entries);
    if rule.Priority? {
      forall i | 0 <= i < |before| ensures !SameKey(h, before[i], x) { assert SameEntry(before[i], entries[i]); }
      at :| Slot(h.order, true, before, x, at) && list == Placed(h.order, true, before, x, at);
    } else {
      forall i | 0 <= i < |before| ensures Equal !in rule.order(Wire(x.key), Wire(before[i].key)) {
        assert SameEntry(before[i], entries[i]) && Follows(rule.order, false, x, entries[i]);
        Answers(rule.order, Wire(x.key), Wire(before[i].key));
      }
      at :| Slot(rule.order, false, before, x, at) && list == Placed(rule.order, false, before, x, at);
    }
  }

  // ----- Listings that may move -----

  /** The listing with its `j`-th entry moved up to place `i`. */
  function Moved(entries: seq<Pair>, i: nat, j: nat): (r: seq<Pair>)
    requires i <= j < |entries|
    ensures |r| == |entries|
  {
    entries[..i] + [entries[j]] + entries[i..j] + entries[j + 1..]
  }

  /** Up to the `j`-th entry: the others as they are, then that one in front of the `i`-th. */
  lemma MovedFirst(h: Host, rule: Rule, entries: seq<Pair>, i: nat, j: nat) returns (list: seq<Pair>)
    requires !rule.Gather? && LawfulOrder(OrderOf(h, rule)) && Orderly(h, rule, entries) && i < j < |entries|
    requires Less in OrderOf(h, rule)(Rank(rule.Priority?, entries[j]), Rank(rule.Priority?, entries[i]))
    ensures Built(h, rule, entries[..j + 1], list) && SameBytes(list, Moved(entries[..j + 1], i, j))
  {
    hide HtaWire.Wire, LawfulOrder, Orderly, Follows, SameKey, Taken, Built, SameBytes;
    FrontOrderly(h, rule, entries, j);
    var before := OrderlyKeeps(h, rule, entries[..j]);
    OrderlyLast(h, rule, entries, j);
    list := PutAt(h, rule, before, entries[..j], entries[j], i);
    BuiltStep(h, rule, entries[..j], before, entries[j], list);
    assert entries[..j] + [entries[j]] == entries[..j + 1];
    assert Moved(entries[..j + 1], i, j) == entries[..j][..i] + [entries[j]] + entries[..j][i..];
  }

  /** The entries after it go last, one by one. */
  lemma {:induction false} MovedOn(h: Host, rule: Rule, entries: seq<Pair>, i: nat, j: nat, m: nat)
    returns (list: seq<Pair>)
    requires !rule.Gather? && LawfulOrder(OrderOf(h, rule)) && Orderly(h, rule, entries) && i < j < m <= |entries|
    requires Less in OrderOf(h, rule)(Rank(rule.Priority?, entries[j]), Rank(rule.Priority?, entries[i]))
    ensures Built(h, rule, entries[..m], list) && SameBytes(list, Moved(entries[..m], i, j))
    decreases m
  {
    hide HtaWire.Wire, LawfulOrder, Orderly, Follows, SameKey, Taken, Built, SameBytes;
    if m == j + 1 {
      list := MovedFirst(h, rule, entries, i, j);
    } else {
      var before := MovedOn(h, rule, entries, i, j, m - 1);
      var shown, x := Moved(entries[..m - 1], i, j), entries[m - 1];
      OrderlyLast(h, rule, entries, m - 1);
      forall k | 0 <= k < |shown| ensures exists l :: 0 <= l < m - 1 && shown[k] == entries[l] {
        MovedIs(entries[..m - 1], i, j, k);
      }
      list := PutAt(h, rule, before, shown, x, m - 1);
      BuiltStep(h, rule, entries[..m - 1], before, x, list);
      assert entries[..m - 1] + [x] == entries[..m];
      assert Moved(entries[..m], i, j) == shown[..m - 1] + [x] + shown[m - 1..];
    }
  }

  lemma MovedIs(entries: seq<Pair>, i: nat, j: nat, k: nat)
    requires i <= j < |entries| && k < |entries|
    ensures Moved(entries, i, j)[k] == entries[if k == i then j else if i < k <= j then k - 1 else k]
  {
  }

  /** If a move shows nothing, the entries it passes are alike. */
  lemma {:induction false} MoveUnseen(entries: seq<Pair>, i: nat, j: nat, k: nat)
    requires i <= k <= j < |entries| && SameBytes(Moved(entries, i, j), entries)
    ensures SameEntry(entries[k], entries[j])
    decreases k
  {
    hide HtaWire.Wire, Moved;
    MovedIs(entries, i, j, k);
    assert SameEntry(Moved(entries, i, j)[k], entries[k]);
    if k > i { MoveUnseen(entries, i, j, k - 1); }
  }

  /** Where entries may change places, some listing built shows it. */
  lemma MoveShows(h: Host, rule: Rule, entries: seq<Pair>) returns (list: seq<Pair>)
    requires !rule.Gather? && LawfulOrder(OrderOf(h, rule)) && Orderly(h, rule, entries)
    requires !Still(OrderOf(h, rule), rule.Priority?, entries)
    ensures Built(h, rule, entries, list) && !SameBytes(list, entries)
  {
    hide HtaWire.Wire, LawfulOrder, Orderly, Follows, SameKey, Taken, Built, SameBytes, SameEntry;
    var i, j, k :| 0 <= i <= k <= j < |entries| && i < j
      && Less in OrderOf(h, rule)(Rank(rule.Priority?, entries[j]), Rank(rule.Priority?, entries[i]))
      && !SameEntry(entries[k], entries[j]);
    list := MovedOn(h, rule, entries, i, j, |entries|);
    assert entries[..|entries|] == entries;
    if SameBytes(list, entries) {
      SameBack(list, Moved(entries, i, j));
      SameTwice(Moved(entries, i, j), list, entries);
      MoveUnseen(entries, i, j, k);
    }
  }

  lemma SameBack(a: seq<Pair>, b: seq<Pair>)
    requires SameBytes(a, b)
    ensures SameBytes(b, a)
  {
    hide HtaWire.Wire;
    forall i | 0 <= i < |a| ensures SameEntry(b[i], a[i]) { assert SameEntry(a[i], b[i]); }
  }
}
