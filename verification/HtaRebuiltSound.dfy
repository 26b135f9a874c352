/**
 Rebuilding keeps a value within everything the codec asks of it: the host's
 types, the encoder's limits and the decoder's depth.
 */
module HtaRebuiltSound {
  import opened HtaData
  import opened HtaWire
  import opened HtaRebuild
  import opened HtaListing
  import opened HtaSettling
  import opened HtaSoundness

  /** `q` can stand wherever `p` can. */
  ghost predicate Replaces(p: Value, q: Value) {
    && (p.Text? || q.Text? ==> p == q)
    && forall e: nat, depth: int | e <= depth :: Fine(p, e, depth) ==> Fine(q, e, depth)
  }

  ghost predicate AllReplace(a: seq<Value>, b: seq<Value>) {
    |a| == |b| && forall i :: 0 <= i < |a| ==> Replaces(a[i], b[i])
  }

  lemma ItemsReplaced(a: seq<Value>, b: seq<Value>, e: nat, depth: int)
    requires AllReplace(a, b) && AllFine(a, e, depth) && e <= depth
    ensures AllFine(b, e, depth)
  {
    hide Fine;
    forall x | x in b ensures Fine(x, e, depth) {
      var i :| 0 <= i < |b| && b[i] == x;
      assert Replaces(a[i], b[i]) && a[i] in a;
    }
  }

  lemma PairsReplaced(entries: seq<Pair>, b: seq<Value>, e: nat, depth: int)
    requires AllReplace(Flat(entries), b) && PairsFine(entries, e, depth) && e <= depth
    ensures PairsFine(Unflat(b), e, depth)
    ensures StringKeys(entries) ==> StringKeys(Unflat(b))
    ensures (forall p <- entries :: !IsDisplay(p.key)) ==> forall p <- Unflat(b) :: !IsDisplay(p.key)
  {
    hide Fine;
    var r := Unflat(b);
    forall i | 0 <= i < |r| ensures EntryReplaced(entries[i], r[i], e, depth) {
      assert entries[i] in entries;
      assert Replaces(Flat(entries)[2 * i], b[2 * i]) && Replaces(Flat(entries)[2 * i + 1], b[2 * i + 1]);
    }
    forall p | p in r ensures exists q <- entries :: EntryReplaced(q, p, e, depth) {
      var i :| 0 <= i < |r| && r[i] == p;
      assert entries[i] in entries;
    }
  }

  ghost predicate EntryReplaced(p: Pair, q: Pair, e: nat, depth: int) {
    Fine(q.key, e, depth) && Fine(q.value, e, depth) && (p.key.Text? || q.key.Text? ==> p.key == q.key)
  }

  lemma SetParts(v: Value, e: nat, depth: int)
    requires Fine(v, e, depth) && v.Unordered?
    ensures AllFine(v.items, e + 1, depth + 1) && |v.items| < TWO_32 && depth <= MAX_NESTING_DEPTH
  {
  }

  lemma EntryParts(v: Value, e: nat, depth: int)
    requires Fine(v, e, depth) && (v.Map? || v.Entries?)
    ensures PairsFine(v.entries, e + 1, depth + 1) && |v.entries| < TWO_32 && depth <= MAX_NESTING_DEPTH
    ensures v.Entries? && (v.mapping == Trie || v.mapping == Object) ==> StringKeys(v.entries)
  {
  }

  lemma PointerParts(v: Value, e: nat, depth: int)
    requires Fine(v, e, depth) && v.Pointer?
    ensures PairsFine(v.entries, e + 2, depth + 2) && |v.entries| < TWO_32 && depth + 1 <= MAX_NESTING_DEPTH
    ensures ValidUtf8(v.target) && Fits(v.target)
  {
  }

  lemma SuccessParts(v: Value, e: nat, depth: int)
    requires Fine(v, e, depth) && v.Success?
    ensures Fine(v.data, e + 1, depth + 2) && PairsFine(v.context, e + 2, depth + 3) && |v.context| < TWO_32
    ensures depth + 1 <= MAX_NESTING_DEPTH && forall p <- v.context :: !IsDisplay(p.key)
  {
  }

  lemma SequenceParts(v: Value, e: nat, depth: int)
    requires Fine(v, e, depth) && v.Sequence?
    ensures AllFine(v.items, e + 1, depth + 1) && |v.items| < TWO_32 && depth <= MAX_NESTING_DEPTH
    ensures (v.sequence == Cons ==> v.items != []) && (v.sequence == MapEntry ==> |v.items| == 2)
  {
  }

  lemma StructureParts(v: Value, e: nat, depth: int)
    requires Fine(v, e, depth) && v.Struct?
    ensures AllFine(v.values, e + 1, depth + 2) && |v.fields| == |v.values|
  {
  }

  /** The same structure with other values as good as its own. */
  lemma StructureMade(v: Value, values: seq<Value>, e: nat, depth: int)
    requires Fine(v, e, depth) && v.Struct? && |values| == |v.values| && AllFine(values, e + 1, depth + 2)
    ensures Fine(v.(values := values), e, depth)
  {
  }

  lemma OneReplaced(v: Value, x: Value, e: nat, depth: int)
    requires e <= depth && Fine(v, e, depth) && (v.Atom? || v.Tagged?) && Replaces(Parts(v)[0], x)
    ensures Fine(With(v, [x]), e, depth)
  {
    assert Fine(Parts(v)[0], e + 1, depth + 1);
  }

  lemma TailReplaced(first: Value, a: seq<Value>, b: seq<Value>)
    requires AllReplace([first] + a, b)
    ensures |b| == |a| + 1 && Replaces(first, b[0]) && AllReplace(a, b[1..])
  {
    hide Replaces;
    assert ([first] + a)[0] == first;
    forall i | 0 <= i < |a| ensures Replaces(a[i], b[1..][i]) {
      assert ([first] + a)[i + 1] == a[i];
    }
  }

  lemma ResultReplaced(v: Value, parts: seq<Value>, e: nat, depth: int)
    requires e <= depth && Fine(v, e, depth) && v.Success? && AllReplace(Parts(v), parts)
    ensures Fine(With(v, parts), e, depth)
  {
    hide Fine, Flat, Unflat, AllReplace, PairsFine;
    SuccessParts(v, e, depth);
    TailReplaced(v.data, Flat(v.context), parts);
    PairsReplaced(v.context, parts[1..], e + 2, depth + 3);
    SuccessMade(parts[0], Unflat(parts[1..]), e, depth);
  }

  lemma ListReplaced(v: Value, parts: seq<Value>, e: nat, depth: int)
    requires e <= depth && Fine(v, e, depth) && AllReplace(Parts(v), parts)
    requires v.Sequence? || v.Unordered? || v.Struct?
    ensures Fine(With(v, parts), e, depth)
  {
    hide Fine, AllFine;
    match v
    case Sequence(kind, items) =>
      SequenceParts(v, e, depth);
      ItemsReplaced(items, parts, e + 1, depth + 1);
      SequenceMade(kind, parts, e, depth);
    case Unordered(kind, items) =>
      SetParts(v, e, depth);
      ItemsReplaced(items, parts, e + 1, depth + 1);
      SetMade(kind, parts, e, depth);
    case Struct(_, _, values) =>
      StructureParts(v, e, depth);
      ItemsReplaced(values, parts, e + 1, depth + 2);
      StructureMade(v, parts, e, depth);
  }

  lemma MapReplaced(v: Value, parts: seq<Value>, e: nat, depth: int)
    requires e <= depth && Fine(v, e, depth) && AllReplace(Parts(v), parts)
    requires v.Map? || v.Entries? || v.Pointer?
    ensures Fine(With(v, parts), e, depth)
  {
    hide Fine, Flat, Unflat, StringKeys, PairsFine;
    match v
    case Map(entries) =>
      EntryParts(v, e, depth);
      PairsReplaced(entries, parts, e + 1, depth + 1);
      MapMade(Unflat(parts), e, depth);
    case Entries(kind, entries) =>
      EntryParts(v, e, depth);
      PairsReplaced(entries, parts, e + 1, depth + 1);
      EntriesMade(kind, Unflat(parts), e, depth);
    case Pointer(target, entries) =>
      PointerParts(v, e, depth);
      PairsReplaced(entries, parts, e + 2, depth + 2);
      PointerMade(target, Unflat(parts), e, depth);
  }

  /** Parts as good as its own leave a value fine. */
  lemma WithFine(v: Value, parts: seq<Value>, e: nat, depth: int)
    requires e <= depth && Fine(v, e, depth) && AllReplace(Parts(v), parts)
    ensures Fine(With(v, parts), e, depth)
  {
    hide Fine, Flat, Unflat;
    if v.Sequence? || v.Unordered? || v.Struct? {
      ListReplaced(v, parts, e, depth);
    } else if v.Map? || v.Entries? || v.Pointer? {
      MapReplaced(v, parts, e, depth);
    } else if v.Success? {
      ResultReplaced(v, parts, e, depth);
    } else if v.Atom? || v.Tagged? {
      OneReplaced(v, parts[0], e, depth);
      assert parts == [parts[0]];
    }
  }

  // ----- One level -----

  /** What is selected from fine entries is fine. */
  lemma SelectedFine(entries: seq<Pair>, list: seq<Pair>, e: nat, depth: int)
    requires Selected(entries, list) && PairsFine(entries, e, depth)
    ensures PairsFine(list, e, depth)
    ensures StringKeys(entries) ==> StringKeys(list)
    ensures (forall p <- entries :: !IsDisplay(p.key)) ==> forall p <- list :: !IsDisplay(p.key)
  {
    hide Fine;
    forall p | p in list
      ensures Fine(p.key, e, depth) && Fine(p.value, e, depth) && exists q <- entries :: q.key == p.key
    {
      var q :| q in entries && q.key == p.key;
      var r :| r in entries && r.value == p.value;
    }
  }

  lemma KeysFine(items: seq<Value>, list: seq<Pair>, e: nat, depth: int)
    requires Selected(Lone(items), list) && AllFine(items, e, depth)
    ensures AllFine(Keys(list), e, depth)
  {
    hide Fine;
    SelectedKeys(items, list);
  }

  lemma RelistedFine(u: Value, list: seq<Pair>, e: nat, depth: int)
    requires IsCollection(u) && e <= depth && Fine(u, e, depth) && Selected(Listing(u), list)
    ensures Fine(Relisted(u, list), e, depth)
  {
    hide Fine, AllFine, PairsFine, StringKeys;
    SelectedSize(Listing(u), list);
    match u
    case Sequence(kind, items) =>
      SequenceParts(u, e, depth);
      KeysFine(items, list, e + 1, depth + 1);
      SequenceMade(kind, Keys(list), e, depth);
    case Unordered(kind, items) =>
      SetParts(u, e, depth);
      KeysFine(items, list, e + 1, depth + 1);
      SetMade(kind, Keys(list), e, depth);
    case Map(entries) =>
      EntryParts(u, e, depth);
      SelectedFine(entries, list, e + 1, depth + 1);
      MapMade(list, e, depth);
    case Entries(kind, entries) =>
      EntryParts(u, e, depth);
      SelectedFine(entries, list, e + 1, depth + 1);
      EntriesMade(kind, list, e, depth);
    case Success(data, context) =>
      SuccessParts(u, e, depth);
      SelectedFine(context, list, e + 2, depth + 3);
      SuccessMade(data, list, e, depth);
    case Pointer(target, entries) =>
      PointerParts(u, e, depth);
      SelectedFine(entries, list, e + 2, depth + 2);
      PointerMade(target, list, e, depth);
  }

  lemma SelectedSize(entries: seq<Pair>, list: seq<Pair>)
    requires Selected(entries, list)
    ensures |list| <= |entries|
  {
  }

  lemma SettlesFine(h: Host, u: Value, w: Value, e: nat, depth: int)
    requires Settles(h, u, w) && e <= depth && Fine(u, e, depth)
    ensures Fine(w, e, depth)
  {
    hide Fine, HtaWire.Wire, Built, Selected, AllFine;
    if IsCollection(u) {
      var built, list := SettledParts(h, u, w);
      RelistedFine(u, list, e, depth);
    } else if u.Struct? {
      StructureParts(u, e, depth);
      var shown := Shown(u.fields, u.values);
      assert AllFine(shown, e + 1, depth + 2) by { ShownFine(u.fields, u.values, e + 1, depth + 2); }
      StructureMade(u, shown, e, depth);
    }
  }

  lemma ShownFine(fields: seq<Bytes>, values: seq<Value>, e: nat, depth: int)
    requires |fields| == |values| && AllFine(values, e, depth)
    ensures AllFine(Shown(fields, values), e, depth)
  {
    hide Fine;
  }

  lemma SettlesText(h: Host, u: Value, w: Value)
    requires Settles(h, u, w)
    ensures u.Text? || w.Text? ==> u == w
  {
    hide HtaWire.Wire, Built;
    if IsCollection(u) { var built, list := SettledParts(h, u, w); }
  }

  // ----- All levels -----

  lemma RebuiltParts(h: Host, v: Value, w: Value) returns (parts: seq<Value>)
    requires Rebuilt(h, v, w)
    ensures |parts| == |Parts(v)| && Settles(h, With(v, parts), w)
    ensures forall i :: 0 <= i < |parts| ==> Rebuilt(h, Parts(v)[i], parts[i])
  {
    hide Settles, Parts, With;
    parts :|
      && |parts| == |Parts(v)|
      && (forall i :: 0 <= i < |parts| ==> (PartSmaller(v, i); Rebuilt(h, Parts(v)[i], parts[i])))
      && Settles(h, With(v, parts), w);
  }

  lemma {:induction false} RebuiltReplaces(h: Host, v: Value, w: Value)
    requires Rebuilt(h, v, w)
    ensures Replaces(v, w)
    decreases v
  {
    hide Fine, Settles, Parts, With, Rebuilt;
    var parts := RebuiltParts(h, v, w);
    forall i | 0 <= i < |parts| ensures Replaces(Parts(v)[i], parts[i]) {
      PartSmaller(v, i);
      RebuiltReplaces(h, Parts(v)[i], parts[i]);
    }
    forall e: nat, depth: int | e <= depth && Fine(v, e, depth) ensures Fine(w, e, depth) {
      WithFine(v, parts, e, depth);
      SettlesFine(h, With(v, parts), w, e, depth);
    }
    SettlesText(h, With(v, parts), w);
    WithText(v, parts);
  }

  lemma WithText(v: Value, parts: seq<Value>)
    requires |parts| == |Parts(v)|
    ensures v.Text? || With(v, parts).Text? ==> With(v, parts) == v
  {
  }
}
