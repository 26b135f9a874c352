/** Frames the canonical decoder refuses, always or possibly. */
module HtaRefusals {
  import opened Prelude
  import opened HtaData
  import opened HtaWire
  import opened HtaLaws
  import opened HtaOrder
  import opened HtaRebuild
  import opened HtaListing
  import opened HtaSettling
  import opened HtaCanonical
  import opened HtaAcceptance

  /** A host that compares encodings. */
  const LexHost := Host((a: Bytes, b: Bytes) => a == b, LexOrder, (b: Bytes) => false)

  function LexOrder(a: Bytes, b: Bytes): set<Answer> {
    if a == b then {Equal} else if LexLe(a, b) then {Less} else {Greater}
  }

  /** The laws can be kept. */
  lemma LexIsLawful()
    ensures Lawful(LexHost)
  {
    hide LexLe;
    forall a, b ensures Less in LexOrder(a, b) <==> Greater in LexOrder(b, a) {
      if LexLe(a, b) && LexLe(b, a) { LexAntisymmetric(a, b); }
      LexTotal(a, b);
    }
    forall a, b, c | Greater in LexOrder(b, a) && Greater in LexOrder(c, b) ensures Greater in LexOrder(c, a) {
      LexTotal(a, b);
      LexTotal(b, c);
      LexTransitive(a, b, c);
      if LexLe(c, a) {
        LexTransitive(c, a, b);
        LexAntisymmetric(c, b);
      }
    }
  }

  /** A frame whose listing is not proper is refused, whatever the host does. */
  lemma ImproperRefused(h: Host, v: Value, b: Bytes)
    requires Lawful(h) && WellFormed(v) && Readable(v, 0) && EncodeFrame(v) == Some(b) && !Proper(h, Canon(v))
    ensures !MayAccept(h, b)
  {
    hide DecodeFrame, EncodeFrame, WellFormed, Readable, Encodable, Canon, Rebuilt, Lawful, Proper, Wire;
    MadeFrame(v, b);
    if w :| Accepts(h, b, w) { AcceptedMeans(h, b, w); }
  }

  // ----- A sorted map out of order -----

  const TwoOne := [Pair(Number(2), Nil), Pair(Number(1), Nil)]

  lemma TwoOneSound()
    ensures var v := Entries(SortedMap, TwoOne); WellFormed(v) && Readable(v, 0) && Encodable(v, 0)
  {
    forall p | p in TwoOne
      ensures WellFormed(p.key) && WellFormed(p.value) && Encodable(p.key, 1) && Encodable(p.value, 1)
      ensures Readable(p.key, 1) && Readable(p.value, 1)
    {
    }
  }

  lemma TwoOneSize()
    ensures |Wire(Entries(SortedMap, TwoOne))| == 25
  {
    hide HtaData.BE;
    assert |Wire(Number(2))| == 9 && |Wire(Number(1))| == 9 && |Wire(Nil)| == 1;
    assert TwoOne[1..] == [Pair(Number(1), Nil)] && TwoOne[1..][1..] == [];
    assert |WirePairs(TwoOne[1..])| == 10;
    assert |WirePairs(TwoOne)| == 20;
  }

  lemma TwoOneFrame()
    ensures var v := Entries(SortedMap, TwoOne);
      WellFormed(v) && Readable(v, 0) && EncodeFrame(v).Some? && Canon(v) == v
  {
    assert CanonPairs(TwoOne) == TwoOne;
    hide Wire, WellFormed, Readable, Encodable;
    TwoOneSound();
    TwoOneSize();
  }

  /** The keys 2 and 1 of a sorted map, in this order, make a frame that is refused. */
  lemma UnsortedRefused(h: Host)
    requires Lawful(h) && h.order(Wire(Number(1)), Wire(Number(2))) == {Less}
    ensures var v := Entries(SortedMap, TwoOne); EncodeFrame(v).Some? && !MayAccept(h, EncodeFrame(v).value)
  {
    TwoOneFrame();
    var v := Entries(SortedMap, TwoOne);
    hide EncodeFrame, WellFormed, Readable, Canon, Lawful, Wire;
    assert !Follows(h.order, false, TwoOne[1], TwoOne[0]);
    assert !Rising(h.order, false, TwoOne);
    ImproperRefused(h, v, EncodeFrame(v).value);
  }

  // ----- A set with a repeated element -----

  const NilTwice := [Nil, Nil]

  lemma NilTwiceFrame()
    ensures var v := Unordered(Set, NilTwice);
      WellFormed(v) && Readable(v, 0) && EncodeFrame(v).Some? && Canon(v) == v
  {
    NilTwiceSorted();
    hide Sort;
    var v := Unordered(Set, NilTwice);
    forall x | x in NilTwice ensures Encodable(x, 1) && Readable(x, 1) && WellFormed(x) {}
    assert |Wire(v)| == 7;
  }

  lemma NilTwiceSorted()
    ensures
      var k := KeyItems(NilTwice);
      Sort(k) == k && Payloads(k) == NilTwice && |ConcatKeys(k)| == 2
  {
    var k := KeyItems(NilTwice);
    assert |Wire(Nil)| == 1;
    hide Wire, LexLe;
    assert k == [Keyed(Wire(Nil), Nil), Keyed(Wire(Nil), Nil)];
    assert k[1..] == [k[1]] && k[1..][1..] == [];
    assert Sort(k[1..]) == [k[1]];
    LexTotal(Wire(Nil), Wire(Nil));
    assert ConcatKeys(k[1..]) == Wire(Nil);
  }

  /** A set that names nil twice is refused. */
  lemma RepeatRefused(h: Host)
    requires Lawful(h) && h.same(Wire(Nil), Wire(Nil))
    ensures var v := Unordered(Set, NilTwice); EncodeFrame(v).Some? && !MayAccept(h, EncodeFrame(v).value)
  {
    NilTwiceFrame();
    var v := Unordered(Set, NilTwice);
    hide EncodeFrame, WellFormed, Readable, Canon, Lawful, Wire;
    assert SameKey(h, Listing(v)[0], Listing(v)[1]);
    assert !NoRepeat(h, Listing(v));
    ImproperRefused(h, v, EncodeFrame(v).value);
  }

  // ----- Atoms as keys -----

  const AtomPairs := [Pair(Atom(Nil), Bool(true)), Pair(Atom(Nil), Bool(false))]

  lemma AtomPairsSorted()
    ensures Sort(KeyPairs(AtomPairs)) == KeyPairs(AtomPairs)
  {
    hide LexLe;
    var k := KeyPairs(AtomPairs);
    assert k[0].key == k[1].key == Wire(Atom(Nil));
    hide Wire;
    LexTotal(k[0].key, k[0].key);
    assert k[1..] == [k[1]] && k[1..][1..] == [];
    assert Sort(k[1..]) == [k[1]];
  }

  lemma AtomPairsCanon()
    ensures Canon(Map(AtomPairs)) == Map(AtomPairs)
  {
    AtomPairsSorted();
    hide Sort;
    var k := KeyPairs(AtomPairs);
    assert k[0].payload.canon == AtomPairs[0] && k[1].payload.canon == AtomPairs[1];
    assert CanonEntries(k) == AtomPairs;
  }

  lemma AtomPairsSize()
    ensures |Wire(Map(AtomPairs))| == 11
  {
    AtomPairsSorted();
    hide Sort, HtaData.BE;
    var k := KeyPairs(AtomPairs);
    assert |k[0].key| == 2 && |k[1].key| == 2 && |k[0].payload.value| == 1 && |k[1].payload.value| == 1;
    assert k[1..] == [k[1]] && k[1..][1..] == [];
    assert ConcatEntries(k[1..]) == k[1].key + k[1].payload.value + [];
    assert |ConcatEntries(k)| == 6;
  }

  lemma AtomPairsFrame()
    ensures var v := Map(AtomPairs); WellFormed(v) && Readable(v, 0) && EncodeFrame(v).Some? && Canon(v) == v
  {
    hide Wire, Canon, WellFormed, Readable, Encodable;
    HtaOrder.TwoAtoms(AtomPairs[0], AtomPairs[1]);
    assert AtomPairs == [AtomPairs[0], AtomPairs[1]];
    AtomPairsSize();
    AtomPairsCanon();
  }

  /**
   A map with two atoms of equal content as keys is a value of the host, and its
   own frame may be refused, since decoded atoms hash by address.
   */
  lemma AtomsMayBeRefused(h: Host)
    requires Lawful(h) && !h.same(Wire(Atom(Nil)), Wire(Atom(Nil))) && h.wanders(Wire(Atom(Nil)))
    ensures
      var v := Map(AtomPairs);
      EncodeFrame(v).Some? && MayAccept(h, EncodeFrame(v).value) && !AlwaysAccepts(h, EncodeFrame(v).value)
  {
    hide EncodeFrame, WellFormed, Readable, Canon, Lawful, Wire, WanderersAgree, Regular, Parts;
    AtomPairsFrame();
    var v := Map(AtomPairs);
    AtomsRegular(h);
    AtomsDisagree(h);
    assert !Steady(h, v);
    OwnFrame(h, v, EncodeFrame(v).value);
  }

  lemma AtomsDisagree(h: Host)
    requires h.wanders(Wire(Atom(Nil)))
    ensures !WanderersAgree(h, AtomPairs)
  {
    assert AtomPairs[0] in AtomPairs && AtomPairs[1] in AtomPairs;
    assert Wire(AtomPairs[0].key) == Wire(AtomPairs[1].key) && Wire(AtomPairs[0].value) != Wire(AtomPairs[1].value);
  }

  lemma AtomsRegular(h: Host)
    requires !h.same(Wire(Atom(Nil)), Wire(Atom(Nil)))
    ensures Regular(h, Map(AtomPairs))
  {
    hide Wire;
    var v := Map(AtomPairs);
    assert NoRepeat(h, AtomPairs);
    assert Regular(h, Nil) && Regular(h, Bool(true)) && Regular(h, Bool(false));
    assert Regular(h, Atom(Nil));
    assert Parts(v) == [Atom(Nil), Bool(true), Atom(Nil), Bool(false)] by {
      assert AtomPairs[1..] == [AtomPairs[1]] && AtomPairs[1..][1..] == [];
    }
    forall i | 0 <= i < |Parts(v)| ensures (PartSmaller(v, i); Regular(h, Parts(v)[i])) { PartSmaller(v, i); }
  }
}
