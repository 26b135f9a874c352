/**
 When the encoding of a map does not depend on the order its entries are
 visited in.  Entries are sorted by the bytes of their keys alone, so entries
 with equal key bytes keep the order they came in.
 */
module HtaOrder {
  import opened HtaData
  import opened HtaWire
  import opened HtaRoundTrip
  import opened HtaTheorems
  import opened HtaLaws

  /** Entries with the same key bytes have the same value bytes. */
  ghost predicate SameKeysAgree(p: seq<Pair>) {
    forall x, y :: x in p && y in p && Wire(x.key) == Wire(y.key) ==> Wire(x.value) == Wire(y.value)
  }

  /** An entry as bytes only. */
  function Plain(x: Keyed<WirePair>): Keyed<Bytes> { Keyed(x.key, x.payload.value) }

  function PlainBytes(s: seq<Keyed<Bytes>>): Bytes {
    if s == [] then [] else s[0].key + s[0].payload + PlainBytes(s[1..])
  }

  lemma {:induction false} ConcatPlain(s: seq<Keyed<WirePair>>)
    ensures ConcatEntries(s) == PlainBytes(Image(Plain, s))
  {
    if s != [] {
      ConcatPlain(s[1..]);
      assert Image(Plain, s)[1..] == Image(Plain, s[1..]);
    }
  }

  function PlainEntry(p: Pair): Keyed<Bytes> { Keyed(Wire(p.key), Wire(p.value)) }

  /** The bytes of a map in terms of its entries' bytes. */
  lemma MapBytes(p: seq<Pair>)
    ensures MapWire(p) == [TagByte(MapTag)] + BE(|p|, 4) + PlainBytes(Sort(Image(PlainEntry, p)))
  {
    hide HtaData.BE, HtaWire.Sort, HtaWire.ConcatEntries, HtaWire.Wire, PlainBytes, Image;
    var k := KeyPairs(p);
    ConcatPlain(Sort(k));
    assert KeepsKeys(Plain);
    SortKept(Plain, k);
    forall i | 0 <= i < |p| ensures Image(Plain, k)[i] == Image(PlainEntry, p)[i] { KeyPairParts(p[i]); }
    assert Image(Plain, k) == Image(PlainEntry, p);
  }

  /** When equal keys agree, every order gives the same bytes. */
  lemma AgreeingOrder(p: seq<Pair>, q: seq<Pair>)
    requires multiset(p) == multiset(q) && SameKeysAgree(p)
    ensures Wire(Map(p)) == Wire(Map(q))
  {
    hide HtaData.BE, HtaWire.Sort, PlainBytes, Image;
    assert |multiset(p)| == |multiset(q)|;
    MapBytes(p);
    MapBytes(q);
    ImagePermuted(PlainEntry, p, q);
    AgreeingPlain(p);
    SortUnique(Image(PlainEntry, p), Image(PlainEntry, q));
  }

  lemma AgreeingPlain(p: seq<Pair>)
    requires SameKeysAgree(p)
    ensures Functional(Image(PlainEntry, p))
  {
    hide HtaWire.Wire, Image;
    var k := Image(PlainEntry, p);
    forall x, y | x in k && y in k && x.key == y.key ensures x == y {
      var i :| 0 <= i < |k| && k[i] == x;
      var j :| 0 <= j < |k| && k[j] == y;
      assert p[i] in p && p[j] in p;
    }
  }

  // ----- Disagreeing entries -----

  /** Where a key goes: before the first key that is not smaller. */
  function PlaceOf(key: Bytes, s: seq<Keyed<Bytes>>): (i: nat)
    ensures i <= |s|
  {
    if s == [] || LexLe(key, s[0].key) then 0 else 1 + PlaceOf(key, s[1..])
  }

  /** A second entry with the same key goes right before the first. */
  lemma {:induction false} InsertTwo(x: Keyed<Bytes>, y: Keyed<Bytes>, s: seq<Keyed<Bytes>>)
    requires x.key == y.key
    ensures var i := PlaceOf(x.key, s); Insert(x, Insert(y, s)) == s[..i] + [x, y] + s[i..]
  {
    hide LexLe;
    LexTotal(x.key, x.key);
    if s == [] || LexLe(x.key, s[0].key) {
      assert Insert(y, s) == [y] + s;
      assert ([y] + s)[0] == y;
      assert [x] + ([y] + s) == s[..0] + [x, y] + s[0..];
    } else {
      InsertTwo(x, y, s[1..]);
      var t, j := s[1..], PlaceOf(x.key, s[1..]);
      var inner := [s[0]] + Insert(y, t);
      assert inner[0] == s[0] && inner[1..] == Insert(y, t);
      assert s[..j + 1] == [s[0]] + t[..j] && s[j + 1..] == t[j..];
      assert [s[0]] + (t[..j] + [x, y] + t[j..]) == s[..j + 1] + [x, y] + s[j + 1..];
    }
  }

  lemma {:induction false} PlainConcat(a: seq<Keyed<Bytes>>, b: seq<Keyed<Bytes>>)
    ensures PlainBytes(a + b) == PlainBytes(a) + PlainBytes(b)
  {
    if a == [] {
      assert a + b == b;
    } else {
      PlainConcat(a[1..], b);
      assert (a + b)[0] == a[0] && (a + b)[1..] == a[1..] + b;
      var x, y, z := a[0].key + a[0].payload, PlainBytes(a[1..]), PlainBytes(b);
      assert x + (y + z) == x + y + z;
    }
  }

  lemma PlainTwo(a: seq<Keyed<Bytes>>, x: Keyed<Bytes>, y: Keyed<Bytes>, b: seq<Keyed<Bytes>>)
    ensures PlainBytes(a + [x, y] + b) == PlainBytes(a) + ((x.key + x.payload + (y.key + y.payload)) + PlainBytes(b))
  {
    PlainConcat(a + [x, y], b);
    PlainConcat(a, [x, y]);
    assert [x, y][1..] == [y] && [y][1..] == [];
    assert PlainBytes([y]) == y.key + y.payload + PlainBytes([]);
    assert PlainBytes([x, y]) == x.key + x.payload + PlainBytes([y]);
    hide PlainBytes;
    var u, v, w := PlainBytes(a), PlainBytes([x, y]), PlainBytes(b);
    assert y.key + y.payload + [] == y.key + y.payload;
    assert u + v + w == u + (v + w);
  }

  /** Two entries with one key, in either order before the same others, differ in bytes unless their values agree. */
  lemma SwapShows(x: Pair, y: Pair, rest: seq<Pair>, d: nat, e: nat)
    requires Wire(x.key) == Wire(y.key) && Sound(x.value, d) && Sound(y.value, e)
    requires Wire(Map([x, y] + rest)) == Wire(Map([y, x] + rest))
    ensures Wire(x.value) == Wire(y.value)
  {
    hide HtaData.BE, HtaWire.Sort, HtaWire.Wire, PlainBytes, HtaWire.WellFormed, HtaWire.Encodable;
    var a, b := PlainEntry(x), PlainEntry(y);
    var s := Sort(Image(PlainEntry, rest));
    MapBytes([x, y] + rest);
    MapBytes([y, x] + rest);
    MapIsMapWire([x, y] + rest);
    MapIsMapWire([y, x] + rest);
    SortTwo(x, y, rest);
    SortTwo(y, x, rest);
    var i := PlaceOf(a.key, s);
    InsertTwo(a, b, s);
    InsertTwo(b, a, s);
    PlainTwo(s[..i], a, b, s[i..]);
    PlainTwo(s[..i], b, a, s[i..]);
    var head := [TagByte(MapTag)] + BE(|rest| + 2, 4);
    var u, w, k := PlainBytes(s[..i]), PlainBytes(s[i..]), a.key;
    Cancel(head, u, k, a.payload, b.payload, w);
    if |a.payload| <= |b.payload| {
      assert Wire(x.value) <= Wire(y.value);
      SelfDelimiting(x.value, y.value, d, e);
    } else {
      assert Wire(y.value) <= Wire(x.value);
      SelfDelimiting(y.value, x.value, e, d);
    }
  }

  lemma MapIsMapWire(p: seq<Pair>)
    ensures Wire(Map(p)) == MapWire(p)
  {
    hide HtaWire.MapWire;
  }

  lemma SortTwo(x: Pair, y: Pair, rest: seq<Pair>)
    ensures |[x, y] + rest| == |rest| + 2
    ensures Sort(Image(PlainEntry, [x, y] + rest)) ==
            Insert(PlainEntry(x), Insert(PlainEntry(y), Sort(Image(PlainEntry, rest))))
  {
    hide HtaWire.Wire, HtaWire.Insert;
    var all := [x, y] + rest;
    assert all[1..] == [y] + rest && all[1..][1..] == rest;
    var k := Image(PlainEntry, all);
    assert k[1..] == Image(PlainEntry, all[1..]) && k[1..][1..] == Image(PlainEntry, rest);
    assert Sort(k[1..]) == Insert(k[1], Sort(k[1..][1..]));
  }

  lemma Cancel(head: Bytes, u: Bytes, k: Bytes, p: Bytes, q: Bytes, w: Bytes)
    requires head + (u + ((k + p + (k + q)) + w)) == head + (u + ((k + q + (k + p)) + w))
    ensures p <= q || q <= p
  {
    var l, r := u + ((k + p + (k + q)) + w), u + ((k + q + (k + p)) + w);
    assert (head + l)[|head|..] == l && (head + r)[|head|..] == r;
    var l2, r2 := (k + p + (k + q)) + w, (k + q + (k + p)) + w;
    assert (u + l2)[|u|..] == l2 && (u + r2)[|u|..] == r2;
    assert l2[|k|..] == p + (k + q) + w && r2[|k|..] == q + (k + p) + w;
    var l3, r3 := p + (k + q) + w, q + (k + p) + w;
    if |p| <= |q| {
      assert p == l3[..|p|] == r3[..|p|] == q[..|p|];
    } else {
      assert q == r3[..|q|] == l3[..|q|] == p[..|q|];
    }
  }

  // ----- The exact condition -----

  /** Every way to visit the entries gives the same bytes. */
  ghost predicate OrderFree(p: seq<Pair>) {
    forall q: seq<Pair> | multiset(q) == multiset(p) :: Wire(Map(q)) == Wire(Map(p))
  }

  /** One entry taken out of a list. */
  lemma TakeOut(p: seq<Pair>, x: Pair) returns (rest: seq<Pair>)
    requires x in p
    ensures multiset(p) == multiset{x} + multiset(rest)
  {
    var i :| 0 <= i < |p| && p[i] == x;
    rest := Without(p, i);
    WithoutMultiset(p, i);
  }

  /** Two entries of a map, brought to its front. */
  lemma BringForward(p: seq<Pair>, x: Pair, y: Pair) returns (rest: seq<Pair>)
    requires x in p && y in p && x != y
    ensures multiset([x, y] + rest) == multiset(p) && multiset([y, x] + rest) == multiset(p)
  {
    var others := TakeOut(p, x);
    assert y in multiset(p);
    assert y in multiset(others);
    rest := TakeOut(others, y);
    TwoFirst(x, y, rest);
    TwoFirst(y, x, rest);
  }

  lemma TwoFirst(x: Pair, y: Pair, rest: seq<Pair>)
    ensures multiset([x, y] + rest) == multiset{x} + multiset{y} + multiset(rest)
  {
    assert multiset([x, y]) == multiset{x} + multiset{y};
  }

  lemma FreeAgrees(p: seq<Pair>, e: nat)
    requires (forall x <- p :: Sound(x.value, e)) && OrderFree(p)
    ensures SameKeysAgree(p)
  {
    hide HtaWire.Wire, HtaWire.WellFormed, HtaWire.Encodable;
    forall x, y | x in p && y in p && Wire(x.key) == Wire(y.key) ensures Wire(x.value) == Wire(y.value) {
      if x != y {
        var rest := BringForward(p, x, y);
        assert Wire(Map([x, y] + rest)) == Wire(Map([y, x] + rest));
        SwapShows(x, y, rest, e, e);
      }
    }
  }

  /**
   A map's encoding is the same in every order of visiting exactly when entries
   with equal key bytes have equal value bytes; the value read back is then the
   same too.
   */
  lemma MapOrder(p: seq<Pair>, e: nat)
    requires Sound(Map(p), e)
    ensures OrderFree(p) <==> SameKeysAgree(p)
    ensures SameKeysAgree(p) ==> forall q | multiset(q) == multiset(p) :: Canon(Map(q)) == Canon(Map(p))
  {
    assert forall x <- p :: Sound(x.value, e + 1);
    hide HtaWire.Wire, HtaWire.Canon, HtaWire.WellFormed, HtaWire.Encodable;
    if OrderFree(p) { FreeAgrees(p, e + 1); }
    if SameKeysAgree(p) {
      forall q: seq<Pair> | multiset(q) == multiset(p)
        ensures Wire(Map(q)) == Wire(Map(p)) && Canon(Map(q)) == Canon(Map(p))
      {
        AgreeingOrder(p, q);
        SoundPermuted(p, q, e);
        RoomyDecodes(Map(p), e, []);
        RoomyDecodes(Map(q), e, []);
      }
    }
  }

  lemma SoundPermuted(p: seq<Pair>, q: seq<Pair>, e: nat)
    requires Sound(Map(p), e) && multiset(q) == multiset(p)
    ensures Sound(Map(q), e)
  {
    assert |multiset(p)| == |multiset(q)|;
    assert WellFormed(Map(p)) && Encodable(Map(p), e);
    forall x | x in q ensures x in p {
      assert x in multiset(q);
    }
  }

  /** Keys that differ as values are enough: their encodings differ, because encodings are self-delimiting. */
  ghost predicate DistinctKeys(p: seq<Pair>) {
    forall x, y :: x in p && y in p && Canon(x.key) == Canon(y.key) ==> x == y
  }

  lemma DistinctKeysAgree(p: seq<Pair>, e: nat)
    requires DistinctKeys(p) && forall x <- p :: Sound(x.key, e)
    ensures SameKeysAgree(p)
  {
    hide HtaWire.Wire, HtaWire.Canon, HtaWire.WellFormed, HtaWire.Encodable;
    forall x, y | x in p && y in p && Wire(x.key) == Wire(y.key) ensures Wire(x.value) == Wire(y.value) {
      SelfDelimiting(x.key, y.key, e, e);
    }
  }

  /**
   Atoms, arrays and objects are compared by identity, so one map can hold two
   keys with the same bytes; its encoding then follows the order of visiting.
   */
  lemma IdentityKeysShowOrder()
    ensures
      var x, y := Pair(Atom(Nil), Bool(true)), Pair(Atom(Nil), Bool(false));
      Sound(Map([x, y]), 0) && Readable(Map([x, y]), 0) && Wire(Map([x, y])) != Wire(Map([y, x]))
  {
    var x, y := Pair(Atom(Nil), Bool(true)), Pair(Atom(Nil), Bool(false));
    assert [x, y] + [] == [x, y] && [y, x] + [] == [y, x];
    hide HtaWire.Readable, HtaWire.Encodable, HtaWire.WellFormed;
    assert Wire(x.value) != Wire(y.value) && Wire(x.key) == Wire(y.key);
    TwoAtoms(x, y);
    if Wire(Map([x, y])) == Wire(Map([y, x])) { SwapShows(x, y, [], 1, 1); }
  }

  lemma TwoAtoms(x: Pair, y: Pair)
    requires x.key == y.key == Atom(Nil) && x.value.Bool? && y.value.Bool?
    ensures Sound(x.key, 1) && Sound(x.value, 1) && Sound(y.key, 1) && Sound(y.value, 1)
    ensures Sound(Map([x, y]), 0) && Readable(Map([x, y]), 0)
  {
    OneAtom(x);
    OneAtom(y);
    hide HtaWire.Readable, HtaWire.Encodable, HtaWire.WellFormed;
    TwoEntries(x, y);
  }

  lemma OneAtom(x: Pair)
    requires x.key == Atom(Nil) && x.value.Bool?
    ensures Sound(x.key, 1) && Sound(x.value, 1) && Readable(x.key, 1) && Readable(x.value, 1)
  {
  }

  lemma TwoEntries(x: Pair, y: Pair)
    requires Sound(x.key, 1) && Sound(x.value, 1) && Readable(x.key, 1) && Readable(x.value, 1)
    requires Sound(y.key, 1) && Sound(y.value, 1) && Readable(y.key, 1) && Readable(y.value, 1)
    ensures Sound(Map([x, y]), 0) && Readable(Map([x, y]), 0)
  {
    forall p | p in [x, y] ensures p == x || p == y {}
  }
}
