/** In what order the encoder writes: the parts of a set and the keys of a map rise byte by byte. */
module HtaWritten {
  import opened Prelude
  import opened HtaData
  import opened HtaWire
  import HtaLaws

  /** One byte string is a prefix of another, or smaller where they first differ. */
  ghost predicate Precedes(a: Bytes, b: Bytes) {
    a <= b || exists k :: DiffersAt(a, b, k) && a[k] < b[k]
  }

  predicate DiffersAt(a: Bytes, b: Bytes, k: int) {
    0 <= k < |a| && k < |b| && a[..k] == b[..k] && a[k] != b[k]
  }

  lemma {:induction false} LexIs(a: Bytes, b: Bytes)
    ensures LexLe(a, b) <==> Precedes(a, b)
  {
    if a != [] && b != [] {
      LexIs(a[1..], b[1..]);
      if a[0] == b[0] {
        StepIn(a, b);
      } else {
        assert DiffersAt(a, b, 0);
        forall k | DiffersAt(a, b, k) ensures k > 0 ==> a[0] == b[0] { SameBefore(a, b, k); }
      }
    }
  }

  lemma SameBefore(a: Bytes, b: Bytes, k: int)
    requires a != [] && b != [] && DiffersAt(a, b, k)
    ensures k > 0 ==> a[0] == b[0]
  {
    if k > 0 { assert a[..k][0] == b[..k][0]; }
  }

  lemma StepIn(a: Bytes, b: Bytes)
    requires a != [] && b != [] && a[0] == b[0]
    ensures Precedes(a, b) <==> Precedes(a[1..], b[1..])
  {
    var s, t := a[1..], b[1..];
    assert a == [a[0]] + s && b == [b[0]] + t;
    assert a <= b <==> s <= t by {
      if a <= b { assert s == b[..|a|][1..] && t[..|s|] == b[..|a|][1..]; }
      if s <= t { assert b[..|a|] == [b[0]] + t[..|s|]; }
    }
    if k :| DiffersAt(a, b, k) && a[k] < b[k] {
      assert k > 0 && s[..k - 1] == a[..k][1..] && t[..k - 1] == b[..k][1..];
      assert DiffersAt(s, t, k - 1);
    }
    if k :| DiffersAt(s, t, k) && s[k] < t[k] {
      assert a[..k + 1] == [a[0]] + s[..k] && b[..k + 1] == [b[0]] + t[..k];
      assert DiffersAt(a, b, k + 1);
    }
  }

  // ----- Sets -----

  function Keys<T>(s: seq<Keyed<T>>): (r: seq<Bytes>)
    ensures |r| == |s| && forall i :: 0 <= i < |s| ==> r[i] == s[i].key
  {
    seq(|s|, i requires 0 <= i < |s| => s[i].key)
  }

  lemma KeysCons<T>(x: Keyed<T>, s: seq<Keyed<T>>)
    ensures Keys([x] + s) == [x.key] + Keys(s)
  {
  }

  lemma {:induction false} KeysInsert<T>(x: Keyed<T>, s: seq<Keyed<T>>)
    ensures multiset(Keys(Insert(x, s))) == multiset{x.key} + multiset(Keys(s))
  {
    hide LexLe;
    if s == [] || LexLe(x.key, s[0].key) {
      KeysCons(x, s);
    } else {
      var y, rest := s[0], s[1..];
      assert s == [y] + rest;
      KeysInsert(x, rest);
      KeysCons(y, Insert(x, rest));
      KeysCons(y, rest);
    }
  }

  lemma {:induction false} KeysSort<T>(s: seq<Keyed<T>>)
    ensures multiset(Keys(Sort(s))) == multiset(Keys(s))
  {
    if s != [] {
      hide Insert, LexLe;
      var y, rest := s[0], s[1..];
      assert s == [y] + rest;
      KeysSort(rest);
      KeysInsert(y, Sort(rest));
      KeysCons(y, rest);
    }
  }

  ghost predicate Rising(parts: seq<Bytes>) {
    forall i, j :: 0 <= i < j < |parts| ==> Precedes(parts[i], parts[j])
  }

  function Concat(parts: seq<Bytes>): Bytes { if parts == [] then [] else parts[0] + Concat(parts[1..]) }

  lemma {:induction false} ConcatIs<T>(s: seq<Keyed<T>>)
    ensures Concat(Keys(s)) == ConcatKeys(s)
  {
    if s != [] {
      ConcatIs(s[1..]);
      assert Keys(s)[1..] == Keys(s[1..]);
    }
  }

  function Wires(items: seq<Value>): seq<Bytes> { seq(|items|, i requires 0 <= i < |items| => Wire(items[i])) }

  /** The bytes of elements, each as often as it occurs, rising. */
  ghost predicate Arranged(items: seq<Value>, parts: seq<Bytes>) {
    multiset(parts) == multiset(Wires(items)) && Rising(parts)
  }

  /** A set is written as a count and the bytes of its elements, rising. */
  lemma SetWritten(kind: SetKind, items: seq<Value>)
    ensures exists parts ::
      Arranged(items, parts) &&
      Wire(Unordered(kind, items)) == [TagByte(SetTag(kind))] + BE(|items|, 4) + Concat(parts)
  {
    hide LexLe, Sort, ConcatKeys, BE;
    var s := KeyItems(items);
    var parts := Keys(Sort(s));
    KeysSort(s);
    assert Keys(s) == Wires(items);
    HtaLaws.SortSorted(s);
    RisingKeys(Sort(s));
    ConcatIs(Sort(s));
    assert Arranged(items, parts);
  }

  lemma RisingKeys<T>(s: seq<Keyed<T>>)
    requires HtaLaws.Sorted(s)
    ensures Rising(Keys(s))
  {
    hide LexLe, Precedes;
    forall i, j | 0 <= i < j < |s| ensures Precedes(Keys(s)[i], Keys(s)[j]) { LexIs(s[i].key, s[j].key); }
  }

  // ----- Maps -----

  /** An entry as bytes: those of its key and those of its value. */
  datatype Line = Line(key: Bytes, value: Bytes)

  function Lines(s: seq<Keyed<WirePair>>): (r: seq<Line>)
    ensures |r| == |s| && forall i :: 0 <= i < |s| ==> r[i] == Line(s[i].key, s[i].payload.value)
  {
    seq(|s|, i requires 0 <= i < |s| => Line(s[i].key, s[i].payload.value))
  }

  lemma LinesCons(x: Keyed<WirePair>, s: seq<Keyed<WirePair>>)
    ensures Lines([x] + s) == [Line(x.key, x.payload.value)] + Lines(s)
  {
  }

  lemma {:induction false} LinesInsert(x: Keyed<WirePair>, s: seq<Keyed<WirePair>>)
    ensures multiset(Lines(Insert(x, s))) == multiset{Line(x.key, x.payload.value)} + multiset(Lines(s))
  {
    hide LexLe;
    if s == [] || LexLe(x.key, s[0].key) {
      LinesCons(x, s);
    } else {
      var y, rest := s[0], s[1..];
      assert s == [y] + rest;
      LinesInsert(x, rest);
      LinesCons(y, Insert(x, rest));
      LinesCons(y, rest);
    }
  }

  lemma {:induction false} LinesSort(s: seq<Keyed<WirePair>>)
    ensures multiset(Lines(Sort(s))) == multiset(Lines(s))
  {
    if s != [] {
      hide Insert, LexLe;
      var y, rest := s[0], s[1..];
      assert s == [y] + rest;
      LinesSort(rest);
      LinesInsert(y, Sort(rest));
      LinesCons(y, rest);
    }
  }

  function ConcatLines(lines: seq<Line>): Bytes {
    if lines == [] then [] else lines[0].key + lines[0].value + ConcatLines(lines[1..])
  }

  lemma {:induction false} LinesAre(s: seq<Keyed<WirePair>>)
    ensures ConcatLines(Lines(s)) == ConcatEntries(s)
  {
    if s != [] {
      LinesAre(s[1..]);
      assert Lines(s)[1..] == Lines(s[1..]);
    }
  }

  function LinesOf(entries: seq<Pair>): seq<Line> {
    seq(|entries|, i requires 0 <= i < |entries| => Line(Wire(entries[i].key), Wire(entries[i].value)))
  }

  ghost predicate KeysRise(lines: seq<Line>) {
    forall i, j :: 0 <= i < j < |lines| ==> Precedes(lines[i].key, lines[j].key)
  }

  /** The bytes of entries, each as often as it occurs, with the keys rising. */
  ghost predicate Listed(entries: seq<Pair>, lines: seq<Line>) {
    multiset(lines) == multiset(LinesOf(entries)) && KeysRise(lines)
  }

  lemma EntriesListed(entries: seq<Pair>)
    ensures Listed(entries, Lines(Sort(KeyPairs(entries))))
  {
    hide LexLe, Sort, Wire;
    var s := KeyPairs(entries);
    var lines := Lines(Sort(s));
    LinesSort(s);
    assert Lines(s) == LinesOf(entries);
    HtaLaws.SortSorted(s);
    RisingKeys(Sort(s));
    hide Precedes;
    assert forall i :: 0 <= i < |lines| ==> lines[i].key == Keys(Sort(s))[i];
  }

  lemma MapIs(entries: seq<Pair>)
    ensures
      Wire(Map(entries)) == [TagByte(MapTag)] + BE(|entries|, 4) + ConcatEntries(Sort(KeyPairs(entries)))
  {
    hide LexLe, Sort, ConcatEntries, BE;
  }

  /** A map is written as a count and its entries, key and value, with the keys rising. */
  lemma MapWritten(entries: seq<Pair>)
    ensures exists lines ::
      Listed(entries, lines) && Wire(Map(entries)) == [TagByte(MapTag)] + BE(|entries|, 4) + ConcatLines(lines)
  {
    hide LexLe, Sort, ConcatEntries, ConcatLines, BE, Listed, Lines, Wire, KeyPairs, TagByte;
    MapIs(entries);
    var s := Sort(KeyPairs(entries));
    EntriesListed(entries);
    LinesAre(s);
    assert Listed(entries, Lines(s));
  }
}
