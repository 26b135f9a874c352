/** What the HTA0 codec promises of whole frames. */
module HtaLaws {
  import opened Prelude
  import opened HtaData
  import opened HtaWire
  import opened HtaRoundTrip
  import opened HtaTheorems

  /**
   A frame decodes to the canonical form of the value it was made from exactly
   when the value is within the decoder's depth measure; past it, it is refused.
   */
  lemma FrameRoundTrip(v: Value)
    requires WellFormed(v) && EncodeFrame(v).Some?
    ensures DecodeFrame(EncodeFrame(v).value) == Ok(Canon(v)) <==> Readable(v, 0)
    ensures !Readable(v, 0) ==> DecodeFrame(EncodeFrame(v).value).Err?
  {
    hide HtaWire.Read, HtaWire.Wire, HtaWire.Canon, HtaWire.Readable, HtaWire.Encodable, HtaWire.WellFormed;
    ValueDecodes(v, 0, 0);
    var b := EncodeFrame(v).value;
    assert b[4..] == Wire(v) == Wire(v) + [];
    assert MAGIC <= b;
  }

  // ----- A decoder with room for every encodable value -----

  /** A level from which the decoder's measure covers all that the encoder accepts at level `e`. */
  predicate Roomy(e: nat, depth: int) { depth <= MAX_NESTING_DEPTH - 3 * (MAX_NESTING_DEPTH - e) }

  lemma {:induction false} RoomyReads(v: Value, e: nat, depth: int)
    requires Encodable(v, e) && Roomy(e, depth)
    ensures Readable(v, depth)
    decreases v, 1
  {
    hide HtaWire.Encodable, HtaWire.Readable;
    match v
    case Sequence(_, _) => RoomyListing(v, e, depth);
    case Unordered(_, _) => RoomyListing(v, e, depth);
    case Map(_) => RoomyMapping(v, e, depth);
    case Entries(_, _) => RoomyMapping(v, e, depth);
    case Struct(_, _, _) => RoomyRecord(v, e, depth);
    case Success(_, _) => RoomyRecord(v, e, depth);
    case Pointer(_, _) => RoomyRecord(v, e, depth);
    case _ => RoomyOther(v, e, depth);
  }

  lemma {:induction false} RoomyListing(v: Value, e: nat, depth: int)
    requires (v.Sequence? || v.Unordered?) && Encodable(v, e) && Roomy(e, depth)
    ensures Readable(v, depth)
    decreases v, 0
  {
    RoomyItems(v.items, e + 1, depth + 1);
  }

  lemma {:induction false} RoomyMapping(v: Value, e: nat, depth: int)
    requires (v.Map? || v.Entries?) && Encodable(v, e) && Roomy(e, depth)
    ensures Readable(v, depth)
    decreases v, 0
  {
    RoomyEntries(v.entries, e + 1, depth + 1);
  }

  lemma {:induction false} RoomyRecord(v: Value, e: nat, depth: int)
    requires (v.Struct? || v.Success? || v.Pointer?) && Encodable(v, e) && Roomy(e, depth)
    ensures Readable(v, depth)
    decreases v, 0
  {
    if v.Struct? {
      RoomyItems(v.values, e + 1, depth + 2);
    } else if v.Pointer? {
      RoomyEntries(v.entries, e + 2, depth + 2);
    } else {
      RoomyReads(v.data, e + 1, depth + 2);
      RoomyEntries(v.context, e + 2, depth + 3);
    }
  }

  lemma {:induction false} RoomyOther(v: Value, e: nat, depth: int)
    requires !(v.Sequence? || v.Unordered? || v.Map? || v.Entries? || v.Struct? || v.Success? || v.Pointer?)
    requires Encodable(v, e) && Roomy(e, depth)
    ensures Readable(v, depth)
    decreases v, 0
  {
    hide HtaWire.DecimalBytes, HtaWire.Fits, HtaData.Finite;
    if v.Atom? {
      RoomyReads(v.content, e + 1, depth + 1);
    } else if v.Tagged? {
      RoomyReads(v.form, e + 1, depth + 1);
    }
  }

  lemma {:induction false} RoomyItems(items: seq<Value>, e: nat, depth: int)
    requires (forall x <- items :: Encodable(x, e)) && Roomy(e, depth)
    ensures forall x <- items :: Readable(x, depth)
    decreases items, 0
  {
    hide HtaWire.Encodable, HtaWire.Readable;
    forall x | x in items ensures Readable(x, depth) {
      var i :| 0 <= i < |items| && items[i] == x;
      RoomyReads(items[i], e, depth);
    }
  }

  lemma {:induction false} RoomyEntry(p: Pair, e: nat, depth: int)
    requires Encodable(p.key, e) && Encodable(p.value, e) && Roomy(e, depth)
    ensures Readable(p.key, depth) && Readable(p.value, depth)
    decreases p, 2
  {
    RoomyReads(p.key, e, depth);
    RoomyReads(p.value, e, depth);
  }

  lemma {:induction false} RoomyEntries(entries: seq<Pair>, e: nat, depth: int)
    requires (forall p <- entries :: Encodable(p.key, e) && Encodable(p.value, e)) && Roomy(e, depth)
    ensures forall p <- entries :: Readable(p.key, depth) && Readable(p.value, depth)
    decreases entries, 0
  {
    hide HtaWire.Encodable, HtaWire.Readable;
    forall p | p in entries ensures Readable(p.key, depth) && Readable(p.value, depth) {
      var i :| 0 <= i < |entries| && entries[i] == p;
      RoomyEntry(entries[i], e, depth);
    }
  }

  /** Read with room enough, every encoding gives its canonical value and leaves the rest. */
  lemma RoomyDecodes(v: Value, e: nat, rest: Bytes)
    requires Sound(v, e)
    ensures Read(Wire(v) + rest, -2 * MAX_NESTING_DEPTH) == Ok((Canon(v), rest))
  {
    hide HtaWire.Read, HtaWire.Wire, HtaWire.Canon, HtaWire.Readable, HtaWire.WellFormed;
    assert Roomy(e, -2 * MAX_NESTING_DEPTH);
    RoomyReads(v, e, -2 * MAX_NESTING_DEPTH);
    ValueDecodes(v, e, -2 * MAX_NESTING_DEPTH);
  }

  /**
   Bare encodings are self-delimiting: one is a prefix of another only if both mean the same value.
   This holds of all the encoder accepts, also past the decoder's depth.
   */
  lemma SelfDelimiting(a: Value, b: Value, d: nat, e: nat)
    requires Sound(a, d) && Sound(b, e) && Wire(a) <= Wire(b)
    ensures Canon(a) == Canon(b) && Wire(a) == Wire(b)
  {
    hide HtaWire.Read, HtaWire.Wire, HtaWire.Canon, HtaWire.Encodable, HtaWire.WellFormed;
    var tail := Wire(b)[|Wire(a)|..];
    RoomyDecodes(a, d, tail);
    RoomyDecodes(b, e, []);
    assert Wire(b) + [] == Wire(b) == Wire(a) + tail;
  }

  // ----- The byte order -----

  lemma {:induction false} LexTotal(a: Bytes, b: Bytes)
    ensures LexLe(a, b) || LexLe(b, a)
  {
    if a != [] && b != [] { LexTotal(a[1..], b[1..]); }
  }

  lemma {:induction false} LexAntisymmetric(a: Bytes, b: Bytes)
    requires LexLe(a, b) && LexLe(b, a)
    ensures a == b
  {
    if a != [] && b != [] {
      LexAntisymmetric(a[1..], b[1..]);
      assert a == [a[0]] + a[1..] && b == [b[0]] + b[1..];
    }
  }

  lemma {:induction false} LexTransitive(a: Bytes, b: Bytes, c: Bytes)
    requires LexLe(a, b) && LexLe(b, c)
    ensures LexLe(a, c)
  {
    if a != [] && b != [] && c != [] && a[0] == b[0] == c[0] { LexTransitive(a[1..], b[1..], c[1..]); }
  }

  predicate Sorted<T>(s: seq<Keyed<T>>) {
    forall i, j :: 0 <= i < j < |s| ==> LexLe(s[i].key, s[j].key)
  }

  lemma {:induction false} InsertSorted<T>(x: Keyed<T>, s: seq<Keyed<T>>)
    requires Sorted(s)
    ensures Sorted(Insert(x, s))
  {
    if s == [] {
    } else if LexLe(x.key, s[0].key) {
      forall j | 0 <= j < |s| ensures LexLe(x.key, s[j].key) {
        if j > 0 { LexTransitive(x.key, s[0].key, s[j].key); }
      }
    } else {
      LexTotal(x.key, s[0].key);
      InsertSorted(x, s[1..]);
      var t := Insert(x, s[1..]);
      InsertMembers(x, s[1..]);
      forall j | 0 <= j < |t| ensures LexLe(s[0].key, t[j].key) {
        assert t[j] in multiset(t);
        assert t[j] == x || t[j] in s[1..];
      }
    }
  }

  lemma {:induction false} SortSorted<T>(s: seq<Keyed<T>>)
    ensures Sorted(Sort(s))
  {
    if s != [] {
      SortSorted(s[1..]);
      InsertSorted(s[0], Sort(s[1..]));
    }
  }

  /** Equal keys carry equal payloads. */
  ghost predicate Functional<T>(s: seq<Keyed<T>>) {
    forall x, y :: x in s && y in s && x.key == y.key ==> x == y
  }

  lemma TailMultiset<T>(s: seq<Keyed<T>>)
    requires s != []
    ensures multiset(s[1..]) == multiset(s) - multiset{s[0]}
  {
    assert s == [s[0]] + s[1..];
  }

  lemma FunctionalTail<T>(s: seq<Keyed<T>>)
    requires s != [] && Functional(s)
    ensures Functional(s[1..])
  {
    forall x, y | x in s[1..] && y in s[1..] && x.key == y.key ensures x == y {
      assert x in s && y in s;
    }
  }

  lemma SortedHeads<T>(s: seq<Keyed<T>>, t: seq<Keyed<T>>)
    requires s != [] && t != [] && Sorted(s) && Sorted(t) && multiset(s) == multiset(t) && Functional(s)
    ensures s[0] == t[0]
  {
    hide LexLe;
    assert s[0] in multiset(t) && t[0] in multiset(s);
    var i :| 0 <= i < |t| && t[i] == s[0];
    var j :| 0 <= j < |s| && s[j] == t[0];
    LexTotal(s[0].key, s[0].key);
    LexTotal(t[0].key, t[0].key);
    LexAntisymmetric(s[0].key, t[0].key);
  }

  /** A sorted listing is determined by its elements. */
  lemma {:induction false} SortedUnique<T>(s: seq<Keyed<T>>, t: seq<Keyed<T>>)
    requires Sorted(s) && Sorted(t) && multiset(s) == multiset(t) && Functional(s)
    ensures s == t
  {
    hide LexLe, Functional;
    assert |multiset(s)| == |multiset(t)|;
    if s != [] {
      SortedHeads(s, t);
      TailMultiset(s);
      TailMultiset(t);
      FunctionalTail(s);
      SortedUnique(s[1..], t[1..]);
      assert s == [s[0]] + s[1..] && t == [t[0]] + t[1..];
    }
  }

  lemma SortUnique<T>(s: seq<Keyed<T>>, t: seq<Keyed<T>>)
    requires multiset(s) == multiset(t) && Functional(s)
    ensures Sort(s) == Sort(t)
  {
    SortSorted(s);
    SortSorted(t);
    SortMembers(s);
    SortMembers(t);
    forall x, y | x in Sort(s) && y in Sort(s) && x.key == y.key ensures x == y {
      assert x in multiset(s) && y in multiset(s);
    }
    SortedUnique(Sort(s), Sort(t));
  }

  // ----- Independence of iteration order -----

  function Image<T, K>(f: T -> K, s: seq<T>): (r: seq<K>)
    ensures |r| == |s| && forall i :: 0 <= i < |s| ==> r[i] == f(s[i])
  {
    if s == [] then [] else [f(s[0])] + Image(f, s[1..])
  }

  function Without<T>(s: seq<T>, j: nat): (r: seq<T>)
    requires j < |s|
    ensures |r| == |s| - 1
  {
    s[..j] + s[j + 1..]
  }

  lemma WithoutMultiset<T>(s: seq<T>, j: nat)
    requires j < |s|
    ensures multiset(s) == multiset{s[j]} + multiset(Without(s, j))
    ensures multiset(Without(s, j)) == multiset(s) - multiset{s[j]}
  {
    assert s == s[..j] + ([s[j]] + s[j + 1..]);
  }

  lemma ImageOfWithout<T, K>(f: T -> K, s: seq<T>, j: nat)
    requires j < |s|
    ensures Without(Image(f, s), j) == Image(f, Without(s, j))
  {
    hide Image;
    var t := Without(s, j);
    forall i | 0 <= i < |t| ensures Without(Image(f, s), j)[i] == Image(f, t)[i] {
      assert t[i] == if i < j then s[i] else s[i + 1];
    }
  }

  lemma ImageWithout<T, K>(f: T -> K, s: seq<T>, j: nat)
    requires j < |s|
    ensures multiset(Image(f, s)) == multiset{f(s[j])} + multiset(Image(f, Without(s, j)))
  {
    hide Image, Without;
    ImageOfWithout(f, s, j);
    WithoutMultiset(Image(f, s), j);
  }

  /** Rearranging a listing rearranges its image. */
  lemma {:induction false} ImagePermuted<T, K>(f: T -> K, s: seq<T>, t: seq<T>)
    requires multiset(s) == multiset(t)
    ensures multiset(Image(f, s)) == multiset(Image(f, t))
    decreases |s|
  {
    hide Image, Without;
    assert |multiset(s)| == |multiset(t)|;
    if s == [] {
      assert t == [];
    } else {
      assert s[0] in multiset(t);
      var j :| 0 <= j < |t| && t[j] == s[0];
      WithoutMultiset(t, j);
      WithoutMultiset(s, 0);
      ImagePermuted(f, Without(s, 0), Without(t, j));
      ImageWithout(f, t, j);
      ImageWithout(f, s, 0);
    }
  }

  lemma KeysOnly<T(!new)>(s: seq<Keyed<T>>)
    ensures ConcatKeys(Sort(s)) == ConcatKeys(Sort(Image(Bare<T>, s)))
  {
    SortKept(Bare<T>, s);
    ConcatBare(Sort(s));
  }

  /** An encoding without what it stands for. */
  function Bare<T>(x: Keyed<T>): Keyed<()> { Keyed(x.key, ()) }

  /** A change of payloads that leaves keys alone. */
  ghost predicate KeepsKeys<T(!new), U>(f: Keyed<T> -> Keyed<U>) { forall x :: f(x).key == x.key }

  lemma {:induction false} InsertKept<T(!new), U>(f: Keyed<T> -> Keyed<U>, x: Keyed<T>, s: seq<Keyed<T>>)
    requires KeepsKeys(f)
    ensures Image(f, Insert(x, s)) == Insert(f(x), Image(f, s))
    decreases |s|
  {
    hide LexLe;
    if s != [] {
      assert f(x).key == x.key && f(s[0]).key == s[0].key;
      assert Image(f, s)[1..] == Image(f, s[1..]);
      if !LexLe(x.key, s[0].key) { InsertKept(f, x, s[1..]); }
    }
  }

  /** Sorting by key does not look at payloads. */
  lemma {:induction false} SortKept<T(!new), U>(f: Keyed<T> -> Keyed<U>, s: seq<Keyed<T>>)
    requires KeepsKeys(f)
    ensures Image(f, Sort(s)) == Sort(Image(f, s))
    decreases |s|
  {
    hide LexLe, HtaWire.Insert, KeepsKeys;
    if s != [] {
      SortKept(f, s[1..]);
      InsertKept(f, s[0], Sort(s[1..]));
      assert Image(f, s)[1..] == Image(f, s[1..]);
    }
  }

  lemma {:induction false} ConcatBare<T>(s: seq<Keyed<T>>)
    ensures ConcatKeys(Image(Bare<T>, s)) == ConcatKeys(s)
  {
    if s != [] {
      ConcatBare(s[1..]);
      assert Image(Bare<T>, s)[1..] == Image(Bare<T>, s[1..]);
    }
  }

  function WireKey(v: Value): Keyed<()> { Keyed(Wire(v), ()) }

  /** A set's encoding does not depend on the order its elements are visited in. */
  lemma SetOrder(kind: SetKind, p: seq<Value>, q: seq<Value>)
    requires multiset(p) == multiset(q)
    ensures Wire(Unordered(kind, p)) == Wire(Unordered(kind, q))
  {
    hide HtaData.BE, HtaWire.Sort, HtaWire.ConcatKeys;
    assert |multiset(p)| == |multiset(q)|;
    ImagePermuted(WireKey, p, q);
    KeysOnly(KeyItems(p));
    KeysOnly(KeyItems(q));
    assert Image(Bare<Value>, KeyItems(p)) == Image(WireKey, p);
    assert Image(Bare<Value>, KeyItems(q)) == Image(WireKey, q);
    SortUnique(Image(WireKey, p), Image(WireKey, q));
  }

  // ----- Canonical values are fixed points -----

  lemma {:induction false} SortFixed<T>(s: seq<Keyed<T>>)
    requires Sorted(s)
    ensures Sort(s) == s
  {
    if s != [] {
      SortFixed(s[1..]);
      if |s| > 1 { assert s[1..][0] == s[1] && LexLe(s[0].key, s[1].key); }
      assert s == [s[0]] + s[1..];
    }
  }

  predicate Stable(v: Value) { Wire(Canon(v)) == Wire(v) && Canon(Canon(v)) == Canon(v) }

  lemma {:induction false} StableItems(items: seq<Value>)
    requires forall i :: 0 <= i < |items| ==> Stable(items[i])
    ensures WireAll(CanonAll(items)) == WireAll(items) && CanonAll(CanonAll(items)) == CanonAll(items)
  {
    if items != [] {
      StableItems(items[1..]);
      assert CanonAll(items)[1..] == CanonAll(items[1..]);
      assert Stable(items[0]);
    }
  }

  predicate StablePair(p: Pair) { Stable(p.key) && Stable(p.value) }

  lemma {:induction false} StableEntries(entries: seq<Pair>)
    requires forall i :: 0 <= i < |entries| ==> StablePair(entries[i])
    ensures WirePairs(CanonPairs(entries)) == WirePairs(entries)
    ensures CanonPairs(CanonPairs(entries)) == CanonPairs(entries)
  {
    if entries != [] {
      StableEntries(entries[1..]);
      assert CanonPairs(entries)[1..] == CanonPairs(entries[1..]);
      assert StablePair(entries[0]);
      assert EntryWire(CanonPair(entries[0])) == EntryWire(entries[0]);
    }
  }

  lemma StableSet(items: seq<Value>)
    requires forall i :: 0 <= i < |items| ==> Stable(items[i])
    ensures var s := Sort(KeyItems(items)); KeyItems(Payloads(s)) == s && Sort(s) == s && |s| == |items|
  {
    hide HtaWire.Wire, HtaWire.Canon, HtaWire.Sort, LexLe;
    var k := KeyItems(items);
    var s := Sort(k);
    SortSorted(k);
    SortFixed(s);
    SortMembers(k);
    forall i | 0 <= i < |s| ensures KeyItems(Payloads(s))[i] == s[i] {
      SortedMember(k, i);
      var j :| 0 <= j < |k| && k[j] == s[i];
      assert Stable(items[j]);
    }
  }

  lemma StableMap(entries: seq<Pair>)
    requires forall i :: 0 <= i < |entries| ==> StablePair(entries[i])
    ensures MapWire(CanonMap(entries)) == MapWire(entries) && CanonMap(CanonMap(entries)) == CanonMap(entries)
  {
    hide HtaWire.Wire, HtaWire.Canon, HtaWire.Sort, LexLe, HtaWire.KeyPair, HtaData.BE;
    var k := KeyPairs(entries);
    var s := Sort(k);
    SortSorted(k);
    SortFixed(s);
    SortMembers(k);
    var again := CanonEntries(s);
    forall i | 0 <= i < |s| ensures KeyPairs(again)[i] == s[i] { StableEntryAt(entries, i); }
    assert KeyPairs(again) == s;
  }

  lemma StableEntryAt(entries: seq<Pair>, i: nat)
    requires i < |Sort(KeyPairs(entries))| && forall i :: 0 <= i < |entries| ==> StablePair(entries[i])
    ensures KeyPair(CanonEntries(Sort(KeyPairs(entries)))[i]) == Sort(KeyPairs(entries))[i]
  {
    hide HtaWire.Wire, HtaWire.Canon, HtaWire.Sort, HtaWire.KeyPair;
    var k := KeyPairs(entries);
    var s := Sort(k);
    SortedMember(k, i);
    var j :| 0 <= j < |k| && k[j] == s[i];
    KeyPairParts(entries[j]);
    KeyPairParts(CanonEntries(s)[i]);
    assert StablePair(entries[j]);
  }

  /** Canonical form changes nothing on the wire, and is reached in one step. */
  lemma {:induction false} CanonStable(v: Value)
    ensures Stable(v)
    decreases v, 1
  {
    hide Stable;
    match v
    case Sequence(_, _) => StableCollection(v);
    case Unordered(_, _) => StableCollection(v);
    case Map(_) => StableCollection(v);
    case Entries(_, _) => StableCollection(v);
    case _ => StableOther(v);
  }

  lemma {:induction false} StableCollection(v: Value)
    requires v.Sequence? || v.Unordered? || v.Map? || v.Entries?
    ensures Stable(v)
    decreases v, 0
  {
    hide HtaData.BE, HtaWire.Sort, HtaWire.KeyItems, HtaWire.WireAll, HtaWire.CanonAll, HtaWire.MapWire,
         HtaWire.CanonMap, HtaWire.WirePairs, HtaWire.CanonPairs, HtaWire.ConcatKeys;
    match v
    case Sequence(_, items) => StableAll(items); StableItems(items);
    case Unordered(_, items) => StableAll(items); StableSet(items);
    case Map(entries) => StableAllPairs(entries); StableMap(entries);
    case Entries(_, entries) => StableAllPairs(entries); StableEntries(entries);
  }

  lemma {:induction false} StableOther(v: Value)
    requires !(v.Sequence? || v.Unordered? || v.Map? || v.Entries?)
    ensures Stable(v)
    decreases v, 0
  {
    hide HtaData.BE, HtaWire.WireAll, HtaWire.CanonAll, HtaWire.MapWire, HtaWire.CanonMap, HtaWire.DecimalBytes,
         HtaWire.TextWire, HtaWire.StructHeader;
    match v
    case Atom(content) => CanonStable(content);
    case Tagged(_, form) => CanonStable(form);
    case Struct(_, _, values) => StableAll(values); StableItems(values);
    case Success(data, context) => CanonStable(data); StableAllPairs(context); StableMap(context);
    case Pointer(_, entries) => StableAllPairs(entries); StableMap(entries);
    case _ =>
  }

  lemma {:induction false} StableAll(items: seq<Value>)
    ensures forall i :: 0 <= i < |items| ==> Stable(items[i])
    decreases items
  {
    forall i | 0 <= i < |items| ensures Stable(items[i]) { CanonStable(items[i]); }
  }

  lemma {:induction false} StableBoth(p: Pair)
    ensures StablePair(p)
    decreases p
  {
    CanonStable(p.key);
    CanonStable(p.value);
  }

  lemma {:induction false} StableAllPairs(entries: seq<Pair>)
    ensures forall i :: 0 <= i < |entries| ==> StablePair(entries[i])
    decreases entries
  {
    forall i | 0 <= i < |entries| ensures StablePair(entries[i]) { StableBoth(entries[i]); }
  }

  // ----- Canonical frames -----

  lemma {:induction false} CanonEncodable(v: Value, e: nat)
    requires Encodable(v, e)
    ensures Encodable(Canon(v), e)
    decreases v, 1
  {
    hide HtaWire.Encodable, HtaWire.Canon;
    match v
    case Sequence(_, _) => CanonEncodableListing(v, e);
    case Unordered(_, _) => CanonEncodableListing(v, e);
    case Map(_) => CanonEncodableMapping(v, e);
    case Entries(_, _) => CanonEncodableMapping(v, e);
    case Struct(_, _, _) => CanonEncodableRecord(v, e);
    case Success(_, _) => CanonEncodableRecord(v, e);
    case Pointer(_, _) => CanonEncodableRecord(v, e);
    case _ => CanonEncodableOther(v, e);
  }

  lemma {:induction false} CanonEncodableListing(v: Value, e: nat)
    requires (v.Sequence? || v.Unordered?) && Encodable(v, e)
    ensures Encodable(Canon(v), e)
    decreases v, 0
  {
    hide HtaWire.Sort, HtaWire.KeyItems, HtaWire.CanonAll, HtaWire.Payloads;
    if v.Sequence? { CanonEncodableAll(v.items, e + 1); } else { CanonEncodableSet(v.items, e + 1); }
  }

  lemma {:induction false} CanonEncodableMapping(v: Value, e: nat)
    requires (v.Map? || v.Entries?) && Encodable(v, e)
    ensures Encodable(Canon(v), e)
    decreases v, 0
  {
    hide HtaWire.CanonMap, HtaWire.CanonPairs;
    if v.Map? { CanonEncodableMap(v.entries, e + 1); } else { CanonEncodablePairs(v.entries, e + 1); }
  }

  lemma {:induction false} CanonEncodableRecord(v: Value, e: nat)
    requires (v.Struct? || v.Success? || v.Pointer?) && Encodable(v, e)
    ensures Encodable(Canon(v), e)
    decreases v, 0
  {
    hide HtaWire.CanonMap, HtaWire.CanonAll, HtaWire.Fits;
    if v.Struct? {
      CanonEncodableAll(v.values, e + 1);
    } else if v.Pointer? {
      CanonEncodableMap(v.entries, e + 2);
    } else {
      CanonEncodable(v.data, e + 1);
      CanonEncodableMap(v.context, e + 2);
    }
  }

  lemma {:induction false} CanonEncodableOther(v: Value, e: nat)
    requires !(v.Sequence? || v.Unordered? || v.Map? || v.Entries? || v.Struct? || v.Success? || v.Pointer?)
    requires Encodable(v, e)
    ensures Encodable(Canon(v), e)
    decreases v, 0
  {
    hide HtaWire.DecimalBytes, HtaWire.Fits, HtaData.Finite;
    if v.Atom? {
      CanonEncodable(v.content, e + 1);
    } else if v.Tagged? {
      CanonEncodable(v.form, e + 1);
    }
  }

  lemma {:induction false} CanonEncodableAll(items: seq<Value>, e: nat)
    requires forall x <- items :: Encodable(x, e)
    ensures forall x <- CanonAll(items) :: Encodable(x, e)
    decreases items, 0
  {
    hide HtaWire.Encodable, HtaWire.Canon;
    forall i | 0 <= i < |items| ensures Encodable(CanonAll(items)[i], e) {
      assert items[i] in items;
      CanonEncodable(items[i], e);
    }
  }

  lemma {:induction false} CanonEncodableSet(items: seq<Value>, e: nat)
    requires forall x <- items :: Encodable(x, e)
    ensures var c := Payloads(Sort(KeyItems(items))); |c| == |items| && forall x <- c :: Encodable(x, e)
    decreases items, 1
  {
    hide HtaWire.Sort, HtaWire.Wire, HtaWire.Encodable;
    var k := KeyItems(items);
    SortMembers(k);
    forall i | 0 <= i < |Sort(k)| ensures Encodable(Payloads(Sort(k))[i], e) {
      SortedMember(k, i);
      var j :| 0 <= j < |k| && k[j] == Sort(k)[i];
      assert items[j] in items;
      CanonEncodable(items[j], e);
    }
  }

  lemma {:induction false} CanonEncodablePair(p: Pair, e: nat)
    requires Encodable(p.key, e) && Encodable(p.value, e)
    ensures Encodable(CanonPair(p).key, e) && Encodable(CanonPair(p).value, e)
    decreases p, 2
  {
    CanonEncodable(p.key, e);
    CanonEncodable(p.value, e);
  }

  lemma {:induction false} CanonEncodablePairs(entries: seq<Pair>, e: nat)
    requires forall p <- entries :: Encodable(p.key, e) && Encodable(p.value, e)
    ensures forall p <- CanonPairs(entries) :: Encodable(p.key, e) && Encodable(p.value, e)
    decreases entries, 0
  {
    hide HtaWire.Encodable;
    var c := CanonPairs(entries);
    forall i | 0 <= i < |entries| ensures Encodable(c[i].key, e) && Encodable(c[i].value, e) {
      assert entries[i] in entries;
      CanonEncodablePair(entries[i], e);
    }
  }

  lemma {:induction false} CanonEncodableMap(entries: seq<Pair>, e: nat)
    requires forall p <- entries :: Encodable(p.key, e) && Encodable(p.value, e)
    ensures |CanonMap(entries)| == |entries|
    ensures forall p <- CanonMap(entries) :: Encodable(p.key, e) && Encodable(p.value, e)
    decreases entries, 1
  {
    hide HtaWire.Sort, HtaWire.Wire, HtaWire.Encodable, HtaWire.KeyPair;
    var k := KeyPairs(entries);
    var c := CanonMap(entries);
    SortMembers(k);
    assert c == CanonEntries(Sort(k));
    forall i | 0 <= i < |c| ensures Encodable(c[i].key, e) && Encodable(c[i].value, e) {
      SortedMember(k, i);
      var j :| 0 <= j < |k| && k[j] == Sort(k)[i];
      assert entries[j] in entries;
      KeyPairParts(entries[j]);
      CanonEncodablePair(entries[j], e);
    }
  }

  /** A frame decodes to a listing that is written as the very same frame. */
  lemma FrameRelists(v: Value)
    requires WellFormed(v) && EncodeFrame(v).Some? && Readable(v, 0)
    ensures DecodeFrame(EncodeFrame(v).value) == Ok(Canon(v)) && EncodeFrame(Canon(v)) == EncodeFrame(v)
  {
    hide HtaWire.Read, HtaWire.Wire, HtaWire.Canon, HtaWire.Readable, HtaWire.Encodable, HtaWire.WellFormed;
    FrameRoundTrip(v);
    CanonStable(v);
    CanonEncodable(v, 0);
  }

  // ----- The two depth measures differ -----

  /** `k` structures, one inside the other. */
  function Nest(k: nat): Value {
    if k == 0 then Nil else Struct([115], [[102]], [Nest(k - 1)])
  }

  lemma {:induction false} NestSize(k: nat)
    ensures |Wire(Nest(k))| == 1 + 23 * k
  {
    hide HtaData.BE;
    if k > 0 {
      NestSize(k - 1);
      var vs, fs := [Nest(k - 1)], [[102]];
      assert vs[1..] == [] && fs[1..] == [];
      assert WireAll(vs) == Wire(vs[0]) + WireAll(vs[1..]) == Wire(Nest(k - 1));
      assert |TextWire(StringText, [102])| == 6 && TextsWire(fs) == TextWire(StringText, fs[0]) + TextsWire(fs[1..]);
      assert Wire(Nest(k)) == StructHeader([115], fs) + SequenceHeader(Vector, 1) + WireAll(vs);
    }
  }

  lemma {:induction false} NestEncodable(k: nat, depth: nat)
    ensures Encodable(Nest(k), depth) <==> depth + k <= MAX_NESTING_DEPTH
  {
    hide HtaWire.Wire;
    if k > 0 {
      NestEncodable(k - 1, depth + 1);
      var vs := [Nest(k - 1)];
      assert Nest(k) == Struct([115], [[102]], vs) && vs[0] in vs;
    }
  }

  lemma {:induction false} NestWellFormed(k: nat)
    ensures WellFormed(Nest(k))
  {
    hide HtaWire.Wire, HtaData.ValidUtf8;
    if k > 0 {
      NestWellFormed(k - 1);
      AsciiIsUtf8([115]);
      AsciiIsUtf8([102]);
      assert |[115]| != |RESULT_NAME|;
    }
  }

  lemma {:induction false} NestReadable(k: nat, depth: nat)
    ensures Readable(Nest(k), depth) <==> depth + 2 * k <= MAX_NESTING_DEPTH
  {
    hide HtaWire.Wire;
    if k > 0 {
      NestReadable(k - 1, depth + 2);
      var vs := [Nest(k - 1)];
      assert Nest(k) == Struct([115], [[102]], vs) && vs[0] in vs;
    }
  }

  /** Two hundred nested structures encode, and the decoder refuses the frame. */
  lemma EncodableButNotReadable()
    ensures WellFormed(Nest(200)) && EncodeFrame(Nest(200)).Some?
    ensures DecodeFrame(EncodeFrame(Nest(200)).value).Err?
  {
    hide Nest;
    NestSize(200);
    NestEncodable(200, 0);
    NestWellFormed(200);
    NestReadable(200, 0);
    FrameRoundTrip(Nest(200));
  }
}
