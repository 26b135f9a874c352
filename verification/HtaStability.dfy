/** A stable sort by key is determined by what stands under each key. */
module HtaStability {
  import opened HtaData
  import opened HtaWire
  import opened HtaLaws

  /** The elements with one key, in their order. */
  function Only<T>(s: seq<Keyed<T>>, key: Bytes): seq<Keyed<T>> {
    if s == [] then [] else (if s[0].key == key then [s[0]] else []) + Only(s[1..], key)
  }

  lemma {:induction false} OnlyHolds<T>(s: seq<Keyed<T>>, key: Bytes)
    ensures forall x <- Only(s, key) :: x in s && x.key == key
    ensures forall x <- s :: x.key == key ==> x in Only(s, key)
  {
    if s != [] { OnlyHolds(s[1..], key); }
  }

  lemma {:induction false} InsertOnly<T>(x: Keyed<T>, s: seq<Keyed<T>>, key: Bytes)
    requires Sorted(s)
    ensures Only(Insert(x, s), key) == (if x.key == key then [x] else []) + Only(s, key)
  {
    hide LexLe;
    if s != [] {
      if LexLe(x.key, s[0].key) {
        assert Insert(x, s)[1..] == s;
      } else {
        var rest := Insert(x, s[1..]);
        assert Insert(x, s) == [s[0]] + rest && Insert(x, s)[1..] == rest;
        InsertOnly(x, s[1..], key);
        LexTotal(s[0].key, x.key);
        LexTotal(x.key, x.key);
      }
    } else {
      assert Insert(x, s)[1..] == [];
    }
  }

  /** Sorting keeps the order under every key. */
  lemma {:induction false} SortOnly<T>(s: seq<Keyed<T>>, key: Bytes)
    ensures Only(Sort(s), key) == Only(s, key)
  {
    hide LexLe, Insert;
    if s != [] {
      SortOnly(s[1..], key);
      SortSorted(s[1..]);
      InsertOnly(s[0], Sort(s[1..]), key);
    }
  }

  lemma HeadKey<T>(s: seq<Keyed<T>>, t: seq<Keyed<T>>)
    requires s != [] && Sorted(t) && Only(s, s[0].key) == Only(t, s[0].key)
    ensures t != [] && LexLe(t[0].key, s[0].key)
  {
    hide LexLe;
    OnlyHolds(s, s[0].key);
    OnlyHolds(t, s[0].key);
    assert s[0] in Only(t, s[0].key);
    var j :| 0 <= j < |t| && t[j] == s[0];
    LexTotal(s[0].key, s[0].key);
  }

  lemma OnlyFirst<T>(s: seq<Keyed<T>>, key: Bytes)
    requires s != []
    ensures s[0].key == key ==> Only(s, key) == [s[0]] + Only(s[1..], key)
    ensures s[0].key != key ==> Only(s, key) == Only(s[1..], key)
  {
  }

  lemma OnlyTail<T>(s: seq<Keyed<T>>, t: seq<Keyed<T>>, key: Bytes)
    requires s != [] && t != [] && s[0].key == t[0].key && Only(s, key) == Only(t, key)
    ensures Only(s[1..], key) == Only(t[1..], key)
  {
    hide Only;
    OnlyFirst(s, key);
    OnlyFirst(t, key);
    if s[0].key == key {
      assert Only(s, key)[1..] == Only(s[1..], key) && Only(t, key)[1..] == Only(t[1..], key);
    }
  }

  lemma {:induction false} OnlyUnique<T>(s: seq<Keyed<T>>, t: seq<Keyed<T>>)
    requires Sorted(s) && Sorted(t) && forall key :: Only(s, key) == Only(t, key)
    ensures s == t
  {
    hide LexLe, Only;
    if s != [] { HeadKey(s, t); }
    if t != [] { HeadKey(t, s); }
    if s != [] {
      LexAntisymmetric(s[0].key, t[0].key);
      FirstOnly(s);
      FirstOnly(t);
      forall key ensures Only(s[1..], key) == Only(t[1..], key) { OnlyTail(s, t, key); }
      OnlyUnique(s[1..], t[1..]);
      assert s == [s[0]] + s[1..] && t == [t[0]] + t[1..];
    }
  }

  lemma FirstOnly<T>(s: seq<Keyed<T>>)
    requires s != []
    ensures Only(s, s[0].key) != [] && Only(s, s[0].key)[0] == s[0]
  {
  }

  lemma SortByKeys<T>(s: seq<Keyed<T>>, t: seq<Keyed<T>>)
    requires forall key :: Only(s, key) == Only(t, key)
    ensures Sort(s) == Sort(t)
  {
    hide Sort, Only, LexLe;
    SortSorted(s);
    SortSorted(t);
    forall key ensures Only(Sort(s), key) == Only(Sort(t), key) {
      SortOnly(s, key);
      SortOnly(t, key);
    }
    OnlyUnique(Sort(s), Sort(t));
  }

  // ----- Elements under a key that are all alike -----

  lemma {:induction false} OnlyCount<T>(s: seq<Keyed<T>>, key: Bytes, x: Keyed<T>)
    requires x.key == key
    ensures multiset(Only(s, key))[x] == multiset(s)[x]
  {
    if s != [] {
      OnlyCount(s[1..], key, x);
      assert s == [s[0]] + s[1..];
    }
  }

  lemma {:induction false} AllAlike<T>(s: seq<Keyed<T>>, x: Keyed<T>)
    requires forall y <- s :: y == x
    ensures multiset(s)[x] == |s|
  {
    if s != [] {
      assert forall y <- s[1..] :: y in s;
      AllAlike(s[1..], x);
      assert s == [s[0]] + s[1..] && s[0] in s;
    }
  }

  lemma NoneLeft<T>(s: seq<Keyed<T>>)
    ensures s == [] || exists i :: 0 <= i < |s| && s[i] in s
  {
    if s != [] { assert s[0] in s; }
  }

  /** Two arrangements agree under a key whose elements are all alike. */
  lemma AlikeOnly<T>(s: seq<Keyed<T>>, t: seq<Keyed<T>>, key: Bytes)
    requires multiset(s) == multiset(t)
    requires forall x, y :: x in s && y in s && x.key == key && y.key == key ==> x == y
    ensures Only(s, key) == Only(t, key)
  {
    hide Only;
    OnlyHolds(s, key);
    OnlyHolds(t, key);
    forall x | x in t ensures x in s { assert x in multiset(t); }
    if Only(s, key) == [] {
      assert forall x <- Only(t, key) :: x in Only(s, key);
      NoneLeft(Only(t, key));
    } else {
      var x := Only(s, key)[0];
      assert forall y <- Only(s, key) :: y == x;
      assert forall y <- Only(t, key) :: y == x;
      OnlyCount(s, key, x);
      OnlyCount(t, key, x);
      AllAlike(Only(s, key), x);
      AllAlike(Only(t, key), x);
      forall i | 0 <= i < |Only(s, key)| ensures Only(s, key)[i] == Only(t, key)[i] {
        assert Only(s, key)[i] in Only(s, key) && Only(t, key)[i] in Only(t, key);
      }
    }
  }
}
