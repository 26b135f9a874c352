/** Ordered lists of strings. */
module StringOrder {
  /** Strings by their characters, a prefix first, as `sort` and `BTreeMap` order them. */
  predicate Before(a: string, b: string) {
    if b == [] then false
    else if a == [] then true
    else if a[0] != b[0] then a[0] < b[0]
    else Before(a[1..], b[1..])
  }

  predicate DiffersAt(a: string, b: string, k: int) {
    0 <= k < |a| && k < |b| && a[..k] == b[..k] && a[k] != b[k]
  }

  /** One string comes before another when it is a proper prefix, or smaller where they first differ. */
  lemma {:induction false} BeforeIs(a: string, b: string)
    ensures Before(a, b) <==> a < b || exists k :: DiffersAt(a, b, k) && a[k] < b[k]
  {
    if a != [] && b != [] {
      BeforeIs(a[1..], b[1..]);
      if a[0] == b[0] {
        StepIn(a, b);
      } else {
        assert DiffersAt(a, b, 0);
        forall k | DiffersAt(a, b, k) ensures k > 0 ==> a[0] == b[0] { SameBefore(a, b, k); }
      }
    }
  }

  lemma SameBefore(a: string, b: string, k: int)
    requires a != [] && b != [] && DiffersAt(a, b, k)
    ensures k > 0 ==> a[0] == b[0]
  {
    if k > 0 { assert a[..k][0] == b[..k][0]; }
  }

  lemma StepIn(a: string, b: string)
    requires a != [] && b != [] && a[0] == b[0]
    ensures a < b <==> a[1..] < b[1..]
    ensures (exists k :: DiffersAt(a, b, k) && a[k] < b[k]) <==>
      exists k :: DiffersAt(a[1..], b[1..], k) && a[1..][k] < b[1..][k]
  {
    var s, t := a[1..], b[1..];
    assert a == [a[0]] + s && b == [b[0]] + t;
    assert a < b <==> s < t by {
      if a < b { assert s == b[..|a|][1..] && t[..|s|] == b[..|a|][1..]; }
      if s < t { assert b[..|a|] == [b[0]] + t[..|s|]; }
    }
    if k :| DiffersAt(a, b, k) && a[k] < b[k] {
      assert k > 0 && s[..k - 1] == a[..k][1..] && t[..k - 1] == b[..k][1..];
      assert DiffersAt(s, t, k - 1);
    }
    if k :| DiffersAt(s, t, k) && s[k] < t[k] {
      assert a[..k + 1] == [a[0]] + s[..k] && b[..k + 1] == [b[0]] + t[..k];
      assert DiffersAt(a, b, k + 1);
    }
  }

  lemma {:induction false} BeforeTotal(a: string, b: string)
    ensures a != b ==> Before(a, b) || Before(b, a)
    ensures !(Before(a, b) && Before(b, a))
  {
    if a != [] && b != [] {
      BeforeTotal(a[1..], b[1..]);
      assert a == [a[0]] + a[1..] && b == [b[0]] + b[1..];
    }
  }

  lemma {:induction false} BeforeTransitive(a: string, b: string, c: string)
    requires Before(a, b) && Before(b, c)
    ensures Before(a, c)
  {
    if a != [] && a[0] == b[0] && b[0] == c[0] { BeforeTransitive(a[1..], b[1..], c[1..]); }
  }

  predicate Ascending(list: seq<string>) {
    forall i, j :: 0 <= i < j < |list| ==> Before(list[i], list[j])
  }

  /** Inserts a string where it belongs. */
  function Placed(list: seq<string>, p: string): seq<string> {
    if list == [] || Before(p, list[0]) then [p] + list
    else [list[0]] + Placed(list[1..], p)
  }

  lemma {:induction false} PlacedAscending(list: seq<string>, p: string)
    requires Ascending(list) && p !in list
    ensures Ascending(Placed(list, p))
    ensures forall q :: q in Placed(list, p) <==> q == p || q in list
  {
    hide Before;
    if list == [] {
    } else if Before(p, list[0]) {
      forall i, j | 0 <= i < j < |list| + 1 ensures Before(([p] + list)[i], ([p] + list)[j]) {
        if i == 0 && j > 1 { BeforeTransitive(p, list[0], list[j - 1]); }
      }
    } else {
      var rest := Placed(list[1..], p);
      PlacedAscending(list[1..], p);
      BeforeTotal(p, list[0]);
      forall i, j | 0 <= i < j < |rest| + 1 ensures Before(([list[0]] + rest)[i], ([list[0]] + rest)[j]) {
        if i == 0 { assert rest[j - 1] in rest; }
      }
    }
  }

  /** An ascending list holds nothing twice. */
  lemma AscendingDistinct(list: seq<string>)
    requires Ascending(list)
    ensures forall i, j :: 0 <= i < j < |list| ==> list[i] != list[j]
  {
    hide Before;
    forall i, j | 0 <= i < j < |list| ensures list[i] != list[j] {
      assert Before(list[i], list[j]);
      BeforeTotal(list[i], list[j]);
    }
  }

  /** `sort` then `dedup`. */
  function SortDedup(list: seq<string>): seq<string> {
    if list == [] then []
    else
      var rest := SortDedup(list[1..]);
      if list[0] in rest then rest else Placed(rest, list[0])
  }

  lemma {:induction false} SortDedupHolds(list: seq<string>)
    ensures Ascending(SortDedup(list)) && forall q :: q in SortDedup(list) <==> q in list
  {
    hide Before, Ascending;
    if list == [] {
      NothingAscends();
    } else {
      SortDedupHolds(list[1..]);
      var rest := SortDedup(list[1..]);
      if list[0] !in rest { PlacedAscending(rest, list[0]); }
      assert list == [list[0]] + list[1..];
    }
  }

  lemma NothingAscends()
    ensures Ascending([])
  {
  }
}
