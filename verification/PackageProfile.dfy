/** Namespace ownership of packages and the check of a whole profile (`package_catalog.rs`). */
module PackageProfile {
  import opened Prelude
  import opened StringOrder
  import opened PackageGraph
  import opened PackageMeaning
  import opened PackageOrders

  datatype Mode = Base | Complete | Exclude(roots: seq<string>)

  datatype Selector = Selector(namespace: string, mode: Mode)

  datatype Definition = Definition(package: Package, selectors: seq<Selector>)

  datatype ProfileError = Overlap(namespace: string) | Unordered(error: Error)

  /** A namespace itself or one below it. */
  predicate Within(root: string, namespace: string) { namespace == root || root + "." <= namespace }

  /** `selector_matches`. */
  predicate Selects(s: Selector, namespace: string) {
    match s.mode
    case Complete => Within(s.namespace, namespace)
    case Base => namespace == s.namespace || s.namespace + ".base." <= namespace
    case Exclude(roots) => Within(s.namespace, namespace) && forall r <- roots :: !Within(r, namespace)
  }

  /** The namespaces of a source tree that a package owns. */
  predicate Owns(d: Definition, available: seq<string>, namespace: string) {
    namespace in available && exists i :: 0 <= i < |d.selectors| && Selects(d.selectors[i], namespace)
  }

  /** `package_namespaces`: what each selector picks, gathered, sorted, each once. */
  method PackageNamespaces(d: Definition, available: seq<string>) returns (owned: seq<string>)
    ensures Ascending(owned) && forall n :: n in owned <==> Owns(d, available, n)
  {
    hide Before, Ascending, Selects;
    var found: seq<string> := [];
    var i := 0;
    while i < |d.selectors|
      invariant 0 <= i <= |d.selectors|
      invariant forall n :: n in found <==> n in available && exists k :: 0 <= k < i && Selects(d.selectors[k], n)
    {
      var picked := Expand(d.selectors[i], available);
      found := found + picked;
      i := i + 1;
    }
    SortDedupHolds(found);
    owned := SortDedup(found);
  }

  /** `expand_selector`. */
  method Expand(s: Selector, available: seq<string>) returns (picked: seq<string>)
    ensures Ascending(picked) && forall n :: n in picked <==> n in available && Selects(s, n)
  {
    hide Before, Ascending, Selects;
    var found: seq<string> := [];
    var i := 0;
    while i < |available|
      invariant 0 <= i <= |available|
      invariant forall n :: n in found <==> n in available[..i] && Selects(s, n)
    {
      if Selects(s, available[i]) { found := found + [available[i]]; }
      assert available[..i + 1] == available[..i] + [available[i]];
      i := i + 1;
    }
    assert available[..i] == available;
    SortDedupHolds(found);
    picked := SortDedup(found);
  }

  /** No namespace belongs to two of the first packages. */
  ghost predicate Disjoint(ds: seq<Definition>, available: seq<string>) {
    forall i, j, n :: 0 <= i < j < |ds| && Owns(ds[i], available, n) ==> !Owns(ds[j], available, n)
  }

  function Packages(ds: seq<Definition>): seq<Package> { seq(|ds|, i requires 0 <= i < |ds| => ds[i].package) }

  function NamesOf(ds: seq<Definition>): seq<string> { seq(|ds|, i requires 0 <= i < |ds| => ds[i].package.name) }

  /** A profile is in order exactly when ownership is disjoint and no package needs anything unclear or circular. */
  ghost predicate InOrder(ds: seq<Definition>, available: seq<string>) {
    Disjoint(ds, available) && forall i :: 0 <= i < |ds| ==> Sortable(Packages(ds), ds[i].package.name)
  }

  /** Every package of a profile is named by its own name and no other. */
  lemma NamesItself(ds: seq<Definition>, i: nat, b: string)
    requires i < |ds|
    ensures Names(Packages(ds), ds[i].package.name, b) <==> b == ds[i].package.name
  {
    hide Fits;
    assert Packages(ds)[i] in Packages(ds);
  }

  lemma WholeOrder(ds: seq<Definition>)
    ensures Order(Packages(ds), NamesOf(ds)).Ok? <==>
      forall i :: 0 <= i < |ds| ==> Sortable(Packages(ds), ds[i].package.name)
  {
    hide Order, Sortable, Names;
    var list, names := Packages(ds), NamesOf(ds);
    OrderExactly(list, names);
    forall i | 0 <= i < |ds|
      ensures names[i] in names
      ensures (exists b :: Names(list, names[i], b) && Sortable(list, b)) <==> Sortable(list, ds[i].package.name)
    {
      NamesItself(ds, i, ds[i].package.name);
      if b :| Names(list, names[i], b) && Sortable(list, b) { NamesItself(ds, i, b); }
    }
    forall t | t in names ensures exists i :: 0 <= i < |ds| && names[i] == t {}
  }

  /** `validate_package_definitions`. */
  method ValidateDefinitions(ds: seq<Definition>, available: seq<string>) returns (r: Result<(), ProfileError>)
    ensures r.Ok? <==> InOrder(ds, available)
    ensures r.Err? && r.error.Overlap? ==>
      var name := r.error.namespace;
      exists i, j :: 0 <= i < j < |ds| && Owns(ds[i], available, name) && Owns(ds[j], available, name)
  {
    hide Owns, Sortable, Order, Ascending;
    var owners: set<string> := {};
    var i := 0;
    while i < |ds|
      invariant 0 <= i <= |ds|
      invariant forall n :: n in owners <==> exists k :: 0 <= k < i && Owns(ds[k], available, n)
      invariant forall k, j, n :: 0 <= k < j < i && Owns(ds[k], available, n) ==> !Owns(ds[j], available, n)
    {
      var owned := PackageNamespaces(ds[i], available);
      AscendingDistinct(owned);
      ghost var before := owners;
      var k := 0;
      while k < |owned|
        invariant 0 <= k <= |owned|
        invariant owners == before + (set x | x in owned[..k])
        invariant forall x | x in owned[..k] :: x !in before
      {
        assert owned[k] in owned;
        assert owned[k] !in owned[..k];
        if owned[k] in owners {
          assert Owns(ds[i], available, owned[k]);
          return Err(Overlap(owned[k]));
        }
        owners := owners + {owned[k]};
        assert owned[..k + 1] == owned[..k] + [owned[k]];
        k := k + 1;
      }
      assert owned[..k] == owned;
      i := i + 1;
    }
    WholeOrder(ds);
    var order := PackageDependencyOrder(Packages(ds), NamesOf(ds));
    if order.Err? { return Err(Unordered(order.error)); }
    return Ok(());
  }
}
