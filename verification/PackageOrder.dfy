/** `package_dependency_order` as it runs: two sets and a list updated by a recursive visit. */
module PackageOrders {
  import opened Prelude
  import opened StringOrder
  import opened PackageGraph
  import opened PackageMeaning

  class PackageOrder {
    const definitions: Definitions
    var visiting: set<string>
    var visited: set<string>
    var ordered: seq<string>

    ghost function Now(): State
      reads this
    {
      State(visiting, visited, ordered)
    }

    constructor (definitions: Definitions)
      ensures this.definitions == definitions && Now() == START
    {
      this.definitions := definitions;
      visiting, visited, ordered := {}, {}, [];
    }

    /** The definitions whose name or last part is `suffix`. */
    method Candidates(suffix: string) returns (found: set<string>)
      ensures found == Matches(definitions, suffix)
    {
      found := {};
      var todo := definitions.Keys;
      while todo != {}
        invariant todo <= definitions.Keys
        invariant found == set n | n in definitions && n !in todo && MatchesSuffix(n, suffix)
        decreases |todo|
      {
        var n :| n in todo;
        if MatchesSuffix(n, suffix) { found := found + {n}; }
        todo := todo - {n};
      }
    }

    method ResolveName(d: string) returns (r: Resolution)
      ensures r == Resolve(definitions, d)
    {
      if d in definitions { return Internal(d); }
      var found := Candidates(Suffix(d));
      if found == {} { return External; }
      var n :| n in found;
      if found == {n} { return Internal(n); }
      return Unclear;
    }

    method Dependencies(name: string) returns (r: Result<seq<string>, Error>)
      requires name in definitions
      ensures r == Deps(definitions, name)
    {
      hide Resolve, SortDedup;
      var names := definitions[name];
      var found: seq<string> := [];
      var i := 0;
      assert names[0..] == names;
      ghost var all := Resolved(definitions, names);
      assert all.Ok? ==> [] + all.value == all.value;
      while i < |names|
        invariant 0 <= i <= |names|
        invariant Resolved(definitions, names) ==
          match Resolved(definitions, names[i..])
          case Err(e) => Err(e)
          case Ok(rest) => Ok(found + rest)
      {
        assert names[i..][1..] == names[i + 1..];
        var d := ResolveName(names[i]);
        if d.Unclear? { return Err(Ambiguous(names[i])); }
        if d.Internal? {
          ghost var rest := Resolved(definitions, names[i + 1..]);
          assert rest.Ok? ==> found + ([d.name] + rest.value) == found + [d.name] + rest.value;
          found := found + [d.name];
        }
        i := i + 1;
      }
      assert found + [] == found;
      return Ok(SortDedup(found));
    }

    method VisitName(name: string) returns (r: Result<(), Error>)
      modifies this
      ensures r.Ok? ==> Visit(definitions, name, old(Now())) == Ok(Now())
      ensures r.Err? ==> Visit(definitions, name, old(Now())) == Err(r.error)
      decreases |definitions.Keys - visiting|, 0
    {
      hide Deps, VisitAll;
      if name in visited { return Ok(()); }
      if name in visiting { return Err(Cycle(name)); }
      visiting := visiting + {name};
      if name !in definitions { return Err(NotDefined(name)); }
      Fewer(definitions.Keys, old(visiting), name);
      var found := Dependencies(name);
      if found.Err? { return Err(found.error); }
      var deps := found.value;
      ghost var start := Now();
      var i := 0;
      assert deps[0..] == deps;
      while i < |deps|
        invariant 0 <= i <= |deps| && visiting == start.visiting
        invariant VisitAll(definitions, deps[i..], Now()) == VisitAll(definitions, deps, start)
      {
        VisitAllStep(definitions, deps, i, Now());
        var one := VisitName(deps[i]);
        if one.Err? { return one; }
        i := i + 1;
      }
      VisitAllDone(definitions, deps, Now());
      visiting := visiting - {name};
      visited := visited + {name};
      ordered := ordered + [name];
      return Ok(());
    }
  }

  lemma VisitAllStep(defs: Definitions, names: seq<string>, i: nat, st: State)
    requires i < |names|
    ensures VisitAll(defs, names[i..], st) ==
      match Visit(defs, names[i], st)
      case Err(e) => Err(e)
      case Ok(s) => VisitAll(defs, names[i + 1..], s)
  {
    assert names[i..][1..] == names[i + 1..];
    hide Visit;
  }

  lemma VisitAllDone(defs: Definitions, names: seq<string>, st: State)
    ensures VisitAll(defs, names[|names|..], st) == Ok(st)
  {
  }

  /** The order of some targets and all they need, or why there is none. */
  method PackageDependencyOrder(list: seq<Package>, targets: seq<string>) returns (r: Result<seq<string>, Error>)
    ensures r == Order(list, targets)
    ensures r.Ok? <==> forall t <- targets :: exists b :: Names(list, t, b) && Sortable(list, b)
    ensures r.Ok? ==> DependenciesFirst(list, r.value) && forall x :: x in r.value <==> Wanted(list, targets, x)
    ensures r.Err? ==>
      exists t <- targets ::
        || (r.error == NotDefined(t) && forall b :: !Names(list, t, b))
        || exists b :: Names(list, t, b) && Blames(list, b, r.error)
  {
    hide DependenciesFirst, Sortable, Names, Wanted, Blames, Order;
    r := Ordered(list, targets);
    OrderExactly(list, targets);
    if r.Ok? { OrderSound(list, targets); } else { OrderError(list, targets); }
  }

  /** The visits of all targets in turn. */
  method Ordered(list: seq<Package>, targets: seq<string>) returns (r: Result<seq<string>, Error>)
    ensures r == Order(list, targets)
  {
    hide Resolve, Visit;
    var defs := Gather(list);
    var run := new PackageOrder(defs);
    var i := 0;
    assert targets[0..] == targets;
    while i < |targets|
      invariant 0 <= i <= |targets| && run.definitions == defs
      invariant fresh(run)
      invariant OrderFrom(defs, targets[i..], run.Now()) == OrderFrom(defs, targets, START)
    {
      assert targets[i..][1..] == targets[i + 1..];
      var target := run.ResolveName(targets[i]);
      if !target.Internal? { return Err(NotDefined(targets[i])); }
      var one := run.VisitName(target.name);
      if one.Err? { return Err(one.error); }
      i := i + 1;
    }
    return Ok(run.ordered);
  }

  /** Definitions collected by name. */
  method Gather(list: seq<Package>) returns (defs: Definitions)
    ensures defs == Collect(list)
  {
    defs := map[];
    var i := 0;
    assert list[..0] == [];
    while i < |list|
      invariant 0 <= i <= |list| && defs == Collect(list[..i])
    {
      assert list[..i + 1][..i] == list[..i] && list[..i + 1][i] == list[i];
      defs := defs[list[i].name := list[i].dependencies];
      i := i + 1;
    }
    assert list[..i] == list;
  }
}
