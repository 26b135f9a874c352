/** Soundness and completeness of the dependency order. */
module PackageLaws {
  import opened Prelude
  import opened PackageGraph

  /** What every visit keeps. */
  ghost predicate Kept(defs: Definitions, st: State) {
    DependencyOrdered(defs, st.ordered) && (forall x :: x in st.visited <==> x in st.ordered) &&
    st.visited !! st.visiting
  }

  lemma OrderedMore(defs: Definitions, list: seq<string>, name: string)
    requires DependencyOrdered(defs, list) && name !in list && Settled(defs, name, list)
    ensures DependencyOrdered(defs, list + [name])
  {
    hide Settled;
    var more := list + [name];
    forall i | 0 <= i < |more| ensures more[i] !in more[..i] && Settled(defs, more[i], more[..i]) {
      if i < |list| { assert more[..i] == list[..i]; } else { assert more[..i] == list; }
    }
  }

  lemma {:induction false} VisitSound(defs: Definitions, name: string, st: State)
    requires Kept(defs, st) && Visit(defs, name, st).Ok?
    ensures var s := Visit(defs, name, st).value;
      Kept(defs, s) && st.ordered <= s.ordered && name in s.visited
    decreases |defs.Keys - st.visiting|, 0, 0
  {
    hide Deps, DependencyOrdered, VisitAll;
    if name !in st.visited {
      var deps := Deps(defs, name).value;
      var inner := st.(visiting := st.visiting + {name});
      Fewer(defs.Keys, st.visiting, name);
      VisitAllSound(defs, deps, inner);
      var s := VisitAll(defs, deps, inner).value;
      assert Settled(defs, name, s.ordered);
      assert name !in s.ordered;
      OrderedMore(defs, s.ordered, name);
    }
  }

  lemma {:induction false} VisitAllSound(defs: Definitions, names: seq<string>, st: State)
    requires Kept(defs, st) && VisitAll(defs, names, st).Ok?
    ensures var s := VisitAll(defs, names, st).value;
      Kept(defs, s) && st.ordered <= s.ordered && forall d | d in names :: d in s.visited
    decreases |defs.Keys - st.visiting|, 1, |names|
  {
    hide Visit, DependencyOrdered;
    if names != [] {
      VisitSound(defs, names[0], st);
      var s := Visit(defs, names[0], st).value;
      VisitAllSound(defs, names[1..], s);
      assert names == [names[0]] + names[1..];
    }
  }

  // ----- Reach -----

  lemma ReachesSelf(defs: Definitions, a: string)
    ensures Reaches(defs, a, a)
  {
    var path := [a];
    assert path[0] == a && path[|path| - 1] == a && Chain(defs, path);
  }

  lemma ReachesOn(defs: Definitions, a: string, b: string, c: string)
    requires Reaches(defs, a, b) && Edge(defs, b, c)
    ensures Reaches(defs, a, c)
  {
    hide Edge;
    var path :| path != [] && path[0] == a && path[|path| - 1] == b && Chain(defs, path);
    var more := path + [c];
    assert more[0] == a && more[|more| - 1] == c && Chain(defs, more);
  }

  lemma {:induction false} VisitReaches(defs: Definitions, root: string, name: string, st: State)
    requires Visit(defs, name, st).Ok? && Reaches(defs, root, name)
    ensures forall x | x in Visit(defs, name, st).value.visited :: x in st.visited || Reaches(defs, root, x)
    decreases |defs.Keys - st.visiting|, 0, 0
  {
    hide Deps, Reaches, VisitAll;
    if name !in st.visited {
      var deps := Deps(defs, name).value;
      Fewer(defs.Keys, st.visiting, name);
      forall d | d in deps ensures Reaches(defs, root, d) {
        ReachesOn(defs, root, name, d);
      }
      VisitAllReaches(defs, root, deps, st.(visiting := st.visiting + {name}));
    }
  }

  lemma {:induction false} VisitAllReaches(defs: Definitions, root: string, names: seq<string>, st: State)
    requires VisitAll(defs, names, st).Ok? && forall d | d in names :: Reaches(defs, root, d)
    ensures forall x | x in VisitAll(defs, names, st).value.visited :: x in st.visited || Reaches(defs, root, x)
    decreases |defs.Keys - st.visiting|, 1, |names|
  {
    hide Visit, Reaches;
    if names != [] {
      VisitReaches(defs, root, names[0], st);
      var s := Visit(defs, names[0], st).value;
      VisitAllReaches(defs, root, names[1..], s);
    }
  }

  // ----- Failures have a cause -----

  /** A cycle below the root, or a package below it with an unclear dependency. */
  ghost predicate Justified(defs: Definitions, root: string, e: Error) {
    match e
    case Cycle(n) => OnCycle(defs, n) && Reaches(defs, root, n)
    case Ambiguous(_) => exists p :: Reaches(defs, root, p) && p in defs && Deps(defs, p) == Err(e)
    case NotDefined(_) => false
  }

  lemma {:induction false} ResolvedFails(defs: Definitions, names: seq<string>)
    ensures Resolved(defs, names).Err? ==> Resolved(defs, names).error.Ambiguous?
  {
    hide Resolve;
    if names != [] { ResolvedFails(defs, names[1..]); }
  }

  lemma DepsFail(defs: Definitions, name: string)
    requires name in defs && Deps(defs, name).Err?
    ensures Deps(defs, name).error.Ambiguous?
  {
    ResolvedFails(defs, defs[name]);
  }

  /** The names being visited, outermost first, as a chain that ends at the one visited now. */
  ghost predicate Stack(defs: Definitions, stack: seq<string>, name: string, visiting: set<string>) {
    Chain(defs, stack + [name]) && forall x :: x in visiting <==> x in stack
  }

  lemma StackCycle(defs: Definitions, stack: seq<string>, name: string)
    requires Chain(defs, stack + [name]) && name in stack
    ensures OnCycle(defs, name)
  {
    hide Edge;
    var k :| 0 <= k < |stack| && stack[k] == name;
    var all := stack + [name];
    var loop := all[k..];
    forall i | 0 <= i < |loop| - 1 ensures Edge(defs, loop[i], loop[i + 1]) {
      assert loop[i] == all[k + i] && loop[i + 1] == all[k + i + 1];
    }
    assert |loop| >= 2 && loop[0] == name && loop[|loop| - 1] == name && Chain(defs, loop);
  }

  lemma StackReaches(defs: Definitions, stack: seq<string>, name: string)
    requires Chain(defs, stack + [name])
    ensures Reaches(defs, (stack + [name])[0], name)
  {
    var path := stack + [name];
    assert path[|path| - 1] == name;
  }

  lemma StackDeeper(defs: Definitions, stack: seq<string>, name: string, visiting: set<string>, d: string)
    requires Stack(defs, stack, name, visiting) && Edge(defs, name, d)
    ensures Stack(defs, stack + [name], d, visiting + {name})
    ensures (stack + [name] + [d])[0] == (stack + [name])[0]
  {
    hide Edge;
    var a, b := stack + [name], stack + [name] + [d];
    forall i | 0 <= i < |b| - 1 ensures Edge(defs, b[i], b[i + 1]) {
      if i + 1 < |a| { assert b[i] == a[i] && b[i + 1] == a[i + 1]; }
    }
  }

  lemma {:induction false} VisitFails(defs: Definitions, name: string, st: State, stack: seq<string>)
    requires name in defs && Stack(defs, stack, name, st.visiting) && Visit(defs, name, st).Err?
    ensures Justified(defs, (stack + [name])[0], Visit(defs, name, st).error)
    decreases |defs.Keys - st.visiting|, 0, 0
  {
    var root := (stack + [name])[0];
    StackReaches(defs, stack, name);
    if name in st.visiting {
      StackCycle(defs, stack, name);
    } else if Deps(defs, name).Err? {
      DepsFail(defs, name);
    } else {
      hide Deps, VisitAll, Stack, Justified;
      var deps := Deps(defs, name).value;
      Fewer(defs.Keys, st.visiting, name);
      forall d | d in deps ensures Stack(defs, stack + [name], d, st.visiting + {name}) && d in defs {
        StackDeeper(defs, stack, name, st.visiting, d);
      }
      VisitAllFails(defs, deps, st.(visiting := st.visiting + {name}), stack + [name]);
    }
  }

  lemma {:induction false} VisitAllFails(defs: Definitions, names: seq<string>, st: State, stack: seq<string>)
    requires VisitAll(defs, names, st).Err? && stack != []
    requires forall d | d in names :: d in defs && Stack(defs, stack, d, st.visiting)
    ensures Justified(defs, stack[0], VisitAll(defs, names, st).error)
    decreases |defs.Keys - st.visiting|, 1, |names|
  {
    hide Visit, Stack, Justified;
    var first := Visit(defs, names[0], st);
    assert names[0] in names;
    if first.Err? {
      VisitFails(defs, names[0], st, stack);
      assert (stack + [names[0]])[0] == stack[0];
    } else {
      forall d | d in names[1..] ensures d in defs && Stack(defs, stack, d, first.value.visiting) {
        assert d in names;
      }
      VisitAllFails(defs, names[1..], first.value, stack);
    }
  }

  // ----- An order rules out cycles -----

  /** Following dependencies goes back in the list. */
  lemma {:induction false} ChainDescends(defs: Definitions, list: seq<string>, i: nat, path: seq<string>)
    requires DependencyOrdered(defs, list) && i < |list| && path != [] && path[0] == list[i] && Chain(defs, path)
    ensures path[|path| - 1] in list[..i + 1]
    ensures |path| >= 2 ==> path[|path| - 1] in list[..i]
    decreases |path|
  {
    hide Deps;
    if |path| == 1 {
      assert list[..i + 1][i] == list[i];
    } else {
      assert Edge(defs, path[0], path[1]);
      assert Settled(defs, list[i], list[..i]);
      var j :| 0 <= j < i && list[..i][j] == path[1];
      var rest := path[1..];
      assert Chain(defs, rest) by {
        forall k | 0 <= k < |rest| - 1 ensures Edge(defs, rest[k], rest[k + 1]) {
          assert rest[k] == path[k + 1] && rest[k + 1] == path[k + 2];
          assert Edge(defs, path[k + 1], path[k + 1 + 1]);
        }
      }
      ChainDescends(defs, list, j, rest);
      assert rest[|rest| - 1] == path[|path| - 1];
      var m :| 0 <= m < j + 1 && list[..j + 1][m] == path[|path| - 1];
      assert list[..i][m] == path[|path| - 1];
      assert list[..i + 1][m] == path[|path| - 1];
    }
  }

  lemma ListedIsOrderable(defs: Definitions, list: seq<string>, name: string)
    requires DependencyOrdered(defs, list) && name in list
    ensures Orderable(defs, name)
    ensures forall n | Reaches(defs, name, n) :: n in list
  {
    hide Deps, DependencyOrdered;
    var i :| 0 <= i < |list| && list[i] == name;
    forall n | Reaches(defs, name, n) ensures n in list && (n in defs ==> Deps(defs, n).Ok? && !OnCycle(defs, n)) {
      var path :| path != [] && path[0] == name && path[|path| - 1] == n && Chain(defs, path);
      ChainDescends(defs, list, i, path);
      assert n in list;
      ListedIsClear(defs, list, n);
    }
  }

  lemma ListedIsClear(defs: Definitions, list: seq<string>, n: string)
    requires DependencyOrdered(defs, list) && n in list
    ensures n in defs && Deps(defs, n).Ok? && !OnCycle(defs, n)
  {
    hide Deps, Chain;
    var j :| 0 <= j < |list| && list[j] == n;
    assert Settled(defs, list[j], list[..j]);
    forall path | |path| >= 2 && path[0] == n && path[|path| - 1] == n ensures !Chain(defs, path) {
      if Chain(defs, path) { ChainDescends(defs, list, j, path); }
    }
  }

  // ----- The whole order -----

  /** Every target names one definition. */
  ghost predicate Resolvable(defs: Definitions, targets: seq<string>) {
    forall t | t in targets :: Resolve(defs, t).Internal?
  }

  lemma {:induction false} OrderFromSound(defs: Definitions, targets: seq<string>, st: State)
    requires Kept(defs, st) && OrderFrom(defs, targets, st).Ok?
    ensures var s := OrderFrom(defs, targets, st).value;
      Kept(defs, s) && st.ordered <= s.ordered && s.visiting == st.visiting && Resolvable(defs, targets) &&
      (forall t | t in targets :: Resolve(defs, t).Internal? && Resolve(defs, t).name in s.visited) &&
      forall x | x in s.visited :: x in st.visited || FromTarget(defs, targets, x)
    decreases |targets|
  {
    hide Visit, Resolve, DependencyOrdered, Reaches;
    if targets != [] {
      var n := Resolve(defs, targets[0]).name;
      VisitSound(defs, n, st);
      ReachesSelf(defs, n);
      VisitReaches(defs, n, n, st);
      var s := Visit(defs, n, st).value;
      OrderFromSound(defs, targets[1..], s);
      assert targets == [targets[0]] + targets[1..];
      forall x | x in OrderFrom(defs, targets, st).value.visited
        ensures x in st.visited || FromTarget(defs, targets, x)
      {
        if FromTarget(defs, targets[1..], x) {
          var t :| t in targets[1..] && Resolve(defs, t).Internal? && Reaches(defs, Resolve(defs, t).name, x);
          assert t in targets;
        } else if x !in st.visited {
          assert targets[0] in targets;
        }
      }
    }
  }

  /** Reached from some target. */
  ghost predicate FromTarget(defs: Definitions, targets: seq<string>, x: string) {
    exists t :: t in targets && Resolve(defs, t).Internal? && Reaches(defs, Resolve(defs, t).name, x)
  }

  /** A failing order has a target that is not one definition, or a cause below a target. */
  lemma {:induction false} OrderFromFails(defs: Definitions, targets: seq<string>, st: State)
    requires OrderFrom(defs, targets, st).Err? && st.visiting == {}
    ensures exists t ::
      t in targets &&
      if Resolve(defs, t).Internal? then Justified(defs, Resolve(defs, t).name, OrderFrom(defs, targets, st).error)
      else OrderFrom(defs, targets, st).error == NotDefined(t)
    decreases |targets|
  {
    hide Visit, Resolve, Justified;
    assert targets[0] in targets;
    if Resolve(defs, targets[0]).Internal? {
      var n := Resolve(defs, targets[0]).name;
      if Visit(defs, n, st).Err? {
        assert n in defs by { ResolvedIsDefined(defs, targets[0]); }
        assert Stack(defs, [], n, {});
        VisitFails(defs, n, st, []);
        assert ([] + [n])[0] == n;
      } else {
        OrderFromFails(defs, targets[1..], Visit(defs, n, st).value);
        var e := OrderFrom(defs, targets, st).error;
        var t :| t in targets[1..] &&
          if Resolve(defs, t).Internal? then Justified(defs, Resolve(defs, t).name, e) else e == NotDefined(t);
        assert t in targets;
      }
    }
  }

  lemma ResolvedIsDefined(defs: Definitions, d: string)
    requires Resolve(defs, d).Internal?
    ensures Resolve(defs, d).name in defs
  {
  }

  lemma StartKept(defs: Definitions)
    ensures Kept(defs, START)
  {
  }

  /** An order lists exactly what the targets reach, each once, dependencies first. */
  lemma ListSound(list: seq<Package>, targets: seq<string>)
    requires Order(list, targets).Ok?
    ensures var defs, order := Collect(list), Order(list, targets).value;
      DependencyOrdered(defs, order) && forall x :: x in order <==> FromTarget(defs, targets, x)
  {
    hide DependencyOrdered, Reaches, OrderFrom;
    var defs, order := Collect(list), Order(list, targets).value;
    StartKept(defs);
    OrderFromSound(defs, targets, START);
    forall x ensures x in order <==> FromTarget(defs, targets, x) {
      if FromTarget(defs, targets, x) {
        var t :| t in targets && Resolve(defs, t).Internal? && Reaches(defs, Resolve(defs, t).name, x);
        ListedIsOrderable(defs, order, Resolve(defs, t).name);
      }
    }
  }

  /** There is an order exactly when every target is one definition and nothing it reaches is unclear or on a cycle. */
  lemma ListExactly(list: seq<Package>, targets: seq<string>)
    ensures var defs := Collect(list);
      Order(list, targets).Ok? <==>
      Resolvable(defs, targets) && forall t | t in targets :: Orderable(defs, Resolve(defs, t).name)
  {
    var defs := Collect(list);
    if Order(list, targets).Ok? {
      hide DependencyOrdered, Reaches, OrderFrom, Orderable, Resolve;
      StartKept(defs);
      OrderFromSound(defs, targets, START);
      var order := Order(list, targets).value;
      forall t | t in targets ensures Orderable(defs, Resolve(defs, t).name) {
        ListedIsOrderable(defs, order, Resolve(defs, t).name);
      }
    } else {
      OrderFromFails(defs, targets, START);
      hide OrderFrom, Resolve, Reaches, OnCycle, Deps;
      var e := OrderFrom(defs, targets, START).error;
      var t :| t in targets &&
        if Resolve(defs, t).Internal? then Justified(defs, Resolve(defs, t).name, e) else e == NotDefined(t);
      if Resolve(defs, t).Internal? { CauseBlocks(defs, Resolve(defs, t).name, e); }
    }
  }

  /** A cause for failure and an orderable name exclude each other. */
  lemma CauseBlocks(defs: Definitions, name: string, e: Error)
    requires Justified(defs, name, e)
    ensures !Orderable(defs, name)
  {
    hide Reaches, Deps;
    match e
    case Cycle(n) => CycleIsDefined(defs, n);
    case Ambiguous(_) =>
      var p :| Reaches(defs, name, p) && p in defs && Deps(defs, p) == Err(e);
  }

  lemma CycleIsDefined(defs: Definitions, n: string)
    requires OnCycle(defs, n)
    ensures n in defs
  {
    hide Deps;
    var path :| |path| >= 2 && path[0] == n && path[|path| - 1] == n && Chain(defs, path);
    assert Edge(defs, path[0], path[0 + 1]);
  }

  /** An error names its cause. */
  lemma ListError(list: seq<Package>, targets: seq<string>)
    requires Order(list, targets).Err?
    ensures exists t ::
      t in targets &&
      if Resolve(Collect(list), t).Internal?
      then Justified(Collect(list), Resolve(Collect(list), t).name, Order(list, targets).error)
      else Order(list, targets).error == NotDefined(t)
  {
    OrderFromFails(Collect(list), targets, START);
  }
}
