/**
 What depends on what, said of the packages as they are listed: by the names in
 them and the last parts of those names.  The laws of the order are stated over
 this relation and nothing that the order itself computes.
 */
module PackageMeaning {
  import opened Prelude
  import opened StringOrder
  import opened PackageGraph
  import opened PackageLaws

  // ----- Names -----

  /** `d` ends in a slash and `t`. */
  predicate EndsIn(d: string, t: string) { |d| > |t| && d[|d| - |t| - 1] == '/' && d[|d| - |t|..] == t }

  /** `t` is the last part of `d`: all of it, or what follows its last slash. */
  predicate LastPart(d: string, t: string) { '/' !in t && (d == t || EndsIn(d, t)) }

  /** Two names with the same last part. */
  ghost predicate Fits(key: string, d: string) { exists t :: LastPart(key, t) && LastPart(d, t) }

  predicate Defined(list: seq<Package>, name: string) { exists p <- list :: p.name == name }

  /** The last definition of a name. */
  predicate Defines(list: seq<Package>, i: int, name: string) {
    0 <= i < |list| && list[i].name == name && forall j :: i < j < |list| ==> list[j].name != name
  }

  /** `d` names the package `b`: the one of that name, or else the only one whose last part is that of `d`. */
  ghost predicate Names(list: seq<Package>, d: string, b: string) {
    && Defined(list, b)
    && if Defined(list, d) then b == d else Fits(b, d) && forall c | Defined(list, c) && Fits(c, d) :: c == b
  }

  /** `d` is no package and fits two. */
  ghost predicate Vague(list: seq<Package>, d: string) {
    !Defined(list, d) && exists b, c :: b != c && Defined(list, b) && Fits(b, d) && Defined(list, c) && Fits(c, d)
  }

  // ----- Dependence -----

  ghost predicate DependsOn(list: seq<Package>, a: string, b: string) {
    exists i, d :: Defines(list, i, a) && d in list[i].dependencies && Names(list, d, b)
  }

  /** A package one of whose dependencies fits two. */
  ghost predicate Unclear(list: seq<Package>, a: string) {
    exists i, d :: Defines(list, i, a) && d in list[i].dependencies && Vague(list, d)
  }

  ghost predicate Path(list: seq<Package>, path: seq<string>) {
    path != [] && forall i :: 0 <= i < |path| - 1 ==> DependsOn(list, path[i], path[i + 1])
  }

  /** `b` is `a` or something it depends on, directly or not. */
  ghost predicate Needs(list: seq<Package>, a: string, b: string) {
    exists path :: Path(list, path) && path[0] == a && path[|path| - 1] == b
  }

  ghost predicate Circular(list: seq<Package>, a: string) {
    exists path :: |path| >= 2 && Path(list, path) && path[0] == a && path[|path| - 1] == a
  }

  /** Each package once, none unclear, and after everything it depends on. */
  ghost predicate DependenciesFirst(list: seq<Package>, order: seq<string>) {
    forall i :: 0 <= i < |order| ==> order[i] !in order[..i] && Ready(list, order[i], order[..i])
  }

  ghost predicate Ready(list: seq<Package>, a: string, before: seq<string>) {
    Defined(list, a) && !Unclear(list, a) && forall b | DependsOn(list, a, b) :: b in before
  }

  /** Nothing needed is unclear or depends on itself. */
  ghost predicate Sortable(list: seq<Package>, a: string) {
    forall n | Needs(list, a, n) :: !Unclear(list, n) && !Circular(list, n)
  }

  // ----- Last parts -----

  lemma {:induction false} AfterSlashIs(s: string, t: string)
    ensures AfterSlash(s) == Some(t) <==> '/' !in t && EndsIn(s, t)
    decreases |s|
  {
    if s != [] {
      var k := |s| - 1;
      if s[k] == '/' {
        assert EndsIn(s, t) && t != "" ==> t[|t| - 1] == s[k];
      } else if t != "" {
        var front := t[..|t| - 1];
        AfterSlashIs(s[..k], front);
        if '/' !in t && EndsIn(s, t) {
          assert t[|t| - 1] == s[k] && t == front + [s[k]];
          assert s[..k][|s[..k]| - |front|..] == front;
        }
        if AfterSlash(s) == Some(t) {
          assert front == AfterSlash(s[..k]).value;
          assert s[|s| - |t|..] == s[..k][|s[..k]| - |front|..] + [s[k]];
        }
      }
    }
  }

  /** Whether there is a slash at all. */
  lemma {:induction false} NoSlash(s: string)
    ensures AfterSlash(s).None? <==> '/' !in s
    decreases |s|
  {
    if s != [] { NoSlash(s[..|s| - 1]); }
  }

  lemma SuffixIsLast(d: string, t: string)
    ensures LastPart(d, t) <==> t == Suffix(d)
  {
    hide AfterSlash;
    NoSlash(d);
    AfterSlashIs(d, t);
    if AfterSlash(d).Some? { AfterSlashIs(d, AfterSlash(d).value); }
    if d == t && '/' in d { assert '/' in t; }
    if EndsIn(d, t) { assert d[|d| - |t| - 1] in d; }
  }

  lemma MatchIsFit(key: string, d: string)
    ensures MatchesSuffix(key, Suffix(d)) <==> Fits(key, d)
  {
    hide AfterSlash, EndsIn;
    SuffixIsLast(d, Suffix(d));
    SuffixIsLast(key, Suffix(key));
    NoSlash(key);
    if t :| LastPart(key, t) && LastPart(d, t) {
      SuffixIsLast(key, t);
      SuffixIsLast(d, t);
    }
    if MatchesSuffix(key, Suffix(d)) {
      if AfterSlash(key) != Some(Suffix(d)) { SuffixIsLast(key, key); }
      assert LastPart(key, Suffix(d)) by { SuffixIsLast(key, Suffix(d)); }
    }
  }

  // ----- Definitions -----

  /** Collecting keeps the last definition of every name. */
  lemma {:induction false} CollectIs(list: seq<Package>, name: string)
    ensures name in Collect(list) <==> Defined(list, name)
    ensures forall i :: Defines(list, i, name) ==> name in Collect(list) && Collect(list)[name] == list[i].dependencies
    decreases |list|
  {
    if list != [] {
      var front, last := list[..|list| - 1], list[|list| - 1];
      CollectIs(front, name);
      assert list == front + [last];
      forall i | Defines(list, i, name) && i < |front| ensures Defines(front, i, name) {}
    }
  }

  lemma {:induction false} LastDefinition(list: seq<Package>, name: string) returns (i: int)
    requires Defined(list, name)
    ensures Defines(list, i, name)
    decreases |list|
  {
    var k := |list| - 1;
    if list[k].name == name {
      i := k;
    } else {
      var front := list[..k];
      assert list == front + [list[k]];
      i := LastDefinition(front, name);
    }
  }

  lemma OneDefinition(list: seq<Package>, i: int, j: int, name: string)
    requires Defines(list, i, name) && Defines(list, j, name)
    ensures i == j
  {
  }

  // ----- Resolution is naming -----

  lemma ResolveIs(list: seq<Package>, d: string)
    ensures forall b :: Resolve(Collect(list), d) == Internal(b) <==> Names(list, d, b)
    ensures Resolve(Collect(list), d) == Resolution.Unclear <==> Vague(list, d)
  {
    hide Collect, MatchesSuffix, Fits, Defined;
    var defs, found := Collect(list), Matches(Collect(list), Suffix(d));
    forall n ensures n in found <==> Defined(list, n) && Fits(n, d) {
      CollectIs(list, n);
      MatchIsFit(n, d);
    }
    CollectIs(list, d);
    forall b ensures Resolve(defs, d) == Internal(b) <==> Names(list, d, b) {
      CollectIs(list, b);
      if d !in defs && Names(list, d, b) { assert found == {b}; }
    }
    if d !in defs && Resolve(defs, d) == Resolution.Unclear {
      var b :| b in found;
      assert found != {b};
      var c :| c in found && c != b;
    }
  }

  lemma {:induction false} ResolvedIs(list: seq<Package>, names: seq<string>)
    ensures
      var r := Resolved(Collect(list), names);
      && (r.Ok? <==> forall d <- names :: !Vague(list, d))
      && (r.Err? ==> r.error.Ambiguous? && r.error.dependency in names && Vague(list, r.error.dependency))
      && (r.Ok? ==> forall b :: b in r.value <==> exists d <- names :: Names(list, d, b))
    decreases |names|
  {
    hide Collect, Resolve, Names, Vague;
    if names != [] {
      var first, rest := names[0], names[1..];
      ResolveIs(list, first);
      ResolvedIs(list, rest);
      assert names == [first] + rest;
      var r, tail := Resolved(Collect(list), names), Resolved(Collect(list), rest);
      if r.Ok? {
        forall b ensures b in r.value <==> exists d <- names :: Names(list, d, b) {
          assert b in r.value <==> Names(list, first, b) || b in tail.value;
        }
      }
    }
  }

  /** The dependencies of a package are the packages its entries name, unless one of them is unclear. */
  lemma DepsAre(list: seq<Package>, a: string)
    requires a in Collect(list)
    ensures Deps(Collect(list), a).Ok? <==> !Unclear(list, a)
    ensures Deps(Collect(list), a).Ok? ==> forall b :: b in Deps(Collect(list), a).value <==> DependsOn(list, a, b)
    ensures Deps(Collect(list), a).Err? ==>
      exists i, d ::
        && Defines(list, i, a) && d in list[i].dependencies && Vague(list, d)
        && Deps(Collect(list), a) == Err(Ambiguous(d))
  {
    hide Collect, Names, Vague, SortDedup, Defines, Defined;
    CollectIs(list, a);
    var i := LastDefinition(list, a);
    assert forall j :: Defines(list, j, a) ==> j == i by {
      forall j | Defines(list, j, a) ensures j == i { OneDefinition(list, i, j, a); }
    }
    ResolvedIs(list, list[i].dependencies);
    var r := Resolved(Collect(list), list[i].dependencies);
    if r.Ok? { SortDedupHolds(r.value); }
  }

  // ----- Paths -----

  lemma DependsDefined(list: seq<Package>, a: string, b: string)
    requires DependsOn(list, a, b)
    ensures a in Collect(list) && b in Collect(list)
  {
    hide Collect, Fits, Vague;
    CollectIs(list, a);
    CollectIs(list, b);
    var i, d :| Defines(list, i, a) && d in list[i].dependencies && Names(list, d, b);
    assert list[i] in list;
  }

  /** An edge is a dependence of a package that is not unclear. */
  lemma EdgeIs(list: seq<Package>, a: string, b: string)
    ensures Edge(Collect(list), a, b) <==> DependsOn(list, a, b) && !Unclear(list, a)
  {
    hide Collect, DependsOn, Unclear, Deps;
    if a in Collect(list) { DepsAre(list, a); }
    if DependsOn(list, a, b) { DependsDefined(list, a, b); }
  }

  lemma ChainIsPath(list: seq<Package>, path: seq<string>)
    requires path != [] && Chain(Collect(list), path)
    ensures Path(list, path)
  {
    hide Collect, DependsOn, Edge;
    forall i | 0 <= i < |path| - 1 ensures DependsOn(list, path[i], path[i + 1]) {
      EdgeIs(list, path[i], path[i + 1]);
    }
  }

  lemma PathIsChain(list: seq<Package>, path: seq<string>)
    requires Path(list, path) && forall i :: 0 <= i < |path| - 1 ==> !Unclear(list, path[i])
    ensures Chain(Collect(list), path)
  {
    hide Collect, DependsOn, Edge, Unclear;
    forall i | 0 <= i < |path| - 1 ensures Edge(Collect(list), path[i], path[i + 1]) {
      EdgeIs(list, path[i], path[i + 1]);
    }
  }

  lemma ReachesNeeds(list: seq<Package>, a: string, b: string)
    requires Reaches(Collect(list), a, b)
    ensures Needs(list, a, b)
  {
    hide Collect, Chain, Path;
    var path :| path != [] && path[0] == a && path[|path| - 1] == b && Chain(Collect(list), path);
    ChainIsPath(list, path);
  }

  lemma CycleIsCircular(list: seq<Package>, n: string)
    requires OnCycle(Collect(list), n)
    ensures Circular(list, n)
  {
    hide Collect, Chain, Path;
    var path :| |path| >= 2 && path[0] == n && path[|path| - 1] == n && Chain(Collect(list), path);
    ChainIsPath(list, path);
  }

  lemma PathFront(list: seq<Package>, path: seq<string>, k: nat)
    requires Path(list, path) && k < |path|
    ensures Path(list, path[..k + 1]) && Needs(list, path[0], path[k])
  {
    hide DependsOn;
    var front := path[..k + 1];
    assert Path(list, front) && front[0] == path[0] && front[|front| - 1] == path[k];
  }

  lemma NeedsOn(list: seq<Package>, a: string, b: string, c: string)
    requires Needs(list, a, b) && Needs(list, b, c)
    ensures Needs(list, a, c)
  {
    hide DependsOn;
    var p :| Path(list, p) && p[0] == a && p[|p| - 1] == b;
    var q :| Path(list, q) && q[0] == b && q[|q| - 1] == c;
    var all := p + q[1..];
    forall i | 0 <= i < |all| - 1 ensures DependsOn(list, all[i], all[i + 1]) {
      if i < |p| - 1 {
        assert DependsOn(list, p[i], p[i + 1]);
      } else {
        assert DependsOn(list, q[i - |p| + 1], q[i - |p| + 2]);
      }
    }
    assert Path(list, all) && all[0] == a && all[|all| - 1] == c;
  }

  /** Where nothing reached is unclear, what is needed is reached. */
  lemma {:induction false} NeedsReached(list: seq<Package>, path: seq<string>, k: nat)
    requires Path(list, path) && k < |path|
    requires forall n | Reaches(Collect(list), path[0], n) :: !Unclear(list, n)
    ensures Reaches(Collect(list), path[0], path[k])
    decreases k
  {
    hide Collect, DependsOn, Unclear, Reaches, Edge;
    if k == 0 {
      ReachesSelf(Collect(list), path[0]);
    } else {
      NeedsReached(list, path, k - 1);
      assert DependsOn(list, path[k - 1], path[k - 1 + 1]);
      EdgeIs(list, path[k - 1], path[k]);
      ReachesOn(Collect(list), path[0], path[k - 1], path[k]);
    }
  }

  lemma UnclearIsDefined(list: seq<Package>, n: string)
    requires Unclear(list, n)
    ensures n in Collect(list) && Deps(Collect(list), n).Err?
  {
    hide Collect, Vague, Deps;
    var i, d :| Defines(list, i, n) && d in list[i].dependencies && Vague(list, d);
    CollectIs(list, n);
    DepsAre(list, n);
  }

  lemma OrderableClear(list: seq<Package>, a: string, n: string)
    requires Orderable(Collect(list), a) && Reaches(Collect(list), a, n)
    ensures !Unclear(list, n) && (n in Collect(list) ==> !OnCycle(Collect(list), n))
  {
    hide Collect, Reaches, OnCycle, Unclear, Deps;
    if Unclear(list, n) { UnclearIsDefined(list, n); }
  }

  lemma OrderableIsSortable(list: seq<Package>, a: string)
    requires Orderable(Collect(list), a)
    ensures Sortable(list, a)
  {
    hide Collect, Reaches, OnCycle, Unclear, Path, Orderable, Circular;
    forall n | Reaches(Collect(list), a, n) ensures !Unclear(list, n) { OrderableClear(list, a, n); }
    forall n | Needs(list, a, n) ensures !Unclear(list, n) && !Circular(list, n) {
      NeededReached(list, a, n);
      NoCircle(list, a, n);
    }
  }

  lemma NoCircle(list: seq<Package>, a: string, n: string)
    requires Orderable(Collect(list), a) && Reaches(Collect(list), a, n) && Needs(list, a, n)
    requires forall m | Reaches(Collect(list), a, m) :: !Unclear(list, m)
    ensures !Circular(list, n)
  {
    hide Collect, Reaches, Unclear, Orderable, DependsOn, OnCycle;
    if circle :| |circle| >= 2 && Path(list, circle) && circle[0] == n && circle[|circle| - 1] == n {
      CircleIsCycle(list, a, circle);
      OrderableClear(list, a, n);
    }
  }

  lemma CircleIsCycle(list: seq<Package>, a: string, circle: seq<string>)
    requires |circle| >= 2 && Path(list, circle) && circle[0] == circle[|circle| - 1] && Needs(list, a, circle[0])
    requires forall m | Reaches(Collect(list), a, m) :: !Unclear(list, m)
    ensures circle[0] in Collect(list) && OnCycle(Collect(list), circle[0])
  {
    hide Collect, Reaches, Unclear, DependsOn, Chain;
    forall i | 0 <= i < |circle| - 1 ensures !Unclear(list, circle[i]) {
      PathFront(list, circle, i);
      NeedsOn(list, a, circle[0], circle[i]);
      NeededReached(list, a, circle[i]);
    }
    PathIsChain(list, circle);
    assert DependsOn(list, circle[0], circle[0 + 1]);
    DependsDefined(list, circle[0], circle[1]);
  }

  lemma NeededReached(list: seq<Package>, a: string, n: string)
    requires Needs(list, a, n) && forall m | Reaches(Collect(list), a, m) :: !Unclear(list, m)
    ensures Reaches(Collect(list), a, n)
  {
    hide Collect, Reaches, Unclear, DependsOn;
    var path :| Path(list, path) && path[0] == a && path[|path| - 1] == n;
    NeedsReached(list, path, |path| - 1);
  }

  lemma SortableIsOrderable(list: seq<Package>, a: string)
    requires Sortable(list, a)
    ensures Orderable(Collect(list), a)
  {
    hide Collect, Reaches, OnCycle, Unclear, Path, Circular, Deps, Needs;
    forall n | Reaches(Collect(list), a, n)
      ensures n in Collect(list) ==> Deps(Collect(list), n).Ok? && !OnCycle(Collect(list), n)
    {
      ReachesNeeds(list, a, n);
      if n in Collect(list) { DepsAre(list, n); }
      if OnCycle(Collect(list), n) { CycleIsCircular(list, n); }
    }
  }

  // ----- Orders -----

  lemma SettledIsReady(list: seq<Package>, a: string, before: seq<string>)
    ensures Settled(Collect(list), a, before) <==> Ready(list, a, before)
  {
    hide Collect, Deps, DependsOn, Unclear, Defined;
    CollectIs(list, a);
    if a in Collect(list) { DepsAre(list, a); }
  }

  lemma OrderedIsFirst(list: seq<Package>, order: seq<string>)
    ensures DependencyOrdered(Collect(list), order) <==> DependenciesFirst(list, order)
  {
    hide Collect, Settled, Ready;
    forall i | 0 <= i < |order|
      ensures Settled(Collect(list), order[i], order[..i]) <==> Ready(list, order[i], order[..i])
    {
      SettledIsReady(list, order[i], order[..i]);
    }
  }

  /** What some target needs. */
  ghost predicate Wanted(list: seq<Package>, targets: seq<string>, x: string) {
    exists t, b :: t in targets && Names(list, t, b) && Needs(list, b, x)
  }

  /** An order holds whatever its members need. */
  lemma {:induction false} Closed(list: seq<Package>, order: seq<string>, path: seq<string>, k: nat)
    requires DependenciesFirst(list, order) && Path(list, path) && path[0] in order && k < |path|
    ensures path[k] in order
    decreases k
  {
    hide DependsOn, Unclear, Defined;
    if k > 0 {
      Closed(list, order, path, k - 1);
      var i :| 0 <= i < |order| && order[i] == path[k - 1];
      assert Ready(list, order[i], order[..i]);
      assert DependsOn(list, path[k - 1], path[k - 1 + 1]);
    }
  }

  /** An order lists exactly what the targets need, each package once and after everything it depends on. */
  lemma OrderSound(list: seq<Package>, targets: seq<string>)
    requires Order(list, targets).Ok?
    ensures DependenciesFirst(list, Order(list, targets).value)
    ensures forall x :: x in Order(list, targets).value <==> Wanted(list, targets, x)
  {
    hide Collect, Order, DependencyOrdered, DependenciesFirst, Resolve, Names, Reaches, Path;
    var defs, order := Collect(list), Order(list, targets).value;
    ListSound(list, targets);
    OrderedIsFirst(list, order);
    forall x ensures x in order <==> Wanted(list, targets, x) {
      if x in order {
        var t :| t in targets && Resolve(defs, t).Internal? && Reaches(defs, Resolve(defs, t).name, x);
        ResolveIs(list, t);
        assert Names(list, t, Resolve(defs, t).name);
        ReachesNeeds(list, Resolve(defs, t).name, x);
      }
      if Wanted(list, targets, x) { WantedListed(list, targets, order, x); }
    }
  }

  lemma WantedListed(list: seq<Package>, targets: seq<string>, order: seq<string>, x: string)
    requires DependenciesFirst(list, order) && Wanted(list, targets, x)
    requires forall y :: y in order <==> FromTarget(Collect(list), targets, y)
    ensures x in order
  {
    hide Collect, DependenciesFirst, Resolve, Names, Reaches, DependsOn;
    var t, b :| t in targets && Names(list, t, b) && Needs(list, b, x);
    ResolveIs(list, t);
    assert Resolve(Collect(list), t) == Internal(b);
    ReachesSelf(Collect(list), b);
    assert b in order;
    var path :| Path(list, path) && path[0] == b && path[|path| - 1] == x;
    Closed(list, order, path, |path| - 1);
  }

  /** There is an order exactly when every target names a package that needs nothing unclear or circular. */
  lemma OrderExactly(list: seq<Package>, targets: seq<string>)
    ensures Order(list, targets).Ok? <==> forall t <- targets :: exists b :: Names(list, t, b) && Sortable(list, b)
  {
    hide Collect, Order, Orderable, Sortable, Resolve, Names;
    var defs := Collect(list);
    ListExactly(list, targets);
    forall t | t in targets
      ensures Resolve(defs, t).Internal? && Orderable(defs, Resolve(defs, t).name)
         <==> exists b :: Names(list, t, b) && Sortable(list, b)
    {
      ResolveIs(list, t);
      if Resolve(defs, t).Internal? {
        var b := Resolve(defs, t).name;
        assert Names(list, t, b);
        if Orderable(defs, b) { OrderableIsSortable(list, b); }
        if Sortable(list, b) { SortableIsOrderable(list, b); }
      }
    }
  }

  /** A cause of failure among what a package needs. */
  ghost predicate Blames(list: seq<Package>, b: string, e: Error) {
    match e
    case Cycle(n) => Needs(list, b, n) && Circular(list, n)
    case Ambiguous(d) =>
      exists p, i :: Needs(list, b, p) && Defines(list, i, p) && d in list[i].dependencies && Vague(list, d)
    case NotDefined(_) => false
  }

  /** An error names its cause: a target that names no package, or something unclear or circular that one needs. */
  lemma OrderError(list: seq<Package>, targets: seq<string>)
    requires Order(list, targets).Err?
    ensures
      var e := Order(list, targets).error;
      exists t <- targets ::
        || (e == NotDefined(t) && forall b :: !Names(list, t, b))
        || exists b :: Names(list, t, b) && Blames(list, b, e)
  {
    hide Collect, Order, Resolve, Names, Justified, Blames;
    var e := Order(list, targets).error;
    ListError(list, targets);
    var t :| t in targets &&
      if Resolve(Collect(list), t).Internal? then Justified(Collect(list), Resolve(Collect(list), t).name, e)
      else e == NotDefined(t);
    ResolveIs(list, t);
    if Resolve(Collect(list), t).Internal? {
      var b := Resolve(Collect(list), t).name;
      assert Names(list, t, b);
      JustifiedBlames(list, b, e);
    }
  }

  lemma JustifiedBlames(list: seq<Package>, b: string, e: Error)
    requires Justified(Collect(list), b, e)
    ensures Blames(list, b, e)
  {
    hide Collect, Reaches, OnCycle, Deps, Needs, Circular, Vague;
    match e
    case Cycle(n) =>
      ReachesNeeds(list, b, n);
      CycleIsCircular(list, n);
    case Ambiguous(d) =>
      var p :| Reaches(Collect(list), b, p) && p in Collect(list) && Deps(Collect(list), p) == Err(e);
      ReachesNeeds(list, b, p);
      DepsAre(list, p);
    case NotDefined(_) =>
  }
}
