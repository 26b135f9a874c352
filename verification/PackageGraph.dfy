/**
 Dependency order of packages (`package_catalog.rs`): name resolution by
 suffix, then a depth-first visit that emits dependencies before dependents.
 */
module PackageGraph {
  import opened Prelude
  import opened StringOrder

  datatype Package = Package(name: string, dependencies: seq<string>)

  type Definitions = map<string, seq<string>>

  datatype Error = NotDefined(name: string) | Ambiguous(dependency: string) | Cycle(name: string)

  /** Packages by name; a later definition of a name replaces an earlier one. */
  function Collect(list: seq<Package>): Definitions
    decreases |list|
  {
    if list == [] then map[]
    else
      var last := list[|list| - 1];
      Collect(list[..|list| - 1])[last.name := last.dependencies]
  }

  // ----- Names -----

  /** What follows the last slash, if there is one. */
  function AfterSlash(s: string): Option<string>
    decreases |s|
  {
    if s == [] then None
    else if s[|s| - 1] == '/' then Some("")
    else
      match AfterSlash(s[..|s| - 1])
      case None => None
      case Some(t) => Some(t + [s[|s| - 1]])
  }

  function Suffix(s: string): string { if AfterSlash(s).Some? then AfterSlash(s).value else s }

  predicate MatchesSuffix(name: string, suffix: string) { name == suffix || AfterSlash(name) == Some(suffix) }

  function Matches(defs: Definitions, suffix: string): set<string> {
    set n | n in defs && MatchesSuffix(n, suffix)
  }

  datatype Resolution = External | Internal(name: string) | Unclear

  /** A name as it stands, or the one definition with its last part; none makes it external. */
  function Resolve(defs: Definitions, d: string): (r: Resolution)
    ensures r.Internal? ==> r.name in defs
  {
    if d in defs then Internal(d)
    else
      var found := Matches(defs, Suffix(d));
      if found == {} then External
      else if n :| n in found && found == {n} then Internal(n)
      else Unclear
  }

  /** The internal dependencies, in the order listed; an unclear one is an error. */
  function Resolved(defs: Definitions, names: seq<string>): (r: Result<seq<string>, Error>)
    ensures r.Ok? ==> forall d <- r.value :: d in defs
  {
    if names == [] then Ok([])
    else
      match Resolve(defs, names[0])
      case Unclear => Err(Ambiguous(names[0]))
      case External => Resolved(defs, names[1..])
      case Internal(n) =>
        match Resolved(defs, names[1..])
        case Err(e) => Err(e)
        case Ok(rest) => Ok([n] + rest)
  }

  /** What a package depends on inside the profile, sorted, each once. */
  function Deps(defs: Definitions, name: string): (r: Result<seq<string>, Error>)
    requires name in defs
    ensures r.Ok? ==> forall d <- r.value :: d in defs
  {
    match Resolved(defs, defs[name])
    case Err(e) => Err(e)
    case Ok(names) =>
      SortDedupHolds(names);
      Ok(SortDedup(names))
  }

  // ----- The visit -----

  datatype State = State(visiting: set<string>, visited: set<string>, ordered: seq<string>)

  function Visit(defs: Definitions, name: string, st: State): (r: Result<State, Error>)
    ensures r.Ok? ==> r.value.visiting == st.visiting
    decreases |defs.Keys - st.visiting|, 0, 0
  {
    if name in st.visited then Ok(st)
    else if name in st.visiting then Err(Cycle(name))
    else if name !in defs then Err(NotDefined(name))
    else
      match Deps(defs, name)
      case Err(e) => Err(e)
      case Ok(deps) =>
        Fewer(defs.Keys, st.visiting, name);
        match VisitAll(defs, deps, st.(visiting := st.visiting + {name}))
        case Err(e) => Err(e)
        case Ok(s) => Ok(State(s.visiting - {name}, s.visited + {name}, s.ordered + [name]))
  }

  function VisitAll(defs: Definitions, names: seq<string>, st: State): (r: Result<State, Error>)
    ensures r.Ok? ==> r.value.visiting == st.visiting
    decreases |defs.Keys - st.visiting|, 1, |names|
  {
    if names == [] then Ok(st)
    else
      match Visit(defs, names[0], st)
      case Err(e) => Err(e)
      case Ok(s) => VisitAll(defs, names[1..], s)
  }

  lemma Fewer(keys: set<string>, visiting: set<string>, name: string)
    requires name in keys && name !in visiting
    ensures |keys - (visiting + {name})| < |keys - visiting|
  {
    assert keys - visiting == (keys - (visiting + {name})) + {name};
  }

  /** `package_dependency_order` over collected definitions. */
  function OrderFrom(defs: Definitions, targets: seq<string>, st: State): Result<State, Error>
    decreases |targets|
  {
    if targets == [] then Ok(st)
    else
      match Resolve(defs, targets[0])
      case Internal(n) =>
        (match Visit(defs, n, st)
         case Err(e) => Err(e)
         case Ok(s) => OrderFrom(defs, targets[1..], s))
      case _ => Err(NotDefined(targets[0]))
  }

  const START := State({}, {}, [])

  function Order(list: seq<Package>, targets: seq<string>): Result<seq<string>, Error> {
    match OrderFrom(Collect(list), targets, START)
    case Err(e) => Err(e)
    case Ok(s) => Ok(s.ordered)
  }

  // ----- What it means -----

  predicate Edge(defs: Definitions, a: string, b: string) {
    a in defs && Deps(defs, a).Ok? && b in Deps(defs, a).value
  }

  predicate Chain(defs: Definitions, path: seq<string>) {
    forall i :: 0 <= i < |path| - 1 ==> Edge(defs, path[i], path[i + 1])
  }

  ghost predicate Reaches(defs: Definitions, a: string, b: string) {
    exists path :: path != [] && path[0] == a && path[|path| - 1] == b && Chain(defs, path)
  }

  ghost predicate OnCycle(defs: Definitions, a: string) {
    exists path :: |path| >= 2 && path[0] == a && path[|path| - 1] == a && Chain(defs, path)
  }

  /** Each name once, and after everything it depends on. */
  predicate DependencyOrdered(defs: Definitions, list: seq<string>) {
    forall i :: 0 <= i < |list| ==> list[i] !in list[..i] && Settled(defs, list[i], list[..i])
  }

  predicate Settled(defs: Definitions, name: string, before: seq<string>) {
    name in defs && Deps(defs, name).Ok? && forall d | d in Deps(defs, name).value :: d in before
  }

  /** A name all of whose reach is clear and without cycles. */
  ghost predicate Orderable(defs: Definitions, name: string) {
    forall n | Reaches(defs, name, n) :: n in defs ==> Deps(defs, n).Ok? && !OnCycle(defs, n)
  }
}
