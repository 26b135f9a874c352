/** `App` as it runs: a route table updated in place, and requests that remember its generation. */
module CommandApp {
  import opened Prelude
  import opened CommandRouter
  import opened CommandArguments
  import CommandRoutes

  /** A parsed request. */
  datatype Request =
    Request(ticket: Ticket, routeId: string, routePath: Path, argv: seq<string>, parsed: Parsed)

  /** `validate_route`, with the sets it collects. */
  method ValidateRoute(spec: RouteSpec) returns (ok: bool)
    ensures ok == ValidRoute(spec)
  {
    hide Blank;
    if Blank(spec.id) || Blank(spec.desc) { return false; }
    if exists i :: 0 <= i < |RoutePaths(spec)| && exists part :: part in RoutePaths(spec)[i] && Blank(part) {
      return false;
    }
    var options := ValidateOptions(spec.options);
    if !options { return false; }
    if spec.passthrough && spec.options != [] { return false; }
    ok := ValidateArguments(spec.arguments);
  }

  method ValidateOptions(options: seq<OptionSpec>) returns (ok: bool)
    ensures ok == ValidOptions(options)
  {
    hide Blank, LongName, ValidDefault;
    var ids: set<string> := {};
    var longs: set<string> := {};
    var shorts: set<char> := {};
    var i := 0;
    while i < |options|
      invariant 0 <= i <= |options|
      invariant forall k :: 0 <= k < i ==> ValidOption(options[k])
      invariant DistinctOptions(options[..i])
      invariant forall id :: id in ids <==> exists k :: 0 <= k < i && options[k].id == id
      invariant forall name :: name in longs <==> exists k :: 0 <= k < i && LongName(options[k]) == name
      invariant forall c :: c in shorts <==> exists k :: 0 <= k < i && options[k].short == Some(c)
    {
      var o := options[i];
      var long := LongName(o);
      if Blank(o.id) { return false; }
      assert forall k :: 0 <= k < i && (options[k].id == o.id || LongName(options[k]) == long) ==> Clash(options[k], o);
      if o.id in ids { Repeats(options, i); return false; }
      if !("--" < long) { return false; }
      if long in longs { Repeats(options, i); return false; }
      if o.short.Some? && o.short.value in shorts { Repeats(options, i); return false; }
      if o.many && o.kind.BooleanOption? { return false; }
      if !ValidDefault(o) { return false; }
      DistinctMore(options, i);
      ids, longs := ids + {o.id}, longs + {long};
      if o.short.Some? { shorts := shorts + {o.short.value}; }
      i := i + 1;
    }
    assert options[..i] == options;
    return true;
  }

  predicate Clash(a: OptionSpec, b: OptionSpec) {
    a.id == b.id || LongName(a) == LongName(b) || (a.short.Some? && a.short == b.short)
  }

  lemma Repeats(options: seq<OptionSpec>, i: nat)
    requires i < |options|
    requires exists k :: 0 <= k < i && Clash(options[k], options[i])
    ensures !DistinctOptions(options)
  {
    hide LongName;
  }

  lemma DistinctMore(options: seq<OptionSpec>, i: nat)
    requires i < |options| && DistinctOptions(options[..i])
    requires forall k :: 0 <= k < i ==>
      options[k].id != options[i].id && LongName(options[k]) != LongName(options[i]) &&
      (options[k].short.Some? ==> options[k].short != options[i].short)
    ensures DistinctOptions(options[..i + 1])
  {
    hide LongName;
  }

  method ValidateArguments(arguments: seq<ArgumentSpec>) returns (ok: bool)
    ensures ok == ValidArguments(arguments)
  {
    hide Blank;
    var ids: set<string> := {};
    var i := 0;
    while i < |arguments|
      invariant 0 <= i <= |arguments|
      invariant forall k :: 0 <= k < i ==> !Blank(arguments[k].id) && (arguments[k].many ==> k + 1 == |arguments|)
      invariant forall j, k :: 0 <= j < k < i ==> arguments[j].id != arguments[k].id
      invariant forall id :: id in ids <==> exists k :: 0 <= k < i && arguments[k].id == id
    {
      var a := arguments[i];
      if Blank(a.id) { return false; }
      if a.id in ids { return false; }
      if a.many && i + 1 != |arguments| { return false; }
      ids := ids + {a.id};
      i := i + 1;
    }
    return true;
  }

  /** Whether two routes share a path: every path of one against those of the other. */
  method SharesPath(a: RouteSpec, b: RouteSpec) returns (found: bool)
    ensures found == Shares(a, b)
  {
    var paths := RoutePaths(a);
    var i := 0;
    while i < |paths|
      invariant 0 <= i <= |paths| && forall k :: 0 <= k < i ==> paths[k] !in RoutePaths(b)
    {
      if paths[i] in RoutePaths(b) { return true; }
      i := i + 1;
    }
    return false;
  }

  class App<H(!new)> {
    const id: string
    var routes: seq<Stored<H>>
    var nextHandle: nat
    var generation: nat
    var closed: bool

    ghost function Now(): Table<H>
      reads this
    {
      Table(id, routes, nextHandle, generation, closed)
    }

    ghost predicate Valid()
      reads this
    {
      Sound(Now())
    }

    constructor (id: string)
      ensures Valid() && Now() == Start<H>(id).table
    {
      this.id := id;
      routes, nextHandle, generation, closed := [], 1, 0, false;
    }

    method InstallRoute(spec: RouteSpec, handler: H) returns (r: Result<nat, Error>)
      requires Valid()
      modifies this
      ensures Valid() && Change(Now(), r) == Install(old(Now()), spec, handler)
      ensures r.Ok? <==> !old(closed) && ValidRoute(spec) && CommandRoutes.Free(old(routes), spec)
      ensures r.Ok? ==> CommandRoutes.With(old(routes), routes, Stored(r.value, spec, handler))
      ensures r.Err? ==> Now() == old(Now())
    {
      InstallSound(Now(), spec, handler);
      CommandRoutes.InstallAdds(Now(), spec, handler);
      hide CommandRoutes.Free, CommandRoutes.With;
      hide Sound, ValidRoute, Shares;
      if closed { return Err(Closed); }
      var valid := ValidateRoute(spec);
      if !valid { return Err(InvalidRoute); }
      var conflict := Conflicting(spec);
      if conflict { return Err(RouteConflict); }
      var handle := nextHandle;
      nextHandle := nextHandle + 1;
      routes := routes + [Stored(handle, spec, handler)];
      generation := generation + 1;
      return Ok(handle);
    }

    /** First the paths of every route, then the ids. */
    method Conflicting(spec: RouteSpec) returns (found: bool)
      ensures found == Conflicts(routes, spec)
    {
      hide Shares;
      var i := 0;
      while i < |routes|
        invariant 0 <= i <= |routes| && forall k :: 0 <= k < i ==> !Shares(routes[k].spec, spec)
      {
        var shares := SharesPath(routes[i].spec, spec);
        if shares { return true; }
        i := i + 1;
      }
      i := 0;
      while i < |routes|
        invariant 0 <= i <= |routes| && forall k :: 0 <= k < i ==> routes[k].spec.id != spec.id
      {
        if routes[i].spec.id == spec.id { return true; }
        i := i + 1;
      }
      return false;
    }

    method Find(handle: nat) returns (i: nat)
      ensures i == Position(routes, handle)
    {
      i := 0;
      while i < |routes| && routes[i].handle != handle
        invariant 0 <= i <= |routes| && forall k :: 0 <= k < i ==> routes[k].handle != handle
      {
        i := i + 1;
      }
    }

    method UninstallRoute(handle: nat) returns (r: Result<bool, Error>)
      requires Valid()
      modifies this
      ensures Valid() && Change(Now(), r) == Uninstall(old(Now()), handle)
      ensures r == Ok(true) <==> !old(closed) && exists s :: s in old(routes) && s.handle == handle
      ensures r == Ok(true) ==> CommandRoutes.Without(old(routes), routes, handle)
      ensures r != Ok(true) ==> Now() == old(Now())
    {
      UninstallSound(Now(), handle);
      CommandRoutes.UninstallTakes(Now(), handle);
      hide CommandRoutes.Without;
      hide Sound;
      if closed { return Err(Closed); }
      var i := Find(handle);
      if i == |routes| { return Ok(false); }
      routes := routes[..i] + routes[i + 1..];
      generation := generation + 1;
      return Ok(true);
    }

    method TakeSnapshot() returns (r: Result<seq<Stored<H>>, Error>)
      requires Valid()
      ensures r == if closed then Err(Closed) else Ok(routes)
      ensures r.Ok? ==> Disjoint(r.value) && AllValid(r.value)
    {
      if closed { return Err(Closed); }
      return Ok(routes);
    }

    method RestoreSnapshot(saved: seq<Stored<H>>) returns (r: Result<(), Error>)
      requires Valid() && Disjoint(saved) && AllValid(saved)
      modifies this
      ensures Valid() && Change(Now(), r) == Restore(old(Now()), saved)
      ensures if r.Ok? then routes == saved else Now() == old(Now())
    {
      RestoreSound(Now(), saved);
      hide Sound, MaxHandle;
      if closed { return Err(Closed); }
      routes := saved;
      var highest := Highest(saved);
      nextHandle := highest + 1;
      generation := generation + 1;
      return Ok(());
    }

    method ResetRoutes() returns (r: Result<(), Error>)
      requires Valid()
      modifies this
      ensures Valid() && Change(Now(), r) == Reset(old(Now()))
      ensures if r.Ok? then routes == [] else Now() == old(Now())
    {
      if closed { return Err(Closed); }
      if routes != [] {
        routes := [];
        generation := generation + 1;
      }
      return Ok(());
    }

    method CloseApp()
      requires Valid()
      modifies this
      ensures Valid() && Now() == Close(old(Now()))
    {
      if !closed {
        routes := [];
        generation := generation + 1;
        closed := true;
      }
    }

    /** `match_route`: a running best over all paths of all routes. */
    method MatchWords(argv: seq<string>) returns (best: Option<Match>)
      ensures best == MatchRoute(routes, argv)
      ensures BestSoFar(routes, argv, |routes|, best)
    {
      MatchIsLongest(routes, argv);
      hide BestSoFar;
      best := None;
      var i := 0;
      while i < |routes|
        invariant 0 <= i <= |routes| && MatchFrom(routes, argv, i, best) == MatchRoute(routes, argv)
      {
        var paths := RoutePaths(routes[i].spec);
        ghost var before := best;
        var k := 0;
        assert paths[0..] == paths;
        while k < |paths|
          invariant 0 <= k <= |paths|
          invariant MatchPaths(paths[k..], argv, i, best) == MatchPaths(paths, argv, i, before)
        {
          var candidate := paths[k];
          assert paths[k..][1..] == paths[k + 1..];
          if candidate == [] {
            if argv == [] { best := Some(Match(i, 0)); }
          } else if candidate <= argv {
            if best.None? || |candidate| > best.value.length { best := Some(Match(i, |candidate|)); }
          }
          k := k + 1;
        }
        i := i + 1;
      }
    }

    method Parse(argv: seq<string>) returns (r: Result<Request, Error>)
      requires Valid()
      ensures r.Ok? ==>
        Issue(Now(), argv) == Ok(r.value.ticket) &&
        var m := MatchRoute(routes, argv).value;
        m.route < |routes| && m.length <= |argv| &&
        var spec := routes[m.route].spec;
        r.value.routeId == spec.id && r.value.routePath == spec.path && r.value.argv == argv &&
        Meant(spec, argv[m.length..], r.value.parsed)
      ensures Issue(Now(), argv).Err? ==> r == Err(Issue(Now(), argv).error)
      ensures r.Err? && Issue(Now(), argv).Ok? ==>
        var m := MatchRoute(routes, argv).value;
        m.route < |routes| && m.length <= |argv| && !Understood(routes[m.route].spec, argv[m.length..])
    {
      hide MatchRoute, Understood, ValidRoute, Disjoint, Meant;
      if closed { return Err(Closed); }
      var best := MatchWords(argv);
      if best.None? { return Err(UnknownRoute); }
      var m := best.value;
      assert m.route < |routes| && m.length <= |argv| by { MatchInRange(routes, argv, m); }
      var stored := routes[m.route];
      var parsed := ParseRouteArguments(stored.spec, argv[m.length..]);
      if parsed.Err? { return Err(parsed.error); }
      var ticket := Ticket(id, stored.handle, generation);
      return Ok(Request(ticket, stored.spec.id, stored.spec.path, argv, parsed.value));
    }

    method HandlerFor(ticket: Ticket) returns (r: Result<H, Error>)
      ensures r == Handler(Now(), ticket)
    {
      if closed { return Err(Closed); }
      if ticket.app != id { return Err(ForeignRequest); }
      if ticket.generation != generation { return Err(StaleRequest); }
      var i := Find(ticket.handle);
      if i < |routes| { return Ok(routes[i].handler); }
      return Err(StaleRequest);
    }
  }

  lemma MatchInRange<H(!new)>(routes: seq<Stored<H>>, argv: seq<string>, m: Match)
    requires BestSoFar(routes, argv, |routes|, Some(m))
    ensures m.route < |routes| && m.length <= |argv|
  {
    var p :| FitsRoute(routes[m.route].spec, p, argv) && |p| == m.length;
  }

  /** The largest handle of some routes, or zero. */
  method Highest<H>(routes: seq<Stored<H>>) returns (m: nat)
    ensures m == MaxHandle(routes)
  {
    m := 0;
    var i := |routes|;
    assert routes[i..] == [];
    while i > 0
      invariant 0 <= i <= |routes| && m == MaxHandle(routes[i..])
    {
      i := i - 1;
      assert routes[i..][1..] == routes[i + 1..];
      if routes[i].handle > m { m := routes[i].handle; }
    }
    assert routes[0..] == routes;
  }
}
