/**
 The command router (`command.rs`): a table of routes with handles and a
 generation that moves on with every change, and longest-prefix matching.
 */
module CommandRouter {
  import opened Prelude

  datatype OptionKind = BooleanOption | StringOption

  datatype ParsedValue = Flag(b: bool) | One(s: string) | Many(values: seq<string>)

  datatype OptionSpec =
    OptionSpec(id: string, long: Option<string>, short: Option<char>, kind: OptionKind, many: bool,
               default: Option<ParsedValue>)

  datatype ArgumentSpec = ArgumentSpec(id: string, required: bool, many: bool)

  type Path = seq<string>

  datatype RouteSpec =
    RouteSpec(id: string, path: Path, aliases: seq<Path>, desc: string, options: seq<OptionSpec>,
              arguments: seq<ArgumentSpec>, passthrough: bool)

  datatype Stored<H> = Stored(handle: nat, spec: RouteSpec, handler: H)

  datatype Error =
    | Closed | InvalidRoute | RouteConflict | UnknownRoute | ForeignRequest | StaleRequest
    | UnknownOption | InvalidOption | DuplicateOption | MissingOptionValue | MissingArgument | UnexpectedArgument

  // ----- Valid routes -----

  predicate IsWhite(c: char) {
    var n := c as int;
    9 <= n <= 13 || n == 32 || n == 0x85 || n == 0xa0 || n == 0x1680 || 0x2000 <= n <= 0x200a ||
    n == 0x2028 || n == 0x2029 || n == 0x202f || n == 0x205f || n == 0x3000
  }

  /** `trim().is_empty()`. */
  predicate Blank(s: string) { forall c <- s :: IsWhite(c) }

  function LongName(o: OptionSpec): string { if o.long.Some? then o.long.value else "--" + o.id }

  function RoutePaths(spec: RouteSpec): seq<Path> { [spec.path] + spec.aliases }

  predicate ValidDefault(o: OptionSpec) {
    o.default.Some? ==> Typed(o, o.default.value)
  }

  /** A value of the shape an option's kind asks for. */
  predicate Typed(o: OptionSpec, v: ParsedValue) {
    match o.kind
    case BooleanOption => v.Flag?
    case StringOption => if o.many then v.Many? else v.One?
  }

  predicate ValidOption(o: OptionSpec) {
    !Blank(o.id) && "--" < LongName(o) && !(o.many && o.kind.BooleanOption?) && ValidDefault(o)
  }

  predicate DistinctOptions(options: seq<OptionSpec>) {
    forall i, j :: 0 <= i < j < |options| ==>
      options[i].id != options[j].id && LongName(options[i]) != LongName(options[j]) &&
      (options[i].short.Some? ==> options[i].short != options[j].short)
  }

  predicate ValidArguments(arguments: seq<ArgumentSpec>) {
    (forall i :: 0 <= i < |arguments| ==> !Blank(arguments[i].id) && (arguments[i].many ==> i + 1 == |arguments|)) &&
    forall i, j :: 0 <= i < j < |arguments| ==> arguments[i].id != arguments[j].id
  }

  /** `validate_route`. */
  predicate ValidRoute(spec: RouteSpec) {
    !Blank(spec.id) && !Blank(spec.desc) &&
    (forall i :: 0 <= i < |RoutePaths(spec)| ==> forall part <- RoutePaths(spec)[i] :: !Blank(part)) &&
    (forall i :: 0 <= i < |spec.options| ==> ValidOption(spec.options[i])) && DistinctOptions(spec.options) &&
    (spec.passthrough ==> spec.options == []) && ValidArguments(spec.arguments)
  }

  // ----- The table -----

  datatype Table<H> = Table(id: string, routes: seq<Stored<H>>, next: nat, generation: nat, closed: bool)

  predicate Shares(a: RouteSpec, b: RouteSpec) { exists p :: p in RoutePaths(a) && p in RoutePaths(b) }

  predicate Conflicts<H>(routes: seq<Stored<H>>, spec: RouteSpec) {
    exists i :: 0 <= i < |routes| && (Shares(routes[i].spec, spec) || routes[i].spec.id == spec.id)
  }

  datatype Change<H, T> = Change(table: Table<H>, answer: Result<T, Error>)

  function Install<H>(t: Table<H>, spec: RouteSpec, handler: H): Change<H, nat> {
    if t.closed then Change(t, Err(Closed))
    else if !ValidRoute(spec) then Change(t, Err(InvalidRoute))
    else if Conflicts(t.routes, spec) then Change(t, Err(RouteConflict))
    else
      Change(t.(routes := t.routes + [Stored(t.next, spec, handler)], next := t.next + 1,
                generation := t.generation + 1),
             Ok(t.next))
  }

  /** Where a handle stands, the first time. */
  function Position<H>(routes: seq<Stored<H>>, handle: nat): (i: nat)
    ensures i <= |routes| && (i < |routes| ==> routes[i].handle == handle)
    ensures forall k :: 0 <= k < i ==> routes[k].handle != handle
  {
    if routes == [] || routes[0].handle == handle then 0 else 1 + Position(routes[1..], handle)
  }

  function Uninstall<H>(t: Table<H>, handle: nat): Change<H, bool> {
    if t.closed then Change(t, Err(Closed))
    else
      var i := Position(t.routes, handle);
      if i == |t.routes| then Change(t, Ok(false))
      else Change(t.(routes := t.routes[..i] + t.routes[i + 1..], generation := t.generation + 1), Ok(true))
  }

  function MaxHandle<H>(routes: seq<Stored<H>>): (m: nat)
    ensures forall i :: 0 <= i < |routes| ==> routes[i].handle <= m
  {
    if routes == [] then 0
    else
      var m := MaxHandle(routes[1..]);
      if routes[0].handle > m then routes[0].handle else m
  }

  function Restore<H>(t: Table<H>, saved: seq<Stored<H>>): Change<H, ()> {
    if t.closed then Change(t, Err(Closed))
    else
      Change(t.(routes := saved, next := MaxHandle(saved) + 1, generation := t.generation + 1), Ok(()))
  }

  function Reset<H>(t: Table<H>): Change<H, ()> {
    if t.closed then Change(t, Err(Closed))
    else if t.routes == [] then Change(t, Ok(()))
    else Change(t.(routes := [], generation := t.generation + 1), Ok(()))
  }

  function Close<H>(t: Table<H>): Table<H> {
    if t.closed then t else t.(routes := [], generation := t.generation + 1, closed := true)
  }

  // ----- What every run keeps -----

  ghost predicate Disjoint<H(!new)>(routes: seq<Stored<H>>) {
    forall i, j :: 0 <= i < j < |routes| ==>
      !Shares(routes[i].spec, routes[j].spec) && routes[i].spec.id != routes[j].spec.id &&
      routes[i].handle != routes[j].handle
  }

  ghost predicate AllValid<H(!new)>(routes: seq<Stored<H>>) {
    forall i :: 0 <= i < |routes| ==> ValidRoute(routes[i].spec)
  }

  ghost predicate Sound<H(!new)>(t: Table<H>) {
    Disjoint(t.routes) && AllValid(t.routes) && forall i :: 0 <= i < |t.routes| ==> t.routes[i].handle < t.next
  }

  lemma InstallSound<H(!new)>(t: Table<H>, spec: RouteSpec, handler: H)
    requires Sound(t)
    ensures Sound(Install(t, spec, handler).table)
    ensures Install(t, spec, handler).answer.Ok? ==>
      forall i :: 0 <= i < |t.routes| ==> t.routes[i].handle != Install(t, spec, handler).answer.value
  {
    hide ValidRoute, Shares;
  }

  lemma UninstallSound<H(!new)>(t: Table<H>, handle: nat)
    requires Sound(t)
    ensures
      var u := Uninstall(t, handle);
      Sound(u.table) &&
      (u.answer == Ok(true) ==> forall k :: 0 <= k < |u.table.routes| ==> u.table.routes[k].handle != handle)
  {
    hide ValidRoute, Shares;
    var i := Position(t.routes, handle);
    if !t.closed && i < |t.routes| {
      var rest := t.routes[..i] + t.routes[i + 1..];
      forall k | 0 <= k < |rest| ensures rest[k] == t.routes[if k < i then k else k + 1] {}
    }
  }

  lemma RestoreSound<H(!new)>(t: Table<H>, saved: seq<Stored<H>>)
    requires Sound(t) && Disjoint(saved) && AllValid(saved)
    ensures Sound(Restore(t, saved).table)
  {
  }

  /** One application with the snapshots it took itself. */
  datatype World<H> = World(table: Table<H>, snapshots: seq<seq<Stored<H>>>)

  datatype Op<H> =
    | InstallOp(spec: RouteSpec, handler: H)
    | UninstallOp(handle: nat)
    | SnapshotOp
    | RestoreOp(which: nat)
    | ResetOp
    | CloseOp

  function Apply<H>(w: World<H>, op: Op<H>): World<H> {
    match op
    case InstallOp(spec, handler) => w.(table := Install(w.table, spec, handler).table)
    case UninstallOp(handle) => w.(table := Uninstall(w.table, handle).table)
    case SnapshotOp => if w.table.closed then w else w.(snapshots := w.snapshots + [w.table.routes])
    case RestoreOp(which) =>
      if which < |w.snapshots| then w.(table := Restore(w.table, w.snapshots[which]).table) else w
    case ResetOp => w.(table := Reset(w.table).table)
    case CloseOp => w.(table := Close(w.table))
  }

  function Run<H>(w: World<H>, ops: seq<Op<H>>): World<H>
    decreases |ops|
  {
    if ops == [] then w else Run(Apply(w, ops[0]), ops[1..])
  }

  ghost predicate WorldSound<H(!new)>(w: World<H>) {
    Sound(w.table) && forall k :: 0 <= k < |w.snapshots| ==> Disjoint(w.snapshots[k]) && AllValid(w.snapshots[k])
  }

  lemma ApplySound<H(!new)>(w: World<H>, op: Op<H>)
    requires WorldSound(w)
    ensures WorldSound(Apply(w, op))
    ensures Apply(w, op).table.generation >= w.table.generation
    ensures Apply(w, op).table.generation == w.table.generation ==> Apply(w, op).table.routes == w.table.routes
    ensures Apply(w, op).table.id == w.table.id
  {
    hide ValidRoute, Shares;
    match op
    case InstallOp(spec, handler) => InstallSound(w.table, spec, handler);
    case UninstallOp(handle) => UninstallSound(w.table, handle);
    case RestoreOp(which) => if which < |w.snapshots| { RestoreSound(w.table, w.snapshots[which]); }
    case _ =>
  }

  /** Over every run ids and handles stay unique and paths disjoint, and a generation names one table. */
  lemma {:induction false} RunSound<H(!new)>(w: World<H>, ops: seq<Op<H>>)
    requires WorldSound(w)
    ensures WorldSound(Run(w, ops))
    ensures Run(w, ops).table.generation >= w.table.generation
    ensures Run(w, ops).table.generation == w.table.generation ==> Run(w, ops).table.routes == w.table.routes
    ensures Run(w, ops).table.id == w.table.id
    decreases |ops|
  {
    hide WorldSound, Apply;
    if ops != [] {
      ApplySound(w, ops[0]);
      RunSound(Apply(w, ops[0]), ops[1..]);
    }
  }

  function Start<H>(id: string): World<H> { World(Table(id, [], 1, 0, false), []) }

  /** One application from its creation on, whatever is done with it. */
  lemma ApplicationSound<H(!new)>(id: string, ops: seq<Op<H>>)
    ensures WorldSound(Run(Start<H>(id), ops)) && Run(Start<H>(id), ops).table.id == id
  {
    hide Run;
    RunSound(Start<H>(id), ops);
  }

  // ----- Matching -----

  /** The root path is for no words at all; any other is a prefix. */
  predicate Fits(path: Path, argv: seq<string>) { if path == [] then argv == [] else path <= argv }

  datatype Match = Match(route: nat, length: nat)

  /** One step of the search: the root path wins outright, any other must be longer than the best. */
  function NextBest(p: Path, argv: seq<string>, route: nat, best: Option<Match>): Option<Match> {
    if p == [] then if argv == [] then Some(Match(route, 0)) else best
    else if p <= argv && (best.None? || |p| > best.value.length) then Some(Match(route, |p|))
    else best
  }

  /** Over the paths of one route. */
  function MatchPaths(paths: seq<Path>, argv: seq<string>, route: nat, best: Option<Match>): Option<Match>
    decreases |paths|
  {
    if paths == [] then best
    else MatchPaths(paths[1..], argv, route, NextBest(paths[0], argv, route, best))
  }

  /** `match_route`: the best match over routes from one on. */
  function MatchFrom<H>(routes: seq<Stored<H>>, argv: seq<string>, from: nat, best: Option<Match>): Option<Match>
    requires from <= |routes|
    decreases |routes| - from
  {
    if from == |routes| then best
    else MatchFrom(routes, argv, from + 1, MatchPaths(RoutePaths(routes[from].spec), argv, from, best))
  }

  function MatchRoute<H>(routes: seq<Stored<H>>, argv: seq<string>): Option<Match> { MatchFrom(routes, argv, 0, None) }

  /** A route some path of which fits. */
  predicate FitsRoute(spec: RouteSpec, path: Path, argv: seq<string>) {
    path in RoutePaths(spec) && Fits(path, argv)
  }

  /** The match so far: it fits, and nothing in the routes before `upto` fits longer. */
  ghost predicate BestSoFar<H(!new)>(routes: seq<Stored<H>>, argv: seq<string>, upto: nat, best: Option<Match>)
    requires upto <= |routes|
  {
    match best
    case None => forall i, p | 0 <= i < upto && p in RoutePaths(routes[i].spec) :: !Fits(p, argv)
    case Some(m) =>
      m.route < upto && (exists p :: FitsRoute(routes[m.route].spec, p, argv) && |p| == m.length) &&
      forall i, p | 0 <= i < upto && p in RoutePaths(routes[i].spec) :: Fits(p, argv) ==> |p| <= m.length
  }

  /** The same while inside route `r`, whose first paths are done. */
  ghost predicate BestInside<H(!new)>(
    routes: seq<Stored<H>>, argv: seq<string>, r: nat, done: seq<Path>, best: Option<Match>)
    requires r < |routes|
  {
    match best
    case None =>
      (forall i, p | 0 <= i < r && p in RoutePaths(routes[i].spec) :: !Fits(p, argv)) &&
      forall p | p in done :: !Fits(p, argv)
    case Some(m) =>
      m.route <= r && (exists p :: FitsRoute(routes[m.route].spec, p, argv) && |p| == m.length) &&
      (forall i, p | 0 <= i < r && p in RoutePaths(routes[i].spec) :: Fits(p, argv) ==> |p| <= m.length) &&
      forall p | p in done :: Fits(p, argv) ==> |p| <= m.length
  }

  lemma InsideStep<H(!new)>(
    routes: seq<Stored<H>>, argv: seq<string>, r: nat, done: seq<Path>, p: Path, best: Option<Match>)
    requires r < |routes| && BestInside(routes, argv, r, done, best) && p in RoutePaths(routes[r].spec)
    ensures BestInside(routes, argv, r, done + [p], NextBest(p, argv, r, best))
  {
    var next := NextBest(p, argv, r, best);
    if Fits(p, argv) { assert FitsRoute(routes[r].spec, p, argv); }
    assert forall q | q in done + [p] :: q in done || q == p;
    assert argv == [] ==> forall q: Path | Fits(q, argv) :: |q| == 0;
    hide RoutePaths;
  }

  lemma {:induction false} InsideRun<H(!new)>(
    routes: seq<Stored<H>>, argv: seq<string>, r: nat, done: seq<Path>, todo: seq<Path>, best: Option<Match>)
    requires r < |routes| && BestInside(routes, argv, r, done, best) && done + todo == RoutePaths(routes[r].spec)
    ensures BestInside(routes, argv, r, done + todo, MatchPaths(todo, argv, r, best))
    decreases |todo|
  {
    hide BestInside, RoutePaths;
    if todo == [] {
      assert done + todo == done;
    } else {
      assert todo[0] in done + todo;
      InsideStep(routes, argv, r, done, todo[0], best);
      assert done + [todo[0]] + todo[1..] == done + todo;
      InsideRun(routes, argv, r, done + [todo[0]], todo[1..], NextBest(todo[0], argv, r, best));
    }
  }

  lemma Enter<H(!new)>(routes: seq<Stored<H>>, argv: seq<string>, r: nat, best: Option<Match>)
    requires r < |routes| && BestSoFar(routes, argv, r, best)
    ensures BestInside(routes, argv, r, [], best)
  {
  }

  lemma Leave<H(!new)>(routes: seq<Stored<H>>, argv: seq<string>, r: nat, best: Option<Match>)
    requires r < |routes| && BestInside(routes, argv, r, RoutePaths(routes[r].spec), best)
    ensures BestSoFar(routes, argv, r + 1, best)
  {
    hide RoutePaths, Fits;
  }

  lemma {:induction false} MatchRun<H(!new)>(routes: seq<Stored<H>>, argv: seq<string>, from: nat, best: Option<Match>)
    requires from <= |routes| && BestSoFar(routes, argv, from, best)
    ensures BestSoFar(routes, argv, |routes|, MatchFrom(routes, argv, from, best))
    decreases |routes| - from
  {
    hide BestSoFar, BestInside, MatchPaths;
    if from < |routes| {
      Enter(routes, argv, from, best);
      var paths := RoutePaths(routes[from].spec);
      assert [] + paths == paths;
      InsideRun(routes, argv, from, [], paths, best);
      var next := MatchPaths(paths, argv, from, best);
      Leave(routes, argv, from, next);
      MatchRun(routes, argv, from + 1, next);
    }
  }

  /** Matching finds a longest fitting path, or there is none. */
  lemma MatchIsLongest<H(!new)>(routes: seq<Stored<H>>, argv: seq<string>)
    ensures BestSoFar(routes, argv, |routes|, MatchRoute(routes, argv))
  {
    hide RoutePaths;
    assert BestSoFar(routes, argv, 0, None);
    MatchRun(routes, argv, 0, None);
  }

  /** Two fitting paths of one length are one path. */
  lemma SameFit(p: Path, q: Path, argv: seq<string>)
    requires Fits(p, argv) && Fits(q, argv) && |p| == |q|
    ensures p == q
  {
    if p != [] { assert p == argv[..|p|] && q == argv[..|q|]; }
  }

  /** With disjoint paths the longest fit belongs to one route, so the order of installation does not matter. */
  lemma MatchIgnoresOrder<H(!new)>(a: seq<Stored<H>>, b: seq<Stored<H>>, argv: seq<string>)
    requires Disjoint(a) && (forall s :: s in a <==> s in b)
    ensures MatchRoute(a, argv).Some? <==> MatchRoute(b, argv).Some?
    ensures MatchRoute(a, argv).Some? ==>
      var m, n := MatchRoute(a, argv).value, MatchRoute(b, argv).value;
      m.route < |a| && n.route < |b| && a[m.route] == b[n.route] && m.length == n.length
  {
    hide RoutePaths, Fits, MatchRoute;
    MatchIsLongest(a, argv);
    MatchIsLongest(b, argv);
    if MatchRoute(a, argv).Some? { MatchTransfers(a, b, argv); }
    if MatchRoute(b, argv).Some? { MatchTransfers(b, a, argv); }
    if MatchRoute(a, argv).Some? {
      var m, n := MatchRoute(a, argv).value, MatchRoute(b, argv).value;
      var p :| FitsRoute(a[m.route].spec, p, argv) && |p| == m.length;
      var q :| FitsRoute(b[n.route].spec, q, argv) && |q| == n.length;
      SameFit(p, q, argv);
      assert b[n.route] in a;
      var k :| 0 <= k < |a| && a[k] == b[n.route];
      OneOwner(a, m.route, k, p);
    }
  }

  lemma OneOwner<H(!new)>(a: seq<Stored<H>>, i: nat, k: nat, p: Path)
    requires Disjoint(a) && i < |a| && k < |a| && p in RoutePaths(a[i].spec) && p in RoutePaths(a[k].spec)
    ensures i == k
  {
    hide RoutePaths;
    assert Shares(a[i].spec, a[k].spec) && Shares(a[k].spec, a[i].spec);
  }

  lemma MatchTransfers<H(!new)>(a: seq<Stored<H>>, b: seq<Stored<H>>, argv: seq<string>)
    requires forall s :: s in a ==> s in b
    requires BestSoFar(a, argv, |a|, MatchRoute(a, argv)) && BestSoFar(b, argv, |b|, MatchRoute(b, argv))
    requires MatchRoute(a, argv).Some?
    ensures MatchRoute(b, argv).Some? && MatchRoute(a, argv).value.length <= MatchRoute(b, argv).value.length
  {
    hide RoutePaths, Fits, MatchRoute;
    var m := MatchRoute(a, argv).value;
    var p :| FitsRoute(a[m.route].spec, p, argv) && |p| == m.length;
    assert a[m.route] in b;
    var k :| 0 <= k < |b| && b[k] == a[m.route];
    assert p in RoutePaths(b[k].spec) && Fits(p, argv);
  }

  // ----- Requests -----

  /** What a parsed request remembers of the table. */
  datatype Ticket = Ticket(app: string, handle: nat, generation: nat)

  function Issue<H>(t: Table<H>, argv: seq<string>): Result<Ticket, Error> {
    if t.closed then Err(Closed)
    else
      match MatchRoute(t.routes, argv)
      case None => Err(UnknownRoute)
      case Some(m) =>
        if m.route < |t.routes| then Ok(Ticket(t.id, t.routes[m.route].handle, t.generation)) else Err(UnknownRoute)
  }

  function Handler<H>(t: Table<H>, ticket: Ticket): Result<H, Error> {
    if t.closed then Err(Closed)
    else if ticket.app != t.id then Err(ForeignRequest)
    else if ticket.generation != t.generation then Err(StaleRequest)
    else
      var i := Position(t.routes, ticket.handle);
      if i < |t.routes| then Ok(t.routes[i].handler) else Err(StaleRequest)
  }

  /** However the table changed since, a handler that is handed out is the one matched at parse time. */
  lemma HandlerIsTheMatched<H(!new)>(w: World<H>, argv: seq<string>, ops: seq<Op<H>>)
    requires WorldSound(w) && Issue(w.table, argv).Ok?
    ensures
      var ticket := Issue(w.table, argv).value;
      var later := Run(w, ops).table;
      var m := MatchRoute(w.table.routes, argv).value;
      Handler(later, ticket).Ok? ==>
        m.route < |w.table.routes| && later.routes == w.table.routes &&
        Handler(later, ticket).value == w.table.routes[m.route].handler
  {
    hide WorldSound, MatchRoute, Run;
    RunSound(w, ops);
    var ticket := Issue(w.table, argv).value;
    var later := Run(w, ops).table;
    var m := MatchRoute(w.table.routes, argv).value;
    if Handler(later, ticket).Ok? { OnePosition(w, m.route); }
  }

  lemma OnePosition<H(!new)>(w: World<H>, i: nat)
    requires WorldSound(w) && i < |w.table.routes|
    ensures Position(w.table.routes, w.table.routes[i].handle) == i
  {
    hide ValidRoute, Shares;
    var p := Position(w.table.routes, w.table.routes[i].handle);
    assert p < |w.table.routes|;
  }

  /** A parsed request is served as long as the table has not changed. */
  lemma HandlerIsServed<H(!new)>(w: World<H>, argv: seq<string>, ops: seq<Op<H>>)
    requires WorldSound(w) && Issue(w.table, argv).Ok?
    ensures
      var later := Run(w, ops).table;
      Handler(later, Issue(w.table, argv).value).Ok? <==>
      !later.closed && later.generation == w.table.generation
  {
    hide WorldSound, MatchRoute, Run;
    RunSound(w, ops);
    var m := MatchRoute(w.table.routes, argv).value;
    OnePosition(w, m.route);
  }
}
