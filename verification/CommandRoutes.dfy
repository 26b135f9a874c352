/**
 What each operation does to the routes of an application, route by route, and
 which routes a whole run leaves: those that came and were not taken away since.
 */
module CommandRoutes {
  import opened Prelude
  import opened CommandRouter

  // ----- One operation -----

  /** One route stands before another. */
  ghost predicate Before<H(!new)>(routes: seq<Stored<H>>, a: Stored<H>, b: Stored<H>) {
    exists i, j :: 0 <= i < j < |routes| && routes[i] == a && routes[j] == b
  }

  /** All routes but those of one handle, in the order they had. */
  ghost predicate Without<H(!new)>(before: seq<Stored<H>>, after: seq<Stored<H>>, handle: nat) {
    && (forall s :: s in after <==> s in before && s.handle != handle)
    && forall a, b :: Before(after, a, b) <==> Before(before, a, b) && a.handle != handle && b.handle != handle
  }

  /** All routes and one more, which stands last. */
  ghost predicate With<H(!new)>(before: seq<Stored<H>>, after: seq<Stored<H>>, more: Stored<H>) {
    && (forall s :: s in after <==> s in before || s == more)
    && forall a, b :: Before(after, a, b) <==> Before(before, a, b) || (a in before && b == more)
  }

  /** Changed, the table moves on by one generation; else it stays as it is. */
  predicate MovesOn<H(!new)>(t: Table<H>, u: Table<H>) {
    u.id == t.id && u.closed == t.closed && u.generation == t.generation + 1
  }

  lemma DroppedAt<H(!new)>(routes: seq<Stored<H>>, i: nat)
    requires Disjoint(routes) && i < |routes|
    ensures Without(routes, routes[..i] + routes[i + 1..], routes[i].handle)
  {
    hide Shares;
    var handle := routes[i].handle;
    var rest := routes[..i] + routes[i + 1..];
    forall k | 0 <= k < |rest| ensures rest[k] == routes[if k < i then k else k + 1] {}
    forall k | 0 <= k < |routes| && k != i ensures routes[k] == rest[if k < i then k else k - 1] {}
    assert forall k :: 0 <= k < |routes| && k != i ==> routes[k].handle != handle;
    forall a, b ensures Before(rest, a, b) <==> Before(routes, a, b) && a.handle != handle && b.handle != handle {
      DroppedOrder(routes, i, a, b);
    }
  }

  lemma DroppedOrder<H(!new)>(routes: seq<Stored<H>>, i: nat, a: Stored<H>, b: Stored<H>)
    requires Disjoint(routes) && i < |routes|
    ensures
      var rest, handle := routes[..i] + routes[i + 1..], routes[i].handle;
      Before(rest, a, b) <==> Before(routes, a, b) && a.handle != handle && b.handle != handle
  {
    hide Shares;
    var rest, handle := routes[..i] + routes[i + 1..], routes[i].handle;
    if Before(rest, a, b) {
      var j, k :| 0 <= j < k < |rest| && rest[j] == a && rest[k] == b;
      hide Before;
      OrderBack(routes, i, j, k);
      assert forall m :: 0 <= m < |routes| && m != i ==> routes[m].handle != handle;
    }
    if Before(routes, a, b) && a.handle != handle && b.handle != handle {
      var j, k :| 0 <= j < k < |routes| && routes[j] == a && routes[k] == b;
      hide Before;
      OrderKept(routes, i, j, k);
    }
  }

  lemma OrderBack<H(!new)>(routes: seq<Stored<H>>, i: nat, j: nat, k: nat)
    requires i < |routes| && j < k < |routes| - 1
    ensures
      var rest := routes[..i] + routes[i + 1..];
      var m, n := if j < i then j else j + 1, if k < i then k else k + 1;
      rest[j] == routes[m] && rest[k] == routes[n] && Before(routes, rest[j], rest[k])
  {
  }

  lemma OrderKept<H(!new)>(routes: seq<Stored<H>>, i: nat, j: nat, k: nat)
    requires i < |routes| && j < k < |routes| && j != i && k != i
    ensures Before(routes[..i] + routes[i + 1..], routes[j], routes[k])
  {
    var rest := routes[..i] + routes[i + 1..];
    var m, n := if j < i then j else j - 1, if k < i then k else k - 1;
    assert rest[m] == routes[j] && rest[n] == routes[k];
  }

  /** Uninstalling takes away the route of a handle and leaves every other where it stood. */
  lemma UninstallTakes<H(!new)>(t: Table<H>, handle: nat)
    requires Sound(t)
    ensures
      var u := Uninstall(t, handle);
      if t.closed then u == Change(t, Err(Closed))
      else if exists s :: s in t.routes && s.handle == handle then
        u.answer == Ok(true) && Without(t.routes, u.table.routes, handle) &&
        |u.table.routes| == |t.routes| - 1 && MovesOn(t, u.table) && u.table.next == t.next
      else u == Change(t, Ok(false))
  {
    hide ValidRoute, Shares, Disjoint, Without;
    var i := Position(t.routes, handle);
    if i < |t.routes| {
      assert t.routes[i] in t.routes;
      DroppedAt(t.routes, i);
    }
  }

  lemma Appended<H(!new)>(routes: seq<Stored<H>>, more: Stored<H>)
    ensures With(routes, routes + [more], more)
  {
    var all := routes + [more];
    forall a, b ensures Before(all, a, b) <==> Before(routes, a, b) || (a in routes && b == more) {
      if Before(all, a, b) {
        var i, j :| 0 <= i < j < |all| && all[i] == a && all[j] == b;
        assert routes[i] == a && (j < |routes| ==> routes[j] == b);
      }
      if Before(routes, a, b) {
        var i, j :| 0 <= i < j < |routes| && routes[i] == a && routes[j] == b;
        assert all[i] == a && all[j] == b;
      }
      if a in routes && b == more {
        var i :| 0 <= i < |routes| && routes[i] == a;
        assert all[i] == a && all[|routes|] == b;
      }
    }
  }

  /** What an installation must meet: a new id and new paths. */
  ghost predicate Free<H(!new)>(routes: seq<Stored<H>>, spec: RouteSpec) {
    forall s :: s in routes ==> s.spec.id != spec.id && forall p | p in RoutePaths(spec) :: p !in RoutePaths(s.spec)
  }

  /** Installing adds the route last, under a handle no other has, exactly when it is valid and its place free. */
  lemma InstallAdds<H(!new)>(t: Table<H>, spec: RouteSpec, handler: H)
    requires Sound(t)
    ensures
      var u := Install(t, spec, handler);
      if t.closed then u == Change(t, Err(Closed))
      else if !ValidRoute(spec) then u == Change(t, Err(InvalidRoute))
      else if !Free(t.routes, spec) then u == Change(t, Err(RouteConflict))
      else
        u.answer.Ok? && With(t.routes, u.table.routes, Stored(u.answer.value, spec, handler)) &&
        (forall s :: s in t.routes ==> s.handle != u.answer.value) &&
        |u.table.routes| == |t.routes| + 1 && MovesOn(t, u.table)
  {
    FreeIs(t.routes, spec);
    hide ValidRoute, Disjoint, With, Free, Conflicts;
    Appended(t.routes, Stored(t.next, spec, handler));
  }

  lemma FreeIs<H(!new)>(routes: seq<Stored<H>>, spec: RouteSpec)
    ensures Free(routes, spec) <==> !Conflicts(routes, spec)
  {
    hide RoutePaths;
    if Free(routes, spec) {
      forall i | 0 <= i < |routes| ensures !Shares(routes[i].spec, spec) && routes[i].spec.id != spec.id {
        assert routes[i] in routes;
      }
    } else {
      var s :| s in routes && !(s.spec.id != spec.id && forall p | p in RoutePaths(spec) :: p !in RoutePaths(s.spec));
      var i :| 0 <= i < |routes| && routes[i] == s;
      assert Shares(routes[i].spec, spec) || routes[i].spec.id == spec.id;
    }
  }

  /** Restoring leaves the routes of the snapshot and no others. */
  lemma RestoreIs<H(!new)>(t: Table<H>, saved: seq<Stored<H>>)
    ensures
      var u := Restore(t, saved);
      if t.closed then u == Change(t, Err(Closed))
      else
        u.answer.Ok? && u.table.routes == saved && MovesOn(t, u.table) &&
        (forall s :: s in saved ==> s.handle < u.table.next) &&
        (u.table.next > 1 ==> exists s :: s in saved && s.handle + 1 == u.table.next)
  {
    MaxReached(saved);
    assert forall s :: s in saved ==> s.handle <= MaxHandle(saved);
  }

  lemma {:induction false} MaxReached<H(!new)>(routes: seq<Stored<H>>)
    ensures MaxHandle(routes) > 0 ==> exists s :: s in routes && s.handle == MaxHandle(routes)
  {
    if routes != [] {
      MaxReached(routes[1..]);
      var m := MaxHandle(routes[1..]);
      if routes[0].handle > m {
        assert routes[0] in routes;
      } else if m > 0 {
        var s :| s in routes[1..] && s.handle == m;
        assert s in routes;
      }
    }
  }

  // ----- A run -----

  /** The operation leaves a route in the table whether or not it was there. */
  ghost predicate Brings<H(!new)>(w: World<H>, op: Op<H>, s: Stored<H>) {
    match op
    case InstallOp(spec, handler) =>
      Install(w.table, spec, handler).answer == Ok(s.handle) && s.spec == spec && s.handler == handler
    case RestoreOp(which) => !w.table.closed && which < |w.snapshots| && s in w.snapshots[which]
    case _ => false
  }

  /** The operation uninstalls a route, resets or closes the application, or restores a snapshot without the route. */
  ghost predicate Removes<H(!new)>(w: World<H>, op: Op<H>, s: Stored<H>) {
    match op
    case UninstallOp(handle) => !w.table.closed && handle == s.handle
    case RestoreOp(which) => !w.table.closed && which < |w.snapshots| && s !in w.snapshots[which]
    case ResetOp => !w.table.closed
    case CloseOp => !w.table.closed
    case _ => false
  }

  lemma StepRoutes<H(!new)>(w: World<H>, op: Op<H>, s: Stored<H>)
    requires WorldSound(w)
    ensures s in Apply(w, op).table.routes <==>
      Brings(w, op, s) || (s in w.table.routes && !Removes(w, op, s))
  {
    hide ValidRoute, Shares, Disjoint, Conflicts;
    match op
    case InstallOp(spec, handler) => InstallAdds(w.table, spec, handler);
    case UninstallOp(handle) => UninstallTakes(w.table, handle);
    case _ =>
  }

  /** How the application stands after the first operations of a run. */
  function Stage<H>(w: World<H>, ops: seq<Op<H>>, k: nat): World<H>
    requires k <= |ops|
  {
    Run(w, ops[..k])
  }

  lemma {:induction false} RunLast<H>(w: World<H>, ops: seq<Op<H>>, op: Op<H>)
    ensures Run(w, ops + [op]) == Apply(Run(w, ops), op)
    decreases |ops|
  {
    hide Apply;
    var all := ops + [op];
    if ops == [] {
      assert all == [op] && all[1..] == [];
      assert Run(Apply(w, op), all[1..]) == Apply(w, op);
    } else {
      assert all[0] == ops[0] && all[1..] == ops[1..] + [op];
      RunLast(Apply(w, ops[0]), ops[1..], op);
    }
  }

  lemma NextStage<H>(w: World<H>, ops: seq<Op<H>>, k: nat)
    requires k < |ops|
    ensures Stage(w, ops, k + 1) == Apply(Stage(w, ops, k), ops[k])
  {
    hide Apply, Run;
    assert ops[..k + 1] == ops[..k] + [ops[k]];
    RunLast(w, ops[..k], ops[k]);
  }

  /** A route was there at the start, or the operation before a stage brought it. */
  ghost predicate Came<H(!new)>(w: World<H>, ops: seq<Op<H>>, b: nat, s: Stored<H>)
    requires b <= |ops|
  {
    if b == 0 then s in w.table.routes else Brings(Stage(w, ops, b - 1), ops[b - 1], s)
  }

  /** No operation of a stretch removed a route. */
  ghost predicate Stayed<H(!new)>(w: World<H>, ops: seq<Op<H>>, b: nat, e: nat, s: Stored<H>)
    requires e <= |ops|
  {
    forall k :: b <= k < e ==> !Removes(Stage(w, ops, k), ops[k], s)
  }

  /** Some time in a run a route came, and up to a stage nothing has removed it since. */
  ghost predicate Lives<H(!new)>(w: World<H>, ops: seq<Op<H>>, e: nat, s: Stored<H>)
    requires e <= |ops|
  {
    exists b :: 0 <= b <= e && Came(w, ops, b, s) && Stayed(w, ops, b, e, s)
  }

  lemma LivesOn<H(!new)>(w: World<H>, ops: seq<Op<H>>, e: nat, s: Stored<H>)
    requires e < |ops|
    ensures Lives(w, ops, e + 1, s) <==>
      Brings(Stage(w, ops, e), ops[e], s) || (Lives(w, ops, e, s) && !Removes(Stage(w, ops, e), ops[e], s))
  {
    hide Stage, Brings, Removes;
    if Lives(w, ops, e + 1, s) {
      var b :| 0 <= b <= e + 1 && Came(w, ops, b, s) && Stayed(w, ops, b, e + 1, s);
      assert b <= e ==> Stayed(w, ops, b, e, s);
    }
    if Lives(w, ops, e, s) && !Removes(Stage(w, ops, e), ops[e], s) {
      var b :| 0 <= b <= e && Came(w, ops, b, s) && Stayed(w, ops, b, e, s);
      assert Stayed(w, ops, b, e + 1, s);
    }
    if Brings(Stage(w, ops, e), ops[e], s) {
      assert Came(w, ops, e + 1, s) && Stayed(w, ops, e + 1, e + 1, s);
    }
  }

  lemma {:induction false} StageRoutes<H(!new)>(w: World<H>, ops: seq<Op<H>>, e: nat, s: Stored<H>)
    requires WorldSound(w) && e <= |ops|
    ensures WorldSound(Stage(w, ops, e))
    ensures s in Stage(w, ops, e).table.routes <==> Lives(w, ops, e, s)
    decreases e
  {
    hide WorldSound, Brings, Removes, Apply, Came, Stayed;
    if e == 0 {
      assert ops[..0] == [];
      LivesAtStart(w, ops, s);
    } else {
      hide Lives, Stage;
      StageRoutes(w, ops, e - 1, s);
      NextStage(w, ops, e - 1);
      StepRoutes(Stage(w, ops, e - 1), ops[e - 1], s);
      ApplySound(Stage(w, ops, e - 1), ops[e - 1]);
      LivesOn(w, ops, e - 1, s);
    }
  }

  lemma LivesAtStart<H(!new)>(w: World<H>, ops: seq<Op<H>>, s: Stored<H>)
    ensures Lives(w, ops, 0, s) <==> s in w.table.routes
  {
    assert Stayed(w, ops, 0, 0, s);
  }

  /** After any run the table holds exactly the routes that came and were not removed since. */
  lemma RunRoutes<H(!new)>(w: World<H>, ops: seq<Op<H>>, s: Stored<H>)
    requires WorldSound(w)
    ensures s in Run(w, ops).table.routes <==> Lives(w, ops, |ops|, s)
  {
    hide WorldSound, Lives, Run;
    assert ops[..|ops|] == ops;
    StageRoutes(w, ops, |ops|, s);
  }

  // ----- Snapshots -----

  lemma {:induction false} StageSnapshots<H(!new)>(w: World<H>, ops: seq<Op<H>>, e: nat)
    requires e <= |ops|
    ensures w.snapshots <= Stage(w, ops, e).snapshots
    ensures forall k: nat | k < e :: Taken(w, ops, k, e)
    ensures forall n: nat | |w.snapshots| <= n < |Stage(w, ops, e).snapshots| :: TakenAt(w, ops, n, e)
    decreases e
  {
    hide Run;
    if e == 0 {
      assert ops[..0] == [] && Run(w, []) == w by { EmptyRun(w); }
    } else {
      StageSnapshots(w, ops, e - 1);
      NextStage(w, ops, e - 1);
      var before, after := Stage(w, ops, e - 1), Stage(w, ops, e);
      hide Stage;
      SnapshotStep(before, ops[e - 1]);
      forall k: nat | k < e ensures Taken(w, ops, k, e) {
        if k < e - 1 { assert Taken(w, ops, k, e - 1); }
      }
      forall n: nat | |w.snapshots| <= n < |after.snapshots| ensures TakenAt(w, ops, n, e) {
        if n < |before.snapshots| {
          assert TakenAt(w, ops, n, e - 1);
        } else {
          assert Takes(w, ops, e - 1) && |Stage(w, ops, e - 1).snapshots| == n;
        }
      }
    }
  }

  lemma EmptyRun<H>(w: World<H>)
    ensures Run(w, []) == w
  {
  }

  lemma SnapshotStep<H(!new)>(w: World<H>, op: Op<H>)
    ensures Apply(w, op).snapshots ==
      w.snapshots + if op.SnapshotOp? && !w.table.closed then [w.table.routes] else []
  {
  }

  /** An operation that takes a snapshot: one of an open application. */
  ghost predicate Takes<H(!new)>(w: World<H>, ops: seq<Op<H>>, k: nat)
    requires k < |ops|
  {
    ops[k].SnapshotOp? && !Stage(w, ops, k).table.closed
  }

  /** What a snapshot took is kept for good. */
  ghost predicate Taken<H(!new)>(w: World<H>, ops: seq<Op<H>>, k: nat, e: nat)
    requires k < e <= |ops|
  {
    Takes(w, ops, k) ==>
      var was, now := Stage(w, ops, k), Stage(w, ops, e);
      |was.snapshots| < |now.snapshots| && now.snapshots[|was.snapshots|] == was.table.routes
  }

  /** A snapshot was taken at some time of the run. */
  ghost predicate TakenAt<H(!new)>(w: World<H>, ops: seq<Op<H>>, n: nat, e: nat)
    requires e <= |ops|
  {
    exists k: nat :: k < e && Takes(w, ops, k) && |Stage(w, ops, k).snapshots| == n
  }

  /** The snapshots of a run are those it began with and the routes of the times it took one. */
  lemma RunSnapshots<H(!new)>(w: World<H>, ops: seq<Op<H>>)
    ensures w.snapshots <= Run(w, ops).snapshots
    ensures forall k: nat | k < |ops| :: Taken(w, ops, k, |ops|)
    ensures forall n: nat | |w.snapshots| <= n < |Run(w, ops).snapshots| :: TakenAt(w, ops, n, |ops|)
  {
    hide Run;
    assert ops[..|ops|] == ops;
    StageSnapshots(w, ops, |ops|);
  }

  // ----- Found by handle and by path -----

  ghost predicate FoundByHandle<H(!new)>(routes: seq<Stored<H>>, s: Stored<H>) {
    var i := Position(routes, s.handle);
    i < |routes| && routes[i] == s
  }

  lemma HandleFinds<H(!new)>(routes: seq<Stored<H>>, s: Stored<H>)
    requires Disjoint(routes)
    ensures FoundByHandle(routes, s) <==> s in routes
  {
    hide Shares;
    if s in routes {
      var k :| 0 <= k < |routes| && routes[k] == s;
      var i := Position(routes, s.handle);
      assert i <= k;
    }
  }

  /** No path of the table longer than this fits the words. */
  ghost predicate NoneLonger<H(!new)>(routes: seq<Stored<H>>, argv: seq<string>, length: nat) {
    forall s, p | s in routes && p in RoutePaths(s.spec) :: Fits(p, argv) ==> |p| <= length
  }

  ghost predicate MatchedBy<H(!new)>(routes: seq<Stored<H>>, argv: seq<string>, s: Stored<H>, length: nat) {
    match MatchRoute(routes, argv)
    case None => false
    case Some(m) => m.route < |routes| && routes[m.route] == s && m.length == length
  }

  lemma PathFinds<H(!new)>(routes: seq<Stored<H>>, argv: seq<string>, s: Stored<H>, p: Path)
    requires Disjoint(routes) && p in RoutePaths(s.spec) && Fits(p, argv) && NoneLonger(routes, argv, |p|)
    ensures MatchedBy(routes, argv, s, |p|) <==> s in routes
  {
    hide RoutePaths, Fits, MatchRoute, Disjoint;
    MatchIsLongest(routes, argv);
    if s in routes {
      var k :| 0 <= k < |routes| && routes[k] == s;
      var best := MatchRoute(routes, argv);
      assert best.Some?;
      var m := best.value;
      var q :| FitsRoute(routes[m.route].spec, q, argv) && |q| == m.length;
      assert routes[m.route] in routes;
      SameFit(p, q, argv);
      OneOwner(routes, k, m.route, p);
    }
  }

  /** Through any run a route is found by its handle, and by its path where no longer one fits, while it lives. */
  lemma RouteFound<H(!new)>(w: World<H>, ops: seq<Op<H>>, s: Stored<H>)
    requires WorldSound(w)
    ensures
      var now := Run(w, ops).table.routes;
      && (FoundByHandle(now, s) <==> Lives(w, ops, |ops|, s))
      && forall p, argv | p in RoutePaths(s.spec) && Fits(p, argv) && NoneLonger(now, argv, |p|) ::
           MatchedBy(now, argv, s, |p|) <==> Lives(w, ops, |ops|, s)
  {
    hide Run, Lives, FoundByHandle, MatchedBy, RoutePaths, Fits, NoneLonger;
    RunSound(w, ops);
    RunRoutes(w, ops, s);
    var now := Run(w, ops).table.routes;
    HandleFinds(now, s);
    forall p, argv | p in RoutePaths(s.spec) && Fits(p, argv) && NoneLonger(now, argv, |p|)
      ensures MatchedBy(now, argv, s, |p|) <==> s in now
    {
      PathFinds(now, argv, s, p);
    }
  }
}
