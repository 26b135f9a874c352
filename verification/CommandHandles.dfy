/**
 Handles over a whole run.  `restore` puts the handle counter back to just
 above the restored routes, so a handle may be given out a second time; the
 theorem says exactly when.
 */
module CommandHandles {
  import opened Prelude
  import opened CommandRouter

  /** The handle an operation gives out, if it is an installation that succeeds. */
  function Given<H>(w: World<H>, op: Op<H>): Option<nat> {
    match op
    case InstallOp(spec, handler) =>
      (match Install(w.table, spec, handler).answer
       case Ok(handle) => Some(handle)
       case Err(_) => None)
    case _ => None
  }

  /** The handles a run gives out. */
  function Issued<H>(w: World<H>, ops: seq<Op<H>>): seq<nat>
    decreases |ops|
  {
    if ops == [] then []
    else (if Given(w, ops[0]).Some? then [Given(w, ops[0]).value] else []) + Issued(Apply(w, ops[0]), ops[1..])
  }

  /** The highest the handle counter stands at any time during a run. */
  function Peak<H>(w: World<H>, ops: seq<Op<H>>): nat
    decreases |ops|
  {
    if ops == [] then w.table.next
    else
      var later := Peak(Apply(w, ops[0]), ops[1..]);
      if later > w.table.next then later else w.table.next
  }

  ghost predicate Below<H(!new)>(routes: seq<Stored<H>>, top: nat) {
    forall i :: 0 <= i < |routes| ==> routes[i].handle < top
  }

  /** Nothing known to the application carries a handle from `top` on. */
  ghost predicate AllBelow<H(!new)>(w: World<H>, top: nat) {
    1 <= w.table.next <= top && Below(w.table.routes, top) &&
    forall k :: 0 <= k < |w.snapshots| ==> Below(w.snapshots[k], top)
  }

  lemma BelowMax<H(!new)>(routes: seq<Stored<H>>, top: nat)
    requires Below(routes, top) && top >= 1
    ensures MaxHandle(routes) < top
    decreases |routes|
  {
    if routes != [] {
      assert Below(routes[1..], top);
      BelowMax(routes[1..], top);
    }
  }

  /** One operation: only an installation under the counter's peak moves the peak, by one. */
  lemma StepBelow<H(!new)>(w: World<H>, op: Op<H>, top: nat)
    requires AllBelow(w, top)
    ensures
      var rises := Given(w, op) == Some(top);
      AllBelow(Apply(w, op), if rises then top + 1 else top) &&
      (rises ==> Apply(w, op).table.next == top + 1) &&
      (Given(w, op).Some? ==> 1 <= Given(w, op).value <= top)
  {
    hide ValidRoute, Conflicts;
    match op
    case UninstallOp(handle) =>
      var i := Position(w.table.routes, handle);
      if !w.table.closed && i < |w.table.routes| {
        var rest := w.table.routes[..i] + w.table.routes[i + 1..];
        assert forall k :: 0 <= k < |rest| ==> rest[k] in w.table.routes;
      }
    case RestoreOp(which) => if which < |w.snapshots| { BelowMax(w.snapshots[which], top); }
    case _ =>
  }

  /** From `top` on a run gives out exactly the handles below its peak. */
  lemma {:induction false} IssuedUpToPeak<H(!new)>(w: World<H>, ops: seq<Op<H>>, top: nat)
    requires AllBelow(w, top)
    ensures forall handle :: handle >= top ==> (handle in Issued(w, ops) <==> handle < Peak(w, ops))
    ensures forall handle :: handle in Issued(w, ops) ==> handle >= 1
    ensures Run(w, ops).table.next >= 1
    decreases |ops|
  {
    hide Apply, Given, AllBelow;
    if ops == [] {
      assert w.table.next <= top && w.table.next >= 1 by { CounterBelow(w, top); }
    } else {
      StepBelow(w, ops[0], top);
      CounterBelow(w, top);
      var next := if Given(w, ops[0]) == Some(top) then top + 1 else top;
      IssuedUpToPeak(Apply(w, ops[0]), ops[1..], next);
      PeakFrom(Apply(w, ops[0]), ops[1..]);
    }
  }

  lemma CounterBelow<H(!new)>(w: World<H>, top: nat)
    requires AllBelow(w, top)
    ensures 1 <= w.table.next <= top
  {
  }

  lemma PeakFrom<H>(w: World<H>, ops: seq<Op<H>>)
    ensures Peak(w, ops) >= w.table.next
  {
  }

  /**
   An installation, after any run of a new application, gives out a handle that
   was given out before exactly when the counter once stood higher than it does
   now, that is, when a restore has put it back and it has not caught up.
   */
  lemma HandleComesBack<H(!new)>(id: string, ops: seq<Op<H>>, spec: RouteSpec, handler: H)
    requires Install(Run(Start<H>(id), ops).table, spec, handler).answer.Ok?
    ensures
      var now := Run(Start<H>(id), ops).table;
      Install(now, spec, handler).answer.value in Issued(Start<H>(id), ops) <==> now.next < Peak(Start<H>(id), ops)
  {
    hide Run, Issued, Peak, ValidRoute, Conflicts;
    IssuedUpToPeak(Start<H>(id), ops, 1);
  }

  /** A restore of routes reaching up to the last handle given out, or any other operation, leaves the counter up. */
  predicate KeepsCounter<H>(w: World<H>, op: Op<H>) {
    op.RestoreOp? && op.which < |w.snapshots| && !w.table.closed ==>
      MaxHandle(w.snapshots[op.which]) + 1 >= w.table.next
  }

  predicate NeverPutBack<H>(w: World<H>, ops: seq<Op<H>>)
    decreases |ops|
  {
    ops == [] || (KeepsCounter(w, ops[0]) && NeverPutBack(Apply(w, ops[0]), ops[1..]))
  }

  lemma {:induction false} CounterAtPeak<H>(w: World<H>, ops: seq<Op<H>>)
    requires NeverPutBack(w, ops)
    ensures Run(w, ops).table.next == Peak(w, ops)
    decreases |ops|
  {
    if ops != [] {
      CounterAtPeak(Apply(w, ops[0]), ops[1..]);
      assert Apply(w, ops[0]).table.next >= w.table.next by { hide ValidRoute, Conflicts; }
      PeakFrom(Apply(w, ops[0]), ops[1..]);
    }
  }

  /** So a run that restores only up-to-date snapshots never gives a handle out twice. */
  lemma HandlesFresh<H(!new)>(id: string, ops: seq<Op<H>>, spec: RouteSpec, handler: H)
    requires NeverPutBack(Start<H>(id), ops)
    requires Install(Run(Start<H>(id), ops).table, spec, handler).answer.Ok?
    ensures Install(Run(Start<H>(id), ops).table, spec, handler).answer.value !in Issued(Start<H>(id), ops)
  {
    hide Run, Issued, Peak, ValidRoute, Conflicts, NeverPutBack;
    HandleComesBack(id, ops, spec, handler);
    CounterAtPeak(Start<H>(id), ops);
  }

  /** Installing, going back to the empty table and installing again gives out handle 1 twice. */
  lemma HandleTwice<H(!new)>(id: string, a: RouteSpec, b: RouteSpec, handler: H)
    requires ValidRoute(a) && ValidRoute(b)
    ensures
      var ops := [SnapshotOp, InstallOp(a, handler), RestoreOp(0)];
      Issued(Start<H>(id), ops) == [1] &&
      Install(Run(Start<H>(id), ops).table, b, handler).answer == Ok(1)
  {
    hide ValidRoute;
    var install, restore := InstallOp(a, handler), RestoreOp(0);
    var w0 := Start<H>(id);
    var w1 := w0.(snapshots := [[]]);
    var w2 := w1.(table := Install(w1.table, a, handler).table);
    var w3 := w2.(table := Restore(w2.table, []).table);
    assert w0.snapshots + [w0.table.routes] == [[]];
    assert Apply(w0, SnapshotOp) == w1 && Apply(w1, install) == w2 && Apply(w2, restore) == w3;
    assert [SnapshotOp, install, restore][1..] == [install, restore] && [install, restore][1..] == [restore];
    assert [restore][1..] == [];
    assert Run(w2, [restore]) == w3 && Run(w1, [install, restore]) == w3;
    assert Issued(w2, [restore]) == [] && Issued(w1, [install, restore]) == [1];
  }
}
