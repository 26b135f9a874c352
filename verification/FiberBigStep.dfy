/**
 The step machine's runs, summed up: `Fin` answers what a piece of the
 evaluator eventually returns to its continuation.  It mentions no
 continuation, and the lemmas show that the machine's runs and `Fin` agree
 whatever continuation is waiting.
 */
module FiberBigStep {
  import opened FiberData
  import opened FiberMachine
  import opened FiberDirect

  function Fin(h: Host, n: nat, next: Next): Out
    decreases n
  {
    match next
    case Return(r, st) => Out(r, st)
    case Wait(p, st) => Await(h, p, st)
    case Tail(task, st) => if n == 0 then OutOfFuel else Fin(h, n - 1, Start(h, task, st))
    case Continue(task, st) => if n == 0 then OutOfFuel else Fin(h, n - 1, Start(h, task, st))
    case Call(task, st, frame) =>
      if n == 0 then OutOfFuel
      else
        match Fin(h, n - 1, Start(h, task, st))
        case OutOfFuel => OutOfFuel
        case Out(r, st1) => Fin(h, n - 1, Apply(h, frame, r, st1))
  }

  ghost predicate Fins(h: Host, next: Next, r: Outcome, st: State) {
    exists n: nat :: Fin(h, n, next) == Out(r, st)
  }

  lemma {:induction false} FinMonotone(h: Host, n: nat, m: nat, next: Next)
    requires n <= m && Fin(h, n, next).Out?
    ensures Fin(h, m, next) == Fin(h, n, next)
    decreases n
  {
    match next
    case Return(r, st) =>
    case Wait(p, st) =>
    case Tail(task, st) => FinMonotone(h, n - 1, m - 1, Start(h, task, st));
    case Continue(task, st) => FinMonotone(h, n - 1, m - 1, Start(h, task, st));
    case Call(task, st, frame) =>
      FinMonotone(h, n - 1, m - 1, Start(h, task, st));
      var out := Fin(h, n - 1, Start(h, task, st));
      FinMonotone(h, n - 1, m - 1, Apply(h, frame, out.r, out.st));
  }

  lemma FinsTail(h: Host, task: Task, st: State, r: Outcome, st': State)
    requires Fins(h, Start(h, task, st), r, st')
    ensures Fins(h, Tail(task, st), r, st') && Fins(h, Continue(task, st), r, st')
  {
    var n: nat :| Fin(h, n, Start(h, task, st)) == Out(r, st');
    assert Fin(h, n + 1, Tail(task, st)) == Out(r, st');
    assert Fin(h, n + 1, Continue(task, st)) == Out(r, st');
  }

  lemma FinsReturn(h: Host, r: Outcome, st: State)
    ensures Fins(h, Return(r, st), r, st)
  {
    assert Fin(h, 0, Return(r, st)) == Out(r, st);
  }

  lemma FinsCall(h: Host, task: Task, st: State, frame: Frame, r1: Outcome, st1: State, r: Outcome, st': State)
    requires Fins(h, Start(h, task, st), r1, st1)
    requires Fins(h, Apply(h, frame, r1, st1), r, st')
    ensures Fins(h, Call(task, st, frame), r, st')
  {
    var n: nat :| Fin(h, n, Start(h, task, st)) == Out(r1, st1);
    var m: nat :| Fin(h, m, Apply(h, frame, r1, st1)) == Out(r, st');
    FinMonotone(h, n, n + m, Start(h, task, st));
    FinMonotone(h, m, n + m, Apply(h, frame, r1, st1));
    assert Fin(h, n + m + 1, Call(task, st, frame)) == Out(r, st');
  }

  // ----- Runs of the machine -----

  lemma {:induction false} DrivesAdd(h: Host, a: nat, b: nat, c: Config)
    ensures Drives(h, a + b, c) == Drives(h, b, Drives(h, a, c))
    decreases a
  {
    if a > 0 { DrivesAdd(h, a - 1, b, Drive(h, c)); }
  }

  /** Whatever `Fin` answers, the machine hands to the continuation, any continuation. */
  lemma {:induction false} FinDrives(h: Host, n: nat, next: Next, k: Kont) returns (m: nat)
    requires Fin(h, n, next).Out?
    ensures var out := Fin(h, n, next); Drives(h, m, Running(next, k)) == Running(Return(out.r, out.st), k)
    decreases n
  {
    match next
    case Return(r, st) => m := 0;
    case Wait(p, st) =>
      m := 2;
      assert Drives(h, 1, Drive(h, Running(next, k))) == Drive(h, Drive(h, Running(next, k)));
    case Tail(task, st) => m := FinDrives(h, n - 1, Start(h, task, st), k); m := m + 1;
    case Continue(task, st) => m := FinDrives(h, n - 1, Start(h, task, st), k); m := m + 1;
    case Call(task, st, frame) =>
      var m1 := FinDrives(h, n - 1, Start(h, task, st), Then(frame, k));
      var out := Fin(h, n - 1, Start(h, task, st));
      var m2 := FinDrives(h, n - 1, Apply(h, frame, out.r, out.st), k);
      DrivesAdd(h, m1, m2 + 1, Running(Start(h, task, st), Then(frame, k)));
      m := 1 + (m1 + (m2 + 1));
  }

  /** A finished run returns to every continuation it pushed, so `Fin` has an answer. */
  lemma {:induction false} DrivesFin(h: Host, m: nat, next: Next, k: Kont)
    returns (n: nat, r: Outcome, st: State, left: nat)
    requires Drives(h, m, Running(next, k)).Done?
    ensures Fin(h, n, next) == Out(r, st) && left <= m
    ensures Drives(h, left, Running(Return(r, st), k)) == Drives(h, m, Running(next, k))
    decreases m
  {
    match next
    case Return(r', st') => n, r, st, left := 0, r', st', m;
    case Wait(p, st') =>
      var c := Drive(h, Running(next, k));
      assert Drives(h, m, Running(next, k)) == Drives(h, m - 1, c);
      assert m > 1;
      var out := Await(h, p, st');
      n, r, st, left := 0, out.r, out.st, m - 2;
    case Tail(task, st') =>
      n, r, st, left := DrivesFin(h, m - 1, Start(h, task, st'), k);
      n := n + 1;
    case Continue(task, st') =>
      n, r, st, left := DrivesFin(h, m - 1, Start(h, task, st'), k);
      n := n + 1;
    case Call(task, st', frame) =>
      var n1, r1, st1, left1 := DrivesFin(h, m - 1, Start(h, task, st'), Then(frame, k));
      var n2;
      n2, r, st, left := DrivesFin(h, left1 - 1, Apply(h, frame, r1, st1), k);
      FinMonotone(h, n1, n1 + n2, Start(h, task, st'));
      FinMonotone(h, n2, n1 + n2, Apply(h, frame, r1, st1));
      n := n1 + n2 + 1;
  }
}
