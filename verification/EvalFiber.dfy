/**
 `EvalFiber`: the object that runs the machine, suspends on a promise, is
 resumed with a promise state, cancelled, or driven to its end.

 The driver loop of the source runs forever on a program that does; here each
 method that runs program code takes, as a ghost argument, a number of steps
 after which that run has stopped.
 */
module EvalFibers {
  import opened Prelude
  import opened FiberData
  import opened FiberMachine
  import opened FiberDirect
  import opened FiberRefinement

  predicate Stopped(c: Config) { !c.Running? }

  /** `n` steps of the fiber alone: it stays where it finished or suspended. */
  function Steps(h: Host, n: nat, c: Config): Config {
    if n == 0 then c else Steps(h, n - 1, Step(h, c))
  }

  lemma {:induction false} StoppedStays(h: Host, n: nat, c: Config)
    requires Stopped(c)
    ensures Steps(h, n, c) == c
  {
    if n > 0 { StoppedStays(h, n - 1, c); }
  }

  /** A driven run that finishes first runs alone until it finishes or suspends. */
  lemma {:induction false} DrivenRunStops(h: Host, n: nat, c: Config) returns (j: nat)
    requires Drives(h, n, c).Done?
    ensures j <= n && Stopped(Steps(h, j, c))
    ensures Drives(h, n - j, Steps(h, j, c)) == Drives(h, n, c)
  {
    if Stopped(c) {
      j := 0;
    } else {
      j := DrivenRunStops(h, n - 1, Drive(h, c));
      j := j + 1;
    }
  }

  datatype FiberState = Suspended | Completed(value: Value) | Failed(error: string) | Cancelled

  class EvalFiber {
    const h: Host
    var st: State
    var pending: Option<Promise>
    var resume: Option<Kont>
    var state: FiberState

    /** A promise and a continuation are held exactly while the fiber is suspended. */
    ghost predicate Valid() reads this {
      && (state.Suspended? <==> pending.Some?)
      && (state.Suspended? <==> resume.Some?)
    }

    predicate Terminal() reads this { !state.Suspended? }

    /** The machine configuration this object stands for; a cancelled fiber stands for none. */
    ghost function Config(): Config
      requires Valid() && !state.Cancelled?
      reads this
    {
      match state
      case Suspended => Waiting(pending.value, st, resume.value)
      case Completed(v) => Done(Ok(v), st)
      case Failed(e) => Done(Err(e), st)
    }

    constructor Start(h: Host, program: seq<Form>, st: State, ghost n: nat)
      requires Stopped(Steps(h, n, Initial(h, program, st)))
      ensures Valid() && !state.Cancelled? && this.h == h
      ensures Config() == Steps(h, n, Initial(h, program, st))
    {
      this.h := h;
      this.st := st;
      this.pending, this.resume, this.state := None, None, Cancelled;
      new;
      Accept(Initial(h, program, st), n);
    }

    /** The driver loop: follow the machine until it finishes or suspends. */
    method Accept(c: Config, ghost n: nat)
      requires pending.None? && resume.None? && Stopped(Steps(h, n, c))
      modifies this
      ensures Valid() && !state.Cancelled? && Config() == Steps(h, n, c)
    {
      var step := c;
      ghost var left := n;
      while step.Running?
        invariant Steps(h, left, step) == Steps(h, n, c)
        invariant pending.None? && resume.None?
        decreases left
      {
        step := Step(h, step);
        left := left - 1;
      }
      StoppedStays(h, left, step);
      match step
      case Done(Ok(v), s) => st, state := s, Completed(v);
      case Done(Err(e), s) => st, state := s, Failed(e);
      case Waiting(p, s, k) => st, pending, resume, state := s, Some(p), Some(k), Suspended;
    }

    /**
     Hands a promise state to a suspended fiber; `world` is what the host's
     state has become meanwhile.  Any other fiber is left as it is.
     */
    method Resume(settled: PromiseState, world: World, ghost n: nat) returns (s: FiberState)
      requires Valid()
      requires state.Suspended? ==> Stopped(Steps(h, n, Resumed(Config(), settled, st.(world := world))))
      modifies this
      ensures Valid() && s == state
      ensures old(Terminal()) ==> unchanged(this)
      ensures old(state.Suspended?) ==>
                !state.Cancelled? && Config() == Steps(h, n, Resumed(old(Config()), settled, old(st).(world := world)))
    {
      if !state.Suspended? { return state; }
      var c := Running(Return(Settlement(settled), st.(world := world)), resume.value);
      resume, pending := None, None;
      Accept(c, n);
      return state;
    }

    /** Cancels a live fiber and names the promise to notify; a finished one is left as it is. */
    method Cancel() returns (changed: bool, notified: Option<Promise>)
      requires Valid()
      modifies this
      ensures Valid() && changed == old(state.Suspended?) && notified == old(pending)
      ensures changed ==> state.Cancelled? && pending.None? && resume.None? && st == old(st)
      ensures !changed ==> unchanged(this)
    {
      if !state.Suspended? { return false, None; }
      notified := pending;
      pending, resume, state := None, None, Cancelled;
      changed := true;
    }

    /** Settles one promise after another until the fiber is finished. */
    method DriveSync(ghost n: nat) returns (r: Outcome)
      requires Valid() && (!state.Cancelled? ==> Drives(h, n, Config()).Done?)
      modifies this
      ensures Valid() && Terminal()
      ensures old(Terminal()) ==> unchanged(this)
      ensures old(state.Cancelled?) ==> r == Err("eval cancelled")
      ensures !old(state.Cancelled?) ==> !state.Cancelled? && Config() == Done(r, st) == Drives(h, n, old(Config()))
    {
      ghost var left := n;
      while state.Suspended?
        invariant old(Terminal()) ==> unchanged(this)
        invariant Valid() && (old(state.Cancelled?) <==> state.Cancelled?)
        invariant !state.Cancelled? ==> Drives(h, left, Config()) == Drives(h, n, old(Config()))
        decreases left
      {
        ghost var c := Config();
        assert left > 0;
        var (settled, s) := Settle(h, pending.value, st);
        ghost var j := DrivenRunStops(h, left - 1, Drive(h, c));
        var _ := Resume(settled, s.world, j);
        left := left - 1 - j;
      }
      match state
      case Completed(v) => r := Ok(v); DoneStays(h, left, r, st);
      case Failed(e) => r := Err(e); DoneStays(h, left, r, st);
      case Cancelled => r := Err("eval cancelled");
    }
  }

  /**
   Running a whole program through a fiber, suspensions and all, gives the
   outcome, environment and waits of the direct evaluator, for any program the
   direct evaluator finishes.
   */
  method RunProgram(h: Host, program: seq<Form>, st: State, ghost fuel: nat) returns (r: Outcome, st': State)
    requires EvalBody(h, fuel, program, Nil, st).Out?
    ensures Out(r, st') == EvalBody(h, fuel, program, Nil, st)
  {
    ghost var out := EvalBody(h, fuel, program, Nil, st);
    FiberIsDirect(h, program, st, out.r, out.st);
    ghost var m: nat :| Drives(h, m, Initial(h, program, st)) == Done(out.r, out.st);
    ghost var j := DrivenRunStops(h, m, Initial(h, program, st));
    var fiber := new EvalFiber.Start(h, program, st, j);
    r := fiber.DriveSync(m - j);
    st' := fiber.st;
  }
}
