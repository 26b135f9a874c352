/**
 What a program may rely on: bindings come back when a let or loop is left, and
 finally forms run once.  Both are stated on the direct evaluator and hold of
 the fiber through `FiberIsDirect`.
 */
module FiberScoping {
  import opened Prelude
  import opened FiberData
  import opened FiberDirect

  /** The oldest saved entry for a name, or `default` when the name was not saved. */
  function Earliest(saved: Previous, name: string, default: Option<Value>): Option<Value> {
    if saved == [] then default
    else if saved[0].0 == name then saved[0].1
    else Earliest(saved[1..], name, default)
  }

  lemma {:induction false} EarliestAppend(a: Previous, b: Previous, name: string, default: Option<Value>)
    ensures Earliest(a + b, name, default) == Earliest(a, name, Earliest(b, name, default))
  {
    if a == [] {
      assert a + b == b;
    } else {
      assert (a + b)[1..] == a[1..] + b;
      EarliestAppend(a[1..], b, name, default);
    }
  }

  /** Undoing in reverse order leaves every name with its oldest saved state, even if saved twice. */
  lemma {:induction false} RestoreIsEarliest(env: Env, saved: Previous, name: string)
    ensures Lookup(Restore(env, saved), name) == Earliest(saved, name, Lookup(env, name))
    decreases |saved|
  {
    if saved != [] {
      var init, last := saved[..|saved| - 1], saved[|saved| - 1];
      var env' := match last.1 case Some(v) => env[last.0 := v] case None => env - {last.0};
      RestoreIsEarliest(env', init, name);
      assert saved == init + [last];
      EarliestAppend(init, [last], name, Lookup(env, name));
      assert Earliest([last], name, Lookup(env, name)) == Lookup(env', name);
    }
  }

  /** `restore` as the source runs it: a loop from the newest saved entry to the oldest. */
  method RestoreLoop(env: Env, saved: Previous) returns (r: Env)
    ensures forall name :: Lookup(r, name) == Earliest(saved, name, Lookup(env, name))
  {
    r := env;
    var i := |saved|;
    assert saved[..i] == saved;
    while i > 0
      invariant 0 <= i <= |saved|
      invariant Restore(r, saved[..i]) == Restore(env, saved)
    {
      i := i - 1;
      assert saved[..i + 1][..i] == saved[..i];
      match saved[i].1
      case Some(v) => r := r[saved[i].0 := v];
      case None => r := r - {saved[i].0};
    }
    assert saved[..0] == [];
    forall name ensures Lookup(r, name) == Earliest(saved, name, Lookup(env, name)) {
      RestoreIsEarliest(env, saved, name);
    }
  }

  lemma {:induction false} SavedIsBefore(names: seq<string>, before: Env, name: string, default: Option<Value>)
    ensures Earliest(Saved(names, before), name, default) == if name in names then Lookup(before, name) else default
  {
    if names != [] { SavedIsBefore(names[1..], before, name, default); }
  }

  /** The environment just before the first of `bindings` that binds `name`. */
  function BeforeBound(h: Host, n: nat, bindings: seq<Form>, st: State, name: string): Option<Env>
    decreases n
  {
    if n == 0 || |bindings| < 2 then None
    else
      match Eval(h, n - 1, bindings[1], st)
      case Out(Ok(v), st1) =>
        var b := BindPattern(h, bindings[0], v, st1);
        if b.error.Some? then None
        else if name in b.names then Some(st1.env)
        else BeforeBound(h, n - 1, bindings[2..], b.st, name)
      case _ => None
  }

  /** The entries recorded by the pairs that bind up to the first failure, if there is one. */
  function Recorded(h: Host, n: nat, bindings: seq<Form>, st: State): Previous
    decreases n
  {
    if n == 0 || |bindings| < 2 then []
    else
      match Eval(h, n - 1, bindings[1], st)
      case Out(Ok(v), st1) =>
        var b := BindPattern(h, bindings[0], v, st1);
        if b.error.Some? then [] else Saved(b.names, st1.env) + Recorded(h, n - 1, bindings[2..], b.st)
      case _ => []
  }

  lemma {:induction false} RecordedEarliest(
    h: Host, n: nat, bindings: seq<Form>, st: State, name: string, default: Option<Value>)
    ensures Earliest(Recorded(h, n, bindings, st), name, default)
         == match BeforeBound(h, n, bindings, st, name)
            case Some(env) => Lookup(env, name)
            case None => default
    decreases n
  {
    if n > 0 && |bindings| >= 2 {
      var out := Eval(h, n - 1, bindings[1], st);
      if out.Out? && out.r.Ok? {
        var b := BindPattern(h, bindings[0], out.r.value, out.st);
        var rest := Recorded(h, n - 1, bindings[2..], b.st);
        RecordedEarliest(h, n - 1, bindings[2..], b.st, name, default);
        EarliestAppend(Saved(b.names, out.st.env), rest, name, default);
        SavedIsBefore(b.names, out.st.env, name, Earliest(rest, name, default));
      }
    }
  }

  lemma {:induction false} SavedIsRecorded(h: Host, n: nat, bindings: seq<Form>, st: State)
    requires EvalBindings(h, n, bindings, st).OutBind? && EvalBindings(h, n, bindings, st).saved.Ok?
    ensures EvalBindings(h, n, bindings, st).saved.value == Recorded(h, n, bindings, st)
    decreases n
  {
    if |bindings| >= 2 {
      var out := Eval(h, n - 1, bindings[1], st);
      SavedIsRecorded(h, n - 1, bindings[2..], BindPattern(h, bindings[0], out.r.value, out.st).st);
    }
  }

  /**
   On every exit of a let or loop whose initialisers all bind (a value, an
   error of the body, any number of recurs), a bound name holds again what it
   held just before the scope first bound it; other names keep what the body
   left in them.
   */
  lemma ScopeRestores(h: Host, n: nat, v: seq<Form>, isLoop: bool, st: State, name: string)
    requires |v| >= 3 && Bindings(v, if isLoop then "loop" else "let").Ok?
    requires EvalScope(h, n, v, isLoop, st).Out?
    requires var b := EvalBindings(h, n, Bindings(v, if isLoop then "loop" else "let").value, st);
             b.OutBind? && b.saved.Ok?
    ensures var bindings := Bindings(v, if isLoop then "loop" else "let").value;
            var b := EvalBindings(h, n, bindings, st);
            var inner := if isLoop then EvalLoop(h, n - 1, Patterns(bindings), ScopeBody(v), b.st)
                         else Eval(h, n - 1, ScopeBody(v), b.st);
            && inner.Out?
            && EvalScope(h, n, v, isLoop, st).r == inner.r
            && Lookup(EvalScope(h, n, v, isLoop, st).st.env, name)
               == (match BeforeBound(h, n, bindings, st, name)
                   case Some(env) => Lookup(env, name)
                   case None => Lookup(inner.st.env, name))
  {
    var bindings := Bindings(v, if isLoop then "loop" else "let").value;
    var b := EvalBindings(h, n, bindings, st);
    var inner := if isLoop then EvalLoop(h, n - 1, Patterns(bindings), ScopeBody(v), b.st)
                 else Eval(h, n - 1, ScopeBody(v), b.st);
    SavedIsRecorded(h, n, bindings, st);
    RecordedEarliest(h, n, bindings, st, name, Lookup(inner.st.env, name));
    RestoreIsEarliest(inner.st.env, b.saved.value, name);
  }

  // ----- a failing initialiser -----

  /** The state in which the `k`-th pair is reached, when every pair before it binds. */
  function Reach(h: Host, n: nat, bindings: seq<Form>, st: State, k: nat): Option<State>
    decreases k
  {
    if k == 0 then Some(st)
    else if n == 0 || |bindings| < 2 then None
    else
      match Eval(h, n - 1, bindings[1], st)
      case Out(Ok(v), st1) =>
        var b := BindPattern(h, bindings[0], v, st1);
        if b.error.Some? then None else Reach(h, n - 1, bindings[2..], b.st, k - 1)
      case _ => None
  }

  /** How the first pair fails, when it does: its error, and the state its initialiser or its pattern leaves. */
  function Failure(h: Host, n: nat, bindings: seq<Form>, st: State): Option<(string, State)> {
    if n == 0 || |bindings| < 2 then None
    else
      match Eval(h, n - 1, bindings[1], st)
      case OutOfFuel => None
      case Out(Err(e), st1) => Some((e, st1))
      case Out(Ok(v), st1) =>
        var b := BindPattern(h, bindings[0], v, st1);
        if b.error.Some? then Some(("destructuring failed: " + b.error.value, b.st)) else None
  }

  /** The pairs before the `k`-th bind and the `k`-th fails. */
  predicate FailsAt(h: Host, n: nat, bindings: seq<Form>, st: State, k: nat, e: string, failed: State) {
    && k <= n && 2 * k <= |bindings|
    && Reach(h, n, bindings, st, k).Some?
    && Failure(h, n - k, bindings[2 * k..], Reach(h, n, bindings, st, k).value) == Some((e, failed))
  }

  lemma {:induction false} FailsSomewhere(h: Host, n: nat, bindings: seq<Form>, st: State) returns (k: nat)
    requires EvalBindings(h, n, bindings, st).OutBind? && EvalBindings(h, n, bindings, st).saved.Err?
    ensures var b := EvalBindings(h, n, bindings, st); FailsAt(h, n, bindings, st, k, b.saved.error, b.st)
    decreases n
  {
    assert bindings[0..] == bindings;
    if Failure(h, n, bindings, st).Some? {
      k := 0;
    } else {
      var out := Eval(h, n - 1, bindings[1], st);
      var b := BindPattern(h, bindings[0], out.r.value, out.st);
      var j := FailsSomewhere(h, n - 1, bindings[2..], b.st);
      assert bindings[2..][2 * j..] == bindings[2 * (j + 1)..];
      k := j + 1;
    }
  }

  lemma {:induction false} FailureEnds(
    h: Host, n: nat, bindings: seq<Form>, st: State, k: nat, e: string, failed: State)
    requires FailsAt(h, n, bindings, st, k, e, failed)
    ensures EvalBindings(h, n, bindings, st) == OutBind(Err(e), failed)
    decreases k
  {
    if k == 0 {
      assert bindings[0..] == bindings;
    } else {
      var out := Eval(h, n - 1, bindings[1], st);
      var b := BindPattern(h, bindings[0], out.r.value, out.st);
      assert bindings[2..][2 * (k - 1)..] == bindings[2 * k..];
      FailureEnds(h, n - 1, bindings[2..], b.st, k - 1, e, failed);
    }
  }

  /**
   A let or loop fails in its bindings exactly when some pair is reached and
   fails; the form then ends with that pair's error, in the state the pair left.
   */
  lemma FailedInitialiser(h: Host, n: nat, v: seq<Form>, isLoop: bool, st: State, e: string, failed: State)
    requires |v| >= 3 && Bindings(v, if isLoop then "loop" else "let").Ok?
    ensures var bindings := Bindings(v, if isLoop then "loop" else "let").value;
            && (EvalBindings(h, n, bindings, st) == OutBind(Err(e), failed)
                <==> exists k :: FailsAt(h, n, bindings, st, k, e, failed))
            && (EvalBindings(h, n, bindings, st) == OutBind(Err(e), failed)
                ==> EvalScope(h, n, v, isLoop, st) == Out(Err(e), failed))
  {
    var bindings := Bindings(v, if isLoop then "loop" else "let").value;
    if EvalBindings(h, n, bindings, st) == OutBind(Err(e), failed) {
      var k := FailsSomewhere(h, n, bindings, st);
    }
    if k :| FailsAt(h, n, bindings, st, k, e, failed) {
      FailureEnds(h, n, bindings, st, k, e, failed);
    }
  }

  /**
   What a failing initialiser leaves behind, name by name.  The entries
   recorded so far are thrown away; undoing them would have changed nothing
   about a name exactly when no earlier pair bound it, or it held that same
   value before the first pair that did.
   */
  lemma FailedInitialiserLeaves(h: Host, n: nat, v: seq<Form>, isLoop: bool, st: State, name: string)
    requires |v| >= 3 && Bindings(v, if isLoop then "loop" else "let").Ok?
    requires var b := EvalBindings(h, n, Bindings(v, if isLoop then "loop" else "let").value, st);
             b.OutBind? && b.saved.Err?
    ensures var bindings := Bindings(v, if isLoop then "loop" else "let").value;
            var out := EvalScope(h, n, v, isLoop, st);
            var before := BeforeBound(h, n, bindings, st, name);
            && out.Out? && out.r.Err?
            && (Lookup(out.st.env, name) == Lookup(Restore(out.st.env, Recorded(h, n, bindings, st)), name)
                <==> before.None? || Lookup(before.value, name) == Lookup(out.st.env, name))
  {
    var bindings := Bindings(v, if isLoop then "loop" else "let").value;
    var out := EvalScope(h, n, v, isLoop, st);
    RestoreIsEarliest(out.st.env, Recorded(h, n, bindings, st), name);
    RecordedEarliest(h, n, bindings, st, name, Lookup(out.st.env, name));
  }

  /** A host whose `eval` answers atom 1 with a value and everything else with an error. */
  const PlainHost: Host := Host(
    w => None,
    (form: Form, env: Env, w: World) => (if form == Atom(1) then Ok(Opaque(1)) else Err("unbound"), env, w),
    form => Ok(Nil),
    (kind: Collection, vs: seq<Value>) => Ok(Nil),
    (p: Form, v: Value, env: Env, w: World) => (Some("pattern"), env, w, []),
    (name: string, w: World) => false,
    (name: string, env: Env, w: World) => (None, env, w),
    (name: string, env: Env, w: World) => None,
    (v: Value, w: World) => (Err("call"), w),
    (v: Value, vs: seq<Value>, w: World) => (Err("call"), w),
    (v: Value, vs: seq<Value>, w: World) => (Finished(Err("call")), w),
    (op: string, name: string, v: Value, env: Env, w: World) => (Ok(v), env, w),
    (v: Value, f: string, x: Value, w: World) => (Ok(x), w),
    (v: Value, w: World) => ("thrown", w),
    (e: string, w: World) => (Opaque(2), w),
    (e: string, s: string, w: World) => true,
    (p: Promise, w: World, ps: seq<Promise>) => (Fulfilled(Nil), w)
  )

  /** So `(let [a 1 b <error>] a)` leaves `a` bound behind it. */
  lemma LeakedBinding()
    ensures var v := [Symbol("let"), Vector([Symbol("a"), Atom(1), Symbol("b"), Atom(2)]), Symbol("a")];
            EvalScope(PlainHost, 9, v, false, State(map[], 0, []))
            == Out(Err("unbound"), State(map["a" := Opaque(1)], 0, []))
  {
    var b := [Symbol("a"), Atom(1), Symbol("b"), Atom(2)];
    var st := State(map[], 0, []);
    assert Eval(PlainHost, 8, Atom(1), st) == Out(Ok(Opaque(1)), st);
    assert !HasSlash("a");
    var bound := BindPattern(PlainHost, Symbol("a"), Opaque(1), st);
    assert bound.st == State(map["a" := Opaque(1)], 0, []);
    assert b[2..] == [Symbol("b"), Atom(2)];
    assert Eval(PlainHost, 7, Atom(2), bound.st) == Out(Err("unbound"), bound.st);
    assert EvalBindings(PlainHost, 8, b[2..], bound.st) == OutBind(Err("unbound"), bound.st);
  }

  // ----- finally -----

  /** The same forms with every finally clause left out. */
  function WithoutFinally(forms: seq<Form>): seq<Form> {
    if forms == [] then []
    else if IsHead(forms[0], "finally") then WithoutFinally(forms[1..])
    else [forms[0]] + WithoutFinally(forms[1..])
  }

  lemma {:induction false} SplitWithoutFinally(forms: seq<Form>, started: bool, parts: TryParts)
    requires SplitTry(forms, started, parts).Ok?
    ensures SplitTry(WithoutFinally(forms), started, parts.(finals := []))
         == Ok(SplitTry(forms, started, parts).value.(finals := []))
    decreases |forms|
  {
    if forms != [] {
      var rest := WithoutFinally(forms[1..]);
      if IsHead(forms[0], "finally") {
        SplitWithoutFinally(forms[1..], true, parts.(finals := parts.finals + forms[0].items[1..]));
        SplitStarted(rest, started, parts.(finals := []));
      } else {
        assert ([forms[0]] + rest)[1..] == rest;
        if IsHead(forms[0], "catch") {
          SplitWithoutFinally(forms[1..], true, parts.(catches := parts.catches + [forms[0].items]));
        } else {
          SplitWithoutFinally(forms[1..], started, parts.(body := parts.body + [forms[0]]));
        }
      }
    }
  }

  /** What splits after the clauses have started splits the same way before. */
  lemma {:induction false} SplitStarted(forms: seq<Form>, started: bool, parts: TryParts)
    requires SplitTry(forms, true, parts).Ok?
    ensures SplitTry(forms, started, parts) == SplitTry(forms, true, parts)
  {}

  /** The search meets a malformed clause exactly when one stands before every clause that matches. */
  lemma {:induction false} SelectMalformed(h: Host, catches: seq<seq<Form>>, error: string, world: World)
    ensures SelectCatch(h, catches, error, world).Malformed? <==> MeetsMalformed(h, catches, error, world)
    ensures SelectCatch(h, catches, error, world).Malformed? ==>
            SelectCatch(h, catches, error, world).error == BadSelector
  {
    if catches != [] {
      var rest := catches[1..];
      SelectMalformed(h, rest, error, world);
      if ParseCatch(catches[0]).Err? {
        assert Passed(h, catches[..0], error, world);
      } else if Passes(h, catches[0], error, world) {
        if SelectCatch(h, rest, error, world).Malformed? {
          var i :| 0 <= i < |rest| && ParseCatch(rest[i]).Err? && Passed(h, rest[..i], error, world);
          assert catches[..i + 1] == [catches[0]] + rest[..i];
          assert ParseCatch(catches[i + 1]).Err? && Passed(h, catches[..i + 1], error, world);
        }
        if i :| 0 <= i < |catches| && ParseCatch(catches[i]).Err? && Passed(h, catches[..i], error, world) {
          assert rest[..i - 1] == catches[..i][1..];
          assert ParseCatch(rest[i - 1]).Err? && Passed(h, rest[..i - 1], error, world);
        }
      } else {
        forall i | 0 < i < |catches| ensures !Passed(h, catches[..i], error, world) {
          assert catches[..i][0] == catches[0];
        }
      }
    }
  }

  /** A well-formed clause whose selector does not match the error. */
  predicate Passes(h: Host, clause: seq<Form>, error: string, world: World) {
    && ParseCatch(clause).Ok?
    && ParseCatch(clause).value.selector.Some?
    && !h.catchMatches(error, ParseCatch(clause).value.selector.value, world)
  }

  predicate Passed(h: Host, clauses: seq<seq<Form>>, error: string, world: World) {
    forall clause <- clauses :: Passes(h, clause, error, world)
  }

  predicate MeetsMalformed(h: Host, catches: seq<seq<Form>>, error: string, world: World) {
    exists i :: 0 <= i < |catches| && ParseCatch(catches[i]).Err? && Passed(h, catches[..i], error, world)
  }

  const Misplaced := "unconditional catch must be the last catch clause"

  /**
   The clause search as `finish_try` runs it, with its flag.  The flag is set
   only by a clause that also ends the search, so the error it guards is never
   returned.
   */
  method SearchCatches(h: Host, catches: seq<seq<Form>>, error: string, world: World) returns (r: Selection)
    ensures r == SelectCatch(h, catches, error, world)
    ensures r != Malformed(Misplaced)
  {
    r := NoClause;
    var sawUnconditional := false;
    var i := 0;
    while i < |catches|
      invariant 0 <= i <= |catches|
      invariant SelectCatch(h, catches, error, world) == SelectCatch(h, catches[i..], error, world)
      invariant r.NoClause? && !sawUnconditional
    {
      if sawUnconditional {
        r := Malformed(Misplaced);
        break;
      }
      var parsed := ParseCatch(catches[i]);
      if parsed.Err? {
        r := Malformed(parsed.error);
        break;
      }
      sawUnconditional := parsed.value.selector.None?;
      if parsed.value.selector.None? || h.catchMatches(error, parsed.value.selector.value, world) {
        r := Selected(catches[i][parsed.value.binding].name, catches[i][parsed.value.body..]);
        break;
      }
      assert catches[i..][1..] == catches[i + 1..];
      i := i + 1;
    }
    SelectMalformed(h, catches, error, world);
    assert |BadSelector| != |Misplaced|;
  }

  predicate IsTry(v: seq<Form>) {
    v != [] && Classify(v[0]).TryForm? && SplitTry(v[1..], false, NoParts).Ok?
  }

  /** An outcome followed by the finally forms: their error wins, any other outcome is kept. */
  function Followed(h: Host, n: nat, out: Out, finals: seq<Form>): Out {
    match out
    case OutOfFuel => OutOfFuel
    case Out(r, st) =>
      match EvalBody(h, n, finals, Nil, st)
      case OutOfFuel => OutOfFuel
      case Out(rf, st1) => Out(if rf.Err? then rf else r, st1)
  }

  /** The body fails, and a malformed clause stands before every clause that matches its error. */
  predicate Blocked(h: Host, body: Out, catches: seq<seq<Form>>) {
    body.Out? && body.r.Err? && MeetsMalformed(h, catches, body.r.error, body.st.world)
  }

  lemma PlainTry(h: Host, n: nat, v: seq<Form>, st: State)
    requires IsTry(v)
    ensures var plain := [v[0]] + WithoutFinally(v[1..]);
            var parts := SplitTry(v[1..], false, NoParts).value;
            EvalList(h, n, plain, st)
            == match EvalBody(h, n, parts.body, Nil, st)
               case OutOfFuel => OutOfFuel
               case Out(r, st1) => EvalGuarded(h, n, r, parts.catches, st1)
  {
    var plain := [v[0]] + WithoutFinally(v[1..]);
    assert plain[1..] == WithoutFinally(v[1..]);
    SplitWithoutFinally(v[1..], false, NoParts);
    assert NoParts.(finals := []) == NoParts;
    var parts := SplitTry(v[1..], false, NoParts).value.(finals := []);
    assert EvalList(h, n, plain, st) == EvalTry(h, n, parts, st);
  }

  /**
   A try form means: run the same form without its finally clauses, then run
   the finally forms once, whatever came out.  The one exception is a body that
   fails and meets a malformed clause before any that matches: then the form
   means just what it means without its finally clauses.
   */
  lemma FinallyRunsOnce(h: Host, n: nat, v: seq<Form>, st: State)
    requires IsTry(v)
    ensures var parts := SplitTry(v[1..], false, NoParts).value;
            var plain := EvalList(h, n, [v[0]] + WithoutFinally(v[1..]), st);
            EvalList(h, n, v, st)
            == if Blocked(h, EvalBody(h, n, parts.body, Nil, st), parts.catches) then plain
               else Followed(h, n, plain, parts.finals)
  {
    var parts := SplitTry(v[1..], false, NoParts).value;
    PlainTry(h, n, v, st);
    var body := EvalBody(h, n, parts.body, Nil, st);
    if body.Out? && body.r.Err? { SelectMalformed(h, parts.catches, body.r.error, body.st.world); }
  }

  /** The finally forms of a try, whichever they are, follow its body and its catch clauses. */
  ghost predicate RunsAnyFinally(h: Host, n: nat, parts: TryParts, st: State) {
    forall finals ::
      EvalTry(h, n, parts.(finals := finals), st)
      == Followed(h, n, EvalTry(h, n, parts.(finals := []), st), finals)
  }

  /** The host reports an interrupt in the very words of the report on a malformed clause. */
  predicate Disguised(h: Host, body: Out) { body.Out? && h.interrupt(body.st.world) == Some(BadSelector) }

  /**
   Finally forms can be relied on exactly when the body is not blocked: a
   blocked body loses some of them, and the loss shows unless an interrupt
   would have kept them from running with the same report.
   */
  lemma FinallyExactly(h: Host, n: nat, parts: TryParts, st: State)
    ensures
      var body := EvalBody(h, n, parts.body, Nil, st);
      RunsAnyFinally(h, n, parts, st) <==> !Blocked(h, body, parts.catches) || Disguised(h, body)
  {
    var body := EvalBody(h, n, parts.body, Nil, st);
    if body.Out? && body.r.Err? { SelectMalformed(h, parts.catches, body.r.error, body.st.world); }
    if Blocked(h, body, parts.catches) {
      if Disguised(h, body) {
        forall finals
          ensures EvalTry(h, n, parts.(finals := finals), st)
               == Followed(h, n, EvalTry(h, n, parts.(finals := []), st), finals)
        {
          Interrupted(h, n, finals, body.st);
        }
      } else {
        var finals := [List([Symbol("if")])];
        BadForm(h, n, body.st);
        assert |BadSelector| != |BadIf|;
        assert EvalTry(h, n, parts.(finals := finals), st)
            != Followed(h, n, EvalTry(h, n, parts.(finals := []), st), finals);
      }
    } else {
      forall finals
        ensures EvalTry(h, n, parts.(finals := finals), st)
             == Followed(h, n, EvalTry(h, n, parts.(finals := []), st), finals)
      {
      }
    }
  }

  /** Forms do nothing under an interrupt. */
  lemma Interrupted(h: Host, n: nat, forms: seq<Form>, st: State)
    requires h.interrupt(st.world).Some? && n >= 2
    ensures EvalBody(h, n, forms, Nil, st) == Out(if forms == [] then Ok(Nil) else Err(h.interrupt(st.world).value), st)
  {
  }

  const BadIf := "if expects 2 or 3 arguments"

  /** The form `(if)` is an error in every state. */
  lemma BadForm(h: Host, n: nat, st: State)
    ensures var out := EvalBody(h, n, [List([Symbol("if")])], Nil, st);
            || out == OutOfFuel
            || out == Out(Err(if h.interrupt(st.world).Some? then h.interrupt(st.world).value else BadIf), st)
  {
    if n > 1 {
      var out := Eval(h, n - 1, List([Symbol("if")]), st);
      assert Classify(Symbol("if")) == IfForm;
      assert EvalList(h, n - 2, [Symbol("if")], st) == Out(Err(BadIf), st);
      assert out == Out(Err(if h.interrupt(st.world).Some? then h.interrupt(st.world).value else BadIf), st);
    }
  }

  lemma SkippedParts(i: int)
    ensures var catches, finals := [[Symbol("catch")]], [List([Symbol("if")])];
            SplitTry([Atom(i), List(catches[0]), List([Symbol("finally")] + finals)], false, NoParts)
            == Ok(TryParts([Atom(i)], catches, finals))
  {
    var catches, finals := [[Symbol("catch")]], [List([Symbol("if")])];
    var last := List([Symbol("finally")] + finals);
    assert last.items[1..] == finals;
    assert !IsHead(last, "catch") && IsHead(last, "finally");
    var body := TryParts([Atom(i)], [], []);
    assert [last][1..] == [] && body.finals + finals == finals && body.catches + catches == catches;
    assert NoParts.body + [Atom(i)] == body.body;
    assert SplitTry([last], true, body.(catches := catches))
        == SplitTry([], true, TryParts([Atom(i)], catches, finals));
    assert [List(catches[0]), last][1..] == [last];
    assert SplitTry([List(catches[0]), last], false, body) == SplitTry([last], true, body.(catches := catches));
    assert [Atom(i), List(catches[0]), last][1..] == [List(catches[0]), last];
  }

  /** The form `(try <i> (catch) (finally (if)))`, and its parts. */
  function Unsafe(i: int): seq<Form> {
    [Symbol("try"), Atom(i), List([Symbol("catch")]), List([Symbol("finally"), List([Symbol("if")])])]
  }

  function UnsafeParts(i: int): TryParts {
    TryParts([Atom(i)], [[Symbol("catch")]], [List([Symbol("if")])])
  }

  lemma UnsafeTry(i: int, st: State)
    ensures EvalList(PlainHost, 9, Unsafe(i), st) == EvalTry(PlainHost, 9, UnsafeParts(i), st)
  {
    hide EvalTry;
    SkippedParts(i);
    assert [Symbol("finally")] + [List([Symbol("if")])] == [Symbol("finally"), List([Symbol("if")])];
    assert Unsafe(i)[1..] == [Atom(i), List([Symbol("catch")]), List([Symbol("finally"), List([Symbol("if")])])];
    assert Classify(Symbol("try")) == TryForm;
  }

  lemma UnsafeFails(st: State)
    ensures EvalTry(PlainHost, 9, UnsafeParts(2), st) == Out(Err(BadSelector), st)
  {
    assert Eval(PlainHost, 8, Atom(2), st) == Out(Err("unbound"), st);
    assert EvalBody(PlainHost, 9, [Atom(2)], Nil, st) == Out(Err("unbound"), st);
    assert SelectCatch(PlainHost, [[Symbol("catch")]], "unbound", st.world) == Malformed(BadSelector);
  }

  lemma UnsafeRuns(st: State)
    ensures EvalTry(PlainHost, 9, UnsafeParts(1), st) == Out(Err(BadIf), st)
  {
    assert Eval(PlainHost, 8, Atom(1), st) == Out(Ok(Opaque(1)), st);
    assert EvalBody(PlainHost, 8, [], Opaque(1), st) == Out(Ok(Opaque(1)), st);
    assert EvalBody(PlainHost, 9, [Atom(1)], Nil, st) == Out(Ok(Opaque(1)), st);
    BadForm(PlainHost, 9, st);
    assert EvalBody(PlainHost, 9, [List([Symbol("if")])], Nil, st) != OutOfFuel;
  }

  /** With a failing body `(try <2> (catch) (finally (if)))` skips its finally form; with `<1>` it runs. */
  lemma SkippedFinally(st: State)
    ensures EvalList(PlainHost, 9, Unsafe(2), st) == Out(Err(BadSelector), st)
    ensures EvalList(PlainHost, 9, Unsafe(1), st) == Out(Err(BadIf), st)
  {
    hide EvalTry, EvalList;
    UnsafeTry(1, st);
    UnsafeTry(2, st);
    UnsafeFails(st);
    UnsafeRuns(st);
  }
}
