/**
 The fiber machine computes exactly what the direct evaluator computes.

 `Direct*` lemmas take an answer of the direct evaluator to the machine side,
 `Machine*` lemmas take an answer of the machine side back.  In the latter the
 machine's fuel stays below the direct evaluator's at every level, so no fuel
 has to be matched up afterwards.
 */
module FiberRefinement {
  import opened Prelude
  import opened FiberData
  import opened FiberMachine
  import opened FiberDirect
  import opened FiberBigStep

  // ----- From the direct evaluator to the machine -----

  lemma PassError(h: Host, task: Task, st: State, frame: Frame, e: string, st1: State)
    requires PassesErrors(frame) && Fins(h, Start(h, task, st), Err(e), st1)
    ensures Fins(h, Call(task, st, frame), Err(e), st1)
  {
    FinsReturn(h, Err(e), st1);
    FinsCall(h, task, st, frame, Err(e), st1, Err(e), st1);
  }

  lemma DropEmpty(all: OutAll)
    ensures all.OutAll? && all.all.Ok? ==> [] + all.all.value == all.all.value
  {}

  lemma {:induction false} DirectOne(h: Host, n: nat, form: Form, st: State)
    requires Eval(h, n, form, st).Out?
    ensures var out := Eval(h, n, form, st); Fins(h, Start(h, One(form), st), out.r, out.st)
    decreases n, 0
  {
    var out := Eval(h, n, form, st);
    if h.interrupt(st.world).Some? {
      FinsReturn(h, out.r, out.st);
    } else {
      match form
      case MapForm(entries) => DirectCollection(h, n - 1, MapLiteral, Flatten(entries), st);
      case SetForm(items) => DirectCollection(h, n - 1, SetLiteral, items, st);
      case Vector(items) => DirectCollection(h, n - 1, VectorLiteral, items, st);
      case List(items) =>
        if items == [] || IsQuote(items) {
          FinsReturn(h, out.r, out.st);
        } else {
          DirectList(h, n - 1, items, st);
        }
      case _ => FinsReturn(h, out.r, out.st);
    }
  }

  lemma {:induction false} DirectCollection(h: Host, n: nat, kind: Collection, forms: seq<Form>, st: State)
    requires EvalCollection(h, n, kind, forms, st).Out?
    ensures var out := EvalCollection(h, n, kind, forms, st);
            Fins(h, Tail(Values(forms, [], Collect(kind)), st), out.r, out.st)
    decreases n, 2
  {
    var out := EvalCollection(h, n, kind, forms, st);
    FinsReturn(h, out.r, out.st);
    DropEmpty(EvalAll(h, n, forms, st));
    DirectAll(h, n, forms, [], Collect(kind), st, out.r, out.st);
    FinsTail(h, Values(forms, [], Collect(kind)), st, out.r, out.st);
  }

  lemma {:induction false} DirectAll(h: Host, n: nat, forms: seq<Form>, values: seq<Value>, cont: ValuesCont,
                                     st: State, r: Outcome, st': State)
    requires EvalAll(h, n, forms, st).OutAll?
    requires match EvalAll(h, n, forms, st)
             case OutAll(Ok(vs), st1) => Fins(h, FinishValues(h, cont, values + vs, st1), r, st')
             case OutAll(Err(e), st1) => r == Err(e) && st' == st1
    ensures Fins(h, Start(h, Values(forms, values, cont), st), r, st')
    decreases n, 1
  {
    if forms == [] {
      assert values + [] == values;
    } else {
      var out := Eval(h, n - 1, forms[0], st);
      DirectOne(h, n - 1, forms[0], st);
      var frame := AfterValue(forms[1..], values, cont);
      match out.r
      case Err(e) => PassError(h, One(forms[0]), st, frame, e, out.st);
      case Ok(v) =>
        var rest := EvalAll(h, n - 1, forms[1..], out.st);
        if rest.all.Ok? {
          assert values + ([v] + rest.all.value) == values + [v] + rest.all.value;
        }
        DirectAll(h, n - 1, forms[1..], values + [v], cont, out.st, r, st');
        FinsTail(h, Values(forms[1..], values + [v], cont), out.st, r, st');
        FinsCall(h, One(forms[0]), st, frame, out.r, out.st, r, st');
    }
  }

  lemma {:induction false} DirectBody(h: Host, n: nat, forms: seq<Form>, last: Value, st: State)
    requires EvalBody(h, n, forms, last, st).Out?
    ensures var out := EvalBody(h, n, forms, last, st);
            Fins(h, Start(h, Forms(forms, last), st), out.r, out.st)
    decreases n, 1
  {
    var out := EvalBody(h, n, forms, last, st);
    if forms == [] || last.Recur? {
      FinsReturn(h, out.r, out.st);
    } else {
      var first := Eval(h, n - 1, forms[0], st);
      DirectOne(h, n - 1, forms[0], st);
      match first.r
      case Err(e) => PassError(h, One(forms[0]), st, AfterForm(forms[1..]), e, first.st);
      case Ok(v) =>
        DirectBody(h, n - 1, forms[1..], v, first.st);
        FinsTail(h, Forms(forms[1..], v), first.st, out.r, out.st);
        FinsCall(h, One(forms[0]), st, AfterForm(forms[1..]), first.r, first.st, out.r, out.st);
    }
  }

  lemma {:induction false} DirectAnd(h: Host, n: nat, forms: seq<Form>, last: Value, st: State)
    requires EvalAnd(h, n, forms, last, st).Out?
    ensures var out := EvalAnd(h, n, forms, last, st);
            Fins(h, Start(h, And(forms, last), st), out.r, out.st)
    decreases n, 1
  {
    var out := EvalAnd(h, n, forms, last, st);
    if forms == [] || !last.Truthy() {
      FinsReturn(h, out.r, out.st);
    } else {
      var first := Eval(h, n - 1, forms[0], st);
      DirectOne(h, n - 1, forms[0], st);
      match first.r
      case Err(e) => PassError(h, One(forms[0]), st, AfterConjunct(forms[1..]), e, first.st);
      case Ok(v) =>
        DirectAnd(h, n - 1, forms[1..], v, first.st);
        FinsTail(h, And(forms[1..], v), first.st, out.r, out.st);
        FinsCall(h, One(forms[0]), st, AfterConjunct(forms[1..]), first.r, first.st, out.r, out.st);
    }
  }

  lemma {:induction false} DirectOr(h: Host, n: nat, forms: seq<Form>, last: Value, st: State)
    requires EvalOr(h, n, forms, last, st).Out?
    ensures var out := EvalOr(h, n, forms, last, st);
            Fins(h, Start(h, Or(forms, last), st), out.r, out.st)
    decreases n, 1
  {
    var out := EvalOr(h, n, forms, last, st);
    if forms == [] {
      FinsReturn(h, out.r, out.st);
    } else {
      var first := Eval(h, n - 1, forms[0], st);
      DirectOne(h, n - 1, forms[0], st);
      var frame := AfterDisjunct(forms[1..]);
      match first.r
      case Err(e) => PassError(h, One(forms[0]), st, frame, e, first.st);
      case Ok(v) =>
        if v.Truthy() {
          FinsReturn(h, out.r, out.st);
        } else {
          DirectOr(h, n - 1, forms[1..], v, first.st);
          FinsTail(h, Or(forms[1..], v), first.st, out.r, out.st);
        }
        FinsCall(h, One(forms[0]), st, frame, first.r, first.st, out.r, out.st);
    }
  }

  lemma {:induction false} DirectCond(h: Host, n: nat, clauses: seq<Form>, st: State)
    requires EvalCond(h, n, clauses, st).Out?
    ensures var out := EvalCond(h, n, clauses, st);
            Fins(h, Start(h, Cond(clauses), st), out.r, out.st)
    decreases n, 1
  {
    var out := EvalCond(h, n, clauses, st);
    if |clauses| < 2 {
      FinsReturn(h, out.r, out.st);
    } else {
      var first := Eval(h, n - 1, clauses[0], st);
      DirectOne(h, n - 1, clauses[0], st);
      var frame := AfterClause(clauses[1], clauses[2..]);
      match first.r
      case Err(e) => PassError(h, One(clauses[0]), st, frame, e, first.st);
      case Ok(v) =>
        if v.Truthy() {
          DirectOne(h, n - 1, clauses[1], first.st);
          FinsTail(h, One(clauses[1]), first.st, out.r, out.st);
        } else {
          DirectCond(h, n - 1, clauses[2..], first.st);
          FinsTail(h, Cond(clauses[2..]), first.st, out.r, out.st);
        }
        FinsCall(h, One(clauses[0]), st, frame, first.r, first.st, out.r, out.st);
    }
  }

  lemma {:induction false} DirectBindings(h: Host, n: nat, bindings: seq<Form>, saved: Previous, scope: Scope,
                                          st: State, r: Outcome, st': State)
    requires EvalBindings(h, n, bindings, st).OutBind?
    requires match EvalBindings(h, n, bindings, st)
             case OutBind(Ok(more), st1) => Fins(h, EnterScope(scope, saved + more, st1), r, st')
             case OutBind(Err(e), st1) => r == Err(e) && st' == st1
    ensures Fins(h, Start(h, BindValues(bindings, saved, scope), st), r, st')
    decreases n, 1
  {
    if |bindings| < 2 {
      assert saved + [] == saved;
    } else {
      var out := Eval(h, n - 1, bindings[1], st);
      DirectOne(h, n - 1, bindings[1], st);
      var frame := AfterInit(bindings[0], bindings[2..], saved, scope);
      match out.r
      case Err(e) => PassError(h, One(bindings[1]), st, frame, e, out.st);
      case Ok(v) =>
        var b := BindPattern(h, bindings[0], v, out.st);
        DirectMoreBindings(h, n - 1, b, out.st.env, bindings[2..], saved, scope, r, st');
        FinsCall(h, One(bindings[1]), st, frame, out.r, out.st, r, st');
    }
  }

  lemma {:induction false} DirectMoreBindings(h: Host, n: nat, b: Bound, before: Env, rest: seq<Form>, saved: Previous,
                                              scope: Scope, r: Outcome, st': State)
    requires EvalMoreBindings(h, n, b, before, rest).OutBind?
    requires match EvalMoreBindings(h, n, b, before, rest)
             case OutBind(Ok(more), st1) => Fins(h, EnterScope(scope, saved + more, st1), r, st')
             case OutBind(Err(e), st1) => r == Err(e) && st' == st1
    ensures Fins(h, AfterBinding(b, before, rest, saved, scope), r, st')
    decreases n, 2
  {
    if b.error.Some? {
      FinsReturn(h, r, st');
    } else {
      var saved' := saved + Saved(b.names, before);
      var out := EvalBindings(h, n, rest, b.st);
      if out.saved.Ok? {
        assert saved + (Saved(b.names, before) + out.saved.value) == saved' + out.saved.value;
      }
      DirectBindings(h, n, rest, saved', scope, b.st, r, st');
      FinsTail(h, BindValues(rest, saved', scope), b.st, r, st');
    }
  }

  lemma {:induction false} DirectLoop(h: Host, n: nat, patterns: seq<Form>, body: Form, saved: Previous, st: State)
    requires EvalLoop(h, n, patterns, body, st).Out?
    ensures var out := Leave(EvalLoop(h, n, patterns, body, st), saved);
            Fins(h, Start(h, LoopBody(patterns, body, saved), st), out.r, out.st)
    decreases n, 1
  {
    hide Eval, StartOne, Rebind, Restore;
    var out := Leave(EvalLoop(h, n, patterns, body, st), saved);
    var frame := AfterLoop(patterns, body, saved);
    var first := Eval(h, n - 1, body, st);
    DirectOne(h, n - 1, body, st);
    if first.r.Ok? && first.r.value.Recur? && |first.r.value.args| == |patterns|
       && Rebind(h, patterns, first.r.value.args, first.st).0.None? {
      var st2 := Rebind(h, patterns, first.r.value.args, first.st).1;
      DirectLoop(h, n - 1, patterns, body, saved, st2);
      FinsTail(h, LoopBody(patterns, body, saved), st2, out.r, out.st);
    } else {
      FinsReturn(h, out.r, out.st);
    }
    FinsCall(h, One(body), st, frame, first.r, first.st, out.r, out.st);
  }

  lemma {:induction false} DirectScope(h: Host, n: nat, v: seq<Form>, isLoop: bool, st: State)
    requires EvalScope(h, n, v, isLoop, st).Out?
    ensures var out := EvalScope(h, n, v, isLoop, st); Fins(h, StartScoped(v, st, isLoop), out.r, out.st)
    decreases n, 2
  {
    var out := EvalScope(h, n, v, isLoop, st);
    if |v| < 3 || Bindings(v, if isLoop then "loop" else "let").Err? {
      FinsReturn(h, out.r, out.st);
    } else {
      var bindings := Bindings(v, if isLoop then "loop" else "let").value;
      var scope := Scope(Patterns(bindings), ScopeBody(v), isLoop);
      var b := EvalBindings(h, n, bindings, st);
      if b.saved.Ok? {
        DirectScopeBody(h, n, scope, b.saved.value, b.st);
        assert [] + b.saved.value == b.saved.value;
      }
      DirectBindings(h, n, bindings, [], scope, st, out.r, out.st);
      FinsTail(h, BindValues(bindings, [], scope), st, out.r, out.st);
    }
  }

  lemma {:induction false} DirectScopeBody(h: Host, n: nat, scope: Scope, saved: Previous, st: State)
    requires EvalScopeBody(h, n, scope.patterns, scope.body, scope.isLoop, saved, st).Out?
    ensures var out := EvalScopeBody(h, n, scope.patterns, scope.body, scope.isLoop, saved, st);
            Fins(h, EnterScope(scope, saved, st), out.r, out.st)
    decreases n, 1
  {
    var out := EvalScopeBody(h, n, scope.patterns, scope.body, scope.isLoop, saved, st);
    if scope.isLoop {
      DirectLoop(h, n - 1, scope.patterns, scope.body, saved, st);
      FinsTail(h, LoopBody(scope.patterns, scope.body, saved), st, out.r, out.st);
    } else {
      var first := Eval(h, n - 1, scope.body, st);
      DirectOne(h, n - 1, scope.body, st);
      FinsReturn(h, out.r, out.st);
      FinsCall(h, One(scope.body), st, AfterLet(saved), first.r, first.st, out.r, out.st);
    }
  }

  lemma {:induction false} DirectFinally(h: Host, n: nat, outcome: Outcome, finals: seq<Form>, st: State)
    requires EvalBody(h, n, finals, Nil, st).Out?
    ensures var out := EvalBody(h, n, finals, Nil, st);
            Fins(h, Finally(outcome, finals, st), if out.r.Err? then out.r else outcome, out.st)
    decreases n, 2
  {
    var out := EvalBody(h, n, finals, Nil, st);
    var r := if out.r.Err? then out.r else outcome;
    DirectBody(h, n, finals, Nil, st);
    FinsReturn(h, r, out.st);
    FinsCall(h, Forms(finals, Nil), st, AfterFinally(outcome), out.r, out.st, r, out.st);
  }

  lemma {:induction false} DirectTry(h: Host, n: nat, parts: TryParts, st: State)
    requires EvalTry(h, n, parts, st).Out?
    ensures var out := EvalTry(h, n, parts, st);
            Fins(h, Call(Forms(parts.body, Nil), st, AfterTry(parts.catches, parts.finals)), out.r, out.st)
    decreases n, 4
  {
    var out := EvalTry(h, n, parts, st);
    var body := EvalBody(h, n, parts.body, Nil, st);
    DirectBody(h, n, parts.body, Nil, st);
    DirectFinishTry(h, n, body.r, parts.catches, parts.finals, body.st, out.r, out.st);
    FinsCall(h, Forms(parts.body, Nil), st, AfterTry(parts.catches, parts.finals), body.r, body.st, out.r, out.st);
  }

  lemma {:induction false} DirectFinishTry(h: Host, n: nat, r: Outcome, catches: seq<seq<Form>>, finals: seq<Form>,
                                           st: State, r': Outcome, st': State)
    requires EvalGuarded(h, n, r, catches, st).Out?
    requires var guarded := EvalGuarded(h, n, r, catches, st);
             if !ReachesFinally(h, r, catches, st) then guarded == Out(r', st')
             else
               var last := EvalBody(h, n, finals, Nil, guarded.st);
               last.Out? && r' == (if last.r.Err? then last.r else guarded.r) && st' == last.st
    ensures Fins(h, FinishTry(h, r, catches, finals, st), r', st')
    decreases n, 3
  {
    var guarded := EvalGuarded(h, n, r, catches, st);
    if !ReachesFinally(h, r, catches, st) {
      FinsReturn(h, r', st');
    } else {
      DirectFinally(h, n, guarded.r, finals, guarded.st);
      if r.Err? && SelectCatch(h, catches, r.error, st.world).Selected? {
        var Selected(name, body) := SelectCatch(h, catches, r.error, st.world);
        var (value, world) := h.caught(r.error, st.world);
        var st1 := st.(env := st.env[name := value], world := world);
        var inner := EvalBody(h, n - 1, body, Nil, st1);
        DirectBody(h, n - 1, body, Nil, st1);
        var frame := AfterCatch(name, Lookup(st.env, name), finals);
        FinsCall(h, Forms(body, Nil), st1, frame, inner.r, inner.st, r', st');
      }
    }
  }

  lemma {:induction false} DirectSet(h: Host, n: nat, v: seq<Form>, st: State)
    requires v != [] && v[0].Symbol? && EvalSet(h, n, v, st).Out?
    ensures var out := EvalSet(h, n, v, st); Fins(h, StartSet(v, st), out.r, out.st)
    decreases n, 2
  {
    hide Eval, StartOne, StartDefine, EvalDefine, FieldPlace;
    var out := EvalSet(h, n, v, st);
    if |v| != 3 {
      FinsReturn(h, out.r, out.st);
    } else if v[1].Symbol? {
      DirectDefine(h, n, v, st);
    } else if FieldPlace(v[1]).Err? {
      FinsReturn(h, out.r, out.st);
    } else {
      var (receiver, field) := FieldPlace(v[1]).value;
      var first := Eval(h, n, receiver, st);
      DirectOne(h, n, receiver, st);
      match first.r
      case Err(e) => PassError(h, One(receiver), st, AfterReceiver(field, v[2]), e, first.st);
      case Ok(target) =>
        var second := Eval(h, n, v[2], first.st);
        DirectOne(h, n, v[2], first.st);
        var frame := AfterReplacement(target, field);
        match second.r {
          case Err(e) => PassError(h, One(v[2]), first.st, frame, e, second.st);
          case Ok(x) =>
            FinsReturn(h, out.r, out.st);
            FinsCall(h, One(v[2]), first.st, frame, second.r, second.st, out.r, out.st);
        }
        FinsCall(h, One(receiver), st, AfterReceiver(field, v[2]), first.r, first.st, out.r, out.st);
    }
  }

  lemma {:induction false} DirectDefine(h: Host, n: nat, v: seq<Form>, st: State)
    requires v != [] && v[0].Symbol? && EvalDefine(h, n, v, st).Out?
    ensures var out := EvalDefine(h, n, v, st); Fins(h, StartDefine(v, st), out.r, out.st)
    decreases n, 1
  {
    var out := EvalDefine(h, n, v, st);
    if |v| != 3 || !v[1].Symbol? {
      FinsReturn(h, out.r, out.st);
    } else {
      DirectOne(h, n, v[2], st);
      var first := Eval(h, n, v[2], st);
      FinsReturn(h, out.r, out.st);
      FinsCall(h, One(v[2]), st, AfterDefine(v[0].name, v[1].name), first.r, first.st, out.r, out.st);
    }
  }

  lemma {:induction false} DirectIf(h: Host, n: nat, v: seq<Form>, st: State)
    requires v != [] && Classify(v[0]).IfForm? && EvalIf(h, n, v, st).Out?
    ensures var out := EvalIf(h, n, v, st); Fins(h, StartList(h, v, st), out.r, out.st)
    decreases n, 1
  {
    var out := EvalIf(h, n, v, st);
    if |v| != 3 && |v| != 4 {
      FinsReturn(h, out.r, out.st);
    } else {
      var first := Eval(h, n, v[1], st);
      DirectOne(h, n, v[1], st);
      var frame := AfterTest(v[2], if |v| == 4 then Some(v[3]) else None);
      if first.r.Ok? && first.r.value.Truthy() {
        DirectOne(h, n, v[2], first.st);
        FinsTail(h, One(v[2]), first.st, out.r, out.st);
      } else if first.r.Ok? && |v| == 4 {
        DirectOne(h, n, v[3], first.st);
        FinsTail(h, One(v[3]), first.st, out.r, out.st);
      } else {
        FinsReturn(h, out.r, out.st);
      }
      FinsCall(h, One(v[1]), st, frame, first.r, first.st, out.r, out.st);
    }
  }

  lemma {:induction false} DirectThrow(h: Host, n: nat, form: Form, st: State)
    requires EvalThrow(h, n, form, st).Out?
    ensures var out := EvalThrow(h, n, form, st); Fins(h, Call(One(form), st, AfterThrow), out.r, out.st)
    decreases n, 1
  {
    var out := EvalThrow(h, n, form, st);
    var first := Eval(h, n, form, st);
    DirectOne(h, n, form, st);
    FinsReturn(h, out.r, out.st);
    FinsCall(h, One(form), st, AfterThrow, first.r, first.st, out.r, out.st);
  }

  lemma {:induction false} DirectCallValue(h: Host, n: nat, callee: Value, args: seq<Value>, st: State)
    requires EvalCallValue(h, n, callee, args, st).Out?
    ensures var out := EvalCallValue(h, n, callee, args, st);
            Fins(h, FinishValues(h, Calling(callee), args, st), out.r, out.st)
    decreases n, 2
  {
    var out := EvalCallValue(h, n, callee, args, st);
    if callee.Function? {
      DirectCall(h, n, callee, args, st);
    } else {
      var (resolved, world) := h.resolveCallable(callee, st.world);
      if resolved.Ok? && resolved.value.Function? {
        DirectCall(h, n, resolved.value, args, st.(world := world));
      } else {
        FinsReturn(h, out.r, out.st);
      }
    }
  }

  lemma {:induction false} DirectCall(h: Host, n: nat, f: Value, args: seq<Value>, st: State)
    requires EvalCall(h, n, f, args, st).Out?
    ensures var out := EvalCall(h, n, f, args, st); Fins(h, Enter(h, f, args, st), out.r, out.st)
    decreases n, 1
  {
    var out := EvalCall(h, n, f, args, st);
    var (entry, world) := h.enter(f, args, st.world);
    var st1 := st.(world := world);
    match entry
    case Finished(r) => FinsReturn(h, out.r, out.st);
    case Awaiting(p) => assert Fin(h, 0, Wait(p, st1)) == out;
    case Body(forms, env) =>
      var st2 := st1.(env := env);
      var inner := EvalBody(h, n - 1, forms, Nil, st2);
      DirectBody(h, n - 1, forms, Nil, st2);
      FinsReturn(h, out.r, out.st);
      FinsCall(h, Forms(forms, Nil), st2, AfterCall(st.env), inner.r, inner.st, out.r, out.st);
  }

  lemma {:induction false} DirectArguments(h: Host, n: nat, callee: Value, forms: seq<Form>, st: State)
    requires EvalArguments(h, n, callee, forms, st).Out?
    ensures var out := EvalArguments(h, n, callee, forms, st);
            Fins(h, Tail(Values(forms, [], Calling(callee)), st), out.r, out.st)
    decreases n, 3
  {
    var out := EvalArguments(h, n, callee, forms, st);
    var all := EvalAll(h, n, forms, st);
    DropEmpty(all);
    if all.all.Ok? { DirectCallValue(h, n, callee, all.all.value, all.st); }
    DirectAll(h, n, forms, [], Calling(callee), st, out.r, out.st);
    FinsTail(h, Values(forms, [], Calling(callee)), st, out.r, out.st);
  }

  lemma {:induction false} DirectHead(h: Host, n: nat, v: seq<Form>, st: State)
    requires v != [] && EvalHead(h, n, v, st).Out?
    ensures var out := EvalHead(h, n, v, st); Fins(h, Call(One(v[0]), st, AfterHead(v[1..])), out.r, out.st)
    decreases n, 4
  {
    var out := EvalHead(h, n, v, st);
    var first := Eval(h, n, v[0], st);
    DirectOne(h, n, v[0], st);
    match first.r
    case Err(e) => PassError(h, One(v[0]), st, AfterHead(v[1..]), e, first.st);
    case Ok(callee) =>
      DirectArguments(h, n, callee, v[1..], first.st);
      FinsCall(h, One(v[0]), st, AfterHead(v[1..]), first.r, first.st, out.r, out.st);
  }

  lemma {:induction false} DirectApplication(h: Host, n: nat, v: seq<Form>, st: State)
    requires v != [] && EvalApplication(h, n, v, st).Out?
    ensures var out := EvalApplication(h, n, v, st); Fins(h, StartApplication(h, v, st), out.r, out.st)
    decreases n, 5
  {
    var out := EvalApplication(h, n, v, st);
    if !v[0].Symbol? {
      DirectHead(h, n, v, st);
    } else if h.isMacro(v[0].name, st.world) {
      FinsReturn(h, out.r, out.st);
    } else {
      var (error, env, world) := h.ensureNamespace(v[0].name, st.env, st.world);
      var st1 := st.(env := env, world := world);
      var callee := h.bound(v[0].name, env, world);
      if error.Some? {
        FinsReturn(h, out.r, out.st);
      } else if callee.Some? && callee.value.Function? {
        DirectArguments(h, n, callee.value, v[1..], st1);
      } else {
        DirectHead(h, n, v, st1);
      }
    }
  }

  lemma {:induction false} DirectList(h: Host, n: nat, v: seq<Form>, st: State)
    requires v != [] && EvalList(h, n, v, st).Out?
    ensures var out := EvalList(h, n, v, st); Fins(h, StartList(h, v, st), out.r, out.st)
    decreases n, 6
  {
    var out := EvalList(h, n, v, st);
    match Classify(v[0])
    case DoForm =>
      DirectBody(h, n, v[1..], Nil, st);
      FinsTail(h, Forms(v[1..], Nil), st, out.r, out.st);
    case IfForm => DirectIf(h, n, v, st);
    case AndForm =>
      DirectAnd(h, n, v[1..], Bool(true), st);
      FinsTail(h, And(v[1..], Bool(true)), st, out.r, out.st);
    case OrForm =>
      DirectOr(h, n, v[1..], Nil, st);
      FinsTail(h, Or(v[1..], Nil), st, out.r, out.st);
    case CondForm =>
      if |v| % 2 == 0 { FinsReturn(h, out.r, out.st); }
      else {
        DirectCond(h, n, v[1..], st);
        FinsTail(h, Cond(v[1..]), st, out.r, out.st);
      }
    case LetForm => DirectScope(h, n, v, false, st);
    case LoopForm => DirectScope(h, n, v, true, st);
    case RecurForm =>
      FinsReturn(h, out.r, out.st);
      DropEmpty(EvalAll(h, n, v[1..], st));
      DirectAll(h, n, v[1..], [], Recurring, st, out.r, out.st);
      FinsTail(h, Values(v[1..], [], Recurring), st, out.r, out.st);
    case TryForm =>
      if SplitTry(v[1..], false, NoParts).Err? { FinsReturn(h, out.r, out.st); }
      else { DirectTry(h, n, SplitTry(v[1..], false, NoParts).value, st); }
    case ThrowForm =>
      if |v| != 2 { FinsReturn(h, out.r, out.st); } else { DirectThrow(h, n, v[1], st); }
    case DefForm => DirectDefine(h, n, v, st);
    case SetPlace => DirectSet(h, n, v, st);
    case SyncForm => FinsReturn(h, out.r, out.st);
    case Application => DirectApplication(h, n, v, st);
  }

  // ----- From the machine to the direct evaluator -----

  lemma {:induction false} MachineOne(h: Host, k: nat, n: nat, form: Form, st: State)
    requires k < n && Fin(h, k, Start(h, One(form), st)).Out?
    ensures Eval(h, n, form, st) == Fin(h, k, Start(h, One(form), st))
    decreases k, 9
  {
    if h.interrupt(st.world).None? {
      match form
      case MapForm(entries) => MachineCollection(h, k, n - 1, MapLiteral, Flatten(entries), st);
      case SetForm(items) => MachineCollection(h, k, n - 1, SetLiteral, items, st);
      case Vector(items) => MachineCollection(h, k, n - 1, VectorLiteral, items, st);
      case List(items) => if items != [] && !IsQuote(items) { MachineList(h, k, n - 1, items, st); }
      case _ =>
    }
  }

  lemma {:induction false} MachineCollection(h: Host, k: nat, n: nat, kind: Collection, forms: seq<Form>, st: State)
    requires k <= n && Fin(h, k, Tail(Values(forms, [], Collect(kind)), st)).Out?
    ensures EvalCollection(h, n, kind, forms, st) == Fin(h, k, Tail(Values(forms, [], Collect(kind)), st))
    decreases k, 8
  {
    var _ := MachineAll(h, k - 1, n, forms, [], Collect(kind), st);
    DropEmpty(EvalAll(h, n, forms, st));
  }

  /** The values a finished `values_cps` evaluated, and the fuel left for what follows them. */
  lemma {:induction false} MachineAll(h: Host, k: nat, n: nat, forms: seq<Form>, values: seq<Value>,
                                      cont: ValuesCont, st: State) returns (left: nat)
    requires k < n && Fin(h, k, Start(h, Values(forms, values, cont), st)).Out?
    ensures left <= k && EvalAll(h, n, forms, st).OutAll?
    ensures match EvalAll(h, n, forms, st)
            case OutAll(Ok(vs), st1) =>
              Fin(h, left, FinishValues(h, cont, values + vs, st1))
                == Fin(h, k, Start(h, Values(forms, values, cont), st))
            case OutAll(Err(e), st1) => Fin(h, k, Start(h, Values(forms, values, cont), st)) == Out(Err(e), st1)
    decreases k, 7
  {
    hide Eval, StartOne, FinishValues;
    left := k;
    if forms == [] {
      assert values + [] == values;
    } else {
      MachineOne(h, k - 1, n - 1, forms[0], st);
      var first := Eval(h, n - 1, forms[0], st);
      if first.r.Ok? {
        var v := first.r.value;
        left := MachineAll(h, k - 2, n - 1, forms[1..], values + [v], cont, first.st);
        var rest := EvalAll(h, n - 1, forms[1..], first.st);
        if rest.all.Ok? { assert values + [v] + rest.all.value == values + ([v] + rest.all.value); }
      }
    }
  }

  lemma {:induction false} MachineBody(h: Host, k: nat, n: nat, forms: seq<Form>, last: Value, st: State)
    requires k < n && Fin(h, k, Start(h, Forms(forms, last), st)).Out?
    ensures EvalBody(h, n, forms, last, st) == Fin(h, k, Start(h, Forms(forms, last), st))
    decreases k, 7
  {
    hide Eval, StartOne;
    if forms != [] && !last.Recur? {
      MachineOne(h, k - 1, n - 1, forms[0], st);
      var first := Eval(h, n - 1, forms[0], st);
      if first.r.Ok? { MachineBody(h, k - 2, n - 1, forms[1..], first.r.value, first.st); }
    }
  }

  lemma {:induction false} MachineAnd(h: Host, k: nat, n: nat, forms: seq<Form>, last: Value, st: State)
    requires k < n && Fin(h, k, Start(h, And(forms, last), st)).Out?
    ensures EvalAnd(h, n, forms, last, st) == Fin(h, k, Start(h, And(forms, last), st))
    decreases k, 7
  {
    hide Eval, StartOne;
    if forms != [] && last.Truthy() {
      MachineOne(h, k - 1, n - 1, forms[0], st);
      var first := Eval(h, n - 1, forms[0], st);
      if first.r.Ok? { MachineAnd(h, k - 2, n - 1, forms[1..], first.r.value, first.st); }
    }
  }

  lemma {:induction false} MachineOr(h: Host, k: nat, n: nat, forms: seq<Form>, last: Value, st: State)
    requires k < n && Fin(h, k, Start(h, Or(forms, last), st)).Out?
    ensures EvalOr(h, n, forms, last, st) == Fin(h, k, Start(h, Or(forms, last), st))
    decreases k, 7
  {
    hide Eval, StartOne;
    if forms != [] {
      MachineOne(h, k - 1, n - 1, forms[0], st);
      var first := Eval(h, n - 1, forms[0], st);
      if first.r.Ok? && !first.r.value.Truthy() {
        MachineOr(h, k - 2, n - 1, forms[1..], first.r.value, first.st);
      }
    }
  }

  lemma {:induction false} MachineCond(h: Host, k: nat, n: nat, clauses: seq<Form>, st: State)
    requires k < n && Fin(h, k, Start(h, Cond(clauses), st)).Out?
    ensures EvalCond(h, n, clauses, st) == Fin(h, k, Start(h, Cond(clauses), st))
    decreases k, 7
  {
    hide Eval, StartOne;
    if |clauses| >= 2 {
      MachineOne(h, k - 1, n - 1, clauses[0], st);
      var first := Eval(h, n - 1, clauses[0], st);
      if first.r.Ok? {
        if first.r.value.Truthy() {
          MachineOne(h, k - 2, n - 1, clauses[1], first.st);
        } else {
          MachineCond(h, k - 2, n - 1, clauses[2..], first.st);
        }
      }
    }
  }

  lemma {:induction false} MachineBindings(h: Host, k: nat, n: nat, bindings: seq<Form>, saved: Previous, scope: Scope,
                                           st: State) returns (left: nat)
    requires k < n && Fin(h, k, Start(h, BindValues(bindings, saved, scope), st)).Out?
    ensures left <= k && EvalBindings(h, n, bindings, st).OutBind?
    ensures match EvalBindings(h, n, bindings, st)
            case OutBind(Ok(more), st1) =>
              Fin(h, left, EnterScope(scope, saved + more, st1))
                == Fin(h, k, Start(h, BindValues(bindings, saved, scope), st))
            case OutBind(Err(e), st1) => Fin(h, k, Start(h, BindValues(bindings, saved, scope), st)) == Out(Err(e), st1)
    decreases k, 7
  {
    hide Eval, StartOne, BindPattern, EnterScope;
    left := k;
    if |bindings| < 2 {
      assert saved + [] == saved;
    } else {
      MachineOne(h, k - 1, n - 1, bindings[1], st);
      var first := Eval(h, n - 1, bindings[1], st);
      if first.r.Ok? {
        var b := BindPattern(h, bindings[0], first.r.value, first.st);
        left := MachineMoreBindings(h, k - 1, n - 1, b, first.st.env, bindings[2..], saved, scope);
      }
    }
  }

  lemma {:induction false} MachineMoreBindings(h: Host, k: nat, n: nat, b: Bound, before: Env, rest: seq<Form>,
                                               saved: Previous, scope: Scope) returns (left: nat)
    requires k <= n && Fin(h, k, AfterBinding(b, before, rest, saved, scope)).Out?
    ensures left <= k && EvalMoreBindings(h, n, b, before, rest).OutBind?
    ensures match EvalMoreBindings(h, n, b, before, rest)
            case OutBind(Ok(more), st1) =>
              Fin(h, left, EnterScope(scope, saved + more, st1))
                == Fin(h, k, AfterBinding(b, before, rest, saved, scope))
            case OutBind(Err(e), st1) => Fin(h, k, AfterBinding(b, before, rest, saved, scope)) == Out(Err(e), st1)
    decreases k, 6
  {
    hide EvalBindings, Start, EnterScope, BindPattern;
    left := k;
    if b.error.None? {
      var saved' := saved + Saved(b.names, before);
      left := MachineBindings(h, k - 1, n, rest, saved', scope, b.st);
      var out := EvalBindings(h, n, rest, b.st);
      if out.saved.Ok? {
        assert saved' + out.saved.value == saved + (Saved(b.names, before) + out.saved.value);
      }
    }
  }

  lemma {:induction false} MachineLoop(
    h: Host, k: nat, n: nat, patterns: seq<Form>, body: Form, saved: Previous, st: State)
    requires k < n && Fin(h, k, Start(h, LoopBody(patterns, body, saved), st)).Out?
    ensures Leave(EvalLoop(h, n, patterns, body, st), saved) == Fin(h, k, Start(h, LoopBody(patterns, body, saved), st))
    decreases k, 7
  {
    hide Eval, StartOne, Rebind, Restore;
    MachineOne(h, k - 1, n - 1, body, st);
    var first := Eval(h, n - 1, body, st);
    if first.r.Ok? && first.r.value.Recur? && |first.r.value.args| == |patterns| {
      var (error, st2) := Rebind(h, patterns, first.r.value.args, first.st);
      if error.None? { MachineLoop(h, k - 2, n - 1, patterns, body, saved, st2); }
    }
  }

  lemma {:induction false} MachineScopeBody(h: Host, k: nat, n: nat, scope: Scope, saved: Previous, st: State)
    requires k < n && Fin(h, k, EnterScope(scope, saved, st)).Out?
    ensures EvalScopeBody(h, n, scope.patterns, scope.body, scope.isLoop, saved, st)
         == Fin(h, k, EnterScope(scope, saved, st))
    decreases k, 8
  {
    hide Eval, StartOne, EvalLoop, Restore;
    if scope.isLoop {
      MachineLoop(h, k - 1, n - 1, scope.patterns, scope.body, saved, st);
    } else {
      MachineOne(h, k - 1, n - 1, scope.body, st);
    }
  }

  lemma {:induction false} MachineScope(h: Host, k: nat, n: nat, v: seq<Form>, isLoop: bool, st: State)
    requires k <= n && Fin(h, k, StartScoped(v, st, isLoop)).Out?
    ensures EvalScope(h, n, v, isLoop, st) == Fin(h, k, StartScoped(v, st, isLoop))
    decreases k, 7
  {
    if |v| >= 3 && Bindings(v, if isLoop then "loop" else "let").Ok? {
      var bindings := Bindings(v, if isLoop then "loop" else "let").value;
      var scope := Scope(Patterns(bindings), ScopeBody(v), isLoop);
      var left := MachineBindings(h, k - 1, n, bindings, [], scope, st);
      var b := EvalBindings(h, n, bindings, st);
      if b.saved.Ok? {
        assert [] + b.saved.value == b.saved.value;
        MachineScopeBody(h, left, n, scope, b.saved.value, b.st);
      }
    }
  }

  lemma {:induction false} MachineFinally(h: Host, k: nat, n: nat, outcome: Outcome, finals: seq<Form>, st: State)
    requires k <= n && Fin(h, k, Finally(outcome, finals, st)).Out?
    ensures var last := EvalBody(h, n, finals, Nil, st);
            && last.Out?
            && Fin(h, k, Finally(outcome, finals, st)) == Out(if last.r.Err? then last.r else outcome, last.st)
    decreases k, 7
  {
    MachineBody(h, k - 1, n, finals, Nil, st);
  }

  lemma {:induction false} MachineFinishTry(h: Host, k: nat, n: nat, r: Outcome, catches: seq<seq<Form>>,
                                            finals: seq<Form>, st: State)
    requires k < n && Fin(h, k, FinishTry(h, r, catches, finals, st)).Out?
    ensures EvalGuarded(h, n, r, catches, st).Out?
    ensures !ReachesFinally(h, r, catches, st) ==>
              Fin(h, k, FinishTry(h, r, catches, finals, st)) == EvalGuarded(h, n, r, catches, st)
    ensures ReachesFinally(h, r, catches, st) ==>
              var guarded := EvalGuarded(h, n, r, catches, st);
              var last := EvalBody(h, n, finals, Nil, guarded.st);
              && last.Out?
              && Fin(h, k, FinishTry(h, r, catches, finals, st))
                 == Out(if last.r.Err? then last.r else guarded.r, last.st)
    decreases k, 8
  {
    hide EvalBody, Start;
    if ReachesFinally(h, r, catches, st) {
      if r.Err? && SelectCatch(h, catches, r.error, st.world).Selected? {
        var Selected(name, body) := SelectCatch(h, catches, r.error, st.world);
        var (value, world) := h.caught(r.error, st.world);
        MachineBody(h, k - 1, n - 1, body, Nil, st.(env := st.env[name := value], world := world));
        var guarded := EvalGuarded(h, n, r, catches, st);
        MachineFinally(h, k - 1, n, guarded.r, finals, guarded.st);
      } else {
        MachineFinally(h, k, n, r, finals, st);
      }
    }
  }

  lemma {:induction false} MachineTry(h: Host, k: nat, n: nat, parts: TryParts, st: State)
    requires k <= n && Fin(h, k, Call(Forms(parts.body, Nil), st, AfterTry(parts.catches, parts.finals))).Out?
    ensures EvalTry(h, n, parts, st)
         == Fin(h, k, Call(Forms(parts.body, Nil), st, AfterTry(parts.catches, parts.finals)))
    decreases k, 7
  {
    hide EvalGuarded, SelectCatch, FinishTry;
    MachineBody(h, k - 1, n, parts.body, Nil, st);
    var body := EvalBody(h, n, parts.body, Nil, st);
    MachineFinishTry(h, k - 1, n, body.r, parts.catches, parts.finals, body.st);
  }

  lemma {:induction false} MachineSet(h: Host, k: nat, n: nat, v: seq<Form>, st: State)
    requires k <= n && v != [] && v[0].Symbol? && Fin(h, k, StartSet(v, st)).Out?
    ensures EvalSet(h, n, v, st) == Fin(h, k, StartSet(v, st))
    decreases k, 7
  {
    hide Eval, StartOne, StartDefine, EvalDefine, FieldPlace;
    if |v| == 3 {
      if v[1].Symbol? {
        MachineDefine(h, k, n, v, st);
      } else if FieldPlace(v[1]).Ok? {
        var (receiver, field) := FieldPlace(v[1]).value;
        MachineOne(h, k - 1, n, receiver, st);
        var first := Eval(h, n, receiver, st);
        assert Fin(h, k, StartSet(v, st)) == Fin(h, k - 1, Apply(h, AfterReceiver(field, v[2]), first.r, first.st));
        if first.r.Ok? {
          MachineOne(h, k - 2, n, v[2], first.st);
          var second := Eval(h, n, v[2], first.st);
          assert Fin(h, k, StartSet(v, st))
            == Fin(h, k - 2, Apply(h, AfterReplacement(first.r.value, field), second.r, second.st));
        }
      }
    }
  }

  lemma {:induction false} MachineDefine(h: Host, k: nat, n: nat, v: seq<Form>, st: State)
    requires k <= n && v != [] && v[0].Symbol? && Fin(h, k, StartDefine(v, st)).Out?
    ensures EvalDefine(h, n, v, st) == Fin(h, k, StartDefine(v, st))
    decreases k, 6
  {
    if |v| == 3 && v[1].Symbol? { MachineOne(h, k - 1, n, v[2], st); }
  }

  lemma {:induction false} MachineIf(h: Host, k: nat, n: nat, v: seq<Form>, st: State)
    requires k <= n && v != [] && Classify(v[0]).IfForm? && Fin(h, k, StartList(h, v, st)).Out?
    ensures EvalIf(h, n, v, st) == Fin(h, k, StartList(h, v, st))
    decreases k, 7
  {
    hide Eval, StartOne;
    if |v| == 3 || |v| == 4 {
      MachineOne(h, k - 1, n, v[1], st);
      var first := Eval(h, n, v[1], st);
      if first.r.Ok? && first.r.value.Truthy() {
        MachineOne(h, k - 2, n, v[2], first.st);
      } else if first.r.Ok? && |v| == 4 {
        MachineOne(h, k - 2, n, v[3], first.st);
      }
    }
  }

  lemma {:induction false} MachineCallValue(h: Host, k: nat, n: nat, callee: Value, args: seq<Value>, st: State)
    requires k < n && Fin(h, k, FinishValues(h, Calling(callee), args, st)).Out?
    ensures EvalCallValue(h, n, callee, args, st) == Fin(h, k, FinishValues(h, Calling(callee), args, st))
    decreases k, 8
  {
    if callee.Function? {
      MachineCall(h, k, n, callee, args, st);
    } else {
      var (resolved, world) := h.resolveCallable(callee, st.world);
      if resolved.Ok? && resolved.value.Function? {
        MachineCall(h, k, n, resolved.value, args, st.(world := world));
      }
    }
  }

  lemma {:induction false} MachineCall(h: Host, k: nat, n: nat, f: Value, args: seq<Value>, st: State)
    requires k < n && Fin(h, k, Enter(h, f, args, st)).Out?
    ensures EvalCall(h, n, f, args, st) == Fin(h, k, Enter(h, f, args, st))
    decreases k, 7
  {
    var (entry, world) := h.enter(f, args, st.world);
    match entry
    case Finished(r) =>
    case Awaiting(p) =>
    case Body(forms, env) => MachineBody(h, k - 1, n - 1, forms, Nil, st.(world := world, env := env));
  }

  lemma {:induction false} MachineArguments(h: Host, k: nat, n: nat, callee: Value, forms: seq<Form>, st: State)
    requires k <= n && Fin(h, k, Tail(Values(forms, [], Calling(callee)), st)).Out?
    ensures EvalArguments(h, n, callee, forms, st) == Fin(h, k, Tail(Values(forms, [], Calling(callee)), st))
    decreases k, 5
  {
    var left := MachineAll(h, k - 1, n, forms, [], Calling(callee), st);
    var all := EvalAll(h, n, forms, st);
    DropEmpty(all);
    if all.all.Ok? { MachineCallValue(h, left, n, callee, all.all.value, all.st); }
  }

  lemma {:induction false} MachineHead(h: Host, k: nat, n: nat, v: seq<Form>, st: State)
    requires k <= n && v != [] && Fin(h, k, Call(One(v[0]), st, AfterHead(v[1..]))).Out?
    ensures EvalHead(h, n, v, st) == Fin(h, k, Call(One(v[0]), st, AfterHead(v[1..])))
    decreases k, 6
  {
    hide Eval, StartOne;
    MachineOne(h, k - 1, n, v[0], st);
    var first := Eval(h, n, v[0], st);
    if first.r.Ok? { MachineArguments(h, k - 1, n, first.r.value, v[1..], first.st); }
  }

  lemma {:induction false} MachineApplication(h: Host, k: nat, n: nat, v: seq<Form>, st: State)
    requires k <= n && v != [] && Fin(h, k, StartApplication(h, v, st)).Out?
    ensures EvalApplication(h, n, v, st) == Fin(h, k, StartApplication(h, v, st))
    decreases k, 7
  {
    if !v[0].Symbol? {
      MachineHead(h, k, n, v, st);
    } else if !h.isMacro(v[0].name, st.world) {
      var (error, env, world) := h.ensureNamespace(v[0].name, st.env, st.world);
      var st1 := st.(env := env, world := world);
      var callee := h.bound(v[0].name, env, world);
      if error.None? {
        if callee.Some? && callee.value.Function? {
          MachineArguments(h, k, n, callee.value, v[1..], st1);
        } else {
          MachineHead(h, k, n, v, st1);
        }
      }
    }
  }

  lemma {:induction false} MachineSequence(h: Host, k: nat, n: nat, v: seq<Form>, st: State)
    requires k <= n && v != [] && Fin(h, k, StartList(h, v, st)).Out?
    requires Classify(v[0]) in {DoForm, AndForm, OrForm, CondForm, RecurForm}
    ensures EvalList(h, n, v, st) == Fin(h, k, StartList(h, v, st))
    decreases k, 7
  {
    hide EvalBody, EvalAnd, EvalOr, EvalCond, EvalAll, Start;
    match Classify(v[0])
    case DoForm => MachineBody(h, k - 1, n, v[1..], Nil, st);
    case AndForm => MachineAnd(h, k - 1, n, v[1..], Bool(true), st);
    case OrForm => MachineOr(h, k - 1, n, v[1..], Nil, st);
    case CondForm => if |v| % 2 != 0 { MachineCond(h, k - 1, n, v[1..], st); }
    case RecurForm =>
      var _ := MachineAll(h, k - 1, n, v[1..], [], Recurring, st);
      DropEmpty(EvalAll(h, n, v[1..], st));
  }

  lemma {:induction false} MachineThrow(h: Host, k: nat, n: nat, form: Form, st: State)
    requires k <= n && Fin(h, k, Call(One(form), st, AfterThrow)).Out?
    ensures EvalThrow(h, n, form, st) == Fin(h, k, Call(One(form), st, AfterThrow))
    decreases k, 7
  {
    hide Eval, StartOne;
    MachineOne(h, k - 1, n, form, st);
  }

  lemma {:induction false} MachineList(h: Host, k: nat, n: nat, v: seq<Form>, st: State)
    requires k <= n && v != [] && Fin(h, k, StartList(h, v, st)).Out?
    ensures EvalList(h, n, v, st) == Fin(h, k, StartList(h, v, st))
    decreases k, 8
  {
    match Classify(v[0])
    case IfForm => MachineIf(h, k, n, v, st);
    case LetForm => MachineScope(h, k, n, v, false, st);
    case LoopForm => MachineScope(h, k, n, v, true, st);
    case TryForm =>
      if SplitTry(v[1..], false, NoParts).Ok? {
        MachineTry(h, k, n, SplitTry(v[1..], false, NoParts).value, st);
      }
    case ThrowForm => if |v| == 2 { MachineThrow(h, k, n, v[1], st); }
    case DefForm => MachineDefine(h, k, n, v, st);
    case SetPlace => MachineSet(h, k, n, v, st);
    case SyncForm =>
    case Application => MachineApplication(h, k, n, v, st);
    case _ => MachineSequence(h, k, n, v, st);
  }

  // ----- The theorem -----

  ghost predicate FiberFinishes(h: Host, program: seq<Form>, st: State, r: Outcome, st': State) {
    exists m: nat :: Drives(h, m, Initial(h, program, st)) == Done(r, st')
  }

  ghost predicate DirectFinishes(h: Host, program: seq<Form>, st: State, r: Outcome, st': State) {
    exists n: nat :: EvalBody(h, n, program, Nil, st) == Out(r, st')
  }

  /**
   For every host, program and state, the suspended, resumed and trampolined
   fiber finishes with a result, an environment and a list of waits exactly
   when the direct evaluator, whose awaits answer at once, yields them.
   */
  lemma FiberIsDirect(h: Host, program: seq<Form>, st: State, r: Outcome, st': State)
    ensures FiberFinishes(h, program, st, r, st') <==> DirectFinishes(h, program, st, r, st')
  {
    var start := Start(h, Forms(program, Nil), st);
    if FiberFinishes(h, program, st, r, st') {
      var m: nat :| Drives(h, m, Initial(h, program, st)) == Done(r, st');
      var k, r1, st1, left := DrivesFin(h, m, start, Halt);
      assert left > 0 && Drives(h, left, Running(Return(r1, st1), Halt)) == Drives(h, left - 1, Done(r1, st1));
      DoneStays(h, left - 1, r1, st1);
      MachineBody(h, k, k + 1, program, Nil, st);
      assert EvalBody(h, k + 1, program, Nil, st) == Out(r, st');
    }
    if DirectFinishes(h, program, st, r, st') {
      var n: nat :| EvalBody(h, n, program, Nil, st) == Out(r, st');
      DirectBody(h, n, program, Nil, st);
      var k: nat :| Fin(h, k, start) == Out(r, st');
      var m := FinDrives(h, k, start, Halt);
      DrivesAdd(h, m, 1, Initial(h, program, st));
      assert Drives(h, 1, Running(Return(r, st'), Halt)) == Done(r, st');
      assert Drives(h, m + 1, Initial(h, program, st)) == Done(r, st');
    }
  }

  lemma {:induction false} DoneStays(h: Host, n: nat, r: Outcome, st: State)
    ensures Drives(h, n, Done(r, st)) == Done(r, st)
  {
    if n > 0 { DoneStays(h, n - 1, r, st); }
  }

  /**
   A `recur` with as many values as the loop has names brings the machine back
   to the head of the same loop with the very continuation it started with.
   */
  lemma RecurKeepsContinuation(h: Host, n: nat, patterns: seq<Form>, body: Form, saved: Previous, st: State, k: Kont)
    returns (m: nat)
    requires var out := Eval(h, n, body, st);
             && out.Out? && out.r.Ok? && out.r.value.Recur? && |out.r.value.args| == |patterns|
             && Rebind(h, patterns, out.r.value.args, out.st).0.None?
    ensures var out := Eval(h, n, body, st);
            var st' := Rebind(h, patterns, out.r.value.args, out.st).1;
            && m > 0
            && Drives(h, m, Running(Start(h, LoopBody(patterns, body, saved), st), k))
               == Running(Start(h, LoopBody(patterns, body, saved), st'), k)
  {
    var out := Eval(h, n, body, st);
    var st' := Rebind(h, patterns, out.r.value.args, out.st).1;
    var frame := AfterLoop(patterns, body, saved);
    DirectOne(h, n, body, st);
    var j: nat :| Fin(h, j, Start(h, One(body), st)) == out;
    var m1 := FinDrives(h, j, Start(h, One(body), st), Then(frame, k));
    DrivesAdd(h, m1, 2, Running(Start(h, One(body), st), Then(frame, k)));
    var c := Running(Return(out.r, out.st), Then(frame, k));
    assert Drive(h, c) == Running(Continue(LoopBody(patterns, body, saved), st'), k);
    assert Drives(h, 2, c) == Drives(h, 1, Drive(h, c)) == Drive(h, Drive(h, c));
    m := 1 + (m1 + 2);
  }
}
