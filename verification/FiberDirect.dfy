/**
 A direct-style evaluator for the same forms: ordinary recursion, no
 continuations, no tasks, no trampoline, and an awaited promise answers on the
 spot.  It is the meaning the fiber machine is measured against.  The fuel only
 makes the recursion total; every theorem quantifies it away.
 */
module FiberDirect {
  import opened Prelude
  import opened FiberData

  datatype Out = OutOfFuel | Out(r: Outcome, st: State)
  datatype OutAll = AllOutOfFuel | OutAll(all: Result<seq<Value>, string>, st: State)
  datatype OutBind = BindOutOfFuel | OutBind(saved: Result<Previous, string>, st: State)

  /** An awaited promise, answered at once. */
  function Await(h: Host, p: Promise, st: State): Out {
    var (state, st') := Settle(h, p, st.(waits := st.waits + [p]));
    Out(Settlement(state), st')
  }

  /** Leaving a let or loop: whatever the outcome, the saved bindings come back. */
  function Leave(out: Out, saved: Previous): Out {
    if out.OutOfFuel? then out
    else Out(out.r, out.st.(env := Restore(out.st.env, saved)))
  }

  function Eval(h: Host, n: nat, form: Form, st: State): Out
    decreases n, 0
  {
    if n == 0 then OutOfFuel
    else if h.interrupt(st.world).Some? then Out(Err(h.interrupt(st.world).value), st)
    else
      match form
      case MapForm(entries) => EvalCollection(h, n - 1, MapLiteral, Flatten(entries), st)
      case SetForm(items) => EvalCollection(h, n - 1, SetLiteral, items, st)
      case Vector(items) => EvalCollection(h, n - 1, VectorLiteral, items, st)
      case List(items) =>
        if items == [] then Out(Ok(EmptyList), st)
        else if IsQuote(items) then Out(h.literal(items[1]), st)
        else EvalList(h, n - 1, items, st)
      case _ => var (r, st') := SyncEval(h, form, st); Out(r, st')
  }

  function EvalCollection(h: Host, n: nat, kind: Collection, forms: seq<Form>, st: State): Out
    decreases n, 1
  {
    match EvalAll(h, n, forms, st)
    case AllOutOfFuel => OutOfFuel
    case OutAll(Err(e), st1) => Out(Err(e), st1)
    case OutAll(Ok(vs), st1) => Out(h.collect(kind, vs), st1)
  }

  /** Left-to-right evaluation, stopping at the first error. */
  function EvalAll(h: Host, n: nat, forms: seq<Form>, st: State): OutAll
    decreases n, 0
  {
    if n == 0 then AllOutOfFuel
    else if forms == [] then OutAll(Ok([]), st)
    else
      match Eval(h, n - 1, forms[0], st)
      case OutOfFuel => AllOutOfFuel
      case Out(Err(e), st1) => OutAll(Err(e), st1)
      case Out(Ok(v), st1) =>
        match EvalAll(h, n - 1, forms[1..], st1)
        case AllOutOfFuel => AllOutOfFuel
        case OutAll(Err(e), st2) => OutAll(Err(e), st2)
        case OutAll(Ok(vs), st2) => OutAll(Ok([v] + vs), st2)
  }

  /** A body: its last value, unless an error or a recur cuts it short. */
  function EvalBody(h: Host, n: nat, forms: seq<Form>, last: Value, st: State): Out
    decreases n, 0
  {
    if n == 0 then OutOfFuel
    else if forms == [] || last.Recur? then Out(Ok(last), st)
    else
      match Eval(h, n - 1, forms[0], st)
      case OutOfFuel => OutOfFuel
      case Out(Err(e), st1) => Out(Err(e), st1)
      case Out(Ok(v), st1) => EvalBody(h, n - 1, forms[1..], v, st1)
  }

  function EvalAnd(h: Host, n: nat, forms: seq<Form>, last: Value, st: State): Out
    decreases n, 0
  {
    if n == 0 then OutOfFuel
    else if forms == [] || !last.Truthy() then Out(Ok(last), st)
    else
      match Eval(h, n - 1, forms[0], st)
      case OutOfFuel => OutOfFuel
      case Out(Err(e), st1) => Out(Err(e), st1)
      case Out(Ok(v), st1) => EvalAnd(h, n - 1, forms[1..], v, st1)
  }

  function EvalOr(h: Host, n: nat, forms: seq<Form>, last: Value, st: State): Out
    decreases n, 0
  {
    if n == 0 then OutOfFuel
    else if forms == [] then Out(Ok(last), st)
    else
      match Eval(h, n - 1, forms[0], st)
      case OutOfFuel => OutOfFuel
      case Out(Err(e), st1) => Out(Err(e), st1)
      case Out(Ok(v), st1) => if v.Truthy() then Out(Ok(v), st1) else EvalOr(h, n - 1, forms[1..], v, st1)
  }

  function EvalCond(h: Host, n: nat, clauses: seq<Form>, st: State): Out
    decreases n, 0
  {
    if n == 0 then OutOfFuel
    else if |clauses| < 2 then Out(Ok(Nil), st)
    else
      match Eval(h, n - 1, clauses[0], st)
      case OutOfFuel => OutOfFuel
      case Out(Err(e), st1) => Out(Err(e), st1)
      case Out(Ok(v), st1) =>
        if v.Truthy() then Eval(h, n - 1, clauses[1], st1) else EvalCond(h, n - 1, clauses[2..], st1)
  }

  /** Makes the bindings one by one; a failure leaves the earlier ones in place. */
  function EvalBindings(h: Host, n: nat, bindings: seq<Form>, st: State): OutBind
    decreases n, 0
  {
    if n == 0 then BindOutOfFuel
    else if |bindings| < 2 then OutBind(Ok([]), st)
    else
      match Eval(h, n - 1, bindings[1], st)
      case OutOfFuel => BindOutOfFuel
      case Out(Err(e), st1) => OutBind(Err(e), st1)
      case Out(Ok(v), st1) =>
        EvalMoreBindings(h, n - 1, BindPattern(h, bindings[0], v, st1), st1.env, bindings[2..])
  }

  function EvalMoreBindings(h: Host, n: nat, b: Bound, before: Env, rest: seq<Form>): OutBind
    decreases n, 1
  {
    if b.error.Some? then OutBind(Err("destructuring failed: " + b.error.value), b.st)
    else
      match EvalBindings(h, n, rest, b.st)
      case BindOutOfFuel => BindOutOfFuel
      case OutBind(Err(e), st2) => OutBind(Err(e), st2)
      case OutBind(Ok(more), st2) => OutBind(Ok(Saved(b.names, before) + more), st2)
  }

  /** Iterates a loop body while it answers with a recur. */
  function EvalLoop(h: Host, n: nat, patterns: seq<Form>, body: Form, st: State): Out
    decreases n, 0
  {
    if n == 0 then OutOfFuel
    else
      match Eval(h, n - 1, body, st)
      case OutOfFuel => OutOfFuel
      case Out(r, st1) =>
        if !(r.Ok? && r.value.Recur?) then Out(r, st1)
        else if |r.value.args| != |patterns| then Out(Err("loop recur arity mismatch"), st1)
        else
          var (error, st2) := Rebind(h, patterns, r.value.args, st1);
          if error.Some? then Out(Err("loop destructuring failed: " + error.value), st2)
          else EvalLoop(h, n - 1, patterns, body, st2)
  }

  function EvalScope(h: Host, n: nat, v: seq<Form>, isLoop: bool, st: State): Out
    decreases n, 1
  {
    if |v| < 3 then Out(Err("binding form expects bindings and body"), st)
    else
      match Bindings(v, if isLoop then "loop" else "let")
      case Err(e) => Out(Err(e), st)
      case Ok(bindings) =>
        match EvalBindings(h, n, bindings, st)
        case BindOutOfFuel => OutOfFuel
        case OutBind(Err(e), st1) => Out(Err(e), st1)
        case OutBind(Ok(saved), st1) =>
          EvalScopeBody(h, n, Patterns(bindings), ScopeBody(v), isLoop, saved, st1)
  }

  function EvalScopeBody(
    h: Host, n: nat, patterns: seq<Form>, body: Form, isLoop: bool, saved: Previous, st: State): Out
    decreases n, 0
  {
    if n == 0 then OutOfFuel
    else Leave(if isLoop then EvalLoop(h, n - 1, patterns, body, st) else Eval(h, n - 1, body, st), saved)
  }

  /** A try body and the catch clause it selects, without its finally forms. */
  function EvalGuarded(h: Host, n: nat, r: Outcome, catches: seq<seq<Form>>, st: State): Out
    decreases n, 0
  {
    if n == 0 then OutOfFuel
    else if r.Ok? then Out(r, st)
    else
      match SelectCatch(h, catches, r.error, st.world)
      case NoClause => Out(r, st)
      case Malformed(e) => Out(Err(e), st)
      case Selected(name, body) =>
        var (value, world) := h.caught(r.error, st.world);
        Leave(EvalBody(h, n - 1, body, Nil, st.(env := st.env[name := value], world := world)),
              [(name, Lookup(st.env, name))])
  }

  /** Whether `finish_try` gets as far as the finally forms. */
  predicate ReachesFinally(h: Host, r: Outcome, catches: seq<seq<Form>>, st: State) {
    r.Ok? || !SelectCatch(h, catches, r.error, st.world).Malformed?
  }

  function EvalTry(h: Host, n: nat, parts: TryParts, st: State): Out
    decreases n, 1
  {
    match EvalBody(h, n, parts.body, Nil, st)
    case OutOfFuel => OutOfFuel
    case Out(r, st1) =>
      match EvalGuarded(h, n, r, parts.catches, st1)
      case OutOfFuel => OutOfFuel
      case Out(r', st2) =>
        if !ReachesFinally(h, r, parts.catches, st1) then Out(r', st2)
        else
          match EvalBody(h, n, parts.finals, Nil, st2)
          case OutOfFuel => OutOfFuel
          case Out(rf, st3) => Out(if rf.Err? then rf else r', st3)
  }

  function EvalThrow(h: Host, n: nat, form: Form, st: State): Out
    decreases n, 1
  {
    match Eval(h, n, form, st)
    case OutOfFuel => OutOfFuel
    case Out(Err(e), st1) => Out(Err(e), st1)
    case Out(Ok(v), st1) =>
      if v.ExceptionInfo? then
        var (error, world) := h.thrown(v, st1.world); Out(Err(error), st1.(world := world))
      else Out(Err("throw expects an Exception value created by ex"), st1)
  }

  function EvalDefine(h: Host, n: nat, v: seq<Form>, st: State): Out
    requires v != [] && v[0].Symbol?
    decreases n, 1
  {
    if |v| != 3 then Out(Err("binding form expects symbol and value"), st)
    else if !v[1].Symbol? then Out(Err(v[0].name + " name must be a symbol"), st)
    else
      match Eval(h, n, v[2], st)
      case OutOfFuel => OutOfFuel
      case Out(Err(e), st1) => Out(Err(e), st1)
      case Out(Ok(x), st1) =>
        var (r, env, world) := h.define(v[0].name, v[1].name, x, st1.env, st1.world);
        Out(r, st1.(env := env, world := world))
  }

  function EvalSet(h: Host, n: nat, v: seq<Form>, st: State): Out
    requires v != [] && v[0].Symbol?
    decreases n, 2
  {
    if |v| != 3 then Out(Err("set! expects a place and value"), st)
    else if v[1].Symbol? then EvalDefine(h, n, v, st)
    else
      match FieldPlace(v[1])
      case Err(e) => Out(Err(e), st)
      case Ok((receiver, field)) =>
        match Eval(h, n, receiver, st)
        case OutOfFuel => OutOfFuel
        case Out(Err(e), st1) => Out(Err(e), st1)
        case Out(Ok(target), st1) =>
          match Eval(h, n, v[2], st1)
          case OutOfFuel => OutOfFuel
          case Out(Err(e), st2) => Out(Err(e), st2)
          case Out(Ok(x), st2) =>
            var (r, world) := h.setField(target, field, x, st2.world);
            Out(r, st2.(world := world))
  }

  function EvalIf(h: Host, n: nat, v: seq<Form>, st: State): Out
    decreases n, 1
  {
    if |v| != 3 && |v| != 4 then Out(Err("if expects 2 or 3 arguments"), st)
    else
      match Eval(h, n, v[1], st)
      case OutOfFuel => OutOfFuel
      case Out(Err(e), st1) => Out(Err(e), st1)
      case Out(Ok(x), st1) =>
        if x.Truthy() then Eval(h, n, v[2], st1)
        else if |v| == 4 then Eval(h, n, v[3], st1)
        else Out(Ok(Nil), st1)
  }

  function EvalRecur(h: Host, n: nat, forms: seq<Form>, st: State): Out
    decreases n, 1
  {
    match EvalAll(h, n, forms, st)
    case AllOutOfFuel => OutOfFuel
    case OutAll(Err(e), st1) => Out(Err(e), st1)
    case OutAll(Ok(vs), st1) => Out(Ok(Recur(vs)), st1)
  }

  function EvalList(h: Host, n: nat, v: seq<Form>, st: State): Out
    requires v != []
    decreases n, 5
  {
    match Classify(v[0])
    case DoForm => EvalBody(h, n, v[1..], Nil, st)
    case IfForm => EvalIf(h, n, v, st)
    case AndForm => EvalAnd(h, n, v[1..], Bool(true), st)
    case OrForm => EvalOr(h, n, v[1..], Nil, st)
    case CondForm =>
      if |v| % 2 == 0 then Out(Err("cond expects test/expression pairs"), st)
      else EvalCond(h, n, v[1..], st)
    case LetForm => EvalScope(h, n, v, false, st)
    case LoopForm => EvalScope(h, n, v, true, st)
    case RecurForm => EvalRecur(h, n, v[1..], st)
    case TryForm =>
      (match SplitTry(v[1..], false, NoParts)
       case Err(e) => Out(Err(e), st)
       case Ok(parts) => EvalTry(h, n, parts, st))
    case ThrowForm =>
      if |v| != 2 then Out(Err("throw expects one value"), st) else EvalThrow(h, n, v[1], st)
    case DefForm => EvalDefine(h, n, v, st)
    case SetPlace => EvalSet(h, n, v, st)
    case SyncForm => var (r, st') := SyncEval(h, List(v), st); Out(r, st')
    case Application => EvalApplication(h, n, v, st)
  }

  function EvalApplication(h: Host, n: nat, v: seq<Form>, st: State): Out
    requires v != []
    decreases n, 4
  {
    if v[0].Symbol? then
      if h.isMacro(v[0].name, st.world) then var (r, st') := SyncEval(h, List(v), st); Out(r, st')
      else
        var (error, env, world) := h.ensureNamespace(v[0].name, st.env, st.world);
        var st1 := st.(env := env, world := world);
        if error.Some? then Out(Err(error.value), st1)
        else
          var callee := h.bound(v[0].name, env, world);
          if callee.Some? && callee.value.Function? then EvalArguments(h, n, callee.value, v[1..], st1)
          else EvalHead(h, n, v, st1)
    else EvalHead(h, n, v, st)
  }

  function EvalHead(h: Host, n: nat, v: seq<Form>, st: State): Out
    requires v != []
    decreases n, 3
  {
    match Eval(h, n, v[0], st)
    case OutOfFuel => OutOfFuel
    case Out(Err(e), st1) => Out(Err(e), st1)
    case Out(Ok(callee), st1) => EvalArguments(h, n, callee, v[1..], st1)
  }

  function EvalArguments(h: Host, n: nat, callee: Value, forms: seq<Form>, st: State): Out
    decreases n, 2
  {
    match EvalAll(h, n, forms, st)
    case AllOutOfFuel => OutOfFuel
    case OutAll(Err(e), st1) => Out(Err(e), st1)
    case OutAll(Ok(args), st1) => EvalCallValue(h, n, callee, args, st1)
  }

  function EvalCallValue(h: Host, n: nat, callee: Value, args: seq<Value>, st: State): Out
    decreases n, 1
  {
    if callee.Function? then EvalCall(h, n, callee, args, st)
    else
      var (resolved, world) := h.resolveCallable(callee, st.world);
      var st1 := st.(world := world);
      match resolved
      case Err(e) => Out(Err(e), st1)
      case Ok(target) =>
        if target.Function? then EvalCall(h, n, target, args, st1)
        else var (r, world') := h.callValue(target, args, world); Out(r, st1.(world := world'))
  }

  /** A function body runs in its own environment; the caller's comes back unchanged. */
  function EvalCall(h: Host, n: nat, f: Value, args: seq<Value>, st: State): Out
    decreases n, 0
  {
    if n == 0 then OutOfFuel
    else
      var (entry, world) := h.enter(f, args, st.world);
      var st1 := st.(world := world);
      match entry
      case Finished(r) => Out(r, st1)
      case Awaiting(p) => Await(h, p, st1)
      case Body(forms, env) =>
        match EvalBody(h, n - 1, forms, Nil, st1.(env := env))
        case OutOfFuel => OutOfFuel
        case Out(r, st2) =>
          Out(if r.Ok? && r.value.Recur? then Err("recur must be inside loop") else r, st2.(env := st.env))
  }
}
