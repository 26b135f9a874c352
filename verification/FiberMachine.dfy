/**
 The continuation-passing evaluator of `fiber.rs`, defunctionalised.

 A `Task` is a pending call of one of the `*_cps` functions, a `Frame` is the
 closure such a function hands to its callee, and a `Kont` is the chain of
 closures still to run.  `Start` is the body of a task, `Apply` the body of a
 closure; each returns what the Rust code does next.
 */
module FiberMachine {
  import opened Prelude
  import opened FiberData

  /** What a let or loop does once its bindings are made. */
  datatype Scope = Scope(patterns: seq<Form>, body: Form, isLoop: bool)

  /** What the caller of `values_cps` does with the values. */
  datatype ValuesCont = Collect(kind: Collection) | Recurring | Calling(callee: Value)

  datatype Task =
    | One(form: Form)
    | Forms(forms: seq<Form>, last: Value)
    | Values(forms: seq<Form>, values: seq<Value>, cont: ValuesCont)
    | And(forms: seq<Form>, last: Value)
    | Or(forms: seq<Form>, last: Value)
    | Cond(clauses: seq<Form>)
    | BindValues(bindings: seq<Form>, saved: Previous, scope: Scope)
    | LoopBody(patterns: seq<Form>, body: Form, saved: Previous)

  datatype Frame =
    | AfterForm(rest: seq<Form>)
    | AfterValue(rest: seq<Form>, values: seq<Value>, cont: ValuesCont)
    | AfterTest(consequent: Form, alternative: Option<Form>)
    | AfterConjunct(rest: seq<Form>)
    | AfterDisjunct(rest: seq<Form>)
    | AfterClause(expression: Form, rest: seq<Form>)
    | AfterThrow
    | AfterInit(pattern: Form, rest: seq<Form>, saved: Previous, scope: Scope)
    | AfterLet(saved: Previous)
    | AfterLoop(patterns: seq<Form>, body: Form, saved: Previous)
    | AfterTry(catches: seq<seq<Form>>, finals: seq<Form>)
    | AfterCatch(name: string, shadowed: Option<Value>, finals: seq<Form>)
    | AfterFinally(outcome: Outcome)
    | AfterDefine(op: string, name: string)
    | AfterReceiver(field: string, replacement: Form)
    | AfterReplacement(receiver: Value, field: string)
    | AfterHead(arguments: seq<Form>)
    | AfterCall(env: Env)

  datatype Kont = Halt | Then(frame: Frame, rest: Kont)

  /** What a piece of the evaluator does next. */
  datatype Next =
    | Return(r: Outcome, st: State)          // k(r)
    | Tail(task: Task, st: State)            // a call that passes on k
    | Continue(task: Task, st: State)        // Step::Continue, taken by the driver
    | Call(task: Task, st: State, frame: Frame)
    | Wait(promise: Promise, st: State)      // Step::Wait

  function Sync(h: Host, form: Form, st: State): Next {
    var (r, st') := SyncEval(h, form, st);
    Return(r, st')
  }

  function Start(h: Host, task: Task, st: State): Next {
    match task
    case One(form) => StartOne(h, form, st)
    case Forms(forms, last) =>
      if forms == [] || last.Recur? then Return(Ok(last), st)
      else Call(One(forms[0]), st, AfterForm(forms[1..]))
    case Values(forms, values, cont) =>
      if forms == [] then FinishValues(h, cont, values, st)
      else Call(One(forms[0]), st, AfterValue(forms[1..], values, cont))
    case And(forms, last) =>
      if forms == [] || !last.Truthy() then Return(Ok(last), st)
      else Call(One(forms[0]), st, AfterConjunct(forms[1..]))
    case Or(forms, last) =>
      if forms == [] then Return(Ok(last), st)
      else Call(One(forms[0]), st, AfterDisjunct(forms[1..]))
    case Cond(clauses) =>
      // `list` admits only an even number of clause forms
      if |clauses| < 2 then Return(Ok(Nil), st)
      else Call(One(clauses[0]), st, AfterClause(clauses[1], clauses[2..]))
    case BindValues(bindings, saved, scope) =>
      if |bindings| < 2 then EnterScope(scope, saved, st)
      else Call(One(bindings[1]), st, AfterInit(bindings[0], bindings[2..], saved, scope))
    case LoopBody(patterns, body, saved) =>
      Call(One(body), st, AfterLoop(patterns, body, saved))
  }

  function StartOne(h: Host, form: Form, st: State): Next {
    if h.interrupt(st.world).Some? then Return(Err(h.interrupt(st.world).value), st)
    else
      match form
      case MapForm(entries) => Tail(Values(Flatten(entries), [], Collect(MapLiteral)), st)
      case SetForm(items) => Tail(Values(items, [], Collect(SetLiteral)), st)
      case Vector(items) => Tail(Values(items, [], Collect(VectorLiteral)), st)
      case List(items) =>
        if items == [] then Return(Ok(EmptyList), st)
        else if IsQuote(items) then Return(h.literal(items[1]), st)
        else StartList(h, items, st)
      case _ => Sync(h, form, st)
  }

  function StartList(h: Host, v: seq<Form>, st: State): Next
    requires v != []
  {
    match Classify(v[0])
    case DoForm => Tail(Forms(v[1..], Nil), st)
    case IfForm =>
      if |v| != 3 && |v| != 4 then Return(Err("if expects 2 or 3 arguments"), st)
      else Call(One(v[1]), st, AfterTest(v[2], if |v| == 4 then Some(v[3]) else None))
    case AndForm => Tail(And(v[1..], Bool(true)), st)
    case OrForm => Tail(Or(v[1..], Nil), st)
    case CondForm =>
      if |v| % 2 == 0 then Return(Err("cond expects test/expression pairs"), st)
      else Tail(Cond(v[1..]), st)
    case LetForm => StartScoped(v, st, false)
    case LoopForm => StartScoped(v, st, true)
    case RecurForm => Tail(Values(v[1..], [], Recurring), st)
    case TryForm =>
      (match SplitTry(v[1..], false, NoParts)
       case Err(e) => Return(Err(e), st)
       case Ok(parts) => Call(Forms(parts.body, Nil), st, AfterTry(parts.catches, parts.finals)))
    case ThrowForm =>
      if |v| != 2 then Return(Err("throw expects one value"), st)
      else Call(One(v[1]), st, AfterThrow)
    case DefForm => StartDefine(v, st)
    case SetPlace => StartSet(v, st)
    case SyncForm => Sync(h, List(v), st)
    case Application => StartApplication(h, v, st)
  }

  function StartScoped(v: seq<Form>, st: State, isLoop: bool): Next {
    if |v| < 3 then Return(Err("binding form expects bindings and body"), st)
    else
      match Bindings(v, if isLoop then "loop" else "let")
      case Err(e) => Return(Err(e), st)
      case Ok(b) => Tail(BindValues(b, [], Scope(Patterns(b), ScopeBody(v), isLoop)), st)
  }

  function EnterScope(scope: Scope, saved: Previous, st: State): Next {
    if scope.isLoop then Tail(LoopBody(scope.patterns, scope.body, saved), st)
    else Call(One(scope.body), st, AfterLet(saved))
  }

  function StartDefine(v: seq<Form>, st: State): Next
    requires v != [] && v[0].Symbol?
  {
    if |v| != 3 then Return(Err("binding form expects symbol and value"), st)
    else if !v[1].Symbol? then Return(Err(v[0].name + " name must be a symbol"), st)
    else Call(One(v[2]), st, AfterDefine(v[0].name, v[1].name))
  }

  function StartSet(v: seq<Form>, st: State): Next
    requires v != [] && v[0].Symbol?
  {
    if |v| != 3 then Return(Err("set! expects a place and value"), st)
    else if v[1].Symbol? then StartDefine(v, st)
    else
      match FieldPlace(v[1])
      case Err(e) => Return(Err(e), st)
      case Ok((receiver, field)) => Call(One(receiver), st, AfterReceiver(field, v[2]))
  }

  function StartApplication(h: Host, v: seq<Form>, st: State): Next
    requires v != []
  {
    if v[0].Symbol? then
      if h.isMacro(v[0].name, st.world) then Sync(h, List(v), st)
      else
        var (error, env, world) := h.ensureNamespace(v[0].name, st.env, st.world);
        var st1 := st.(env := env, world := world);
        if error.Some? then Return(Err(error.value), st1)
        else
          var callee := h.bound(v[0].name, env, world);
          if callee.Some? && callee.value.Function? then Tail(Values(v[1..], [], Calling(callee.value)), st1)
          else Call(One(v[0]), st1, AfterHead(v[1..]))
    else Call(One(v[0]), st, AfterHead(v[1..]))
  }

  function FinishValues(h: Host, cont: ValuesCont, values: seq<Value>, st: State): Next {
    match cont
    case Collect(kind) => Return(h.collect(kind, values), st)
    case Recurring => Return(Ok(Recur(values)), st)
    case Calling(callee) =>
      if callee.Function? then Enter(h, callee, values, st)
      else
        var (resolved, world) := h.resolveCallable(callee, st.world);
        var st1 := st.(world := world);
        match resolved
        case Err(e) => Return(Err(e), st1)
        case Ok(target) =>
          if target.Function? then Enter(h, target, values, st1)
          else
            var (r, world') := h.callValue(target, values, world);
            Return(r, st1.(world := world'))
  }

  /** `call`: a native answer, a suspension, or the body of a function in its own environment. */
  function Enter(h: Host, f: Value, args: seq<Value>, st: State): Next {
    var (entry, world) := h.enter(f, args, st.world);
    var st1 := st.(world := world);
    match entry
    case Finished(r) => Return(r, st1)
    case Awaiting(p) => Wait(p, st1)
    case Body(forms, env) => Call(Forms(forms, Nil), st1.(env := env), AfterCall(st.env))
  }

  function Finally(outcome: Outcome, finals: seq<Form>, st: State): Next {
    Call(Forms(finals, Nil), st, AfterFinally(outcome))
  }

  function FinishTry(h: Host, r: Outcome, catches: seq<seq<Form>>, finals: seq<Form>, st: State): Next {
    match r
    case Ok(_) => Finally(r, finals, st)
    case Err(e) =>
      match SelectCatch(h, catches, e, st.world)
      case NoClause => Finally(r, finals, st)
      case Malformed(error) => Return(Err(error), st)
      case Selected(name, body) =>
        var (value, world) := h.caught(e, st.world);
        Call(Forms(body, Nil), st.(env := st.env[name := value], world := world),
             AfterCatch(name, Lookup(st.env, name), finals))
  }

  function RestoreState(st: State, saved: Previous): State {
    st.(env := Restore(st.env, saved))
  }

  function AfterRecur(h: Host, patterns: seq<Form>, body: Form, saved: Previous, values: seq<Value>, st: State): Next {
    if |values| != |patterns| then Return(Err("loop recur arity mismatch"), RestoreState(st, saved))
    else
      var (error, st1) := Rebind(h, patterns, values, st);
      if error.Some? then
        Return(Err("loop destructuring failed: " + error.value), RestoreState(st1, saved))
      else Continue(LoopBody(patterns, body, saved), st1)
  }

  function AfterBinding(b: Bound, before: Env, rest: seq<Form>, saved: Previous, scope: Scope): Next {
    if b.error.Some? then Return(Err("destructuring failed: " + b.error.value), b.st)
    else Continue(BindValues(rest, saved + Saved(b.names, before), scope), b.st)
  }

  /** A closure applied to the result it was waiting for. */
  function Apply(h: Host, frame: Frame, r: Outcome, st: State): Next {
    match frame
    case AfterLet(saved) => Return(r, RestoreState(st, saved))
    case AfterLoop(patterns, body, saved) =>
      if r.Ok? && r.value.Recur? then AfterRecur(h, patterns, body, saved, r.value.args, st)
      else Return(r, RestoreState(st, saved))
    case AfterTry(catches, finals) => FinishTry(h, r, catches, finals, st)
    case AfterCatch(name, shadowed, finals) =>
      Finally(r, finals, RestoreState(st, [(name, shadowed)]))
    case AfterFinally(outcome) => Return(if r.Err? then r else outcome, st)
    case AfterCall(env) =>
      Return(if r.Ok? && r.value.Recur? then Err("recur must be inside loop") else r, st.(env := env))
    case _ => if r.Err? then Return(r, st) else ApplyOk(h, frame, r.value, st)
  }

  /** The closures that only pass an error on. */
  predicate PassesErrors(frame: Frame) {
    !frame.AfterLet? && !frame.AfterLoop? && !frame.AfterTry? && !frame.AfterCatch?
    && !frame.AfterFinally? && !frame.AfterCall?
  }

  function ApplyOk(h: Host, frame: Frame, v: Value, st: State): Next
    requires PassesErrors(frame)
  {
    match frame
    case AfterForm(rest) => Continue(Forms(rest, v), st)
    case AfterValue(rest, values, cont) => Continue(Values(rest, values + [v], cont), st)
    case AfterTest(consequent, alternative) =>
      if v.Truthy() then Tail(One(consequent), st)
      else if alternative.Some? then Tail(One(alternative.value), st)
      else Return(Ok(Nil), st)
    case AfterConjunct(rest) => Continue(And(rest, v), st)
    case AfterDisjunct(rest) => if v.Truthy() then Return(Ok(v), st) else Continue(Or(rest, v), st)
    case AfterClause(expression, rest) =>
      if v.Truthy() then Tail(One(expression), st) else Continue(Cond(rest), st)
    case AfterThrow =>
      if v.ExceptionInfo? then
        var (error, world) := h.thrown(v, st.world);
        Return(Err(error), st.(world := world))
      else Return(Err("throw expects an Exception value created by ex"), st)
    case AfterInit(pattern, rest, saved, scope) =>
      AfterBinding(BindPattern(h, pattern, v, st), st.env, rest, saved, scope)
    case AfterDefine(op, name) =>
      var (r, env, world) := h.define(op, name, v, st.env, st.world);
      Return(r, st.(env := env, world := world))
    case AfterReceiver(field, replacement) => Call(One(replacement), st, AfterReplacement(v, field))
    case AfterReplacement(receiver, field) =>
      var (r, world) := h.setField(receiver, field, v, st.world);
      Return(r, st.(world := world))
    case AfterHead(arguments) => Tail(Values(arguments, [], Calling(v)), st)
  }

  // ----- The step machine -----

  /** A configuration of a fiber: running, finished, or suspended on a promise. */
  datatype Config =
    | Running(next: Next, k: Kont)
    | Done(r: Outcome, st: State)
    | Waiting(promise: Promise, st: State, k: Kont)

  function Step(h: Host, c: Config): Config {
    match c
    case Running(Return(r, st), Halt) => Done(r, st)
    case Running(Return(r, st), Then(frame, rest)) => Running(Apply(h, frame, r, st), rest)
    case Running(Tail(task, st), k) => Running(Start(h, task, st), k)
    case Running(Continue(task, st), k) => Running(Start(h, task, st), k)
    case Running(Call(task, st, frame), k) => Running(Start(h, task, st), Then(frame, k))
    case Running(Wait(p, st), k) => Waiting(p, st.(waits := st.waits + [p]), k)
    case _ => c
  }

  /** A suspended fiber receives a promise state. */
  function Resumed(c: Config, state: PromiseState, st: State): Config
    requires c.Waiting?
  {
    Running(Return(Settlement(state), st), c.k)
  }

  /** A step of the fiber together with whoever settles its promises. */
  function Drive(h: Host, c: Config): Config {
    if c.Waiting? then
      var (state, st) := Settle(h, c.promise, c.st);
      Resumed(c, state, st)
    else Step(h, c)
  }

  function Drives(h: Host, n: nat, c: Config): Config {
    if n == 0 then c else Drives(h, n - 1, Drive(h, c))
  }

  /** The configuration a fiber starts in: `forms_cps` over the whole program. */
  function Initial(h: Host, program: seq<Form>, st: State): Config {
    Running(Start(h, Forms(program, Nil), st), Halt)
  }
}
