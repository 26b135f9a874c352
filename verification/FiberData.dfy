/**
 Forms, values and the host interface of the fiber evaluator.

 Everything the evaluator delegates to code outside `fiber.rs` (the synchronous
 `eval`, native calls, destructuring of non-symbol patterns, exception values,
 the promises themselves) is a field of `Host`, so every theorem holds for all
 hosts.  `World` is an opaque token for the state such code keeps.
 */
module FiberData {
  import opened Prelude

  type World = int
  type Promise = int
  type Env = map<string, Value>
  type Outcome = Result<Value, string>
  /** Saved bindings, oldest first: a name and what the environment held for it. */
  type Previous = seq<(string, Option<Value>)>

  datatype Form =
    | Symbol(name: string)
    | Keyword(keyword: string)
    | List(items: seq<Form>)
    | Vector(items: seq<Form>)
    | SetForm(items: seq<Form>)
    | MapForm(entries: seq<(Form, Form)>)
    | Atom(id: int)

  datatype Value =
    | Nil
    | Bool(b: bool)
    | Recur(args: seq<Value>)
    | Function(f: int)
    | ExceptionInfo(exception: int)
    | EmptyList
    | Opaque(token: int)
  {
    predicate Truthy() { this != Nil && this != Bool(false) }
  }

  datatype PromiseState = Pending | Fulfilled(value: Value) | Rejected(error: string)

  datatype Collection = MapLiteral | SetLiteral | VectorLiteral

  /** What a call of a function value amounts to before any evaluation. */
  datatype Entry =
    | Finished(r: Outcome)
    | Awaiting(promise: Promise)
    | Body(forms: seq<Form>, env: Env)

  /** The fiber's state: its environment, the host's state, the promises it has waited on. */
  datatype State = State(env: Env, world: World, waits: seq<Promise>)

  datatype Host = Host(
    interrupt: World -> Option<string>,
    eval: (Form, Env, World) -> (Outcome, Env, World),
    literal: Form -> Outcome,
    collect: (Collection, seq<Value>) -> Outcome,
    destructure: (Form, Value, Env, World) -> (Option<string>, Env, World, seq<string>),
    isMacro: (string, World) -> bool,
    ensureNamespace: (string, Env, World) -> (Option<string>, Env, World),
    bound: (string, Env, World) -> Option<Value>,
    resolveCallable: (Value, World) -> (Outcome, World),
    callValue: (Value, seq<Value>, World) -> (Outcome, World),
    enter: (Value, seq<Value>, World) -> (Entry, World),
    define: (string, string, Value, Env, World) -> (Outcome, Env, World),
    setField: (Value, string, Value, World) -> (Outcome, World),
    thrown: (Value, World) -> (string, World),
    caught: (string, World) -> (Value, World),
    catchMatches: (string, string, World) -> bool,
    wait: (Promise, World, seq<Promise>) -> (PromiseState, World)
  )

  predicate HasSlash(name: string) { '/' in name }

  function SyncEval(h: Host, form: Form, st: State): (Outcome, State) {
    var (r, env, world) := h.eval(form, st.env, st.world);
    (r, st.(env := env, world := world))
  }

  /** The settlement an awaiting call receives: how `Coroutine/await` reads a promise state. */
  function Settlement(state: PromiseState): Outcome {
    match state
    case Fulfilled(v) => Ok(v)
    case Rejected(e) => Err(e)
    case Pending => Err("Coroutine/await resumed pending")
  }

  /** The outside world settles `p`; a first answer of Pending makes the driver ask once more. */
  function Settle(h: Host, p: Promise, st: State): (PromiseState, State) {
    var (first, world) := h.wait(p, st.world, st.waits);
    if first.Pending? then
      var (second, world') := h.wait(p, world, st.waits);
      (second, st.(world := world'))
    else
      (first, st.(world := world))
  }

  datatype Bound = Bound(error: Option<string>, st: State, names: seq<string>)

  /** `bind_pattern`: symbol patterns exactly, other patterns through the host. */
  function BindPattern(h: Host, pattern: Form, value: Value, st: State): Bound {
    match pattern
    case Symbol(name) =>
      if name == "_" then Bound(None, st, [])
      else if HasSlash(name) then Bound(Some("invalid or duplicate binding: " + name), st, [])
      else Bound(None, st.(env := st.env[name := value]), [name])
    case _ =>
      var (error, env, world, names) := h.destructure(pattern, value, st.env, st.world);
      Bound(error, st.(env := env, world := world), names)
  }

  /** The entries `bind_values` records for the names one pattern bound. */
  function Saved(names: seq<string>, before: Env): (r: Previous) {
    if names == [] then [] else [(names[0], Lookup(before, names[0]))] + Saved(names[1..], before)
  }

  /** `restore`: undo the saved bindings, newest first. */
  function Restore(env: Env, saved: Previous): Env
    decreases |saved|
  {
    if saved == [] then env
    else
      var (name, value) := saved[|saved| - 1];
      Restore(match value case Some(v) => env[name := v] case None => env - {name}, saved[..|saved| - 1])
  }

  function Flatten(entries: seq<(Form, Form)>): seq<Form> {
    if entries == [] then [] else [entries[0].0, entries[0].1] + Flatten(entries[1..])
  }

  datatype Special =
    | DoForm | IfForm | AndForm | OrForm | CondForm | LetForm | LoopForm | RecurForm
    | TryForm | ThrowForm | DefForm | SetPlace | SyncForm | Application

  /** How `list` dispatches on the head of a non-empty list form. */
  function Classify(head: Form): Special {
    match head
    case Symbol(n) =>
      if n == "do" then DoForm else if n == "if" then IfForm
      else if n == "and" then AndForm else if n == "or" then OrForm
      else if n == "cond" then CondForm else if n == "let" then LetForm
      else if n == "loop" then LoopForm else if n == "recur" then RecurForm
      else if n == "try" then TryForm else if n == "throw" then ThrowForm
      else if n == "def" || n == "var/set" then DefForm
      else if n == "set!" then SetPlace
      else if n in SyncSpecialForms then SyncForm
      else Application
    case _ => Application
  }

  const SyncSpecialForms: set<string> := {
    ".", "binding", "comment", "declare", "defmacro", "defn", "eval", "field", "fn",
    "intern-var", "letfn", "ns", "ns+", "ns-alias-state", "read-forms", "require",
    "resolve", "syntax-quote", "var"
  }

  predicate IsHead(form: Form, name: string) {
    form.List? && form.items != [] && form.items[0] == Symbol(name)
  }

  predicate IsQuote(items: seq<Form>) {
    |items| == 2 && items[0] == Symbol("quote")
  }

  datatype TryParts = TryParts(body: seq<Form>, catches: seq<seq<Form>>, finals: seq<Form>)

  /** Splits a try form after its head; a body form after the first clause is an error. */
  function SplitTry(forms: seq<Form>, started: bool, parts: TryParts): Result<TryParts, string>
    decreases |forms|
  {
    if forms == [] then Ok(parts)
    else if IsHead(forms[0], "catch") then
      SplitTry(forms[1..], true, parts.(catches := parts.catches + [forms[0].items]))
    else if IsHead(forms[0], "finally") then
      SplitTry(forms[1..], true, parts.(finals := parts.finals + forms[0].items[1..]))
    else if !started then
      SplitTry(forms[1..], false, parts.(body := parts.body + [forms[0]]))
    else Err("try clauses must follow body")
  }

  const NoParts := TryParts([], [], [])

  /** A parsed catch clause: its selector, and where its name and its body stand. */
  datatype Clause = Clause(selector: Option<string>, binding: nat, body: nat)

  predicate IsClass(name: string) { name == "Exception" || name == "Throwable" }

  function JoinSelectors(codes: seq<Form>): string
    requires forall code <- codes :: code.Keyword?
  {
    if codes == [] then ""
    else if |codes| == 1 then ":" + codes[0].keyword
    else ":" + codes[0].keyword + "," + JoinSelectors(codes[1..])
  }

  const BadSelector :=
    "catch selector must be a namespaced keyword, a non-empty vector of namespaced keywords, or omitted"

  function ParseCatch(p: seq<Form>): (r: Result<Clause, string>)
    ensures r.Ok? ==> r.value.binding < |p| && r.value.body <= |p| && p[r.value.binding].Symbol?
  {
    if |p| == 3 && p[1].Symbol? && !IsClass(p[1].name) then Ok(Clause(None, 1, 2))
    else if |p| >= 3 && p[1].Symbol? && !IsClass(p[1].name) && !p[2].Symbol? then Ok(Clause(None, 1, 2))
    else if |p| >= 4 && p[1].Symbol? && p[2].Symbol? then Ok(Clause(Some(p[1].name), 2, 3))
    else if |p| >= 4 && p[1].Keyword? && p[2].Symbol? && HasSlash(p[1].keyword) then
      Ok(Clause(Some(":" + p[1].keyword), 2, 3))
    else if |p| >= 4 && p[1].Vector? && p[2].Symbol? && p[1].items != []
            && (forall code <- p[1].items :: code.Keyword? && HasSlash(code.keyword)) then
      Ok(Clause(Some("[" + JoinSelectors(p[1].items) + "]"), 2, 3))
    else Err(BadSelector)
  }

  datatype Selection =
    | NoClause
    | Malformed(error: string)
    | Selected(name: string, body: seq<Form>)

  /** The clause search of `finish_try`; a malformed clause met on the way ends the search. */
  function SelectCatch(h: Host, catches: seq<seq<Form>>, error: string, world: World): Selection {
    if catches == [] then NoClause
    else
      match ParseCatch(catches[0])
      case Err(e) => Malformed(e)
      case Ok(clause) =>
        if clause.selector.None? || h.catchMatches(error, clause.selector.value, world) then
          Selected(catches[0][clause.binding].name, catches[0][clause.body..])
        else SelectCatch(h, catches[1..], error, world)
  }

  /** The binding vector of a let or loop form. */
  function Bindings(items: seq<Form>, op: string): (r: Result<seq<Form>, string>)
    ensures r.Ok? ==> |r.value| % 2 == 0
  {
    if |items| > 1 && (items[1].List? || items[1].Vector?) then
      if |items[1].items| % 2 != 0 then Err(op + " bindings require name/value pairs")
      else Ok(items[1].items)
    else Err(op + " expects bindings")
  }

  function Patterns(bindings: seq<Form>): seq<Form>
    requires |bindings| % 2 == 0
  {
    if bindings == [] then [] else [bindings[0]] + Patterns(bindings[2..])
  }

  function ScopeBody(items: seq<Form>): Form
    requires |items| >= 3
  {
    if |items| == 3 then items[2] else List([Symbol("do")] + items[2..])
  }

  /** The field named by a `(field receiver name)` place, or why the place is refused. */
  function FieldPlace(place: Form): (r: Result<(Form, string), string>) {
    if !IsHead(place, "field") then Err("set! expects a name symbol or field place")
    else if |place.items| != 3 then Err("set! field place expects a receiver and field")
    else
      match place.items[2]
      case Keyword(f) =>
        if HasSlash(f) then Err("set! field place expects an unqualified literal field")
        else Ok((place.items[1], f))
      case Symbol(f) =>
        if HasSlash(f) then Err("set! field place expects an unqualified literal field")
        else Ok((place.items[1], f))
      case _ => Err("set! field place expects an unqualified literal field")
  }

  /** Rebinding a loop's patterns to the values of a recur. */
  function Rebind(h: Host, patterns: seq<Form>, values: seq<Value>, st: State): (Option<string>, State)
    requires |patterns| == |values|
  {
    if patterns == [] then (None, st)
    else
      var b := BindPattern(h, patterns[0], values[0], st);
      if b.error.Some? then (b.error, b.st)
      else Rebind(h, patterns[1..], values[1..], b.st)
  }
}
