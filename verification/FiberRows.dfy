/**
 Forms evaluated in a row: arguments, literals and recur run from left to
 right, each in the state the one before has left, up to the first that fails.
 */
module FiberRows {
  import opened Prelude
  import opened FiberData
  import opened FiberDirect
  import opened FiberForms

  // ----- Rows -----

  /** All forms evaluate, one after the other. */
  ghost predicate Yields(h: Host, n: nat, forms: seq<Form>, st: State, values: seq<Value>, last: State) {
    |values| == |forms| < n &&
    exists states :: InARow(h, n, forms, st, values, states) && EndsIn(states, |forms|, last)
  }

  predicate EndsIn(states: seq<State>, k: nat, last: State) { k < |states| && states[k] == last }

  /** The first forms evaluate, and the next one fails. */
  ghost predicate Breaks(h: Host, n: nat, forms: seq<Form>, st: State, error: string, last: State) {
    exists values, states ::
      InARow(h, n, forms, st, values, states) && BreaksAfter(h, n, forms, values, states, error, last)
  }

  predicate BreaksAfter(
    h: Host, n: nat, forms: seq<Form>, values: seq<Value>, states: seq<State>, error: string, last: State)
  {
    var k := |values|;
    k < |forms| && k < n && k < |states| && Eval(h, n - 1 - k, forms[k], states[k]) == Out(Err(error), last)
  }

  lemma YieldsStep(h: Host, n: nat, forms: seq<Form>, st: State, values: seq<Value>, last: State)
    requires n > 0 && forms != [] && values != []
    ensures
      var first := Eval(h, n - 1, forms[0], st);
      Yields(h, n, forms, st, values, last) <==>
      first.Out? && first.r == Ok(values[0]) && Yields(h, n - 1, forms[1..], first.st, values[1..], last)
  {
    hide Eval, InARow;
    var first := Eval(h, n - 1, forms[0], st);
    if Yields(h, n, forms, st, values, last) {
      var states :| InARow(h, n, forms, st, values, states) && EndsIn(states, |forms|, last);
      RowTail(h, n, forms, st, values, states);
      RowShape(h, n - 1, forms[1..], states[1], values[1..], states[1..]);
      assert EndsIn(states[1..], |forms[1..]|, last);
    }
    if first.Out? && first.r == Ok(values[0]) && Yields(h, n - 1, forms[1..], first.st, values[1..], last) {
      var rest :| InARow(h, n - 1, forms[1..], first.st, values[1..], rest) && EndsIn(rest, |forms[1..]|, last);
      RowShape(h, n - 1, forms[1..], first.st, values[1..], rest);
      var states := [st] + rest;
      assert states[1..] == rest;
      RowTail(h, n, forms, st, values, states);
      assert EndsIn(states, |forms|, last);
    }
  }

  lemma BreaksOn(
    h: Host, n: nat, forms: seq<Form>, st: State, values: seq<Value>, states: seq<State>, error: string, last: State)
    requires n > 0 && forms != [] && values != []
    requires InARow(h, n, forms, st, values, states) && BreaksAfter(h, n, forms, values, states, error, last)
    ensures
      var first := Eval(h, n - 1, forms[0], st);
      first.Out? && first.r.Ok? && Breaks(h, n - 1, forms[1..], first.st, error, last)
  {
    hide Eval, InARow;
    RowTail(h, n, forms, st, values, states);
    assert BreaksAfter(h, n - 1, forms[1..], values[1..], states[1..], error, last);
  }

  lemma BreaksBack(h: Host, n: nat, forms: seq<Form>, st: State, error: string, last: State)
    requires n > 0 && forms != []
    requires
      var first := Eval(h, n - 1, forms[0], st);
      first.Out? && first.r.Ok? && Breaks(h, n - 1, forms[1..], first.st, error, last)
    ensures Breaks(h, n, forms, st, error, last)
  {
    var first := Eval(h, n - 1, forms[0], st);
    hide Eval, InARow;
    var values, states :|
      InARow(h, n - 1, forms[1..], first.st, values, states) &&
      BreaksAfter(h, n - 1, forms[1..], values, states, error, last);
    RowShape(h, n - 1, forms[1..], first.st, values, states);
    var vs, ss := [first.r.value] + values, [st] + states;
    assert vs[1..] == values && ss[1..] == states;
    RowTail(h, n, forms, st, vs, ss);
    assert BreaksAfter(h, n, forms, vs, ss, error, last);
  }

  lemma BreaksStep(h: Host, n: nat, forms: seq<Form>, st: State, error: string, last: State)
    requires n > 0 && forms != []
    ensures
      var first := Eval(h, n - 1, forms[0], st);
      Breaks(h, n, forms, st, error, last) <==>
      first == Out(Err(error), last) ||
      (first.Out? && first.r.Ok? && Breaks(h, n - 1, forms[1..], first.st, error, last))
  {
    var first := Eval(h, n - 1, forms[0], st);
    hide Eval;
    if Breaks(h, n, forms, st, error, last) {
      var values, states :|
        InARow(h, n, forms, st, values, states) && BreaksAfter(h, n, forms, values, states, error, last);
      if values != [] { BreaksOn(h, n, forms, st, values, states, error, last); }
    }
    if first == Out(Err(error), last) {
      assert InARow(h, n, forms, st, [], [st]) && BreaksAfter(h, n, forms, [], [st], error, last);
    }
    if first.Out? && first.r.Ok? && Breaks(h, n - 1, forms[1..], first.st, error, last) {
      BreaksBack(h, n, forms, st, error, last);
    }
  }

  lemma NothingInRow(h: Host, n: nat, st: State, values: seq<Value>, error: string, last: State)
    ensures Yields(h, n, [], st, values, last) <==> n > 0 && values == [] && last == st
    ensures !Breaks(h, n, [], st, error, last) && !Breaks(h, 0, [], st, error, last)
  {
    if n > 0 && values == [] && last == st { assert InARow(h, n, [], st, [], [st]); }
  }

  lemma NoBudgetInRow(h: Host, forms: seq<Form>, st: State, values: seq<Value>, error: string, last: State)
    ensures !Yields(h, 0, forms, st, values, last) && !Breaks(h, 0, forms, st, error, last)
  {
  }

  /** A list of forms yields values, or an error, exactly when they do so in a row. */
  lemma {:induction false} AllRun(
    h: Host, n: nat, forms: seq<Form>, st: State, values: seq<Value>, error: string, last: State)
    ensures EvalAll(h, n, forms, st) == OutAll(Ok(values), last) <==> Yields(h, n, forms, st, values, last)
    ensures EvalAll(h, n, forms, st) == OutAll(Err(error), last) <==> Breaks(h, n, forms, st, error, last)
    decreases n
  {
    hide Eval, Yields, Breaks;
    if n == 0 {
      NoBudgetInRow(h, forms, st, values, error, last);
    } else if forms == [] {
      NothingInRow(h, n, st, values, error, last);
    } else {
      var first := Eval(h, n - 1, forms[0], st);
      BreaksStep(h, n, forms, st, error, last);
      if values == [] {
        TooFew(h, n, forms, st, last);
        if first.Out? { AllRun(h, n - 1, forms[1..], first.st, values, error, last); }
      } else {
        YieldsStep(h, n, forms, st, values, last);
        if first.Out? { AllRun(h, n - 1, forms[1..], first.st, values[1..], error, last); }
        assert values == [values[0]] + values[1..];
      }
    }
  }

  lemma TooFew(h: Host, n: nat, forms: seq<Form>, st: State, last: State)
    requires forms != []
    ensures !Yields(h, n, forms, st, [], last)
  {
  }

  // ----- What is made of a row -----

  /** The answer of a row: what is made of its values, or its error. */
  ghost predicate Answers(h: Host, n: nat, forms: seq<Form>, st: State, make: seq<Value> -> Outcome, out: Out) {
    out.Out? &&
    ((exists values :: Yields(h, n, forms, st, values, out.st) && out.r == make(values)) ||
     (out.r.Err? && Breaks(h, n, forms, st, out.r.error, out.st)))
  }

  lemma AllAnswer(h: Host, n: nat, forms: seq<Form>, st: State, make: seq<Value> -> Outcome, out: Out)
    requires out.Out?
    ensures
      var all := EvalAll(h, n, forms, st);
      Answers(h, n, forms, st, make, out) <==>
      all.OutAll? && out == Out(if all.all.Ok? then make(all.all.value) else Err(all.all.error), all.st)
  {
    hide EvalAll, Yields, Breaks;
    var all := EvalAll(h, n, forms, st);
    if all.OutAll? {
      if all.all.Ok? {
        AllRun(h, n, forms, st, all.all.value, "", all.st);
      } else {
        AllRun(h, n, forms, st, [], all.all.error, all.st);
      }
    }
    if values :| Yields(h, n, forms, st, values, out.st) && out.r == make(values) {
      AllRun(h, n, forms, st, values, "", out.st);
    }
    if out.r.Err? { AllRun(h, n, forms, st, [], out.r.error, out.st); }
  }

  /** A vector, set or map literal evaluates its parts in a row and collects their values. */
  lemma LiteralMeans(h: Host, n: nat, form: Form, st: State, out: Out)
    requires n > 0 && h.interrupt(st.world).None? && out.Out? && (form.Vector? || form.SetForm? || form.MapForm?)
    ensures
      var forms := if form.MapForm? then Flatten(form.entries) else form.items;
      var kind := if form.MapForm? then MapLiteral else if form.SetForm? then SetLiteral else VectorLiteral;
      Eval(h, n, form, st) == out <==> Answers(h, n - 1, forms, st, values => h.collect(kind, values), out)
  {
    hide Answers, EvalAll, Flatten;
    var forms := if form.MapForm? then Flatten(form.entries) else form.items;
    var kind := if form.MapForm? then MapLiteral else if form.SetForm? then SetLiteral else VectorLiteral;
    AllAnswer(h, n - 1, forms, st, values => h.collect(kind, values), out);
  }

  /** `(recur ..)` evaluates its forms in a row and answers with a recur of their values. */
  lemma RecurMeans(h: Host, n: nat, forms: seq<Form>, st: State, out: Out)
    requires out.Out?
    ensures
      EvalList(h, n, [Symbol("recur")] + forms, st) == out <==>
      Answers(h, n, forms, st, values => Ok(Recur(values)), out)
  {
    hide Answers, EvalAll;
    assert ([Symbol("recur")] + forms)[1..] == forms;
    AllAnswer(h, n, forms, st, values => Ok(Recur(values)), out);
  }

  // ----- One after the other -----

  /** `(throw x)` evaluates its form and throws the exception it answers with; nothing else can be thrown. */
  lemma ThrowMeans(h: Host, n: nat, form: Form, st: State)
    ensures
      var first := Eval(h, n, form, st);
      var out := EvalList(h, n, [Symbol("throw"), form], st);
      if first.OutOfFuel? || first.r.Err? then out == first
      else if first.r.value.ExceptionInfo? then
        var (error, world) := h.thrown(first.r.value, first.st.world);
        out == Out(Err(error), first.st.(world := world))
      else out == Out(Err("throw expects an Exception value created by ex"), first.st)
  {
    hide Eval;
  }

  /** `(def name x)`, `(var/set name x)` and `(set! name x)` hand the value of the form to the host with the name. */
  lemma DefineMeans(h: Host, n: nat, op: string, name: string, form: Form, st: State)
    requires op == "def" || op == "var/set" || op == "set!"
    ensures
      var first := Eval(h, n, form, st);
      var out := EvalList(h, n, [Symbol(op), Symbol(name), form], st);
      if first.OutOfFuel? || first.r.Err? then out == first
      else
        var (r, env, world) := h.define(op, name, first.r.value, first.st.env, first.st.world);
        out == Out(r, State(env, world, first.st.waits))
  {
    hide Eval;
    var v := [Symbol(op), Symbol(name), form];
    assert Classify(v[0]) == if op == "set!" then SetPlace else DefForm;
    if op == "set!" {
      assert EvalList(h, n, v, st) == EvalSet(h, n, v, st);
      assert EvalSet(h, n, v, st) == EvalDefine(h, n, v, st);
    } else {
      assert EvalList(h, n, v, st) == EvalDefine(h, n, v, st);
    }
  }

  /** `(set! (field r f) x)` evaluates the receiver, then the replacement, and then sets the field. */
  lemma FieldSetMeans(h: Host, n: nat, receiver: Form, field: string, form: Form, st: State)
    requires '/' !in field
    ensures
      var first := Eval(h, n, receiver, st);
      var out := EvalList(h, n, [Symbol("set!"), List([Symbol("field"), receiver, Keyword(field)]), form], st);
      if first.OutOfFuel? || first.r.Err? then out == first
      else
        var second := Eval(h, n, form, first.st);
        if second.OutOfFuel? || second.r.Err? then out == second
        else
          var (r, world) := h.setField(first.r.value, field, second.r.value, second.st.world);
          out == Out(r, second.st.(world := world))
  {
    hide Eval;
  }

  /** A call evaluates its arguments in a row and then calls, or fails as the row does. */
  lemma ArgumentsMean(h: Host, n: nat, callee: Value, forms: seq<Form>, st: State, out: Out)
    requires out.Out?
    ensures EvalArguments(h, n, callee, forms, st) == out <==>
      (exists values, mid :: Yields(h, n, forms, st, values, mid) && EvalCallValue(h, n, callee, values, mid) == out) ||
      (out.r.Err? && Breaks(h, n, forms, st, out.r.error, out.st))
  {
    hide EvalAll, EvalCallValue, Yields, Breaks;
    var all := EvalAll(h, n, forms, st);
    if all.OutAll? {
      if all.all.Ok? {
        AllRun(h, n, forms, st, all.all.value, "", all.st);
      } else {
        AllRun(h, n, forms, st, [], all.all.error, all.st);
      }
    }
    if values, mid :| Yields(h, n, forms, st, values, mid) && EvalCallValue(h, n, callee, values, mid) == out {
      AllRun(h, n, forms, st, values, "", mid);
    }
    if out.r.Err? { AllRun(h, n, forms, st, [], out.r.error, out.st); }
  }

  /** A head that is no symbol is evaluated before the arguments. */
  lemma HeadMeans(h: Host, n: nat, v: seq<Form>, st: State)
    requires v != [] && !v[0].Symbol?
    ensures
      var head := Eval(h, n, v[0], st);
      EvalList(h, n, v, st) ==
        if head.OutOfFuel? || head.r.Err? then head else EvalArguments(h, n, head.r.value, v[1..], head.st)
  {
    hide Eval, EvalArguments;
    assert Classify(v[0]) == Application;
    assert EvalList(h, n, v, st) == EvalApplication(h, n, v, st);
    assert EvalApplication(h, n, v, st) == EvalHead(h, n, v, st);
  }
}
