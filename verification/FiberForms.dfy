/**
 What the special forms mean, in terms of the values of their parts.  Nothing
 here names the evaluator's own test for truth or its helpers for the forms:
 each form is given by the evaluations it makes and by which of them answers.
 */
module FiberForms {
  import opened Prelude
  import opened FiberData
  import opened FiberDirect

  /** The two values that count as false. */
  predicate Fails(v: Value) { v == Nil || v == Bool(false) }

  // ----- if -----

  /** `(if t a b)` and `(if t a)`: the test decides, and nothing else is evaluated. */
  lemma IfMeans(h: Host, n: nat, v: seq<Form>, st: State)
    requires v != [] && v[0] == Symbol("if")
    ensures |v| != 3 && |v| != 4 ==> EvalList(h, n, v, st) == Out(Err("if expects 2 or 3 arguments"), st)
    ensures |v| == 3 || |v| == 4 ==>
      var test := Eval(h, n, v[1], st);
      EvalList(h, n, v, st) ==
        if test.OutOfFuel? || test.r.Err? then test
        else if !Fails(test.r.value) then Eval(h, n, v[2], test.st)
        else if |v| == 4 then Eval(h, n, v[3], test.st)
        else Out(Ok(Nil), test.st)
  {
    hide Eval;
    assert Classify(v[0]) == IfForm;
  }

  // ----- Evaluations in a row -----

  /** The first `|values|` forms evaluate to `values`, one after the other, through `states`. */
  predicate InARow(h: Host, n: nat, forms: seq<Form>, st: State, values: seq<Value>, states: seq<State>) {
    && |values| <= |forms| && |values| <= n && |states| == |values| + 1 && states[0] == st
    && forall i :: 0 <= i < |values| ==> Eval(h, n - 1 - i, forms[i], states[i]) == Out(Ok(values[i]), states[i + 1])
  }

  /** The answer after some values: the last of them, or the error of the next form. */
  predicate Ends(
    h: Host, n: nat, forms: seq<Form>, start: Value, stopped: bool, values: seq<Value>, states: seq<State>, out: Out)
    requires |states| == |values| + 1
  {
    var k := |values|;
    if stopped || k >= |forms| then out == Out(Ok(if k == 0 then start else values[k - 1]), states[k])
    else k < n && out.Out? && out.r.Err? && Eval(h, n - 1 - k, forms[k], states[k]) == out
  }

  /**
   Forms evaluated one after the other until one fails, a value says stop, or
   none is left.  A budget that ends there is enough if the stopping value is
   answered at once.
   */
  ghost predicate Until(
    h: Host, n: nat, forms: seq<Form>, start: Value, stop: Value -> bool, atOnce: bool, st: State, out: Out)
  {
    exists values, states ::
      InARow(h, n, forms, st, values, states) && StopsAt(h, n, forms, start, stop, atOnce, values, states, out)
  }

  predicate StopsAt(
    h: Host, n: nat, forms: seq<Form>, start: Value, stop: Value -> bool, atOnce: bool,
    values: seq<Value>, states: seq<State>, out: Out)
    requires |states| == |values| + 1
  {
    var k := |values|;
    var stopped := k > 0 && stop(values[k - 1]);
    && (forall i :: 0 <= i < k - 1 ==> !stop(values[i]))
    && (k < n || (atOnce && stopped))
    && Ends(h, n, forms, start, stopped, values, states, out)
  }

  /** A row of evaluations from its second form on. */
  lemma RowTail(h: Host, n: nat, forms: seq<Form>, st: State, values: seq<Value>, states: seq<State>)
    requires forms != [] && values != []
    ensures InARow(h, n, forms, st, values, states) <==>
      && n > 0 && |states| >= 2 && states[0] == st && Eval(h, n - 1, forms[0], st) == Out(Ok(values[0]), states[1])
      && InARow(h, n - 1, forms[1..], states[1], values[1..], states[1..])
  {
    hide Eval;
    if InARow(h, n, forms, st, values, states) {
      forall i | 0 <= i < |values| - 1
        ensures Eval(h, n - 2 - i, forms[1..][i], states[1..][i]) == Out(Ok(values[1..][i]), states[1..][i + 1])
      {
        assert Eval(h, n - 1 - (i + 1), forms[i + 1], states[i + 1]) == Out(Ok(values[i + 1]), states[i + 2]);
      }
    }
    if n > 0 && |states| >= 2 && InARow(h, n - 1, forms[1..], states[1], values[1..], states[1..]) {
      forall i | 0 < i < |values|
        ensures Eval(h, n - 1 - i, forms[i], states[i]) == Out(Ok(values[i]), states[i + 1])
      {
        assert forms[1..][i - 1] == forms[i] && states[1..][i - 1] == states[i] && values[1..][i - 1] == values[i];
        assert states[1..][i] == states[i + 1];
      }
    }
  }

  /** What is left to do after the first form. */
  ghost predicate After(
    h: Host, n: nat, forms: seq<Form>, stop: Value -> bool, atOnce: bool, first: Out, out: Out)
    requires n > 0 && forms != []
  {
    if first.OutOfFuel? then false
    else if first.r.Err? then out == first
    else if stop(first.r.value) then out == first && (atOnce || n > 1)
    else Until(h, n - 1, forms[1..], first.r.value, stop, atOnce, first.st, out)
  }

  lemma StepOn(
    h: Host, n: nat, forms: seq<Form>, start: Value, stop: Value -> bool, atOnce: bool, st: State, out: Out)
    requires n > 0 && forms != [] && out.Out?
    requires After(h, n, forms, stop, atOnce, Eval(h, n - 1, forms[0], st), out)
    ensures Until(h, n, forms, start, stop, atOnce, st, out)
  {
    hide Eval;
    var first := Eval(h, n - 1, forms[0], st);
    if first.r.Err? {
      assert InARow(h, n, forms, st, [], [st]) && StopsAt(h, n, forms, start, stop, atOnce, [], [st], out);
    } else if stop(first.r.value) {
      var values, states := [first.r.value], [st, first.st];
      assert InARow(h, n, forms, st, values, states);
      assert StopsAt(h, n, forms, start, stop, atOnce, values, states, out);
    } else {
      var rest, next :| InARow(h, n - 1, forms[1..], first.st, rest, next)
        && StopsAt(h, n - 1, forms[1..], first.r.value, stop, atOnce, rest, next, out);
      var values, states := [first.r.value] + rest, [st] + next;
      assert values[1..] == rest && states[1..] == next;
      RowTail(h, n, forms, st, values, states);
      StopsLater(h, n, forms, start, stop, atOnce, values, states, out);
    }
  }

  lemma StepBack(
    h: Host, n: nat, forms: seq<Form>, start: Value, stop: Value -> bool, atOnce: bool, st: State, out: Out)
    requires n > 0 && forms != [] && Until(h, n, forms, start, stop, atOnce, st, out)
    ensures After(h, n, forms, stop, atOnce, Eval(h, n - 1, forms[0], st), out)
  {
    hide Eval;
    var values, states :| InARow(h, n, forms, st, values, states)
      && StopsAt(h, n, forms, start, stop, atOnce, values, states, out);
    if values != [] {
      RowTail(h, n, forms, st, values, states);
      if !stop(values[0]) {
        StopsLater(h, n, forms, start, stop, atOnce, values, states, out);
      }
    }
  }

  /** Stopping after some values is stopping after all but the first of them, from the second form on. */
  lemma StopsLater(
    h: Host, n: nat, forms: seq<Form>, start: Value, stop: Value -> bool, atOnce: bool,
    values: seq<Value>, states: seq<State>, out: Out)
    requires n > 0 && forms != [] && values != [] && |states| == |values| + 1 && !stop(values[0])
    ensures StopsAt(h, n, forms, start, stop, atOnce, values, states, out)
       <==> StopsAt(h, n - 1, forms[1..], values[0], stop, atOnce, values[1..], states[1..], out)
  {
    hide Eval;
    var rest := values[1..];
    assert |values| > 1 ==> rest[|rest| - 1] == values[|values| - 1];
    assert (forall i :: 0 <= i < |values| - 1 ==> !stop(values[i]))
      <==> (forall i :: 0 <= i < |rest| - 1 ==> !stop(rest[i])) by {
      assert forall i :: 0 <= i < |rest| ==> rest[i] == values[i + 1];
      assert forall i :: 0 < i < |values| ==> values[i] == rest[i - 1];
    }
  }

  lemma NothingLeft(h: Host, n: nat, start: Value, stop: Value -> bool, atOnce: bool, st: State, out: Out)
    ensures Until(h, n, [], start, stop, atOnce, st, out) <==> n > 0 && out == Out(Ok(start), st)
  {
    hide Eval;
    if n > 0 && out == Out(Ok(start), st) {
      assert InARow(h, n, [], st, [], [st]) && StopsAt(h, n, [], start, stop, atOnce, [], [st], out);
    }
  }

  lemma UntilStep(
    h: Host, n: nat, forms: seq<Form>, start: Value, stop: Value -> bool, atOnce: bool, st: State, out: Out)
    requires out.Out?
    ensures n == 0 ==> !Until(h, n, forms, start, stop, atOnce, st, out)
    ensures n > 0 && forms == [] ==> (Until(h, n, forms, start, stop, atOnce, st, out) <==> out == Out(Ok(start), st))
    ensures n > 0 && forms != [] ==>
      (Until(h, n, forms, start, stop, atOnce, st, out)
       <==> After(h, n, forms, stop, atOnce, Eval(h, n - 1, forms[0], st), out))
  {
    hide Eval, Until, After;
    if n == 0 {
      NoBudget(h, forms, start, stop, atOnce, st, out);
    } else if forms == [] {
      NothingLeft(h, n, start, stop, atOnce, st, out);
    } else {
      if Until(h, n, forms, start, stop, atOnce, st, out) { StepBack(h, n, forms, start, stop, atOnce, st, out); }
      if After(h, n, forms, stop, atOnce, Eval(h, n - 1, forms[0], st), out) {
        StepOn(h, n, forms, start, stop, atOnce, st, out);
      }
    }
  }

  lemma NoBudget(h: Host, forms: seq<Form>, start: Value, stop: Value -> bool, atOnce: bool, st: State, out: Out)
    ensures !Until(h, 0, forms, start, stop, atOnce, st, out)
  {
  }

  // ----- do, and, or -----

  function Recurs(v: Value): bool { v.Recur? }

  function Passes(v: Value): bool { !Fails(v) }

  function Failing(v: Value): bool { Fails(v) }

  lemma {:induction false} BodyRuns(h: Host, n: nat, forms: seq<Form>, last: Value, st: State, out: Out)
    requires out.Out? && !last.Recur?
    ensures EvalBody(h, n, forms, last, st) == out <==> Until(h, n, forms, last, Recurs, false, st, out)
    decreases n
  {
    hide Eval, Until;
    UntilStep(h, n, forms, last, Recurs, false, st, out);
    if n > 0 && forms != [] {
      var first := Eval(h, n - 1, forms[0], st);
      if first.Out? && first.r.Ok? && !first.r.value.Recur? {
        BodyRuns(h, n - 1, forms[1..], first.r.value, first.st, out);
      }
    }
  }

  lemma {:induction false} AndRuns(h: Host, n: nat, forms: seq<Form>, last: Value, st: State, out: Out)
    requires out.Out? && !Fails(last)
    ensures EvalAnd(h, n, forms, last, st) == out <==> Until(h, n, forms, last, Failing, false, st, out)
    decreases n
  {
    hide Eval, Until;
    UntilStep(h, n, forms, last, Failing, false, st, out);
    if n > 0 && forms != [] {
      var first := Eval(h, n - 1, forms[0], st);
      if first.Out? && first.r.Ok? && !Fails(first.r.value) {
        AndRuns(h, n - 1, forms[1..], first.r.value, first.st, out);
      }
    }
  }

  lemma {:induction false} OrRuns(h: Host, n: nat, forms: seq<Form>, last: Value, st: State, out: Out)
    requires out.Out?
    ensures EvalOr(h, n, forms, last, st) == out <==> Until(h, n, forms, last, Passes, true, st, out)
    decreases n
  {
    hide Eval, Until;
    UntilStep(h, n, forms, last, Passes, true, st, out);
    if n > 0 && forms != [] {
      var first := Eval(h, n - 1, forms[0], st);
      if first.Out? && first.r.Ok? && Fails(first.r.value) {
        OrRuns(h, n - 1, forms[1..], first.r.value, first.st, out);
      }
    }
  }

  /** `(do ..)` answers its last value, nil if there is none, or a recur as soon as one comes up. */
  lemma DoMeans(h: Host, n: nat, forms: seq<Form>, st: State, out: Out)
    requires out.Out?
    ensures EvalList(h, n, [Symbol("do")] + forms, st) == out <==> Until(h, n, forms, Nil, Recurs, false, st, out)
  {
    hide EvalBody, Until;
    assert ([Symbol("do")] + forms)[1..] == forms;
    BodyRuns(h, n, forms, Nil, st, out);
  }

  /** `(and ..)` answers the first value that counts as false, or the last, or true if there is none. */
  lemma AndMeans(h: Host, n: nat, forms: seq<Form>, st: State, out: Out)
    requires out.Out?
    ensures EvalList(h, n, [Symbol("and")] + forms, st) == out
       <==> Until(h, n, forms, Bool(true), Failing, false, st, out)
  {
    hide EvalAnd, Until;
    assert ([Symbol("and")] + forms)[1..] == forms;
    AndRuns(h, n, forms, Bool(true), st, out);
  }

  /** `(or ..)` answers the first value that does not, or the last, or nil if there is none. */
  lemma OrMeans(h: Host, n: nat, forms: seq<Form>, st: State, out: Out)
    requires out.Out?
    ensures EvalList(h, n, [Symbol("or")] + forms, st) == out <==> Until(h, n, forms, Nil, Passes, true, st, out)
  {
    hide EvalOr, Until;
    assert ([Symbol("or")] + forms)[1..] == forms;
    OrRuns(h, n, forms, Nil, st, out);
  }

  // ----- cond -----

  /** The tests of a cond's clauses: every second form, from the first on. */
  function Tests(clauses: seq<Form>): (r: seq<Form>)
    ensures |r| == |clauses| / 2
  {
    seq(|clauses| / 2, i requires 0 <= i < |clauses| / 2 => clauses[2 * i])
  }

  /** Tests that count as false up to one that does not, whose expression answers; nil if all do. */
  predicate ChoosesAfter(
    h: Host, n: nat, clauses: seq<Form>, values: seq<Value>, states: seq<State>, out: Out)
    requires |states| == |values| + 1 && |values| <= |clauses| / 2
  {
    var k := |values|;
    && k < n && (forall i :: 0 <= i < k ==> Fails(values[i]))
    && if k == |clauses| / 2 then out == Out(Ok(Nil), states[k])
       else
         var test := Eval(h, n - 1 - k, clauses[2 * k], states[k]);
         && test.Out?
         && if test.r.Err? then out == test
            else !Fails(test.r.value) && Eval(h, n - 1 - k, clauses[2 * k + 1], test.st) == out
  }

  ghost predicate Chooses(h: Host, n: nat, clauses: seq<Form>, st: State, out: Out) {
    exists values, states ::
      InARow(h, n, Tests(clauses), st, values, states) && ChoosesAfter(h, n, clauses, values, states, out)
  }

  /** The choice after the first clause. */
  lemma ChoosesLater(h: Host, n: nat, clauses: seq<Form>, values: seq<Value>, states: seq<State>, out: Out)
    requires n > 0 && values != [] && |states| == |values| + 1 && |values| <= |clauses| / 2
    ensures ChoosesAfter(h, n, clauses, values, states, out)
       <==> Fails(values[0]) && ChoosesAfter(h, n - 1, clauses[2..], values[1..], states[1..], out)
  {
    hide Eval;
    var rest, k := values[1..], |values|;
    assert (forall i :: 0 <= i < k ==> Fails(values[i]))
      <==> Fails(values[0]) && (forall i :: 0 <= i < k - 1 ==> Fails(rest[i])) by {
      assert forall i :: 0 <= i < k - 1 ==> rest[i] == values[i + 1];
      assert forall i :: 0 < i < k ==> values[i] == rest[i - 1];
    }
    assert states[1..][k - 1] == states[k];
    if k < |clauses| / 2 {
      assert clauses[2..][2 * (k - 1)] == clauses[2 * k] && clauses[2..][2 * (k - 1) + 1] == clauses[2 * k + 1];
    }
  }

  lemma TestsTail(clauses: seq<Form>)
    requires |clauses| >= 2
    ensures Tests(clauses)[1..] == Tests(clauses[2..]) && Tests(clauses)[0] == clauses[0]
  {
  }

  /** The clauses after a first test that counts as false. */
  lemma ChoosesTail(h: Host, n: nat, clauses: seq<Form>, st: State, out: Out)
    requires n > 0 && |clauses| >= 2
    requires var test := Eval(h, n - 1, clauses[0], st); test.Out? && test.r.Ok? && Fails(test.r.value)
    ensures Chooses(h, n, clauses, st, out) <==> Chooses(h, n - 1, clauses[2..], Eval(h, n - 1, clauses[0], st).st, out)
  {
    hide Eval, Tests, ChoosesAfter;
    var test := Eval(h, n - 1, clauses[0], st);
    TestsTail(clauses);
    if Chooses(h, n, clauses, st, out) {
      var values, states :|
        InARow(h, n, Tests(clauses), st, values, states) && ChoosesAfter(h, n, clauses, values, states, out);
      NotAtFirst(h, n, clauses, st, values, states, out);
      RowTail(h, n, Tests(clauses), st, values, states);
      ChoosesLater(h, n, clauses, values, states, out);
    }
    if Chooses(h, n - 1, clauses[2..], test.st, out) {
      var rest, next :|
        && InARow(h, n - 1, Tests(clauses[2..]), test.st, rest, next)
        && ChoosesAfter(h, n - 1, clauses[2..], rest, next, out);
      var values, states := [test.r.value] + rest, [st] + next;
      assert values[1..] == rest && states[1..] == next;
      RowShape(h, n - 1, Tests(clauses[2..]), test.st, rest, next);
      RowTail(h, n, Tests(clauses), st, values, states);
      ChoosesLater(h, n, clauses, values, states, out);
    }
  }

  lemma RowShape(h: Host, n: nat, forms: seq<Form>, st: State, values: seq<Value>, states: seq<State>)
    requires InARow(h, n, forms, st, values, states)
    ensures |values| <= |forms| && |states| == |values| + 1 && states[0] == st
  {
  }

  lemma NotAtFirst(
    h: Host, n: nat, clauses: seq<Form>, st: State, values: seq<Value>, states: seq<State>, out: Out)
    requires n > 0 && |clauses| >= 2 && InARow(h, n, Tests(clauses), st, values, states)
    requires ChoosesAfter(h, n, clauses, values, states, out)
    requires var test := Eval(h, n - 1, clauses[0], st); test.Out? && test.r.Ok? && Fails(test.r.value)
    ensures values != []
  {
    hide Eval;
  }

  /** A first clause that decides: no budget, no clauses, an error, or a test that does not count as false. */
  lemma ChoosesFirst(h: Host, n: nat, clauses: seq<Form>, st: State, out: Out)
    requires out.Out?
    ensures n == 0 ==> !Chooses(h, n, clauses, st, out)
    ensures n > 0 && |clauses| < 2 ==> (Chooses(h, n, clauses, st, out) <==> out == Out(Ok(Nil), st))
    ensures n > 0 && |clauses| >= 2 ==>
      var test := Eval(h, n - 1, clauses[0], st);
      && (test.OutOfFuel? ==> !Chooses(h, n, clauses, st, out))
      && (test.Out? && test.r.Err? ==> (Chooses(h, n, clauses, st, out) <==> out == test))
      && (test.Out? && test.r.Ok? && !Fails(test.r.value) ==>
            (Chooses(h, n, clauses, st, out) <==> Eval(h, n - 1, clauses[1], test.st) == out))
  {
    hide Eval;
    if n > 0 && ChoosesAfter(h, n, clauses, [], [st], out) {
      assert InARow(h, n, Tests(clauses), st, [], [st]);
      assert Chooses(h, n, clauses, st, out);
    }
    if Chooses(h, n, clauses, st, out) {
      var values, states :|
        InARow(h, n, Tests(clauses), st, values, states) && ChoosesAfter(h, n, clauses, values, states, out);
      if values != [] { assert Eval(h, n - 1, Tests(clauses)[0], st) == Out(Ok(values[0]), states[1]); }
    }
  }

  lemma {:induction false} CondRuns(h: Host, n: nat, clauses: seq<Form>, st: State, out: Out)
    requires out.Out?
    ensures EvalCond(h, n, clauses, st) == out <==> Chooses(h, n, clauses, st, out)
    decreases n
  {
    hide Eval, Chooses;
    ChoosesFirst(h, n, clauses, st, out);
    if n > 0 && |clauses| >= 2 {
      var test := Eval(h, n - 1, clauses[0], st);
      if test.Out? && test.r.Ok? && Fails(test.r.value) {
        ChoosesTail(h, n, clauses, st, out);
        CondRuns(h, n - 1, clauses[2..], test.st, out);
      }
    }
  }

  /** `(cond t a ..)` answers the expression of the first clause whose test does not count as false. */
  lemma CondMeans(h: Host, n: nat, clauses: seq<Form>, st: State, out: Out)
    requires out.Out?
    ensures EvalList(h, n, [Symbol("cond")] + clauses, st) == out <==>
      if |clauses| % 2 != 0 then out == Out(Err("cond expects test/expression pairs"), st)
      else Chooses(h, n, clauses, st, out)
  {
    hide EvalCond, Chooses;
    assert ([Symbol("cond")] + clauses)[1..] == clauses;
    CondRuns(h, n, clauses, st, out);
  }
}
