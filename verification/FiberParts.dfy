/**
 Laws of the pieces that the step machine and the direct evaluator have in
 common: how forms are told apart and taken apart, how names are bound, how a
 loop goes round and what an awaited promise answers.
 */
module FiberParts {
  import opened Prelude
  import opened FiberData
  import opened FiberDirect

  // ----- Heads -----

  /** The head symbols of each special form; every other list is an application. */
  function HeadsOf(form: Special): set<string> {
    match form
    case DoForm => {"do"}
    case IfForm => {"if"}
    case AndForm => {"and"}
    case OrForm => {"or"}
    case CondForm => {"cond"}
    case LetForm => {"let"}
    case LoopForm => {"loop"}
    case RecurForm => {"recur"}
    case TryForm => {"try"}
    case ThrowForm => {"throw"}
    case DefForm => {"def", "var/set"}
    case SetPlace => {"set!"}
    case SyncForm => {
      ".", "binding", "comment", "declare", "defmacro", "defn", "eval", "field", "fn",
      "intern-var", "letfn", "ns", "ns+", "ns-alias-state", "read-forms", "require",
      "resolve", "syntax-quote", "var"
    }
    case Application => {}
  }

  /** A form is special exactly by its head symbol, and no symbol heads two of them. */
  lemma HeadDecides(head: Form, form: Special)
    requires form != Application
    ensures Classify(head) == form <==> head.Symbol? && head.name in HeadsOf(form)
  {
  }

  // ----- Map literals -----

  /** A map literal's keys and values are evaluated in the order they are written. */
  lemma {:induction false} FlattenAlternates(entries: seq<(Form, Form)>)
    ensures |Flatten(entries)| == 2 * |entries|
    ensures forall i :: 0 <= i < |entries| ==>
      Flatten(entries)[2 * i] == entries[i].0 && Flatten(entries)[2 * i + 1] == entries[i].1
  {
    if entries != [] {
      FlattenAlternates(entries[1..]);
      forall i | 0 < i < |entries|
        ensures Flatten(entries)[2 * i] == entries[i].0 && Flatten(entries)[2 * i + 1] == entries[i].1
      {
        assert entries[1..][i - 1] == entries[i];
        assert Flatten(entries)[2 * i] == Flatten(entries[1..])[2 * (i - 1)];
        assert Flatten(entries)[2 * i + 1] == Flatten(entries[1..])[2 * (i - 1) + 1];
      }
    }
  }

  // ----- try -----

  predicate OnlyClauses(forms: seq<Form>) { forall form <- forms :: IsClause(form) }

  predicate IsClause(form: Form) { IsHead(form, "catch") || IsHead(form, "finally") }

  /** Where the clauses of a try begin. */
  function ClausesFrom(forms: seq<Form>): (k: nat)
    ensures k <= |forms| && (forall i :: 0 <= i < k ==> !IsClause(forms[i])) && (k < |forms| ==> IsClause(forms[k]))
  {
    if forms == [] || IsClause(forms[0]) then 0 else 1 + ClausesFrom(forms[1..])
  }

  function CatchIn(form: Form): seq<seq<Form>> { if IsHead(form, "catch") then [form.items] else [] }

  function FinalIn(form: Form): seq<Form> { if IsHead(form, "finally") then form.items[1..] else [] }

  /** The catch clauses among some forms, in order. */
  function Catches(forms: seq<Form>): seq<seq<Form>> {
    if forms == [] then [] else Catches(forms[..|forms| - 1]) + CatchIn(forms[|forms| - 1])
  }

  /** All forms of the finally clauses among some forms, in order. */
  function Finals(forms: seq<Form>): seq<Form> {
    if forms == [] then [] else Finals(forms[..|forms| - 1]) + FinalIn(forms[|forms| - 1])
  }

  /**
   A try is a body of forms that are no clauses, then clauses only.  The catches
   are the catch clauses in order; the forms of all finally clauses are run
   together.
   */
  lemma TrySplits(forms: seq<Form>)
    ensures
      var k := ClausesFrom(forms);
      SplitTry(forms, false, NoParts) ==
        if OnlyClauses(forms[k..]) then Ok(TryParts(forms[..k], Catches(forms[k..]), Finals(forms[k..])))
        else Err("try clauses must follow body")
  {
    hide SplitTry, Catches, Finals, IsClause, ClausesFrom, OnlyClauses;
    var k := ClausesFrom(forms);
    NoClauses();
    BodySplits(forms, NoParts);
    assert NoParts.body + forms[..k] == forms[..k];
    if k < |forms| {
      var rest := forms[k..];
      ClausesSplit(rest, NoParts.(body := forms[..k]));
      assert NoParts.catches + Catches(rest) == Catches(rest) && NoParts.finals + Finals(rest) == Finals(rest);
    } else {
      assert forms[..k] == forms && forms[k..] == [];
    }
  }

  lemma NoClauses()
    ensures Catches([]) == [] && Finals([]) == [] && OnlyClauses([])
  {
  }

  lemma {:induction false} BodySplits(forms: seq<Form>, parts: TryParts)
    ensures
      var k := ClausesFrom(forms);
      SplitTry(forms, false, parts) ==
        if k == |forms| then Ok(parts.(body := parts.body + forms))
        else SplitTry(forms[k..], true, parts.(body := parts.body + forms[..k]))
    decreases |forms|
  {
    if forms == [] {
      assert parts.body + forms == parts.body;
    } else if IsClause(forms[0]) {
      assert forms[0..] == forms && parts.body + forms[..0] == parts.body;
    } else {
      var more, k := parts.(body := parts.body + [forms[0]]), ClausesFrom(forms[1..]);
      BodySplits(forms[1..], more);
      assert more.body + forms[1..] == parts.body + forms;
      assert more.body + forms[1..][..k] == parts.body + forms[..k + 1];
      assert forms[1..][k..] == forms[k + 1..];
    }
  }

  /** The parts after one more clause. */
  function WithClause(parts: TryParts, form: Form): TryParts {
    parts.(catches := parts.catches + CatchIn(form), finals := parts.finals + FinalIn(form))
  }

  lemma OneClause(forms: seq<Form>, parts: TryParts)
    requires forms != []
    ensures SplitTry(forms, true, parts) ==
      if IsClause(forms[0]) then SplitTry(forms[1..], true, WithClause(parts, forms[0]))
      else Err("try clauses must follow body")
  {
    var first := forms[0];
    assert parts.catches + [] == parts.catches && parts.finals + [] == parts.finals;
  }

  lemma {:induction false} ClausesSplit(forms: seq<Form>, parts: TryParts)
    ensures SplitTry(forms, true, parts) ==
      if OnlyClauses(forms)
      then Ok(parts.(catches := parts.catches + Catches(forms), finals := parts.finals + Finals(forms)))
      else Err("try clauses must follow body")
    decreases |forms|
  {
    if forms == [] {
      assert parts.catches + Catches(forms) == parts.catches && parts.finals + Finals(forms) == parts.finals;
    } else {
      hide IsClause, Catches, Finals, CatchIn, FinalIn, SplitTry, OnlyClauses;
      var first, rest := forms[0], forms[1..];
      OneClause(forms, parts);
      FirstOnly(forms);
      if IsClause(first) {
        ClausesSplit(rest, WithClause(parts, first));
        FirstClause(forms);
        assert parts.catches + CatchIn(first) + Catches(rest) == parts.catches + Catches(forms);
        assert parts.finals + FinalIn(first) + Finals(rest) == parts.finals + Finals(forms);
      }
    }
  }

  lemma FirstOnly(forms: seq<Form>)
    requires forms != []
    ensures OnlyClauses(forms) <==> IsClause(forms[0]) && OnlyClauses(forms[1..])
  {
    hide IsClause;
    assert forms == [forms[0]] + forms[1..];
  }

  lemma FirstClause(forms: seq<Form>)
    requires forms != []
    ensures Catches(forms) == CatchIn(forms[0]) + Catches(forms[1..])
    ensures Finals(forms) == FinalIn(forms[0]) + Finals(forms[1..])
  {
    hide Catches, Finals, CatchIn, FinalIn;
    FirstCatch(forms);
    FirstFinal(forms);
  }

  lemma {:induction false} FirstCatch(forms: seq<Form>)
    requires forms != []
    ensures Catches(forms) == CatchIn(forms[0]) + Catches(forms[1..])
    decreases |forms|
  {
    hide CatchIn, Catches;
    var front, last := forms[..|forms| - 1], forms[|forms| - 1];
    LastCatch(forms);
    if |forms| == 1 {
      NoClauses();
      assert front == [] && forms[1..] == [];
    } else {
      FirstCatch(front);
      LastCatch(forms[1..]);
      assert front[1..] == forms[1..][..|forms| - 2];
      assert CatchIn(forms[0]) + Catches(front[1..]) + CatchIn(last) ==
             CatchIn(forms[0]) + (Catches(front[1..]) + CatchIn(last));
    }
  }

  lemma LastCatch(forms: seq<Form>)
    requires forms != []
    ensures Catches(forms) == Catches(forms[..|forms| - 1]) + CatchIn(forms[|forms| - 1])
  {
  }

  lemma {:induction false} FirstFinal(forms: seq<Form>)
    requires forms != []
    ensures Finals(forms) == FinalIn(forms[0]) + Finals(forms[1..])
    decreases |forms|
  {
    hide FinalIn, Finals;
    var front, last := forms[..|forms| - 1], forms[|forms| - 1];
    LastFinal(forms);
    if |forms| == 1 {
      NoClauses();
      assert front == [] && forms[1..] == [];
    } else {
      FirstFinal(front);
      LastFinal(forms[1..]);
      assert front[1..] == forms[1..][..|forms| - 2];
      assert FinalIn(forms[0]) + Finals(front[1..]) + FinalIn(last) ==
             FinalIn(forms[0]) + (Finals(front[1..]) + FinalIn(last));
    }
  }

  lemma LastFinal(forms: seq<Form>)
    requires forms != []
    ensures Finals(forms) == Finals(forms[..|forms| - 1]) + FinalIn(forms[|forms| - 1])
  {
  }

  // ----- catch clauses -----

  /** Selector keywords as they are handed to the host: each after a colon, with commas between. */
  function Listed(codes: seq<Form>): string
    requires forall code <- codes :: code.Keyword?
  {
    if codes == [] then ""
    else
      var last := codes[|codes| - 1];
      Listed(codes[..|codes| - 1]) + (if |codes| == 1 then ":" else ",:") + last.keyword
  }

  lemma {:induction false} SelectorsListed(codes: seq<Form>)
    requires forall code <- codes :: code.Keyword?
    ensures JoinSelectors(codes) == Listed(codes)
  {
    if |codes| == 1 {
      assert codes[..0] == [];
    } else if codes != [] {
      SelectorsListed(codes[1..]);
      FirstListed(codes);
    }
  }

  lemma {:induction false} FirstListed(codes: seq<Form>)
    requires |codes| > 1 && forall code <- codes :: code.Keyword?
    ensures Listed(codes) == ":" + codes[0].keyword + "," + Listed(codes[1..])
  {
    var front, rest := codes[..|codes| - 1], codes[1..];
    assert rest[..|rest| - 1] == front[1..] && rest[|rest| - 1] == codes[|codes| - 1];
    if |codes| == 2 {
      assert front == [codes[0]] && front[..0] == [] && rest[..0] == [];
    } else {
      FirstListed(front);
    }
  }

  /** A selector: a class name, a namespaced keyword, or a vector of them. */
  predicate Selects(form: Form, selector: string) {
    match form
    case Symbol(s) => selector == s
    case Keyword(k) => '/' in k && selector == ":" + k
    case Vector(codes) =>
      && codes != [] && (forall code <- codes :: code.Keyword? && '/' in code.keyword)
      && selector == "[" + Listed(codes) + "]"
    case _ => false
  }

  /**
   A catch clause is a name and a body, or a selector, a name and a body.  With
   no selector the name is no exception class, and a body of several forms does
   not begin with a symbol, which would be taken for the name.
   */
  predicate Written(p: seq<Form>, selector: Option<string>, name: string, body: seq<Form>) {
    && body != []
    && if selector.None? then
         && |p| >= 1 && p[1..] == [Symbol(name)] + body && name != "Exception" && name != "Throwable"
         && (|body| == 1 || !body[0].Symbol?)
       else |p| >= 2 && p[2..] == [Symbol(name)] + body && Selects(p[1], selector.value)
  }

  /** The parser takes exactly such clauses, and takes them apart so. */
  lemma CatchReads(p: seq<Form>, selector: Option<string>, name: string, body: seq<Form>)
    ensures Written(p, selector, name, body) <==>
      var r := ParseCatch(p);
      r.Ok? && r.value.selector == selector && p[r.value.binding] == Symbol(name) && p[r.value.body..] == body
  {
    if |p| >= 2 && p[1].Vector? && forall code <- p[1].items :: code.Keyword? { SelectorsListed(p[1].items); }
    hide JoinSelectors, Listed;
    if Written(p, selector, name, body) {
      if selector.None? {
        assert p[1] == p[1..][0] && p[2..] == p[1..][1..] && p[2] == p[1..][1];
      } else {
        assert p[2] == p[2..][0] && p[3..] == p[2..][1..];
      }
    }
    var r := ParseCatch(p);
    if r.Ok? && p[r.value.binding] == Symbol(name) && p[r.value.body..] == body {
      assert p[r.value.binding..] == [p[r.value.binding]] + p[r.value.body..];
    }
  }

  // ----- Names -----

  /** The value the last of some symbol patterns gives a name. */
  function LastNamed(patterns: seq<Form>, values: seq<Value>, name: string): Option<Value>
    requires |patterns| == |values|
  {
    if patterns == [] then None
    else
      var k := |patterns| - 1;
      if patterns[k] == Symbol(name) && name != "_" then Some(values[k])
      else LastNamed(patterns[..k], values[..k], name)
  }

  predicate Plain(pattern: Form) { pattern.Symbol? && '/' !in pattern.name }

  lemma {:induction false} FirstNamed(patterns: seq<Form>, values: seq<Value>, name: string)
    requires patterns != [] && |patterns| == |values|
    ensures LastNamed(patterns, values, name) ==
      match LastNamed(patterns[1..], values[1..], name)
      case Some(v) => Some(v)
      case None => if patterns[0] == Symbol(name) && name != "_" then Some(values[0]) else None
  {
    var k := |patterns| - 1;
    if k == 0 {
      assert patterns[1..] == [] && values[1..] == [] && patterns[..0] == [] && values[..0] == [];
    } else {
      FirstNamed(patterns[..k], values[..k], name);
      assert patterns[..k][1..] == patterns[1..][..k - 1] && values[..k][1..] == values[1..][..k - 1];
    }
  }

  /** A recur to plain names gives each name its last value and leaves all others, `_` included, alone. */
  lemma {:induction false} RebindNames(h: Host, patterns: seq<Form>, values: seq<Value>, st: State, name: string)
    requires |patterns| == |values| && forall p <- patterns :: Plain(p)
    ensures
      var (error, st') := Rebind(h, patterns, values, st);
      && error.None? && st'.world == st.world && st'.waits == st.waits
      && Lookup(st'.env, name) == match LastNamed(patterns, values, name)
                                  case Some(v) => Some(v)
                                  case None => Lookup(st.env, name)
    decreases |patterns|
  {
    if patterns != [] {
      assert Plain(patterns[0]);
      var b := BindPattern(h, patterns[0], values[0], st);
      RebindNames(h, patterns[1..], values[1..], b.st, name);
      FirstNamed(patterns, values, name);
    }
  }

  /** Patterns are bound in turn, through `states`, up to the first that fails. */
  predicate BoundInTurn(
    h: Host, patterns: seq<Form>, values: seq<Value>, states: seq<State>)
  {
    && |states| >= 1 && |states| - 1 <= |patterns| == |values|
    && forall i :: 0 <= i < |states| - 1 ==>
         var b := BindPattern(h, patterns[i], values[i], states[i]);
         b.error.None? && b.st == states[i + 1]
  }

  lemma {:induction false} RebindInTurn(h: Host, patterns: seq<Form>, values: seq<Value>, st: State)
    returns (states: seq<State>)
    requires |patterns| == |values|
    ensures BoundInTurn(h, patterns, values, states) && states[0] == st
    ensures
      var k := |states| - 1;
      if k == |patterns| then Rebind(h, patterns, values, st) == (None, states[k])
      else
        var b := BindPattern(h, patterns[k], values[k], states[k]);
        b.error.Some? && Rebind(h, patterns, values, st) == (b.error, b.st)
    decreases |patterns|
  {
    states := [st];
    if patterns != [] {
      var b := BindPattern(h, patterns[0], values[0], st);
      if b.error.None? {
        var rest := RebindInTurn(h, patterns[1..], values[1..], b.st);
        states := [st] + rest;
        forall i | 0 <= i < |states| - 1
          ensures BindPattern(h, patterns[i], values[i], states[i]).error.None?
          ensures BindPattern(h, patterns[i], values[i], states[i]).st == states[i + 1]
        {
          if i > 0 {
            assert patterns[1..][i - 1] == patterns[i] && values[1..][i - 1] == values[i];
            assert rest[i - 1] == states[i] && rest[i] == states[i + 1];
          }
        }
      }
    }
  }

  // ----- Loops -----

  /** One round of a loop: the body answers with a recur of as many values as patterns, which are bound. */
  predicate Round(h: Host, n: nat, patterns: seq<Form>, body: Form, before: State, after: State) {
    var out := Eval(h, n, body, before);
    && out.Out? && out.r.Ok? && out.r.value.Recur? && |out.r.value.args| == |patterns|
    && Rebind(h, patterns, out.r.value.args, out.st) == (None, after)
  }

  /** How a loop ends: with what its body answers, or because a recur does not fit. */
  predicate LastRound(h: Host, n: nat, patterns: seq<Form>, body: Form, before: State, out: Out) {
    var last := Eval(h, n, body, before);
    && last.Out?
    && if !(last.r.Ok? && last.r.value.Recur?) then out == last
       else if |last.r.value.args| != |patterns| then out == Out(Err("loop recur arity mismatch"), last.st)
       else
         var (error, st) := Rebind(h, patterns, last.r.value.args, last.st);
         error.Some? && out == Out(Err("loop destructuring failed: " + error.value), st)
  }

  /** Rounds through `states`, then a last one. */
  predicate GoesRound(h: Host, n: nat, patterns: seq<Form>, body: Form, states: seq<State>, out: Out) {
    && 1 <= |states| <= n
    && (forall i :: 0 <= i < |states| - 1 ==> Round(h, n - 1 - i, patterns, body, states[i], states[i + 1]))
    && LastRound(h, n - |states|, patterns, body, states[|states| - 1], out)
  }

  /** A loop is some rounds and a last one, never anything else. */
  lemma {:induction false} LoopMeans(h: Host, n: nat, patterns: seq<Form>, body: Form, st: State, out: Out)
    requires out.Out?
    ensures EvalLoop(h, n, patterns, body, st) == out
       <==> exists states :: states != [] && states[0] == st && GoesRound(h, n, patterns, body, states, out)
    decreases n
  {
    hide Eval, Rebind;
    if n > 0 {
      var first := Eval(h, n - 1, body, st);
      if LastRound(h, n - 1, patterns, body, st, out) {
        assert GoesRound(h, n, patterns, body, [st], out);
      }
      var fits := first.Out? && first.r.Ok? && first.r.value.Recur? && |first.r.value.args| == |patterns|;
      if fits && Rebind(h, patterns, first.r.value.args, first.st).0.None? {
        var next := Rebind(h, patterns, first.r.value.args, first.st).1;
        LoopMeans(h, n - 1, patterns, body, next, out);
        RoundMore(h, n, patterns, body, st, next, out);
      } else {
        RoundLast(h, n, n - 1, patterns, body, st, out);
      }
    }
  }

  lemma RoundMore(h: Host, n: nat, patterns: seq<Form>, body: Form, st: State, next: State, out: Out)
    requires n > 0 && Round(h, n - 1, patterns, body, st, next)
    ensures (exists states :: states != [] && states[0] == st && GoesRound(h, n, patterns, body, states, out))
       <==> exists states :: states != [] && states[0] == next && GoesRound(h, n - 1, patterns, body, states, out)
  {
    hide Eval, Rebind, Round, GoesRound;
    if states :| states != [] && states[0] == st && GoesRound(h, n, patterns, body, states, out) {
      RoundOff(h, n, patterns, body, states, next, out);
    }
    if rest :| rest != [] && rest[0] == next && GoesRound(h, n - 1, patterns, body, rest, out) {
      RoundOn(h, n, patterns, body, st, rest, out);
    }
  }

  lemma NotLast(h: Host, n: nat, patterns: seq<Form>, body: Form, st: State, next: State, out: Out)
    requires Round(h, n, patterns, body, st, next)
    ensures !LastRound(h, n, patterns, body, st, out)
    ensures forall other :: Round(h, n, patterns, body, st, other) ==> other == next
  {
    hide Eval, Rebind;
  }

  lemma RoundOff(h: Host, n: nat, patterns: seq<Form>, body: Form, states: seq<State>, next: State, out: Out)
    requires n > 0 && states != [] && Round(h, n - 1, patterns, body, states[0], next)
    requires GoesRound(h, n, patterns, body, states, out)
    ensures |states| > 1 && states[1..][0] == next && GoesRound(h, n - 1, patterns, body, states[1..], out)
  {
    hide Eval, Rebind, Round, LastRound;
    NotLast(h, n - 1, patterns, body, states[0], next, out);
    assert |states| > 1;
    var rest := states[1..];
    assert Round(h, n - 1 - 0, patterns, body, states[0], states[0 + 1]);
    assert rest[|rest| - 1] == states[|states| - 1];
    forall i | 0 <= i < |rest| - 1 ensures Round(h, n - 1 - 1 - i, patterns, body, rest[i], rest[i + 1]) {
      assert Round(h, n - 1 - (i + 1), patterns, body, states[i + 1], states[i + 1 + 1]);
    }
  }

  lemma RoundOn(h: Host, n: nat, patterns: seq<Form>, body: Form, st: State, rest: seq<State>, out: Out)
    requires n > 0 && rest != [] && Round(h, n - 1, patterns, body, st, rest[0])
    requires GoesRound(h, n - 1, patterns, body, rest, out)
    ensures GoesRound(h, n, patterns, body, [st] + rest, out)
  {
    hide Eval, Rebind, Round, LastRound;
    var states := [st] + rest;
    forall i | 0 <= i < |states| - 1 ensures Round(h, n - 1 - i, patterns, body, states[i], states[i + 1]) {
      if i > 0 { assert Round(h, n - 1 - 1 - (i - 1), patterns, body, rest[i - 1], rest[i - 1 + 1]); }
    }
    assert states[|states| - 1] == rest[|rest| - 1];
  }

  lemma RoundLast(h: Host, n: nat, m: nat, patterns: seq<Form>, body: Form, st: State, out: Out)
    requires n == m + 1 && forall next :: !Round(h, m, patterns, body, st, next)
    ensures (exists states :: states != [] && states[0] == st && GoesRound(h, n, patterns, body, states, out))
       <==> LastRound(h, n - 1, patterns, body, st, out)
  {
    hide Eval, Rebind, Round, LastRound;
    if states :| states != [] && states[0] == st && GoesRound(h, n, patterns, body, states, out) {
      assert |states| > 1 ==> Round(h, n - 1 - 0, patterns, body, states[0], states[0 + 1]);
    }
    if LastRound(h, n - 1, patterns, body, st, out) {
      assert GoesRound(h, n, patterns, body, [st], out);
    }
  }

  // ----- let and loop forms -----

  /** The patterns of a binding vector are its even places. */
  lemma {:induction false} PatternsAt(bindings: seq<Form>)
    requires |bindings| % 2 == 0
    ensures |Patterns(bindings)| == |bindings| / 2
    ensures forall i :: 0 <= i < |bindings| / 2 ==> Patterns(bindings)[i] == bindings[2 * i]
    decreases |bindings|
  {
    if bindings != [] {
      PatternsAt(bindings[2..]);
      forall i | 0 < i < |bindings| / 2 ensures Patterns(bindings)[i] == bindings[2 * i] {
        assert bindings[2..][2 * (i - 1)] == bindings[2 * i];
      }
    }
  }

  /** The body of a let or loop is all its forms after the bindings, run as one body. */
  lemma ScopeBodyRuns(h: Host, n: nat, items: seq<Form>, st: State)
    requires n > 0 && |items| > 3 && h.interrupt(st.world).None?
    ensures Eval(h, n, ScopeBody(items), st) == EvalBody(h, n - 1, items[2..], Nil, st)
  {
    hide EvalBody;
    var all := [Symbol("do")] + items[2..];
    assert all[1..] == items[2..] && all[0] == Symbol("do");
    assert !IsQuote(all);
  }

  /** A single body form stands for itself. */
  lemma ScopeBodyIs(items: seq<Form>)
    requires |items| == 3
    ensures ScopeBody(items) == items[2]
  {
  }

  /** A field place names a receiver and an unqualified field, as a keyword or a symbol. */
  lemma FieldPlaceIs(place: Form, receiver: Form, field: string)
    ensures FieldPlace(place) == Ok((receiver, field)) <==>
      && '/' !in field
      && (place == List([Symbol("field"), receiver, Keyword(field)])
          || place == List([Symbol("field"), receiver, Symbol(field)]))
  {
    if FieldPlace(place) == Ok((receiver, field)) {
      assert place.items == [place.items[0], place.items[1], place.items[2]];
    }
  }

  // ----- Promises -----

  /**
   A call that awaits a promise joins it to the waits and answers with its
   value or its rejection; a promise still pending is asked once more.
   */
  lemma AwaitAnswers(h: Host, n: nat, f: Value, args: seq<Value>, st: State, p: Promise)
    requires n > 0 && h.enter(f, args, st.world).0 == Awaiting(p)
    ensures
      var waits := st.waits + [p];
      var (first, world) := h.wait(p, h.enter(f, args, st.world).1, waits);
      var (state, last) := if first.Pending? then h.wait(p, world, waits) else (first, world);
      var out := EvalCall(h, n, f, args, st);
      && out.Out? && out.st == State(st.env, last, waits)
      && (forall v :: out.r == Ok(v) <==> state == Fulfilled(v))
      && (forall e :: state == Rejected(e) ==> out.r == Err(e))
      && (state == Pending ==> out.r == Err("Coroutine/await resumed pending"))
  {
  }

  /** A called function runs its forms in its own environment; the caller's comes back, and a recur may not leave. */
  lemma CallRuns(h: Host, n: nat, f: Value, args: seq<Value>, st: State, forms: seq<Form>, env: Env)
    requires n > 0 && h.enter(f, args, st.world).0 == Body(forms, env)
    ensures
      var inner := EvalBody(h, n - 1, forms, Nil, State(env, h.enter(f, args, st.world).1, st.waits));
      var out := EvalCall(h, n, f, args, st);
      && (inner.OutOfFuel? <==> out.OutOfFuel?)
      && (inner.Out? ==>
            && out.st == State(st.env, inner.st.world, inner.st.waits)
            && (inner.r.Ok? && inner.r.value.Recur? ==> out.r == Err("recur must be inside loop"))
            && (!(inner.r.Ok? && inner.r.value.Recur?) ==> out.r == inner.r))
  {
    hide EvalBody;
  }
}
