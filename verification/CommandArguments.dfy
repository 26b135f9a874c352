/** Command-line words against a route's options and arguments (`command.rs`). */
module CommandArguments {
  import opened Prelude
  import opened CommandRouter

  // ----- Positional words -----

  /** A word count the arguments can take: required ones are there, and extras only before a final catch-all. */
  predicate Accepts(arguments: seq<ArgumentSpec>, n: nat) {
    (forall i :: 0 <= i < |arguments| && arguments[i].required ==> i < n) &&
    (n <= |arguments| || (arguments != [] && arguments[|arguments| - 1].many))
  }

  /** What the argument at a place gets. */
  function ArgumentValue(a: ArgumentSpec, i: nat, words: seq<string>): ParsedValue {
    if a.many then Many(if i <= |words| then words[i..] else [])
    else if i < |words| then One(words[i])
    else One("")
  }

  ghost predicate Assigned(arguments: seq<ArgumentSpec>, words: seq<string>, n: nat, out: map<string, ParsedValue>)
    requires n <= |arguments|
  {
    (forall id :: id in out <==> exists i :: 0 <= i < n && arguments[i].id == id) &&
    forall i :: 0 <= i < n ==> arguments[i].id in out && out[arguments[i].id] == ArgumentValue(arguments[i], i, words)
  }

  lemma AssignedNext(arguments: seq<ArgumentSpec>, words: seq<string>, n: nat, out: map<string, ParsedValue>)
    requires n < |arguments| && ValidArguments(arguments) && Assigned(arguments, words, n, out)
    ensures Assigned(arguments, words, n + 1, out[arguments[n].id := ArgumentValue(arguments[n], n, words)])
  {
    hide Blank;
    var a := arguments[n];
    forall i | 0 <= i < n ensures arguments[i].id != a.id {}
  }

  /** `parse_positionals`. */
  method ParsePositionals(arguments: seq<ArgumentSpec>, words: seq<string>)
    returns (r: Result<map<string, ParsedValue>, Error>)
    requires ValidArguments(arguments)
    ensures r.Ok? <==> Accepts(arguments, |words|)
    ensures r.Ok? ==> Assigned(arguments, words, |arguments|, r.value)
  {
    hide Blank;
    var out: map<string, ParsedValue> := map[];
    var cursor := 0;
    var i := 0;
    while i < |arguments|
      invariant 0 <= i <= |arguments| && cursor == (if i <= |words| then i else |words|)
      invariant forall k :: 0 <= k < i ==> !arguments[k].many && (arguments[k].required ==> k < |words|)
      invariant Assigned(arguments, words, i, out)
    {
      var a := arguments[i];
      AssignedNext(arguments, words, i, out);
      if a.many {
        var values := words[cursor..];
        if a.required && values == [] { return Err(MissingArgument); }
        assert i <= |words| || values == [];
        out := out[a.id := Many(values)];
        return Ok(out);
      }
      if cursor < |words| {
        out := out[a.id := One(words[cursor])];
        cursor := cursor + 1;
      } else if a.required {
        return Err(MissingArgument);
      } else {
        out := out[a.id := One("")];
      }
      i := i + 1;
    }
    if cursor != |words| { return Err(UnexpectedArgument); }
    return Ok(out);
  }

  // ----- Options -----

  /** One thing on the command line: a plain word, or an option given with a value. */
  datatype Event = Word(text: string) | Given(option: nat, value: string)

  function FindLong(options: seq<OptionSpec>, name: string): (i: nat)
    ensures i <= |options| && (i < |options| ==> LongName(options[i]) == name)
  {
    if options == [] || LongName(options[0]) == name then 0 else 1 + FindLong(options[1..], name)
  }

  function FindShort(options: seq<OptionSpec>, c: char): (i: nat)
    ensures i <= |options| && (i < |options| ==> options[i].short == Some(c))
  {
    if options == [] || options[0].short == Some(c) then 0 else 1 + FindShort(options[1..], c)
  }

  /** `split_once('=')`: the name, and what follows the first equals sign. */
  function SplitEquals(s: string): (string, Option<string>) {
    if s == [] then ([], None)
    else if s[0] == '=' then ([], Some(s[1..]))
    else
      var (name, value) := SplitEquals(s[1..]);
      ([s[0]] + name, value)
  }

  predicate LongForm(s: string) { "--" < s }

  /** A dash and one ASCII character. */
  predicate ShortForm(s: string) { |s| == 2 && s[0] == '-' && s[1] as int < 128 }

  /** An option with its value, inline or as the next word; None when it may not stand so. */
  function Take(options: seq<OptionSpec>, i: nat, inline: Option<string>, rest: seq<string>)
    : Option<(Event, seq<string>)>
    requires i <= |options|
  {
    if i == |options| then None
    else if options[i].kind.BooleanOption? then
      if inline.Some? then None else Some((Given(i, ""), rest))
    else if inline.Some? then Some((Given(i, inline.value), rest))
    else if rest == [] then None
    else Some((Given(i, rest[0]), rest[1..]))
  }

  /** What the words mean, one after the other; None when some word is no option and no word. */
  function Scan(options: seq<OptionSpec>, argv: seq<string>, enabled: bool): Option<seq<Event>>
    decreases |argv|
  {
    if argv == [] then Some([])
    else
      var v, rest := argv[0], argv[1..];
      if enabled && v == "--" then Scan(options, rest, false)
      else if enabled && LongForm(v) then
        var (name, inline) := SplitEquals(v);
        ScanOption(options, Take(options, FindLong(options, name), inline, rest), |argv|)
      else if enabled && ShortForm(v) then
        ScanOption(options, Take(options, FindShort(options, v[1]), None, rest), |argv|)
      else
        match Scan(options, rest, enabled)
        case None => None
        case Some(events) => Some([Word(v)] + events)
  }

  function ScanOption(options: seq<OptionSpec>, taken: Option<(Event, seq<string>)>, bound: nat): Option<seq<Event>>
    requires taken.Some? ==> |taken.value.1| < bound
    decreases bound, 0
  {
    if taken.None? then None
    else
      match Scan(options, taken.value.1, true)
      case None => None
      case Some(events) => Some([taken.value.0] + events)
  }

  function EventWords(e: Event): seq<string> { if e.Word? then [e.text] else [] }

  function Words(events: seq<Event>): seq<string> {
    if events == [] then [] else EventWords(events[0]) + Words(events[1..])
  }

  function EventValues(e: Event, i: nat): seq<string> { if e.Given? && e.option == i then [e.value] else [] }

  /** The values given for an option, in order. */
  function ValuesFor(events: seq<Event>, i: nat): seq<string> {
    if events == [] then [] else EventValues(events[0], i) + ValuesFor(events[1..], i)
  }

  function Default(o: OptionSpec): ParsedValue {
    if o.default.Some? then o.default.value
    else
      match o.kind
      case BooleanOption => Flag(false)
      case StringOption => if o.many then Many([]) else One("")
  }

  /** What an option ends up as. */
  function OptionValue(o: OptionSpec, given: seq<string>): ParsedValue
    requires ValidOption(o)
  {
    if o.kind.BooleanOption? then if given != [] then Flag(true) else Default(o)
    else if o.many then Many(Default(o).values + given)
    else if given != [] then One(given[0])
    else Default(o)
  }

  /** Only a repeatable option may be given more than once. */
  ghost predicate NoneRepeated(options: seq<OptionSpec>, events: seq<Event>) {
    forall i :: 0 <= i < |options| && !options[i].many ==> |ValuesFor(events, i)| <= 1
  }

  ghost predicate ValidOptions(options: seq<OptionSpec>) {
    (forall i :: 0 <= i < |options| ==> ValidOption(options[i])) && DistinctOptions(options)
  }

  /** The option map after some events. */
  ghost predicate Set(options: seq<OptionSpec>, events: seq<Event>, out: map<string, ParsedValue>)
    requires ValidOptions(options)
  {
    (forall id :: id in out <==> exists i :: 0 <= i < |options| && options[i].id == id) &&
    forall i :: 0 <= i < |options| ==>
      options[i].id in out && out[options[i].id] == OptionValue(options[i], ValuesFor(events, i))
  }

  lemma {:induction false} ValuesConcat(a: seq<Event>, b: seq<Event>, i: nat)
    ensures ValuesFor(a + b, i) == ValuesFor(a, i) + ValuesFor(b, i)
    decreases |a|
  {
    hide EventValues;
    if a == [] {
      assert a + b == b;
      assert [] + ValuesFor(b, i) == ValuesFor(b, i);
    } else {
      ValuesConcat(a[1..], b, i);
      assert (a + b)[0] == a[0] && (a + b)[1..] == a[1..] + b;
      var x, y, z := EventValues(a[0], i), ValuesFor(a[1..], i), ValuesFor(b, i);
      assert x + (y + z) == x + y + z;
    }
  }

  lemma ValuesNext(events: seq<Event>, e: Event, i: nat)
    ensures ValuesFor(events + [e], i) ==
            ValuesFor(events, i) + if e.Given? && e.option == i then [e.value] else []
  {
    ValuesConcat(events, [e], i);
    assert [e][1..] == [];
    assert ValuesFor([], i) == [];
  }

  lemma {:induction false} WordsConcat(a: seq<Event>, b: seq<Event>)
    ensures Words(a + b) == Words(a) + Words(b)
    decreases |a|
  {
    hide EventWords;
    if a == [] {
      assert a + b == b;
      assert [] + Words(b) == Words(b);
    } else {
      WordsConcat(a[1..], b);
      assert (a + b)[0] == a[0] && (a + b)[1..] == a[1..] + b;
      var x, y, z := EventWords(a[0]), Words(a[1..]), Words(b);
      assert x + (y + z) == x + y + z;
    }
  }

  lemma WordsNext(events: seq<Event>, e: Event)
    ensures Words(events + [e]) == Words(events) + if e.Word? then [e.text] else []
  {
    WordsConcat(events, [e]);
    assert [e][1..] == [];
    assert Words([]) == [];
  }

  /** What giving an option once more makes of its value. */
  function GivenValue(o: OptionSpec, before: ParsedValue, value: string): ParsedValue {
    if o.kind.BooleanOption? then Flag(true)
    else if o.many && before.Many? then Many(before.values + [value])
    else One(value)
  }

  lemma ValueNext(o: OptionSpec, given: seq<string>, value: string)
    requires ValidOption(o) && (o.many || given == [])
    ensures OptionValue(o, given + [value]) == GivenValue(o, OptionValue(o, given), value)
    ensures o.many ==> OptionValue(o, given).Many?
  {
    hide Blank, LongName;
    if o.many {
      assert Default(o).values + (given + [value]) == Default(o).values + given + [value];
    } else {
      assert (given + [value])[0] == value;
    }
  }

  /** One more option given. */
  lemma SetNext(options: seq<OptionSpec>, events: seq<Event>, out: map<string, ParsedValue>, i: nat, value: string)
    requires ValidOptions(options) && Set(options, events, out) && i < |options|
    requires options[i].many || ValuesFor(events, i) == []
    ensures options[i].id in out && (options[i].many ==> out[options[i].id].Many?)
    ensures
      var o := options[i];
      Set(options, events + [Given(i, value)], out[o.id := GivenValue(o, out[o.id], value)])
  {
    hide ValidOption, OptionValue, GivenValue, ValuesFor, DistinctOptions;
    var o := options[i];
    ValueNext(o, ValuesFor(events, i), value);
    var after := out[o.id := GivenValue(o, out[o.id], value)];
    forall k | 0 <= k < |options|
      ensures options[k].id in after &&
              after[options[k].id] == OptionValue(options[k], ValuesFor(events + [Given(i, value)], k))
    {
      ValuesNext(events, Given(i, value), k);
      assert ValuesFor(events, k) + [] == ValuesFor(events, k);
      if k != i { IdsDiffer(options, i, k); }
    }
  }

  lemma IdsDiffer(options: seq<OptionSpec>, i: nat, k: nat)
    requires ValidOptions(options) && i < |options| && k < |options| && i != k
    ensures options[i].id != options[k].id
  {
    hide ValidOption, LongName;
  }


  lemma SetWord(options: seq<OptionSpec>, events: seq<Event>, out: map<string, ParsedValue>, text: string)
    requires ValidOptions(options) && Set(options, events, out)
    ensures Set(options, events + [Word(text)], out)
  {
    hide Blank, LongName, OptionValue;
    forall k | 0 <= k < |options| ensures ValuesFor(events + [Word(text)], k) == ValuesFor(events, k) {
      ValuesNext(events, Word(text), k);
      assert ValuesFor(events, k) + [] == ValuesFor(events, k);
    }
  }

  /** The ids of the once-only options given so far. */
  ghost predicate Supplied(options: seq<OptionSpec>, events: seq<Event>, supplied: set<string>) {
    forall i :: 0 <= i < |options| && !options[i].many ==>
      (options[i].id in supplied <==> ValuesFor(events, i) != [])
  }

  lemma SuppliedNext(options: seq<OptionSpec>, events: seq<Event>, supplied: set<string>, i: nat, value: string)
    requires ValidOptions(options) && Supplied(options, events, supplied) && i < |options|
    ensures
      var now := if options[i].many then supplied else supplied + {options[i].id};
      Supplied(options, events + [Given(i, value)], now)
    ensures NoneRepeated(options, events) && (options[i].many || options[i].id !in supplied) ==>
            NoneRepeated(options, events + [Given(i, value)])
    ensures !options[i].many && options[i].id in supplied ==> |ValuesFor(events + [Given(i, value)], i)| > 1
  {
    hide Blank, LongName;
    forall k | 0 <= k < |options| ensures
      ValuesFor(events + [Given(i, value)], k) == ValuesFor(events, k) + if k == i then [value] else []
    {
      ValuesNext(events, Given(i, value), k);
    }
    forall k | 0 <= k < |options| && k != i ensures options[k].id != options[i].id {}
  }

  lemma SuppliedWord(options: seq<OptionSpec>, events: seq<Event>, supplied: set<string>, text: string)
    requires Supplied(options, events, supplied)
    ensures Supplied(options, events + [Word(text)], supplied)
    ensures NoneRepeated(options, events) ==> NoneRepeated(options, events + [Word(text)])
  {
    forall k | 0 <= k < |options| ensures ValuesFor(events + [Word(text)], k) == ValuesFor(events, k) {
      ValuesNext(events, Word(text), k);
      assert ValuesFor(events, k) + [] == ValuesFor(events, k);
    }
  }

  /** A repetition stays one, whatever follows. */
  lemma RepeatedStays(options: seq<OptionSpec>, events: seq<Event>, more: seq<Event>, i: nat)
    requires i < |options| && !options[i].many && |ValuesFor(events, i)| > 1
    ensures !NoneRepeated(options, events + more)
  {
    ValuesConcat(events, more, i);
  }

  /** Defaults for every option. */
  method Defaults(options: seq<OptionSpec>) returns (out: map<string, ParsedValue>)
    requires ValidOptions(options)
    ensures Set(options, [], out)
  {
    hide Blank, LongName;
    out := map[];
    var i := 0;
    while i < |options|
      invariant 0 <= i <= |options|
      invariant forall id :: id in out <==> exists k :: 0 <= k < i && options[k].id == id
      invariant forall k :: 0 <= k < i ==> options[k].id in out && out[options[k].id] == Default(options[k])
    {
      forall k | 0 <= k < i ensures options[k].id != options[i].id {}
      out := out[options[i].id := Default(options[i])];
      i := i + 1;
    }
    forall k | 0 <= k < |options| ensures Default(options[k]) == OptionValue(options[k], ValuesFor([], k)) {
      assert ValidOption(options[k]);
      var o := options[k];
      assert o.many && o.kind.StringOption? ==> Default(o).values + [] == Default(o).values;
    }
  }

  /** Whether the scan of all words is these events and then the scan of what is left. */
  ghost predicate Sofar(
    options: seq<OptionSpec>, argv: seq<string>, events: seq<Event>, left: seq<string>, enabled: bool)
  {
    Scan(options, argv, true) ==
      match Scan(options, left, enabled)
      case None => None
      case Some(more) => Some(events + more)
  }

  lemma SofarStep(options: seq<OptionSpec>, argv: seq<string>, events: seq<Event>, left: seq<string>, enabled: bool,
                  e: Event, rest: seq<string>)
    requires Sofar(options, argv, events, left, enabled)
    requires Scan(options, left, enabled) ==
      match Scan(options, rest, enabled)
      case None => None
      case Some(more) => Some([e] + more)
    ensures Sofar(options, argv, events + [e], rest, enabled)
  {
    hide Scan;
    var s := Scan(options, rest, enabled);
    assert s.Some? ==> events + ([e] + s.value) == events + [e] + s.value;
  }

  /** The state of the option loop. */
  ghost predicate Parsing(options: seq<OptionSpec>, events: seq<Event>, out: map<string, ParsedValue>,
                          words: seq<string>, supplied: set<string>)
    requires ValidOptions(options)
  {
    Set(options, events, out) && words == Words(events) && Supplied(options, events, supplied) &&
    NoneRepeated(options, events)
  }

  /** `parse_option`: the value taken, the map and the supplied ids brought up to date. */
  method ParseOption(options: seq<OptionSpec>, i: nat, inline: Option<string>, rest: seq<string>,
                     out: map<string, ParsedValue>, supplied: set<string>,
                     ghost events: seq<Event>, words: seq<string>)
    returns (r: Result<(seq<string>, map<string, ParsedValue>, set<string>), Error>)
    requires ValidOptions(options) && i <= |options| && Parsing(options, events, out, words, supplied)
    ensures r.Ok? ==>
      var taken := Take(options, i, inline, rest);
      taken.Some? && r.value.0 == taken.value.1 &&
      Parsing(options, events + [taken.value.0], r.value.1, words, r.value.2)
    ensures r.Err? ==>
      var taken := Take(options, i, inline, rest);
      taken.None? || (i < |options| && !options[i].many && |ValuesFor(events + [taken.value.0], i)| > 1)
  {
    hide Set, Supplied, NoneRepeated, DistinctOptions, ValidOption, ValuesFor, Words;
    if i == |options| { return Err(UnknownOption); }
    var o := options[i];
    assert ValidOption(o) by { OneValid(options, i); }
    var value, next := "", rest;
    if o.kind.BooleanOption? {
      if inline.Some? { return Err(InvalidOption); }
    } else if inline.Some? {
      value := inline.value;
    } else {
      if rest == [] { return Err(MissingOptionValue); }
      value, next := rest[0], rest[1..];
    }
    SuppliedNext(options, events, supplied, i, value);
    WordsNext(events, Given(i, value));
    assert Words(events) + [] == Words(events);
    OptionShape(o);
    if o.many {
      SetNext(options, events, out, i, value);
      assert GivenValue(o, out[o.id], value) == Many(out[o.id].values + [value]);
      return Ok((next, out[o.id := Many(out[o.id].values + [value])], supplied));
    }
    if o.id in supplied { return Err(DuplicateOption); }
    assert ValuesFor(events, i) == [] by { NotSupplied(options, events, supplied, i); }
    SetNext(options, events, out, i, value);
    var v := if o.kind.BooleanOption? then Flag(true) else One(value);
    assert v == GivenValue(o, out[o.id], value);
    return Ok((next, out[o.id := v], supplied + {o.id}));
  }

  lemma OneValid(options: seq<OptionSpec>, i: nat)
    requires ValidOptions(options) && i < |options|
    ensures ValidOption(options[i])
  {
    hide ValidOption, DistinctOptions;
  }

  lemma OptionShape(o: OptionSpec)
    requires ValidOption(o)
    ensures o.many ==> o.kind.StringOption?
  {
  }

  lemma NotSupplied(options: seq<OptionSpec>, events: seq<Event>, supplied: set<string>, i: nat)
    requires Supplied(options, events, supplied) && i < |options| && !options[i].many && options[i].id !in supplied
    ensures ValuesFor(events, i) == []
  {
  }

  /** What a route makes of its words. */
  ghost predicate Understood(spec: RouteSpec, argv: seq<string>) {
    if spec.passthrough then Accepts(spec.arguments, |argv|)
    else
      var events := Scan(spec.options, argv, true);
      events.Some? && NoneRepeated(spec.options, events.value) && Accepts(spec.arguments, |Words(events.value)|)
  }

  lemma RouteParts(spec: RouteSpec)
    requires ValidRoute(spec)
    ensures ValidOptions(spec.options) && ValidArguments(spec.arguments) && (spec.passthrough ==> spec.options == [])
  {
    hide Blank, ValidOption, DistinctOptions;
  }

  datatype Parsed = Parsed(options: map<string, ParsedValue>, arguments: map<string, ParsedValue>)

  /** What the words a route understands mean: each option's value, and each argument's words. */
  ghost predicate Meant(spec: RouteSpec, argv: seq<string>, parsed: Parsed) {
    ValidOptions(spec.options) && Understood(spec, argv) &&
    var events := if spec.passthrough then [] else Scan(spec.options, argv, true).value;
    var words := if spec.passthrough then argv else Words(events);
    Set(spec.options, events, parsed.options) &&
    Assigned(spec.arguments, words, |spec.arguments|, parsed.arguments)
  }

  /** `parse_route_arguments`: succeeds exactly on the words the route understands, and says what they mean. */
  method ParseRouteArguments(spec: RouteSpec, argv: seq<string>) returns (r: Result<Parsed, Error>)
    requires ValidRoute(spec)
    ensures r.Ok? <==> Understood(spec, argv)
    ensures r.Ok? ==> Meant(spec, argv, r.value)
  {
    RouteParts(spec);
    hide ValidRoute, ValidOptions, ValidArguments, Set, Assigned, Accepts;
    var options := spec.options;
    var out := Defaults(options);
    if spec.passthrough {
      var arguments := ParsePositionals(spec.arguments, argv);
      if arguments.Err? { return Err(arguments.error); }
      return Ok(Parsed(out, arguments.value));
    }
    var scanned := ScanWords(options, argv, out);
    if scanned.Err? { return Err(scanned.error); }
    var arguments := ParsePositionals(spec.arguments, scanned.value.1);
    if arguments.Err? { return Err(arguments.error); }
    return Ok(Parsed(scanned.value.0, arguments.value));
  }

  /** The loop over the words. */
  method ScanWords(options: seq<OptionSpec>, argv: seq<string>, defaults: map<string, ParsedValue>)
    returns (r: Result<(map<string, ParsedValue>, seq<string>), Error>)
    requires ValidOptions(options) && Set(options, [], defaults)
    ensures
      var events := Scan(options, argv, true);
      (r.Ok? <==> events.Some? && NoneRepeated(options, events.value)) &&
      (r.Ok? ==> Set(options, events.value, r.value.0) && r.value.1 == Words(events.value))
  {
    hide ValidOptions, Parsing, Take, FindLong, FindShort, SplitEquals, LongForm, ShortForm, Sofar, Set;
    hide NoneRepeated, Words, Scan;
    var out := defaults;
    var words: seq<string> := [];
    var supplied: set<string> := {};
    var enabled := true;
    var left := argv;
    ghost var events: seq<Event> := [];
    ParsingStarts(options, defaults);
    SofarStarts(options, argv);
    while left != []
      invariant Parsing(options, events, out, words, supplied)
      invariant Sofar(options, argv, events, left, enabled)
      decreases |left|
    {
      var value, rest := left[0], left[1..];
      ScanParts(options, left, enabled);
      if enabled && value == "--" {
        SofarSame(options, argv, events, left, true, rest, false);
        enabled := false;
        left := rest;
      } else if enabled && (LongForm(value) || ShortForm(value)) {
        var i, inline := 0, None;
        if LongForm(value) {
          var split := SplitEquals(value);
          i, inline := FindLong(options, split.0), split.1;
        } else {
          i := FindShort(options, SecondChar(value));
        }
        ghost var taken := Take(options, i, inline, rest);
        TakenShorter(options, i, inline, rest);
        var one := ParseOption(options, i, inline, rest, out, supplied, events, words);
        if taken.Some? { SofarStep(options, argv, events, left, true, taken.value.0, taken.value.1); }
        if one.Err? {
          if taken.None? {
            SofarNone(options, argv, events, left);
          } else {
            SofarRepeated(options, argv, events + [taken.value.0], taken.value.1, i);
          }
          return Err(one.error);
        }
        left, out, supplied := one.value.0, one.value.1, one.value.2;
        events := events + [taken.value.0];
      } else {
        SofarStep(options, argv, events, left, enabled, Word(value), rest);
        ParsingWord(options, events, out, words, supplied, value);
        words := words + [value];
        events := events + [Word(value)];
        left := rest;
      }
    }
    SofarEnds(options, argv, events, enabled);
    ParsingMeans(options, events, out, words, supplied);
    return Ok((out, words));
  }

  function SecondChar(s: string): char
    requires ShortForm(s)
  {
    s[1]
  }

  lemma ParsingStarts(options: seq<OptionSpec>, defaults: map<string, ParsedValue>)
    requires ValidOptions(options) && Set(options, [], defaults)
    ensures Parsing(options, [], defaults, [], {})
  {
    hide ValidOptions, Set;
  }

  lemma ParsingMeans(options: seq<OptionSpec>, events: seq<Event>, out: map<string, ParsedValue>,
                     words: seq<string>, supplied: set<string>)
    requires ValidOptions(options) && Parsing(options, events, out, words, supplied)
    ensures Set(options, events, out) && words == Words(events) && NoneRepeated(options, events)
  {
    hide ValidOptions, Set, Words, NoneRepeated;
  }

  lemma ParsingWord(options: seq<OptionSpec>, events: seq<Event>, out: map<string, ParsedValue>,
                    words: seq<string>, supplied: set<string>, text: string)
    requires ValidOptions(options) && Parsing(options, events, out, words, supplied)
    ensures Parsing(options, events + [Word(text)], out, words + [text], supplied)
  {
    hide ValidOptions, Set, Words, NoneRepeated, Supplied;
    SetWord(options, events, out, text);
    SuppliedWord(options, events, supplied, text);
    WordsNext(events, Word(text));
  }

  lemma SofarStarts(options: seq<OptionSpec>, argv: seq<string>)
    ensures Sofar(options, argv, [], argv, true)
  {
    hide Scan;
    var s := Scan(options, argv, true);
    assert s.Some? ==> [] + s.value == s.value;
  }

  lemma SofarSame(options: seq<OptionSpec>, argv: seq<string>, events: seq<Event>, left: seq<string>, enabled: bool,
                  rest: seq<string>, next: bool)
    requires Sofar(options, argv, events, left, enabled) && Scan(options, left, enabled) == Scan(options, rest, next)
    ensures Sofar(options, argv, events, rest, next)
  {
    hide Scan;
  }

  lemma SofarNone(options: seq<OptionSpec>, argv: seq<string>, events: seq<Event>, left: seq<string>)
    requires Sofar(options, argv, events, left, true) && Scan(options, left, true).None?
    ensures Scan(options, argv, true).None?
  {
    hide Scan;
  }

  lemma SofarRepeated(options: seq<OptionSpec>, argv: seq<string>, events: seq<Event>, left: seq<string>, i: nat)
    requires Sofar(options, argv, events, left, true)
    requires i < |options| && !options[i].many && |ValuesFor(events, i)| > 1
    ensures Scan(options, argv, true).Some? ==> !NoneRepeated(options, Scan(options, argv, true).value)
  {
    hide Scan, NoneRepeated;
    var s := Scan(options, left, true);
    if s.Some? { RepeatedStays(options, events, s.value, i); }
  }

  lemma SofarEnds(options: seq<OptionSpec>, argv: seq<string>, events: seq<Event>, enabled: bool)
    requires Sofar(options, argv, events, [], enabled)
    ensures Scan(options, argv, true) == Some(events)
  {
    assert Scan(options, [], enabled) == Some([]);
    assert events + [] == events;
    hide Scan;
  }

  lemma TakenShorter(options: seq<OptionSpec>, i: nat, inline: Option<string>, rest: seq<string>)
    requires i <= |options|
    ensures var taken := Take(options, i, inline, rest); taken.Some? ==> |taken.value.1| <= |rest|
  {
  }

  lemma ScanParts(options: seq<OptionSpec>, left: seq<string>, enabled: bool)
    requires left != []
    ensures
      var v, rest := left[0], left[1..];
      (enabled && v == "--" ==> Scan(options, left, enabled) == Scan(options, rest, false)) &&
      (enabled && v != "--" && LongForm(v) ==>
         var split := SplitEquals(v);
         ScansTo(options, left, Take(options, FindLong(options, split.0), split.1, rest))) &&
      (enabled && v != "--" && !LongForm(v) && ShortForm(v) ==>
         ScansTo(options, left, Take(options, FindShort(options, SecondChar(v)), None, rest))) &&
      (!(enabled && (v == "--" || LongForm(v) || ShortForm(v))) ==>
         Scan(options, left, enabled) ==
           match Scan(options, rest, enabled)
           case None => None
           case Some(more) => Some([Word(v)] + more))
  {
    var v, rest := left[0], left[1..];
    var long := Take(options, FindLong(options, SplitEquals(v).0), SplitEquals(v).1, rest);
    TakenShorter(options, FindLong(options, SplitEquals(v).0), SplitEquals(v).1, rest);
    ScanOptionIs(options, long, |left|);
    if ShortForm(v) {
      TakenShorter(options, FindShort(options, v[1]), None, rest);
      ScanOptionIs(options, Take(options, FindShort(options, v[1]), None, rest), |left|);
    }
    hide Take, FindLong, FindShort, SplitEquals;
  }

  lemma ScanOptionIs(options: seq<OptionSpec>, taken: Option<(Event, seq<string>)>, bound: nat)
    requires taken.Some? ==> |taken.value.1| < bound
    ensures ScanOption(options, taken, bound) ==
      if taken.None? then None
      else
        match Scan(options, taken.value.1, true)
        case None => None
        case Some(events) => Some([taken.value.0] + events)
  {
    hide Scan;
  }

  ghost predicate ScansTo(options: seq<OptionSpec>, left: seq<string>, taken: Option<(Event, seq<string>)>) {
    if taken.None? then Scan(options, left, true).None?
    else
      Scan(options, left, true) ==
        match Scan(options, taken.value.1, true)
        case None => None
        case Some(more) => Some([taken.value.0] + more)
  }
}
