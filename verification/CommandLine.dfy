/**
 The grammar of a command line: bare words, options under their long or short
 names, and a `--` after which every word is bare.  A line is understood exactly
 when the grammar spells it, and then means what its pieces say.
 */
module CommandLine {
  import opened Prelude
  import opened CommandRouter
  import opened CommandArguments

  // ----- The grammar -----

  /** How an option is named: `--name value`, `--name=value` or `-n value`; a boolean option stands without a value. */
  datatype Form = Long | LongEquals | Short

  datatype Piece = Bare(text: string) | Named(option: nat, form: Form, value: string)

  /** The pieces, and the words after a `--`, if there is one. */
  datatype Line = Line(pieces: seq<Piece>, ended: Option<seq<string>>)

  /** A word that cannot be a name or the end of the options. */
  predicate IsBare(text: string) {
    !("--" <= text) && !(exists c: char :: c as int < 128 && text == ['-', c])
  }

  /** A name that can be written: without an equals sign, or one ASCII character other than a dash. */
  predicate Writable(o: OptionSpec, form: Form) {
    match form
    case Short => o.short.Some? && o.short.value as int < 128 && o.short.value != '-'
    case _ => '=' !in LongName(o)
  }

  predicate PieceRight(options: seq<OptionSpec>, p: Piece) {
    match p
    case Bare(text) => IsBare(text)
    case Named(i, form, value) =>
      i < |options| && Writable(options[i], form) &&
      (options[i].kind.BooleanOption? ==> form != LongEquals && value == "")
  }

  function PieceSpelled(options: seq<OptionSpec>, p: Piece): (words: seq<string>)
    requires PieceRight(options, p)
    ensures words != []
  {
    match p
    case Bare(text) => [text]
    case Named(i, form, value) =>
      var o := options[i];
      var name := if form == Short then ['-', o.short.value] else LongName(o);
      if form == LongEquals then [name + "=" + value]
      else if o.kind.BooleanOption? then [name]
      else [name, value]
  }

  predicate PiecesRight(options: seq<OptionSpec>, pieces: seq<Piece>) {
    forall k :: 0 <= k < |pieces| ==> PieceRight(options, pieces[k])
  }

  function PiecesSpelled(options: seq<OptionSpec>, pieces: seq<Piece>): seq<string>
    requires PiecesRight(options, pieces)
  {
    if pieces == [] then [] else PieceSpelled(options, pieces[0]) + PiecesSpelled(options, pieces[1..])
  }

  function LineSpelled(options: seq<OptionSpec>, line: Line): seq<string>
    requires PiecesRight(options, line.pieces)
  {
    PiecesSpelled(options, line.pieces) + if line.ended.Some? then ["--"] + line.ended.value else []
  }

  /** A line of the grammar that spells some words. */
  ghost predicate LineOf(options: seq<OptionSpec>, argv: seq<string>, line: Line) {
    PiecesRight(options, line.pieces) && LineSpelled(options, line) == argv
  }

  /** The bare words of some pieces, in order. */
  function BareWords(pieces: seq<Piece>): seq<string> {
    if pieces == [] then [] else (if pieces[0].Bare? then [pieces[0].text] else []) + BareWords(pieces[1..])
  }

  /** All bare words of a line. */
  function LineWords(line: Line): seq<string> {
    BareWords(line.pieces) + if line.ended.Some? then line.ended.value else []
  }

  /** The values an option is given, in order. */
  function LineValues(pieces: seq<Piece>, i: nat): seq<string> {
    if pieces == [] then []
    else (if pieces[0].Named? && pieces[0].option == i then [pieces[0].value] else []) + LineValues(pieces[1..], i)
  }

  // ----- What the pieces do to the scan -----

  function PieceEvent(p: Piece): Event {
    match p
    case Bare(text) => Word(text)
    case Named(i, _, value) => Given(i, value)
  }

  function PieceEvents(pieces: seq<Piece>): seq<Event> {
    if pieces == [] then [] else [PieceEvent(pieces[0])] + PieceEvents(pieces[1..])
  }

  function WordEvents(words: seq<string>): seq<Event> {
    if words == [] then [] else [Word(words[0])] + WordEvents(words[1..])
  }

  function LineEvents(line: Line): seq<Event> {
    PieceEvents(line.pieces) + if line.ended.Some? then WordEvents(line.ended.value) else []
  }

  lemma {:induction false} LongFound(options: seq<OptionSpec>, i: nat)
    requires ValidOptions(options) && i < |options|
    ensures FindLong(options, LongName(options[i])) == i
  {
    hide ValidOption, LongName;
    if i > 0 {
      var rest := options[1..];
      assert LongName(options[0]) != LongName(options[i]);
      assert forall k, l :: 0 <= k < l < |rest| ==> rest[k] == options[k + 1] && rest[l] == options[l + 1];
      assert forall k :: 0 <= k < |rest| ==> rest[k] == options[k + 1];
      LongFound(rest, i - 1);
    }
  }

  lemma {:induction false} ShortFound(options: seq<OptionSpec>, i: nat, c: char)
    requires ValidOptions(options) && i < |options| && options[i].short == Some(c)
    ensures FindShort(options, c) == i
  {
    hide ValidOption, LongName;
    if i > 0 {
      var rest := options[1..];
      assert options[0].short != options[i].short;
      assert forall k, l :: 0 <= k < l < |rest| ==> rest[k] == options[k + 1] && rest[l] == options[l + 1];
      assert forall k :: 0 <= k < |rest| ==> rest[k] == options[k + 1];
      ShortFound(rest, i - 1, c);
    }
  }

  /** A word is split at its first equals sign. */
  lemma {:induction false} SplitAt(name: string, value: string)
    requires '=' !in name
    ensures SplitEquals(name + "=" + value) == (name, Some(value))
    ensures SplitEquals(name) == (name, None)
  {
    if name == [] {
      assert name + "=" + value == ['='] + value;
    } else {
      SplitAt(name[1..], value);
      assert name == [name[0]] + name[1..];
      assert (name + "=" + value)[1..] == name[1..] + "=" + value;
    }
  }

  lemma {:induction false} SplitBack(word: string)
    ensures
      var (name, value) := SplitEquals(word);
      '=' !in name && word == if value.Some? then name + "=" + value.value else name
  {
    if word != [] && word[0] != '=' {
      SplitBack(word[1..]);
      assert word == [word[0]] + word[1..];
    } else if word != [] {
      assert word == [] + "=" + word[1..];
    }
  }

  lemma BareForms(text: string)
    ensures IsBare(text) <==> text != "--" && !LongForm(text) && !ShortForm(text)
  {
    if |text| == 2 { assert text == [text[0], text[1]]; }
  }

  lemma LongIs(options: seq<OptionSpec>, i: nat)
    requires ValidOptions(options) && i < |options|
    ensures "--" < LongName(options[i])
  {
    assert ValidOption(options[i]);
  }

  /** The first word of an option by its long name leads the scan to the option. */
  lemma LongScans(options: seq<OptionSpec>, i: nat, inline: Option<string>, rest: seq<string>)
    requires ValidOptions(options) && i < |options| && '=' !in LongName(options[i])
    ensures
      var name := LongName(options[i]);
      var word := if inline.Some? then name + "=" + inline.value else name;
      ScansTo(options, [word] + rest, Take(options, i, inline, rest))
  {
    LongIs(options, i);
    LongFound(options, i);
    var name := LongName(options[i]);
    hide ValidOptions, LongName, Take, Scan, FindLong, SplitEquals;
    SplitAt(name, if inline.Some? then inline.value else "");
    var word := if inline.Some? then name + "=" + inline.value else name;
    assert "--" < word;
    var left := [word] + rest;
    assert left[0] == word && left[1..] == rest;
    hide ScansTo;
    ScanParts(options, left, true);
  }

  lemma ShortScans(options: seq<OptionSpec>, i: nat, rest: seq<string>)
    requires ValidOptions(options) && i < |options| && Writable(options[i], Short)
    ensures ScansTo(options, [['-', options[i].short.value]] + rest, Take(options, i, None, rest))
  {
    var c := options[i].short.value;
    ShortFound(options, i, c);
    hide ValidOptions, LongName, Take, Scan, FindShort, SplitEquals, ScansTo;
    var left := [['-', c]] + rest;
    assert left[0] == ['-', c] && left[1..] == rest;
    assert SecondChar(left[0]) == c;
    ScanParts(options, left, true);
  }

  /** A scan one event longer. */
  ghost predicate ScansFirst(options: seq<OptionSpec>, left: seq<string>, e: Event, rest: seq<string>) {
    Scan(options, left, true) ==
      match Scan(options, rest, true)
      case None => None
      case Some(more) => Some([e] + more)
  }

  /** A piece of the grammar adds its event to the scan of what follows. */
  lemma PieceScans(options: seq<OptionSpec>, p: Piece, rest: seq<string>)
    requires ValidOptions(options) && PieceRight(options, p)
    ensures ScansFirst(options, PieceSpelled(options, p) + rest, PieceEvent(p), rest)
  {
    hide ValidOptions, Scan, LongName;
    if p.Bare? {
      BareForms(p.text);
      hide LongForm, ShortForm, IsBare;
      var left := [p.text] + rest;
      assert left[0] == p.text && left[1..] == rest;
      ScanParts(options, left, true);
    } else {
      var o := options[p.option];
      var whole := PieceSpelled(options, p) + rest;
      if p.form == LongEquals {
        LongScans(options, p.option, Some(p.value), rest);
      } else {
        var next := if o.kind.BooleanOption? then rest else [p.value] + rest;
        assert [p.value] + rest == next || o.kind.BooleanOption?;
        if p.form == Long {
          LongScans(options, p.option, None, next);
          assert whole == [LongName(o)] + next;
        } else {
          ShortScans(options, p.option, next);
          assert whole == [['-', o.short.value]] + next;
        }
        assert ([p.value] + rest)[1..] == rest;
      }
    }
  }

  /** After a `--` every word is one. */
  lemma {:induction false} WordsScan(options: seq<OptionSpec>, words: seq<string>)
    ensures Scan(options, words, false) == Some(WordEvents(words))
  {
    if words != [] { WordsScan(options, words[1..]); }
  }

  lemma EndScans(options: seq<OptionSpec>, ended: Option<seq<string>>)
    ensures
      var tail := if ended.Some? then ["--"] + ended.value else [];
      Scan(options, tail, true) == Some(if ended.Some? then WordEvents(ended.value) else [])
  {
    if ended.Some? {
      var tail := ["--"] + ended.value;
      assert tail[0] == "--" && tail[1..] == ended.value;
      WordsScan(options, ended.value);
    }
  }

  /** What the grammar spells is scanned to its events. */
  lemma {:induction false} LineScans(options: seq<OptionSpec>, pieces: seq<Piece>, ended: Option<seq<string>>)
    requires ValidOptions(options) && PiecesRight(options, pieces)
    ensures Scan(options, LineSpelled(options, Line(pieces, ended)), true) == Some(LineEvents(Line(pieces, ended)))
    decreases |pieces|
  {
    hide ValidOptions, Scan, PieceRight, PieceSpelled, PieceEvent;
    EndScans(options, ended);
    var tail := if ended.Some? then ["--"] + ended.value else [];
    var last := if ended.Some? then WordEvents(ended.value) else [];
    if pieces == [] {
      assert [] + tail == tail && [] + last == last;
    } else {
      var p, more := pieces[0], pieces[1..];
      LineScans(options, more, ended);
      var rest := PiecesSpelled(options, more) + tail;
      PieceScans(options, p, rest);
      assert PieceSpelled(options, p) + PiecesSpelled(options, more) + tail == PieceSpelled(options, p) + rest;
      assert [PieceEvent(p)] + PieceEvents(more) + last == [PieceEvent(p)] + (PieceEvents(more) + last);
    }
  }

  // ----- What is scanned is spelled by the grammar -----

  lemma TakenAs(options: seq<OptionSpec>, i: nat, inline: Option<string>, rest: seq<string>)
    requires i <= |options| && Take(options, i, inline, rest).Some?
    ensures
      var (e, next) := Take(options, i, inline, rest).value;
      i < |options| && e.Given? && e.option == i &&
      if options[i].kind.BooleanOption? then inline.None? && e.value == "" && next == rest
      else if inline.Some? then e.value == inline.value && next == rest
      else rest == [e.value] + next
  {
    hide LongName;
  }

  /** The option a word leads to by its long name, as a piece. */
  lemma LongPiece(options: seq<OptionSpec>, v: string, tail: seq<string>) returns (p: Piece, rest: seq<string>)
    requires
      var split := SplitEquals(v);
      Take(options, FindLong(options, split.0), split.1, tail).Some?
    ensures
      var split := SplitEquals(v);
      Take(options, FindLong(options, split.0), split.1, tail) == Some((PieceEvent(p), rest))
    ensures PieceRight(options, p) && [v] + tail == PieceSpelled(options, p) + rest
  {
    var split := SplitEquals(v);
    SplitBack(v);
    var i := FindLong(options, split.0);
    var taken := Take(options, i, split.1, tail).value;
    TakenAs(options, i, split.1, tail);
    hide LongName, Take, SplitEquals, FindLong;
    rest := taken.1;
    p := Named(i, if split.1.Some? then LongEquals else Long, taken.0.value);
  }

  lemma ShortPiece(options: seq<OptionSpec>, v: string, tail: seq<string>) returns (p: Piece, rest: seq<string>)
    requires ShortForm(v) && v != "--" && Take(options, FindShort(options, v[1]), None, tail).Some?
    ensures Take(options, FindShort(options, v[1]), None, tail) == Some((PieceEvent(p), rest))
    ensures PieceRight(options, p) && [v] + tail == PieceSpelled(options, p) + rest
  {
    var i := FindShort(options, v[1]);
    var taken := Take(options, i, None, tail).value;
    TakenAs(options, i, None, tail);
    hide LongName, Take, FindShort;
    rest := taken.1;
    p := Named(i, Short, taken.0.value);
    assert v == ['-', v[1]];
  }

  /** The first word scanned belongs to a piece. */
  lemma PieceFound(options: seq<OptionSpec>, left: seq<string>) returns (p: Piece, rest: seq<string>)
    requires left != [] && left[0] != "--" && Scan(options, left, true).Some?
    ensures PieceRight(options, p) && left == PieceSpelled(options, p) + rest && |rest| < |left|
    ensures ScansFirst(options, left, PieceEvent(p), rest)
  {
    ScanParts(options, left, true);
    var v, tail := left[0], left[1..];
    assert left == [v] + tail;
    BareForms(v);
    hide Scan, Take, SplitEquals, FindLong, FindShort;
    if LongForm(v) {
      hide PieceRight, PieceSpelled, LongForm, ShortForm, PieceEvent;
      p, rest := LongPiece(options, v, tail);
    } else if ShortForm(v) {
      hide PieceRight, PieceSpelled, LongForm, PieceEvent;
      p, rest := ShortPiece(options, v, tail);
    } else {
      p, rest := Bare(v), tail;
    }
  }

  lemma {:induction false} LineFound(options: seq<OptionSpec>, argv: seq<string>) returns (line: Line)
    requires ValidOptions(options) && Scan(options, argv, true).Some?
    ensures LineOf(options, argv, line) && Scan(options, argv, true) == Some(LineEvents(line))
    decreases |argv|
  {
    hide ValidOptions, Scan, PieceRight, PieceSpelled, PieceEvent;
    if argv == [] {
      line := Line([], None);
      LineScans(options, [], None);
    } else if argv[0] == "--" {
      line := Line([], Some(argv[1..]));
      assert argv == [] + (["--"] + argv[1..]);
      LineScans(options, [], Some(argv[1..]));
    } else {
      var p, rest := PieceFound(options, argv);
      var more := LineFound(options, rest);
      line := Line([p] + more.pieces, more.ended);
      assert line.pieces[1..] == more.pieces;
      PieceFirst(options, p, more);
      LineScans(options, line.pieces, line.ended);
    }
  }

  lemma PieceFirst(options: seq<OptionSpec>, p: Piece, more: Line)
    requires PieceRight(options, p) && PiecesRight(options, more.pieces)
    ensures PiecesRight(options, [p] + more.pieces)
    ensures
      LineSpelled(options, Line([p] + more.pieces, more.ended)) == PieceSpelled(options, p) + LineSpelled(options, more)
  {
    hide PieceRight, PieceSpelled;
    var pieces := [p] + more.pieces;
    assert pieces[1..] == more.pieces;
    var tail := if more.ended.Some? then ["--"] + more.ended.value else [];
    assert PieceSpelled(options, p) + PiecesSpelled(options, more.pieces) + tail ==
           PieceSpelled(options, p) + (PiecesSpelled(options, more.pieces) + tail);
  }

  /** Words are scanned to events exactly when a line of the grammar spells the words and means the events. */
  lemma ScanExactly(options: seq<OptionSpec>, argv: seq<string>, events: seq<Event>)
    requires ValidOptions(options)
    ensures Scan(options, argv, true) == Some(events) <==>
      exists line :: LineOf(options, argv, line) && LineEvents(line) == events
  {
    hide ValidOptions, Scan, LineSpelled, LineEvents;
    if line :| LineOf(options, argv, line) && LineEvents(line) == events {
      LineScans(options, line.pieces, line.ended);
    }
    if Scan(options, argv, true) == Some(events) { var line := LineFound(options, argv); }
  }

  // ----- What a line means -----

  lemma {:induction false} PieceMeans(pieces: seq<Piece>, i: nat)
    ensures Words(PieceEvents(pieces)) == BareWords(pieces)
    ensures ValuesFor(PieceEvents(pieces), i) == LineValues(pieces, i)
  {
    if pieces != [] {
      PieceMeans(pieces[1..], i);
      assert PieceEvents(pieces)[1..] == PieceEvents(pieces[1..]);
    }
  }

  lemma {:induction false} WordsMean(words: seq<string>, i: nat)
    ensures Words(WordEvents(words)) == words && ValuesFor(WordEvents(words), i) == []
  {
    if words != [] {
      WordsMean(words[1..], i);
      assert WordEvents(words)[1..] == WordEvents(words[1..]);
      assert words == [words[0]] + words[1..];
    }
  }

  lemma LineMeans(line: Line, i: nat)
    ensures Words(LineEvents(line)) == LineWords(line) && ValuesFor(LineEvents(line), i) == LineValues(line.pieces, i)
  {
    hide Words, ValuesFor, PieceEvents, WordEvents;
    PieceMeans(line.pieces, i);
    var a := PieceEvents(line.pieces);
    if line.ended.Some? {
      var b := WordEvents(line.ended.value);
      WordsMean(line.ended.value, i);
      WordsConcat(a, b);
      ValuesConcat(a, b, i);
      assert LineValues(line.pieces, i) + [] == LineValues(line.pieces, i);
    } else {
      assert a + [] == a && BareWords(line.pieces) + [] == BareWords(line.pieces);
    }
  }

  /** No option but a repeatable one is named twice. */
  ghost predicate NamedOnce(options: seq<OptionSpec>, pieces: seq<Piece>) {
    forall i :: 0 <= i < |options| && !options[i].many ==> |LineValues(pieces, i)| <= 1
  }

  /** A route understands exactly the lines of the grammar with options named once and as many words as it takes. */
  lemma UnderstoodExactly(spec: RouteSpec, argv: seq<string>)
    requires ValidRoute(spec)
    ensures Understood(spec, argv) <==>
      if spec.passthrough then Accepts(spec.arguments, |argv|)
      else
        exists line :: LineOf(spec.options, argv, line) && NamedOnce(spec.options, line.pieces) &&
                       Accepts(spec.arguments, |LineWords(line)|)
  {
    RouteParts(spec);
    hide ValidRoute, ValidOptions, Scan, Accepts, LineEvents, LineWords, LineValues, Words, ValuesFor, LineOf;
    if !spec.passthrough {
      if line :| LineOf(spec.options, argv, line) && NamedOnce(spec.options, line.pieces) &&
                 Accepts(spec.arguments, |LineWords(line)|) {
        ScanExactly(spec.options, argv, LineEvents(line));
        forall i: nat ensures ValuesFor(LineEvents(line), i) == LineValues(line.pieces, i) { LineMeans(line, i); }
        LineMeans(line, 0);
      }
      if Understood(spec, argv) {
        ScanExactly(spec.options, argv, Scan(spec.options, argv, true).value);
        var line :| LineOf(spec.options, argv, line) && LineEvents(line) == Scan(spec.options, argv, true).value;
        forall i: nat ensures ValuesFor(LineEvents(line), i) == LineValues(line.pieces, i) { LineMeans(line, i); }
        LineMeans(line, 0);
      }
    }
  }

  /** What an option comes out as, by what its line gives it. */
  ghost predicate OptionMeans(o: OptionSpec, given: seq<string>, v: ParsedValue) {
    match o.kind
    case BooleanOption =>
      if |given| > 0 then v == Flag(true) else if o.default.Some? then Some(v) == o.default else v == Flag(false)
    case StringOption =>
      if o.many then
        v.Many? && (o.default.Some? ==> o.default.value.Many? && v.values == o.default.value.values + given) &&
        (o.default.None? ==> v.values == given)
      else if |given| > 0 then v == One(given[0])
      else if o.default.Some? then Some(v) == o.default
      else v == One("")
  }

  /** What the argument at a place comes out as. */
  ghost predicate ArgumentMeans(a: ArgumentSpec, i: nat, words: seq<string>, v: ParsedValue) {
    if a.many then v.Many? && (i <= |words| ==> words[..i] + v.values == words) && (i > |words| ==> v.values == [])
    else v.One? && (if i < |words| then v.s == words[i] else v.s == "")
  }

  /** Every option as the line gives it. */
  ghost predicate OptionsMean(options: seq<OptionSpec>, pieces: seq<Piece>, out: map<string, ParsedValue>) {
    forall i :: 0 <= i < |options| ==>
      options[i].id in out && OptionMeans(options[i], LineValues(pieces, i), out[options[i].id])
  }

  /** Every argument as the words give it. */
  ghost predicate ArgumentsMean(arguments: seq<ArgumentSpec>, words: seq<string>, out: map<string, ParsedValue>) {
    forall i :: 0 <= i < |arguments| ==>
      arguments[i].id in out && ArgumentMeans(arguments[i], i, words, out[arguments[i].id])
  }

  /** The parsed options and arguments are those the line gives. */
  lemma ParsedMeans(spec: RouteSpec, argv: seq<string>, line: Line, parsed: Parsed)
    requires ValidRoute(spec) && !spec.passthrough && LineOf(spec.options, argv, line) && Meant(spec, argv, parsed)
    ensures OptionsMean(spec.options, line.pieces, parsed.options)
    ensures ArgumentsMean(spec.arguments, LineWords(line), parsed.arguments)
  {
    RouteParts(spec);
    hide ValidRoute, ValidOptions, Scan, LineEvents, LineWords, Words, LineOf, ValidArguments, Set, Assigned;
    hide OptionsMean, ArgumentsMean, Accepts, NoneRepeated;
    ScanExactly(spec.options, argv, LineEvents(line));
    LineMeans(line, 0);
    SetMeans(spec.options, line, parsed.options);
    AssignedMeans(spec.arguments, LineWords(line), parsed.arguments);
  }

  lemma SetMeans(options: seq<OptionSpec>, line: Line, out: map<string, ParsedValue>)
    requires ValidOptions(options) && Set(options, LineEvents(line), out)
    ensures OptionsMean(options, line.pieces, out)
  {
    hide ValidOption, DistinctOptions, LineEvents, LineValues, ValuesFor, OptionMeans, OptionValue;
    forall i | 0 <= i < |options|
      ensures options[i].id in out && OptionMeans(options[i], LineValues(line.pieces, i), out[options[i].id])
    {
      LineMeans(line, i);
      OptionComes(options[i], LineValues(line.pieces, i));
    }
  }

  lemma AssignedMeans(arguments: seq<ArgumentSpec>, words: seq<string>, out: map<string, ParsedValue>)
    requires Assigned(arguments, words, |arguments|, out)
    ensures ArgumentsMean(arguments, words, out)
  {
    hide ArgumentMeans, ArgumentValue;
    forall i | 0 <= i < |arguments|
      ensures arguments[i].id in out && ArgumentMeans(arguments[i], i, words, out[arguments[i].id])
    {
      ArgumentComes(arguments[i], i, words);
    }
  }

  lemma ArgumentComes(a: ArgumentSpec, i: nat, words: seq<string>)
    ensures ArgumentMeans(a, i, words, ArgumentValue(a, i, words))
  {
    if i <= |words| { assert words[..i] + words[i..] == words; }
  }

  lemma OptionComes(o: OptionSpec, given: seq<string>)
    requires ValidOption(o)
    ensures OptionMeans(o, given, OptionValue(o, given))
  {
    hide Blank, LongName;
    assert [] + given == given;
  }
}
