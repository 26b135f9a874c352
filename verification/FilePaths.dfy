/**
 Logical paths (`file.rs`): normalisation by a segment stack, joining, parents.

 The lemmas set up one picture used by everything after: the normal paths are
 exactly `Path(segments)` for lists of proper segments, one path per list.
 */
module FilePaths {
  import opened Prelude

  datatype FileError =
    | NotFound | AlreadyExists | InvalidPath(message: string) | OutsideRoot | Denied
    | NotDirectory | IsDirectory | DirectoryNotEmpty

  /** `split('/')`: always at least one piece. */
  function Split(s: string): (r: seq<string>)
    ensures r != []
  {
    if s == [] then [[]]
    else
      var rest := Split(s[1..]);
      if s[0] == '/' then [[]] + rest else [[s[0]] + rest[0]] + rest[1..]
  }

  predicate HostDrive(segment: string) {
    |segment| >= 2 && ('a' <= segment[0] <= 'z' || 'A' <= segment[0] <= 'Z') && segment[1] == ':'
  }

  /** The stack of segments a list of pieces leaves. */
  function Reduce(pieces: seq<string>, stack: seq<string>): Result<seq<string>, FileError>
    decreases |pieces|
  {
    if pieces == [] then Ok(stack)
    else if pieces[0] == "" || pieces[0] == "." then Reduce(pieces[1..], stack)
    else if pieces[0] == ".." then
      if stack == [] then Err(OutsideRoot) else Reduce(pieces[1..], stack[..|stack| - 1])
    else if HostDrive(pieces[0]) then Err(InvalidPath("logical paths do not accept host drive prefixes"))
    else Reduce(pieces[1..], stack + [pieces[0]])
  }

  function Render(segments: seq<string>): string {
    if segments == [] then "" else "/" + segments[0] + Render(segments[1..])
  }

  function Path(segments: seq<string>): string {
    if segments == [] then "/" else Render(segments)
  }

  function Normalise(path: string): Result<string, FileError> {
    if '\0' in path then Err(InvalidPath("logical path contains NUL"))
    else if '\\' in path then Err(InvalidPath("logical paths use '/' rather than host separators"))
    else
      match Reduce(Split(path), [])
      case Err(e) => Err(e)
      case Ok(stack) => Ok(Path(stack))
  }

  // ----- Proper segments -----

  predicate Clean(s: string) { '/' !in s && '\0' !in s && '\\' !in s }

  predicate Segment(s: string) {
    s != "" && s != "." && s != ".." && Clean(s) && !HostDrive(s)
  }

  predicate Segments(s: seq<string>) { forall i :: 0 <= i < |s| ==> Segment(s[i]) }

  lemma {:induction false} SplitClean(s: string)
    requires '\0' !in s && '\\' !in s
    ensures forall i :: 0 <= i < |Split(s)| ==> Clean(Split(s)[i])
  {
    if s != [] {
      SplitClean(s[1..]);
      assert Clean(Split(s[1..])[0]);
    }
  }

  lemma {:induction false} ReduceProper(pieces: seq<string>, stack: seq<string>)
    requires Segments(stack) && forall i :: 0 <= i < |pieces| ==> Clean(pieces[i])
    ensures Reduce(pieces, stack).Ok? ==> Segments(Reduce(pieces, stack).value)
    decreases |pieces|
  {
    if pieces != [] {
      assert Clean(pieces[0]);
      if pieces[0] == "" || pieces[0] == "." {
        ReduceProper(pieces[1..], stack);
      } else if pieces[0] == ".." {
        if stack != [] { ReduceProper(pieces[1..], stack[..|stack| - 1]); }
      } else if !HostDrive(pieces[0]) {
        ReduceProper(pieces[1..], stack + [pieces[0]]);
      }
    }
  }

  lemma {:induction false} ReduceSegments(segments: seq<string>, stack: seq<string>)
    requires Segments(segments)
    ensures Reduce(segments, stack) == Ok(stack + segments)
    decreases |segments|
  {
    if segments == [] {
      assert stack + [] == stack;
    } else {
      ReduceSegments(segments[1..], stack + [segments[0]]);
      assert stack + [segments[0]] + segments[1..] == stack + segments;
    }
  }

  lemma {:induction false} SplitPrefix(a: string, rest: string)
    requires '/' !in a
    ensures Split(a + "/" + rest) == [a] + Split(rest)
  {
    if a == [] {
      assert a + "/" + rest == "/" + rest;
      assert ("/" + rest)[1..] == rest;
    } else {
      SplitPrefix(a[1..], rest);
      assert (a + "/" + rest)[1..] == a[1..] + "/" + rest;
      assert [a[0]] + a[1..] == a;
    }
  }

  lemma {:induction false} SplitWhole(a: string)
    requires '/' !in a
    ensures Split(a) == [a]
  {
    if a != [] {
      SplitWhole(a[1..]);
      assert [a[0]] + a[1..] == a;
    }
  }

  lemma {:induction false} RenderAppend(s: seq<string>, t: seq<string>)
    ensures Render(s + t) == Render(s) + Render(t)
  {
    if s == [] {
      assert s + t == t;
    } else {
      RenderAppend(s[1..], t);
      assert (s + t)[1..] == s[1..] + t;
    }
  }

  lemma RenderOne(x: string)
    ensures Render([x]) == "/" + x
  {
    assert [x][1..] == [];
  }

  lemma RenderLast(s: seq<string>)
    requires s != []
    ensures Render(s) == Render(s[..|s| - 1]) + "/" + s[|s| - 1]
  {
    hide Render;
    var x := s[|s| - 1];
    assert s == s[..|s| - 1] + [x];
    RenderAppend(s[..|s| - 1], [x]);
    RenderOne(x);
  }

  /** Splitting a rendered list, followed by a slash, gives the list back and goes on. */
  lemma {:induction false} SplitRenderRest(s: seq<string>, rest: string)
    requires Segments(s)
    ensures Split(Render(s) + "/" + rest) == [""] + s + Split(rest)
    decreases |s|
  {
    hide Split;
    if s == [] {
      SplitPrefix("", rest);
      assert Render(s) == "";
      assert [""] + s == [""];
    } else {
      hide Render;
      var front, x := s[..|s| - 1], s[|s| - 1];
      RenderLast(s);
      SplitRenderRest(front, x + "/" + rest);
      assert Segment(s[|s| - 1]);
      SplitPrefix(x, rest);
      assert Render(s) + "/" + rest == Render(front) + "/" + (x + "/" + rest);
      assert [""] + front + ([x] + Split(rest)) == [""] + s + Split(rest);
    }
  }

  lemma SplitRender(segments: seq<string>)
    requires segments != [] && Segments(segments)
    ensures Split(Render(segments)) == [""] + segments
  {
    hide Split, Render;
    var front, x := segments[..|segments| - 1], segments[|segments| - 1];
    RenderLast(segments);
    SplitRenderRest(front, x);
    assert Segment(segments[|segments| - 1]);
    SplitWhole(x);
    assert [""] + front + [x] == [""] + segments;
  }

  lemma {:induction false} RenderClean(segments: seq<string>)
    requires Segments(segments)
    ensures '\0' !in Render(segments) && '\\' !in Render(segments)
  {
    if segments != [] { RenderClean(segments[1..]); }
  }

  /** A path of proper segments is already normal. */
  lemma PathIsNormal(segments: seq<string>)
    requires Segments(segments)
    ensures Reduce(Split(Path(segments)), []) == Ok(segments)
    ensures Normalise(Path(segments)) == Ok(Path(segments))
  {
    if segments == [] {
      assert Split("/") == ["", ""] by { assert "/"[1..] == ""; }
      assert ["", ""][1..] == [""] && [""][1..] == [];
    } else {
      SplitRender(segments);
      RenderClean(segments);
      assert ([""] + segments)[1..] == segments;
      ReduceSegments(segments, []);
      assert [] + segments == segments;
    }
  }

  /** The normal paths are the fixed points of normalisation. */
  predicate Normal(path: string) { Normalise(path) == Ok(path) }

  function SegmentsOf(path: string): (r: seq<string>)
    requires Normal(path)
    ensures Segments(r) && Path(r) == path
  {
    SplitClean(path);
    ReduceProper(Split(path), []);
    Reduce(Split(path), []).value
  }

  lemma NormaliseIdempotent(path: string)
    requires Normalise(path).Ok?
    ensures Normal(Normalise(path).value)
  {
    SplitClean(path);
    ReduceProper(Split(path), []);
    PathIsNormal(Reduce(Split(path), []).value);
  }

  /** One path per list of segments. */
  lemma PathInjective(s: seq<string>, t: seq<string>)
    requires Segments(s) && Segments(t) && Path(s) == Path(t)
    ensures s == t
  {
    PathIsNormal(s);
    PathIsNormal(t);
  }

  // ----- Parents, joins -----

  function LastSlash(s: string): (i: int)
    ensures -1 <= i < |s| && (i >= 0 ==> s[i] == '/') && forall j :: i < j < |s| ==> s[j] != '/'
    decreases |s|
  {
    if s == [] then -1 else if s[|s| - 1] == '/' then |s| - 1 else LastSlash(s[..|s| - 1])
  }

  /** `logical_parent`: None for the root. */
  function Parent(path: string): Result<Option<string>, FileError> {
    match Normalise(path)
    case Err(e) => Err(e)
    case Ok(p) =>
      if p == "/" then Ok(None)
      else
        var i := LastSlash(p);
        Ok(Some(if i <= 0 then "/" else p[..i]))
  }

  /** The last slash of a path stands before its last segment. */
  lemma {:induction false} LastSlashAt(front: string, x: string)
    requires '/' !in x
    ensures LastSlash(front + "/" + x) == |front|
    decreases |x|
  {
    var p := front + "/" + x;
    if x == [] {
      assert p[|p| - 1] == '/';
    } else {
      var init := x[..|x| - 1];
      assert p[..|p| - 1] == front + "/" + init;
      assert p[|p| - 1] == x[|x| - 1];
      LastSlashAt(front, init);
    }
  }

  lemma ParentOfPath(s: seq<string>, x: string)
    requires Segments(s + [x])
    ensures Path(s + [x]) != "/" && Parent(Path(s + [x])) == Ok(Some(Path(s)))
  {
    var t := s + [x];
    var p := Path(t);
    PathIsNormal(t);
    assert Segment(t[|s|]);
    RenderLast(t);
    assert t[..|s|] == s;
    hide Segments, Normalise, LastSlash;
    assert p == Render(s) + "/" + x;
    LastSlashAt(Render(s), x);
    assert p[..|Render(s)|] == Render(s);
    RenderNonEmpty(s);
  }

  lemma RenderNonEmpty(s: seq<string>)
    ensures Path(s) == if |Render(s)| == 0 then "/" else Render(s)
  {
  }

  function TrimStart(s: string): string { if s != [] && s[0] == '/' then TrimStart(s[1..]) else s }

  function TrimEnd(s: string): string
    decreases |s|
  {
    if s != [] && s[|s| - 1] == '/' then TrimEnd(s[..|s| - 1]) else s
  }

  function Join(base: string, path: string): Result<string, FileError> {
    match Normalise(base)
    case Err(e) => Err(e)
    case Ok(b) => Normalise(TrimEnd(b) + "/" + TrimStart(path))
  }

  function Resolve(base: string, path: string): Result<string, FileError> {
    if path != [] && path[0] == '/' then Normalise(path) else Join(base, path)
  }

  lemma {:induction false} RenderEnd(s: seq<string>)
    requires s != [] && Segments(s)
    ensures Render(s) != [] && Render(s)[|Render(s)| - 1] != '/'
  {
    assert Segment(s[0]);
    if |s| > 1 {
      RenderEnd(s[1..]);
    } else {
      assert Render(s) == "/" + s[0];
      assert s[0][|s[0]| - 1] in s[0];
    }
  }

  /** Resolving a proper segment against a directory appends it. */
  lemma ResolveChild(s: seq<string>, x: string)
    requires Segments(s) && Segment(x)
    ensures Resolve(Path(s), x) == Ok(Path(s + [x]))
  {
    PathIsNormal(s);
    PathIsNormal(s + [x]);
    assert x[0] in x;
    assert TrimStart(x) == x;
    RenderAppend(s, [x]);
    assert [x][1..] == [];
    if s == [] {
      assert TrimEnd("/") == "" by { assert "/"[..0] == ""; }
      assert "" + "/" + x == Render([x]);
      assert s + [x] == [x];
    } else {
      RenderEnd(s);
      assert TrimEnd(Path(s)) == Path(s);
      assert Path(s) + "/" + x == Path(s + [x]);
    }
  }

  // ----- Prefixes -----

  lemma BelowRenders(s: seq<string>, t: seq<string>)
    requires s < t
    ensures Render(s) + "/" <= Render(t)
  {
    var rest := t[|s|..];
    assert t == s + rest;
    RenderAppend(s, rest);
    hide Render;
    HeadSlash(rest);
    assert Render(t) == (Render(s) + "/") + Render(rest)[1..];
  }

  lemma HeadSlash(s: seq<string>)
    requires s != []
    ensures Render(s) != [] && Render(s) == "/" + Render(s)[1..]
  {
    assert Render(s) == "/" + (s[0] + Render(s[1..]));
  }

  lemma PrefixIsBelow(s: seq<string>, t: seq<string>)
    requires Segments(s) && Segments(t) && t != [] && Render(s) + "/" <= Render(t)
    ensures s < t
  {
    hide Split, Render, Segments;
    var rest := Render(t)[|Render(s)| + 1..];
    assert Render(t) == Render(s) + "/" + rest;
    SplitRenderRest(s, rest);
    SplitRender(t);
    assert ([""] + t)[1..] == t;
    assert ([""] + s + Split(rest))[1..] == s + Split(rest);
  }

  /** `starts_with("{path}/")` holds of exactly the paths strictly below. */
  lemma BelowIsPrefix(s: seq<string>, t: seq<string>)
    requires s != [] && Segments(s) && Segments(t)
    ensures Path(s) + "/" <= Path(t) <==> s < t
  {
    HeadSlash(s);
    if s < t { BelowRenders(s, t); }
    if t != [] && Render(s) + "/" <= Render(t) { PrefixIsBelow(s, t); }
  }
}
