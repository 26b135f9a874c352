/**
 What the filesystem promises: one tree over every run, failures that change
 nothing, and a move that carries a subtree over unharmed.
 */
module FileLaws {
  import opened Prelude
  import opened FilePaths
  import opened FileTree

  // ----- Making parents -----

  lemma {:induction false} NonEmptySegments(s: seq<string>)
    requires Segments(s)
    ensures NonEmpty(s) == s
  {
    if s != [] {
      assert Segment(s[0]);
      NonEmptySegments(s[1..]);
    }
  }

  lemma TrimPath(s: seq<string>)
    requires Segments(s) && s != []
    ensures Path(s) == "/" + TrimStart(Path(s))
  {
    var rest := s[0] + Render(s[1..]);
    assert Segment(s[0]);
    assert s[0][0] in s[0];
    assert Render(s) == "/" + rest;
    assert Render(s)[1..] == rest;
    assert rest[0] != '/';
  }

  /** The directory loop visits the segments of the parent. */
  lemma PiecesOfPath(s: seq<string>)
    requires Segments(s)
    ensures Pieces(Path(s)) == s
  {
    if s == [] {
      assert TrimStart("/") == "" by { assert "/"[1..] == ""; }
      assert Split("") == [""];
      assert NonEmpty([""]) == [] by { assert [""][1..] == []; }
    } else {
      TrimPath(s);
      SplitRender(s);
      hide Split, Render, TrimStart, NonEmpty;
      var rest := TrimStart(Path(s));
      assert Render(s) == "" + "/" + rest;
      SplitPrefix("", rest);
      assert ([""] + s)[1..] == s;
      assert ([""] + Split(rest))[1..] == Split(rest);
      NonEmptySegments(s);
    }
  }

  predicate FileAt(nodes: Nodes, p: string) { p in nodes && nodes[p].File? }

  /** A file stands where a directory is wanted. */
  ghost predicate Blocked(nodes: Nodes, done: seq<string>, todo: seq<string>) {
    exists k :: 1 <= k <= |todo| && FileAt(nodes, Path(done + todo[..k]))
  }

  /** Nothing lies below a missing node. */
  lemma NothingBelowMissing(nodes: Nodes, s: seq<string>, t: seq<string>)
    requires Tree(nodes) && Segments(t) && s < t && Path(s) !in nodes
    ensures Path(t) !in nodes
  {
    assert s == t[..|s|];
    if Path(t) in nodes { TreeUp(nodes, t, |s|); }
  }

  /** Below a directory just made there is no file, so nothing after it can fail. */
  lemma FreshUnblocked(nodes: Nodes, here: seq<string>, rest: seq<string>, now: int)
    requires !Blocked(nodes, here, rest)
    ensures !Blocked(nodes[Path(here) := Directory(now)], here, rest)
  {
    hide Path;
    forall k | 1 <= k <= |rest| ensures !FileAt(nodes[Path(here) := Directory(now)], Path(here + rest[..k])) {
      assert !FileAt(nodes, Path(here + rest[..k]));
    }
  }

  lemma BlockedStep(nodes: Nodes, done: seq<string>, todo: seq<string>)
    requires todo != []
    ensures Blocked(nodes, done, todo) <==>
      FileAt(nodes, Path(done + [todo[0]])) || Blocked(nodes, done + [todo[0]], todo[1..])
  {
    hide Path;
    var here, rest := done + [todo[0]], todo[1..];
    assert todo[..1] == [todo[0]];
    forall k | 1 <= k <= |rest| ensures here + rest[..k] == done + todo[..k + 1] {
      assert todo[..k + 1] == [todo[0]] + rest[..k];
    }
    if Blocked(nodes, done, todo) {
      var k :| 1 <= k <= |todo| && FileAt(nodes, Path(done + todo[..k]));
      if k > 1 { assert here + rest[..k - 1] == done + todo[..k]; }
    }
  }

  lemma MakeDirsParts(nodes: Nodes, done: seq<string>, todo: seq<string>, now: int)
    requires Segments(done + todo) && todo != []
    ensures done + [todo[0]] + todo[1..] == done + todo
    ensures Segments(done + [todo[0]])
    ensures (done + [todo[0]])[..|done + [todo[0]]| - 1] == done
  {
    var here := done + [todo[0]];
    assert here == (done + todo)[..|done| + 1];
    PrefixSegments(done + todo, |done| + 1);
  }

  /** The directory loop fails exactly when a file is in the way, and then has changed nothing. */
  lemma {:induction false} MakeDirsFails(nodes: Nodes, done: seq<string>, todo: seq<string>, now: int)
    requires Tree(nodes) && Segments(done + todo) && DirectoryAt(nodes, Path(done))
    ensures MakeDirs(nodes, done, todo, now).answer.Err? <==> Blocked(nodes, done, todo)
    ensures MakeDirs(nodes, done, todo, now).answer.Err? ==>
              MakeDirs(nodes, done, todo, now) == Outcome(Err(NotDirectory), nodes)
    decreases |todo|
  {
    hide Path, Segments, Tree, Blocked;
    if todo == [] {
      assert !Blocked(nodes, done, todo) by { NoneBlocked(nodes, done); }
    } else {
      var here, rest := done + [todo[0]], todo[1..];
      var p := Path(here);
      MakeDirsParts(nodes, done, todo, now);
      BlockedStep(nodes, done, todo);
      if p !in nodes {
        TreeInsert(nodes, here, Directory(now));
        NotBlockedBelow(nodes, here, rest);
        FreshUnblocked(nodes, here, rest, now);
        MakeDirsFails(nodes[p := Directory(now)], here, rest, now);
      } else if nodes[p].Directory? {
        MakeDirsFails(nodes, here, rest, now);
      }
    }
  }

  lemma NoneBlocked(nodes: Nodes, done: seq<string>)
    ensures !Blocked(nodes, done, [])
  {
  }

  lemma NotBlockedBelow(nodes: Nodes, here: seq<string>, rest: seq<string>)
    requires Tree(nodes) && Segments(here + rest) && Path(here) !in nodes
    ensures !Blocked(nodes, here, rest)
  {
    hide Tree, Path, Segments;
    forall k | 1 <= k <= |rest| ensures !FileAt(nodes, Path(here + rest[..k])) {
      var t := here + rest[..k];
      assert t == (here + rest)[..|here| + k];
      PrefixSegments(here + rest, |here| + k);
      assert here < t;
      NothingBelowMissing(nodes, here, t);
    }
  }

  /** `after` is `nodes` with new directories on the way to `s`. */
  ghost predicate Extends(nodes: Nodes, after: Nodes, s: seq<string>, now: int) {
    (forall p | p in nodes :: p in after && after[p] == nodes[p]) &&
    forall p | p in after && p !in nodes :: after[p] == Directory(now) && OnTheWay(p, s)
  }

  ghost predicate OnTheWay(p: string, s: seq<string>) {
    exists k :: 0 <= k <= |s| && p == Path(s[..k])
  }

  /** A directory loop that succeeds adds the missing directories and nothing else. */
  lemma {:induction false} MakeDirsWorks(nodes: Nodes, done: seq<string>, todo: seq<string>, now: int)
    requires Tree(nodes) && Segments(done + todo) && DirectoryAt(nodes, Path(done))
    requires MakeDirs(nodes, done, todo, now).answer.Ok?
    ensures
      var after := MakeDirs(nodes, done, todo, now).nodes;
      Tree(after) && DirectoryAt(after, Path(done + todo)) && Extends(nodes, after, done + todo, now)
    decreases |todo|
  {
    hide Path, Segments, Tree, OnTheWay;
    if todo == [] {
      assert done + todo == done;
    } else {
      var here, rest := done + [todo[0]], todo[1..];
      var p := Path(here);
      MakeDirsParts(nodes, done, todo, now);
      if p !in nodes {
        TreeInsert(nodes, here, Directory(now));
        MakeDirsWorks(nodes[p := Directory(now)], here, rest, now);
        assert OnTheWay(p, done + todo) by { PrefixOnTheWay(here, done + todo); }
      } else {
        MakeDirsWorks(nodes, here, rest, now);
      }
    }
  }

  lemma PrefixOnTheWay(t: seq<string>, s: seq<string>)
    requires t <= s
    ensures OnTheWay(Path(t), s)
  {
    assert t == s[..|t|];
  }

  function Front(s: seq<string>): seq<string>
    requires s != []
  {
    s[..|s| - 1]
  }

  /** When `ensure_parent` succeeds. */
  ghost predicate ParentReady(nodes: Nodes, s: seq<string>, parents: bool)
    requires s != []
  {
    if parents then !Blocked(nodes, [], Front(s)) else DirectoryAt(nodes, Path(Front(s)))
  }

  lemma NothingAdded(nodes: Nodes, s: seq<string>, now: int)
    requires Tree(nodes)
    ensures DirectoryAt(nodes, Path([])) && Extends(nodes, nodes, s, now)
  {
  }

  lemma EnsureParentParts(nodes: Nodes, s: seq<string>, now: int)
    requires Segments(s) && s != []
    ensures Segments(Front(s)) && [] + Front(s) == Front(s)
    ensures Parent(Path(s)) == Ok(Some(Path(Front(s))))
    ensures Pieces(Path(Front(s))) == Front(s)
    ensures Path(s) != "/"
  {
    PrefixSegments(s, |s| - 1);
    hide Path, Segments, Normalise;
    assert s == Front(s) + [s[|s| - 1]];
    ParentOfPath(Front(s), s[|s| - 1]);
    PiecesOfPath(Front(s));
  }

  /** `ensure_parent` either changes nothing or leaves a tree in which the parent is a directory. */
  lemma EnsureParentEffect(nodes: Nodes, s: seq<string>, parents: bool, now: int)
    requires Tree(nodes) && Segments(s) && s != []
    ensures var e := EnsureParent(nodes, Path(s), parents, now);
      (e.answer.Ok? <==> ParentReady(nodes, s, parents)) &&
      (e.answer.Err? ==> e.nodes == nodes) &&
      (e.answer.Ok? ==>
         Tree(e.nodes) && DirectoryAt(e.nodes, Path(Front(s))) && Extends(nodes, e.nodes, Front(s), now))
  {
    hide Path, Segments, Parent, Pieces, Tree, MakeDirs, Blocked, Front, Extends;
    EnsureParentParts(nodes, s, now);
    NothingAdded(nodes, Front(s), now);
    MakeDirsFails(nodes, [], Front(s), now);
    if MakeDirs(nodes, [], Front(s), now).answer.Ok? {
      MakeDirsWorks(nodes, [], Front(s), now);
    }
  }

  /** Nothing is made above a node that exists. */
  lemma ExtendsNothing(nodes: Nodes, after: Nodes, s: seq<string>, now: int)
    requires Tree(nodes) && Segments(s) && s != [] && Path(s) in nodes
    requires Extends(nodes, after, Front(s), now)
    ensures after == nodes
  {
    hide Path, Segments, Tree;
    forall p | p in after ensures p in nodes {
      if p !in nodes {
        var k :| 0 <= k <= |Front(s)| && p == Path(Front(s)[..k]);
        assert Front(s)[..k] == s[..k];
        TreeUp(nodes, s, k);
      }
    }
  }

  /** `ensure_parent` leaves the node itself alone. */
  lemma ExtendsApart(nodes: Nodes, after: Nodes, s: seq<string>, t: seq<string>, now: int)
    requires Segments(s) && Segments(t) && Extends(nodes, after, s, now) && !(t <= s)
    ensures Path(t) in after <==> Path(t) in nodes
  {
    hide Path, Segments;
    if Path(t) in after && Path(t) !in nodes {
      var k :| 0 <= k <= |s| && Path(t) == Path(s[..k]);
      PrefixSegments(s, k);
      PathInjective(t, s[..k]);
    }
  }

  // ----- Write, mkdir, delete, copy -----

  function Normalised(path: string): (p: string)
    requires Normalise(path).Ok?
    ensures Normal(p)
  {
    NormaliseIdempotent(path);
    Normalise(path).value
  }

  lemma NormalSegments(p: string)
    requires Normal(p)
    ensures var s := SegmentsOf(p); Segments(s) && Path(s) == p && (s == [] <==> p == "/")
  {
    RootIsEmpty(SegmentsOf(p));
  }

  /** When a write goes through: a caller can tell from the map alone. */
  ghost predicate Writable(nodes: Nodes, path: string, mode: WriteMode, parents: bool) {
    Normalise(path).Ok? &&
    var p := Normalised(path);
    SegmentsOf(p) != [] && ParentReady(nodes, SegmentsOf(p), parents) &&
    (p in nodes ==> nodes[p].File? && mode != Create)
  }

  /** A write that goes through sets one file; one that fails sets nothing. */
  lemma WriteEffect(nodes: Nodes, path: string, bytes: Data, mode: WriteMode, parents: bool, now: int)
    requires Tree(nodes)
    ensures
      var w := Write(nodes, path, bytes, mode, parents, now);
      Tree(w.nodes) &&
      (w.answer.Ok? <==> Writable(nodes, path, mode, parents)) &&
      (w.answer.Err? ==> w.nodes == nodes) &&
      (w.answer.Ok? ==>
         var p := Normalised(path);
         w.answer.value == p && p in w.nodes &&
         w.nodes[p] == File((if mode == Append && p in nodes then nodes[p].bytes else []) + bytes, now) &&
         Extends(nodes - {p}, w.nodes - {p}, Front(SegmentsOf(p)), now))
  {
    if Normalise(path).Ok? {
      var p := Normalised(path);
      NormalSegments(p);
      var s := SegmentsOf(p);
      hide Path, Segments, Normalise, Tree, SegmentsOf, EnsureParent, ParentReady, OnTheWay, Front;
      if s != [] {
        var e := EnsureParent(nodes, p, parents, now);
        EnsureParentEffect(nodes, s, parents, now);
        if e.answer.Ok? {
          WriteIntoParent(nodes, e.nodes, s, bytes, mode, now);
        }
      }
    }
  }

  lemma WriteIntoParent(nodes: Nodes, ensured: Nodes, s: seq<string>, bytes: Data, mode: WriteMode, now: int)
    requires Tree(nodes) && Segments(s) && s != [] && Tree(ensured)
    requires DirectoryAt(ensured, Path(Front(s))) && Extends(nodes, ensured, Front(s), now)
    ensures
      var p := Path(s);
      var w := PutFile(ensured, p, bytes, mode, now);
      Tree(w.nodes) &&
      (w.answer.Ok? <==> (p in nodes ==> nodes[p].File? && mode != Create)) &&
      (w.answer.Err? ==> w.nodes == nodes) &&
      (w.answer.Ok? ==>
         w.answer.value == p && p in w.nodes &&
         w.nodes[p] == File((if mode == Append && p in nodes then nodes[p].bytes else []) + bytes, now) &&
         Extends(nodes - {p}, w.nodes - {p}, Front(s), now))
  {
    hide Path, Segments, Tree, Extends;
    var p := Path(s);
    PrefixSegments(s, |s| - 1);
    ExtendsApart(nodes, ensured, Front(s), s, now);
    if p in nodes { ExtendsNothing(nodes, ensured, s, now); }
    var w := PutFile(ensured, p, bytes, mode, now);
    if w.answer.Ok? {
      TreeInsert(ensured, s, w.nodes[p]);
      ExtendsElsewhere(nodes, ensured, Front(s), p, w.nodes[p], now);
      assert [] + bytes == bytes;
    }
  }

  lemma ExtendsElsewhere(nodes: Nodes, after: Nodes, s: seq<string>, p: string, node: Node, now: int)
    requires Extends(nodes, after, s, now)
    ensures Extends(nodes - {p}, after[p := node] - {p}, s, now)
  {
    hide OnTheWay;
  }

  ghost predicate Makeable(nodes: Nodes, path: string, parents: bool, existsOk: bool) {
    Normalise(path).Ok? &&
    var p := Normalised(path);
    if p in nodes then nodes[p].Directory? && existsOk
    else SegmentsOf(p) != [] && ParentReady(nodes, SegmentsOf(p), parents)
  }

  lemma MkdirEffect(nodes: Nodes, path: string, parents: bool, existsOk: bool, now: int)
    requires Tree(nodes)
    ensures
      var m := Mkdir(nodes, path, parents, existsOk, now);
      Tree(m.nodes) &&
      (m.answer.Ok? <==> Makeable(nodes, path, parents, existsOk)) &&
      (m.answer.Err? ==> m.nodes == nodes) &&
      (m.answer.Ok? ==>
         var p := Normalised(path);
         m.answer.value == p && DirectoryAt(m.nodes, p) && Extends(nodes, m.nodes, SegmentsOf(p), now))
  {
    if Normalise(path).Ok? {
      var p := Normalised(path);
      NormalSegments(p);
      var s := SegmentsOf(p);
      if p !in nodes && s != [] {
        var e := EnsureParent(nodes, p, parents, now);
        EnsureParentEffect(nodes, s, parents, now);
        hide Path, Segments, Normalise, Tree, SegmentsOf, EnsureParent, ParentReady, OnTheWay;
        if e.answer.Ok? {
          TreeInsert(e.nodes, s, Directory(now));
          ExtendsLast(nodes, e.nodes, s, now);
        }
      }
    }
  }

  lemma ExtendsLast(nodes: Nodes, after: Nodes, s: seq<string>, now: int)
    requires s != [] && Path(s) !in nodes && Extends(nodes, after, Front(s), now)
    ensures Extends(nodes, after[Path(s) := Directory(now)], s, now)
  {
    hide Path;
    var last := after[Path(s) := Directory(now)];
    PrefixOnTheWay(s, s);
    forall p | p in last && p !in nodes && p != Path(s) ensures OnTheWay(p, s) {
      var k :| 0 <= k <= |Front(s)| && p == Path(Front(s)[..k]);
      assert Front(s)[..k] == s[..k];
    }
  }

  /** A delete takes away one file or one empty directory, or nothing. */
  lemma DeleteEffect(nodes: Nodes, path: string, missingOk: bool)
    requires Tree(nodes)
    ensures
      var d := Delete(nodes, path, missingOk);
      Tree(d.nodes) && (d.answer.Err? ==> d.nodes == nodes) &&
      (d.answer.Ok? <==>
         Normalise(path).Ok? && Normalise(path).value != "/" &&
         (Normalise(path).value in nodes || missingOk) &&
         !(DirectoryAt(nodes, Normalise(path).value) && HasBelow(nodes, Normalise(path).value))) &&
      (d.answer.Ok? ==> d.answer == Normalise(path) && d.nodes == nodes - {d.answer.value})
  {
    if Normalise(path).Ok? {
      var p := Normalised(path);
      NormalSegments(p);
      var s := SegmentsOf(p);
      if p in nodes && s != [] {
        if nodes[p].File? { FileHasNothingBelow(nodes, s); }
        hide Path, Segments, Normalise, Tree, SegmentsOf, HasBelow;
        if !HasBelow(nodes, p) { TreeRemove(nodes, s); }
      }
    }
  }

  lemma FileHasNothingBelow(nodes: Nodes, s: seq<string>)
    requires Tree(nodes) && Segments(s) && s != [] && FileAt(nodes, Path(s))
    ensures !HasBelow(nodes, Path(s))
  {
    hide Path, Segments, Normalise;
    forall q | q in nodes ensures !(Path(s) + "/" <= q) {
      NormalSegments(q);
      var t := SegmentsOf(q);
      BelowIsPrefix(s, t);
      if s < t {
        assert s == t[..|s|];
        TreeUp(nodes, t, |s|);
      }
    }
  }

  /** A copy that goes through duplicates the bytes and leaves the source; one that fails does nothing. */
  lemma CopyEffect(nodes: Nodes, source: string, target: string, replace: bool, parents: bool, preserve: bool, now: int)
    requires Tree(nodes)
    ensures
      var c := Copy(nodes, source, target, replace, parents, preserve, now);
      Tree(c.nodes) && (c.answer.Err? ==> c.nodes == nodes) &&
      (c.answer.Ok? <==>
         Normalise(source).Ok? && FileAt(nodes, Normalise(source).value) &&
         Normalise(target).Ok? && Normalise(target) != Normalise(source) &&
         Writable(nodes, target, if replace then Replace else Create, parents)) &&
      (c.answer.Ok? ==>
         var s, t := Normalised(source), Normalised(target);
         c.answer.value == t && FileAt(nodes, s) && s in c.nodes && c.nodes[s] == nodes[s] &&
         t in c.nodes && c.nodes[t] == File(nodes[s].bytes, if preserve then nodes[s].modified else now) &&
         Extends(nodes - {t}, c.nodes - {t}, Front(SegmentsOf(t)), now))
  {
    if Normalise(source).Ok? && Normalise(target).Ok? {
      var s, t := Normalised(source), Normalised(target);
      var mode := if replace then Replace else Create;
      assert Normalised(t) == t;
      assert Writable(nodes, t, mode, parents) <==> Writable(nodes, target, mode, parents);
      hide Path, Normalise, Tree, SegmentsOf, Writable, Write, Extends, Front;
      if FileAt(nodes, s) && s != t {
        CopyFile(nodes, s, t, mode, parents, preserve, now);
      }
    }
  }

  lemma CopyFile(nodes: Nodes, s: string, t: string, mode: WriteMode, parents: bool, preserve: bool, now: int)
    requires Tree(nodes) && FileAt(nodes, s) && Normal(t) && s != t && mode != Append
    ensures
      var w := Write(nodes, t, nodes[s].bytes, mode, parents, now);
      var after := if w.answer.Ok? && preserve then Stamp(w.nodes, t, nodes[s].modified) else w.nodes;
      Tree(after) && (w.answer.Ok? <==> Writable(nodes, t, mode, parents)) &&
      (w.answer.Err? ==> after == nodes) &&
      (w.answer.Ok? ==>
         w.answer.value == t && s in after && after[s] == nodes[s] && t in after &&
         after[t] == File(nodes[s].bytes, if preserve then nodes[s].modified else now) &&
         Extends(nodes - {t}, after - {t}, Front(SegmentsOf(t)), now))
  {
    hide Path, Tree, SegmentsOf, Write, Extends, ParentReady, Normalise, Segments;
    WriteEffect(nodes, t, nodes[s].bytes, mode, parents, now);
    assert Normalised(t) == t;
    var w := Write(nodes, t, nodes[s].bytes, mode, parents, now);
    assert [] + nodes[s].bytes == nodes[s].bytes;
    if w.answer.Ok? {
      ExtendsKeeps(nodes - {t}, w.nodes - {t}, Front(SegmentsOf(t)), s, now);
      if preserve {
        StampKeepsTree(w.nodes, t, nodes[s].modified);
        assert Stamp(w.nodes, t, nodes[s].modified) - {t} == w.nodes - {t};
      }
    }
  }

  lemma ExtendsKeeps(nodes: Nodes, after: Nodes, s: seq<string>, p: string, now: int)
    requires Extends(nodes, after, s, now) && p in nodes
    ensures p in after && after[p] == nodes[p]
  {
  }

  lemma StampKeepsTree(nodes: Nodes, t: string, modified: int)
    requires Tree(nodes) && FileAt(nodes, t)
    ensures Tree(Stamp(nodes, t, modified))
  {
    NormalSegments(t);
    var s := SegmentsOf(t);
    hide Path, Segments, Normalise;
    TreeStep(nodes, s);
    TreeInsert(nodes, s, File(nodes[t].bytes, modified));
  }
}
