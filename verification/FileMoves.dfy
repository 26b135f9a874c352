/** Moves: what a failed one leaves, what a successful one carries, and every run of operations. */
module FileMoves {
  import opened Prelude
  import opened FilePaths
  import opened FileTree
  import opened FileLaws

  // ----- Relocation on segment lists -----

  lemma BelowBySegments(a: seq<string>, c: seq<string>)
    requires Segments(a) && Segments(c) && a != []
    ensures AtOrBelow(Path(a), Path(c)) <==> a <= c
  {
    BelowIsPrefix(a, c);
    hide Path, Segments;
    if Path(a) == Path(c) { PathInjective(a, c); }
    if a <= c && !(a < c) { assert a == c; }
  }

  lemma RelocatedPath(a: seq<string>, b: seq<string>, u: seq<string>)
    requires a != [] && b != []
    ensures Path(a) <= Path(a + u)
    ensures Relocated(Path(a), Path(b), Path(a + u)) == Path(b + u)
  {
    hide Render;
    RenderAppend(a, u);
    RenderAppend(b, u);
    assert Path(a + u)[|Path(a)|..] == Render(u);
  }

  /** Two lists of which neither starts with the other. */
  predicate Apart(a: seq<string>, b: seq<string>) { !(a <= b) && !(b <= a) }

  ghost predicate FreeAt(nodes: Nodes, b: seq<string>) {
    forall c: seq<string> | Segments(c) && b <= c :: Path(c) !in nodes
  }

  predicate AllNormal(nodes: Nodes) { forall p | p in nodes :: Normal(p) }

  /** Which paths are taken out. */
  lemma MovingPaths(nodes: Nodes, a: seq<string>, c: seq<string>)
    requires a != [] && Segments(a) && Segments(c)
    ensures Path(c) in Moving(nodes, Path(a)) <==> a <= c && Path(c) in nodes
  {
    hide Path, Segments, AtOrBelow;
    BelowBySegments(a, c);
  }

  /** Which paths are put back. */
  lemma ArrivingPaths(nodes: Nodes, a: seq<string>, b: seq<string>, c: seq<string>)
    requires AllNormal(nodes) && a != [] && b != [] && Segments(a) && Segments(b) && Segments(c)
    ensures Path(c) in Arriving(nodes, Path(a), Path(b)) <==> b <= c && Path(a + c[|b|..]) in nodes
  {
    hide Path, Segments, Moving, Relocated, AtOrBelow;
    if b <= c {
      var u := c[|b|..];
      assert c == b + u;
      JoinSegments(a, b, c);
      RelocatedPath(a, b, u);
      MovingPaths(nodes, a, a + u);
    }
    if Path(c) in Arriving(nodes, Path(a), Path(b)) {
      ArrivingBack(nodes, Path(a), Path(b), Path(c));
      var from := Relocated(Path(b), Path(a), Path(c));
      MovingIsStored(nodes, Path(a), from);
      NormalSegments(from);
      var f := SegmentsOf(from);
      MovingPaths(nodes, a, f);
      var u := f[|a|..];
      assert f == a + u;
      RelocatedPath(a, b, u);
      JoinSegments(b, a, f);
      PathInjective(c, b + u);
      assert c[|b|..] == u;
    }
  }

  lemma MovingIsStored(nodes: Nodes, source: string, from: string)
    requires from in Moving(nodes, source)
    ensures from in nodes
  {
  }

  lemma JoinSegments(a: seq<string>, b: seq<string>, c: seq<string>)
    requires Segments(a) && Segments(c) && b <= c
    ensures Segments(c[|b|..]) && Segments(a + c[|b|..])
  {
    assert forall i :: 0 <= i < |c[|b|..]| ==> c[|b|..][i] == c[|b| + i];
  }

  /** What a relocated map holds at any path. */
  lemma RelocateAt(nodes: Nodes, a: seq<string>, b: seq<string>, c: seq<string>)
    requires AllNormal(nodes) && a != [] && b != [] && Segments(a) && Segments(b) && Segments(c)
    requires Apart(a, b) && FreeAt(nodes, b)
    ensures Lookup(Relocate(nodes, Path(a), Path(b)), Path(c)) ==
      if b <= c then Lookup(nodes, Path(a + c[|b|..]))
      else if a <= c then None
      else Lookup(nodes, Path(c))
  {
    ArrivingPaths(nodes, a, b, c);
    MovingPaths(nodes, a, c);
    hide Path, Segments, Moving, Arriving, Relocated, AtOrBelow;
    if Path(c) in Arriving(nodes, Path(a), Path(b)) {
      var u := c[|b|..];
      assert c == b + u;
      RelocatedPath(b, a, u);
    }
  }

  lemma RelocateNormal(nodes: Nodes, a: seq<string>, b: seq<string>)
    requires AllNormal(nodes) && a != [] && b != [] && Segments(a) && Segments(b)
    ensures AllNormal(Relocate(nodes, Path(a), Path(b)))
  {
    hide Path, Segments, Moving, Relocated, AtOrBelow, Normal;
    forall q | q in Relocate(nodes, Path(a), Path(b)) ensures Normal(q) {
      if q in Arriving(nodes, Path(a), Path(b)) {
        ArrivingBack(nodes, Path(a), Path(b), q);
        var from := Relocated(Path(b), Path(a), q);
        MovingIsStored(nodes, Path(a), from);
        NormalSegments(from);
        var f := SegmentsOf(from);
        MovingPaths(nodes, a, f);
        var u := f[|a|..];
        assert f == a + u;
        RelocatedPath(a, b, u);
        JoinSegments(b, a, f);
        NormalPath(b + u);
      }
    }
  }

  lemma NormalPath(s: seq<string>)
    requires Segments(s)
    ensures Normal(Path(s))
  {
    PathIsNormal(s);
  }

  lemma RelocateUp(nodes: Nodes, a: seq<string>, b: seq<string>, c: seq<string>)
    requires SegmentTree(nodes) && AllNormal(nodes) && a != [] && b != [] && Segments(a) && Segments(b)
    requires Apart(a, b) && FreeAt(nodes, b) && DirectoryAt(nodes, Path(Front(b)))
    requires c != [] && Segments(c) && Path(c) in Relocate(nodes, Path(a), Path(b))
    ensures DirectoryAt(Relocate(nodes, Path(a), Path(b)), Path(Front(c)))
  {
    hide Path, Segments, Relocate, AllNormal, FreeAt, Normal;
    RelocateAt(nodes, a, b, c);
    PrefixSegments(c, |c| - 1);
    RelocateAt(nodes, a, b, Front(c));
    if b <= c && b != c {
      var u := c[|b|..];
      JoinSegments(a, b, c);
      assert Front(c)[|b|..] == Front(u);
      assert a + Front(u) == Front(a + u);
      assert Path(a + u) in nodes;
      assert DirectoryAt(nodes, Path((a + u)[..|a + u| - 1]));
    } else if b == c {
      assert !(b <= Front(c));
      assert !(a <= Front(b));
    } else {
      assert !(b <= Front(c)) && !(a <= Front(c));
      assert DirectoryAt(nodes, Path(c[..|c| - 1]));
    }
  }

  /** Relocating a subtree to a free place under a directory keeps the tree. */
  lemma RelocateTree(nodes: Nodes, a: seq<string>, b: seq<string>)
    requires Tree(nodes) && a != [] && b != [] && Segments(a) && Segments(b)
    requires Apart(a, b) && FreeAt(nodes, b) && DirectoryAt(nodes, Path(Front(b)))
    ensures Tree(Relocate(nodes, Path(a), Path(b)))
  {
    var after := Relocate(nodes, Path(a), Path(b));
    assert Path([]) == "/";
    EmptySegments();
    hide Path, Segments, Relocate, Tree, FreeAt, Normal;
    TreeBySegments(nodes);
    RelocateNormal(nodes, a, b);
    RelocateAt(nodes, a, b, []);
    forall c: seq<string> | c != [] && Segments(c) && Path(c) in after
      ensures DirectoryAt(after, Path(c[..|c| - 1]))
    {
      RelocateUp(nodes, a, b, c);
    }
    TreeBySegments(after);
  }

  // ----- A move between two places -----

  /** Nothing below the target, however the transfer got past its checks. */
  lemma TargetClear(nodes: Nodes, b: seq<string>)
    requires Tree(nodes) && b != [] && Segments(b)
    requires DirectoryAt(nodes, Path(b)) ==> !HasBelow(nodes, Path(b))
    ensures forall c: seq<string> | Segments(c) && b < c :: Path(c) !in nodes
  {
    forall c: seq<string> | Segments(c) && b < c ensures Path(c) !in nodes {
      if Path(b) !in nodes {
        NothingBelowMissing(nodes, b, c);
      } else {
        if FileAt(nodes, Path(b)) { FileHasNothingBelow(nodes, b); }
        BelowIsPrefix(b, c);
        hide Path, Segments, Tree;
        assert !HasBelow(nodes, Path(b));
        assert Path(c) in nodes ==> HasBelow(nodes, Path(b));
      }
    }
  }

  /** What the map is before the relocation: the target taken out. */
  lemma Cleared(nodes: Nodes, b: seq<string>, replace: bool)
    requires Tree(nodes) && b != [] && Segments(b) && DirectoryAt(nodes, Path(Front(b)))
    requires Path(b) in nodes ==> replace
    requires DirectoryAt(nodes, Path(b)) ==> !HasBelow(nodes, Path(b))
    ensures var cleared := if replace then nodes - {Path(b)} else nodes;
      Tree(cleared) && FreeAt(cleared, b) && DirectoryAt(cleared, Path(Front(b)))
  {
    hide Tree, Path, Segments, HasBelow;
    TargetClear(nodes, b);
    PrefixSegments(b, |b| - 1);
    var cleared := if replace then nodes - {Path(b)} else nodes;
    if Path(Front(b)) == Path(b) { PathInjective(Front(b), b); }
    forall c: seq<string> | Segments(c) && b <= c ensures Path(c) !in cleared {
      if b == c {} else { assert b < c; }
    }
    if Path(b) in nodes {
      if FileAt(nodes, Path(b)) { FileHasNothingBelow(nodes, b); }
      TreeRemove(nodes, b);
    } else {
      assert cleared == nodes;
    }
  }

  /** The subtree at `a` in `nodes` is the subtree at `b` in `after`, and the rest stays but for new parents of `b`. */
  ghost predicate Moved(nodes: Nodes, after: Nodes, a: seq<string>, b: seq<string>, now: int)
    requires b != []
  {
    (forall u: seq<string> | Segments(u) :: Lookup(after, Path(b + u)) == Lookup(nodes, Path(a + u))) &&
    (forall c: seq<string> | Segments(c) && a <= c :: Path(c) !in after) &&
    (forall c: seq<string> | Segments(c) && b < c :: Path(c) !in nodes) &&
    (forall c: seq<string> | Segments(c) && !(a <= c) && !(b <= c) :: Settled(nodes, after, c, Front(b), now))
  }

  /** A path outside the move keeps its node, or becomes a directory on the way to the target. */
  ghost predicate Settled(nodes: Nodes, after: Nodes, c: seq<string>, parent: seq<string>, now: int) {
    Lookup(after, Path(c)) ==
      if Path(c) in nodes then Some(nodes[Path(c)])
      else if c <= parent then Some(Directory(now))
      else None
  }

  /** Parents made for `b`, exactly. */
  lemma ExtendsExactly(nodes: Nodes, after: Nodes, parent: seq<string>, c: seq<string>, now: int)
    requires Tree(after) && Segments(parent) && Segments(c)
    requires Extends(nodes, after, parent, now) && DirectoryAt(after, Path(parent))
    ensures Settled(nodes, after, c, parent, now)
  {
    if c <= parent {
      assert c == parent[..|c|];
      if c != parent { TreeUp(after, parent, |c|); }
    } else {
      ExtendsApart(nodes, after, parent, c, now);
    }
  }

  lemma TransferMoves(nodes: Nodes, ensured: Nodes, a: seq<string>, b: seq<string>, replace: bool, now: int)
    requires Tree(nodes) && Tree(ensured) && a != [] && b != [] && Segments(a) && Segments(b)
    requires a != b && !(a < b)
    requires DirectoryAt(ensured, Path(Front(b))) && Extends(nodes, ensured, Front(b), now)
    requires Transfer(ensured, Path(a), Path(b), replace).answer.Ok?
    ensures Tree(Transfer(ensured, Path(a), Path(b), replace).nodes)
    ensures Moved(nodes, Transfer(ensured, Path(a), Path(b), replace).nodes, a, b, now)
  {
    hide Path, Segments, Tree, Relocate, HasBelow, Extends, FreeAt, Settled, AllNormal;
    TargetClear(ensured, b);
    Cleared(ensured, b, replace);
    assert !(b < a);
    var cleared := if replace then ensured - {Path(b)} else ensured;
    RelocateTree(cleared, a, b);
    assert AllNormal(cleared) by { TreeNormal(cleared); }
    var after := Relocate(cleared, Path(a), Path(b));
    PrefixSegments(b, |b| - 1);
    forall u: seq<string> | Segments(u) ensures Lookup(after, Path(b + u)) == Lookup(nodes, Path(a + u)) {
      JoinedSegments(a, u);
      JoinedSegments(b, u);
      RelocateAt(cleared, a, b, b + u);
      assert (b + u)[|b|..] == u;
      SameAt(nodes, ensured, b, a + u, now);
    }
    forall c: seq<string> | Segments(c) && a <= c ensures Path(c) !in after {
      RelocateAt(cleared, a, b, c);
      if b <= c { CommonAbove(a, b, c); }
    }
    forall c: seq<string> | Segments(c) && b < c ensures Path(c) !in nodes {
      ExtendsApart(nodes, ensured, Front(b), c, now);
    }
    forall c: seq<string> | Segments(c) && !(a <= c) && !(b <= c) ensures Settled(nodes, after, c, Front(b), now) {
      RelocateAt(cleared, a, b, c);
      ExtendsExactly(nodes, ensured, Front(b), c, now);
      SettledSame(nodes, ensured, cleared, after, b, c, now);
    }
  }

  lemma TreeNormal(nodes: Nodes)
    requires Tree(nodes)
    ensures AllNormal(nodes)
  {
    hide Normal;
  }

  lemma JoinedSegments(a: seq<string>, u: seq<string>)
    requires Segments(a) && Segments(u)
    ensures Segments(a + u)
  {
  }

  lemma CommonAbove(a: seq<string>, b: seq<string>, c: seq<string>)
    requires a <= c && b <= c
    ensures a <= b || b <= a
  {
    assert a == c[..|a|] && b == c[..|b|];
    assert |a| <= |b| ==> a == b[..|a|];
    assert |b| <= |a| ==> b == a[..|b|];
  }

  lemma SameAt(nodes: Nodes, ensured: Nodes, b: seq<string>, c: seq<string>, now: int)
    requires b != [] && Segments(b) && Segments(c) && Extends(nodes, ensured, Front(b), now)
    requires !(c <= b)
    ensures Lookup(ensured, Path(c)) == Lookup(nodes, Path(c))
    ensures Path(c) != Path(b)
  {
    PrefixSegments(b, |b| - 1);
    assert !(c <= Front(b));
    ExtendsApart(nodes, ensured, Front(b), c, now);
    hide Path, Segments, OnTheWay;
    if Path(c) == Path(b) { PathInjective(c, b); }
  }

  lemma SettledSame(
    nodes: Nodes, ensured: Nodes, cleared: Nodes, after: Nodes, b: seq<string>, c: seq<string>, now: int)
    requires b != [] && Segments(b) && Segments(c) && !(b <= c)
    requires cleared == ensured || cleared == ensured - {Path(b)}
    requires Lookup(after, Path(c)) == Lookup(cleared, Path(c))
    requires Settled(nodes, ensured, c, Front(b), now)
    ensures Settled(nodes, after, c, Front(b), now)
  {
    hide Path, Segments;
    if Path(c) == Path(b) { PathInjective(c, b); }
  }

  /** Two non-root paths, neither the same nor the target below the source. */
  ghost predicate Distinct(source: string, target: string) {
    Normalise(source).Ok? && Normalise(target).Ok? &&
    var a, b := SegmentsOf(Normalised(source)), SegmentsOf(Normalised(target));
    a != [] && b != [] && a != b && !(a < b)
  }

  lemma DistinctParts(source: string, target: string)
    requires Normalise(source).Ok? && Normalise(target).Ok?
    ensures
      var s, t := Normalised(source), Normalised(target);
      var a, b := SegmentsOf(s), SegmentsOf(t);
      Segments(a) && Segments(b) && Path(a) == s && Path(b) == t &&
      (a == [] <==> s == "/") && (b == [] <==> t == "/") && (a == b <==> s == t) &&
      (a != [] ==> (s + "/" <= t <==> a < b))
  {
    var s, t := Normalised(source), Normalised(target);
    NormalSegments(s);
    NormalSegments(t);
    if SegmentsOf(s) != [] { BelowIsPrefix(SegmentsOf(s), SegmentsOf(t)); }
  }

  /** When a move between two places goes through. */
  ghost predicate Movable(nodes: Nodes, source: string, target: string, replace: bool, parents: bool)
    requires Distinct(source, target)
  {
    var s, t := Normalised(source), Normalised(target);
    s in nodes && ParentReady(nodes, SegmentsOf(t), parents) &&
    (t in nodes ==> replace && !(nodes[t].Directory? && HasBelow(nodes, t)))
  }

  /** When a failing move has still made parents for its target. */
  ghost predicate LeavesParents(nodes: Nodes, source: string, target: string, parents: bool)
    requires Distinct(source, target)
  {
    var s, t := Normalised(source), Normalised(target);
    var b := SegmentsOf(t);
    s !in nodes && parents && !Blocked(nodes, [], Front(b)) && Path(Front(b)) !in nodes
  }

  /** A move between two places, whatever comes of it. */
  lemma MoveEffect(nodes: Nodes, source: string, target: string, replace: bool, parents: bool, now: int)
    requires Tree(nodes) && Distinct(source, target)
    ensures
      var m := Move(nodes, source, target, replace, parents, now);
      var s, t := Normalised(source), Normalised(target);
      var a, b := SegmentsOf(s), SegmentsOf(t);
      Tree(m.nodes) &&
      (m.answer.Ok? <==> Movable(nodes, source, target, replace, parents)) &&
      (m.answer.Ok? ==> m.answer.value == t && Moved(nodes, m.nodes, a, b, now)) &&
      (m.answer.Err? ==>
         (m.nodes != nodes <==> LeavesParents(nodes, source, target, parents)) &&
         Extends(nodes, m.nodes, Front(b), now) &&
         (m.nodes != nodes ==> m.answer == Err(FileError.NotFound)))
  {
    hide Path, Segments, Normalise, Tree, SegmentsOf, EnsureParent, ParentReady, Extends, Blocked, Transfer, Moved,
         HasBelow;
    var s, t := Normalised(source), Normalised(target);
    var a, b := SegmentsOf(s), SegmentsOf(t);
    DistinctParts(source, target);
    var e := EnsureParent(nodes, t, parents, now);
    EnsureParentEffect(nodes, b, parents, now);
    if e.answer.Ok? {
      TransferAnswers(nodes, e.nodes, a, b, replace, now);
      if Transfer(e.nodes, s, t, replace).answer.Ok? { TransferMoves(nodes, e.nodes, a, b, replace, now); }
      MadeParents(nodes, e.nodes, b, parents, now);
    } else {
      NothingAdded(nodes, Front(b), now);
      ParentReadyMeans(nodes, b);
    }
  }

  lemma FreshIsTree(made: int)
    ensures Tree(Fresh(made))
  {
    assert Normal("/") by {
      EmptySegments();
      PathIsNormal([]);
      assert Path([]) == "/";
    }
  }

  /** Moving the missing `/a` to `/d/b` in an empty filesystem fails and leaves a new directory `/d`. */
  lemma MoveMakesParents(made: int, now: int)
    ensures
      var nodes := Fresh(made);
      Tree(nodes) && Distinct("/a", "/d/b") && LeavesParents(nodes, "/a", "/d/b", true) &&
      Move(nodes, "/a", "/d/b", false, true, now) == Outcome(Err(FileError.NotFound), nodes["/d" := Directory(now)])
  {
    var nodes := Fresh(made);
    FreshIsTree(made);
    PlainPaths();
    hide Tree, Segments, Normalise, SegmentsOf, Move, Path, Normalised, Blocked, Extends;
    assert Front(["d", "b"]) == ["d"];
    OneUnblocked(made);
    assert "/a" !in nodes && "/d" !in nodes;
    assert "a"[0] != "d"[0] && ["a"][0] != ["d", "b"][0];
    MoveEffect(nodes, "/a", "/d/b", false, true, now);
    OneStep(nodes, Move(nodes, "/a", "/d/b", false, true, now).nodes, now);
  }

  lemma PlainPaths()
    ensures Normalise("/a") == Ok("/a") && Normalised("/a") == "/a" && SegmentsOf("/a") == ["a"]
    ensures Normalise("/d/b") == Ok("/d/b") && Normalised("/d/b") == "/d/b" && SegmentsOf("/d/b") == ["d", "b"]
    ensures Path(["d"]) == "/d"
  {
    assert ["a"][1..] == [] && ["d"][1..] == [] && ["b"][1..] == [] && ["d", "b"][1..] == ["b"];
    assert Render(["a"]) == "/a" && Render(["d"]) == "/d" && Render(["b"]) == "/b";
    assert Render(["d", "b"]) == "/d" + "/b";
    assert Clean("a") && Clean("b") && Clean("d");
    hide Normalise, SegmentsOf, Normalised, Render, Clean;
    PlainPath(["a"], "/a");
    PlainPath(["d", "b"], "/d/b");
  }

  lemma PlainPath(segments: seq<string>, path: string)
    requires Segments(segments) && Path(segments) == path
    ensures Normalise(path) == Ok(path) && Normalised(path) == path && SegmentsOf(path) == segments
  {
    PathIsNormal(segments);
  }

  lemma OneUnblocked(made: int)
    ensures !Blocked(Fresh(made), [], ["d"])
  {
    assert [] + ["d"][..1] == ["d"];
    assert Path(["d"]) == "/d" by { assert ["d"][1..] == []; }
  }

  /** A map that grew on the way to `/d` from the root alone has gained exactly `/d`. */
  lemma OneStep(nodes: Nodes, after: Nodes, now: int)
    requires "/" in nodes && "/d" !in nodes && after != nodes && Extends(nodes, after, ["d"], now)
    ensures after == nodes["/d" := Directory(now)]
  {
    assert Path(["d"]) == "/d" by { assert ["d"][1..] == []; }
    forall p | p in after && p !in nodes ensures p == "/d" {
      var k :| 0 <= k <= 1 && p == Path(["d"][..k]);
      assert ["d"][..1] == ["d"];
    }
    if "/d" !in after { NothingNew(nodes, after); }
  }

  lemma NothingNew(nodes: Nodes, after: Nodes)
    requires (forall p | p in nodes :: p in after && after[p] == nodes[p]) && forall p | p in after :: p in nodes
    ensures after == nodes
  {
  }

  lemma ParentReadyMeans(nodes: Nodes, b: seq<string>)
    requires b != []
    ensures ParentReady(nodes, b, true) <==> !Blocked(nodes, [], Front(b))
  {
  }

  /** How the transfer answers, in terms of the map before the parents were made. */
  lemma TransferAnswers(nodes: Nodes, ensured: Nodes, a: seq<string>, b: seq<string>, replace: bool, now: int)
    requires Tree(nodes) && a != [] && b != [] && Segments(a) && Segments(b) && a != b && !(a < b)
    requires Extends(nodes, ensured, Front(b), now)
    ensures
      var s, t := Path(a), Path(b);
      var m := Transfer(ensured, s, t, replace);
      (m.answer.Ok? <==> s in nodes && (t in nodes ==> replace && !(nodes[t].Directory? && HasBelow(nodes, t)))) &&
      (m.answer.Ok? ==> m.answer.value == t) &&
      (m.answer.Err? ==> m.nodes == ensured) &&
      (s !in nodes ==> m.answer == Err(FileError.NotFound)) &&
      (s in nodes && m.answer.Err? ==> ensured == nodes)
  {
    hide Path, Segments, Tree, Relocate, HasBelow, OnTheWay;
    PrefixSegments(b, |b| - 1);
    assert !(a <= Front(b)) by { NotAbove(a, b); }
    ExtendsApart(nodes, ensured, Front(b), a, now);
    ExtendsApart(nodes, ensured, Front(b), b, now);
    if Path(b) in nodes { ExtendsNothing(nodes, ensured, b, now); }
  }

  lemma NotAbove(a: seq<string>, b: seq<string>)
    requires b != [] && a != b && !(a < b)
    ensures !(a <= Front(b))
  {
    assert a <= Front(b) ==> a <= b;
  }

  /** Parents were made exactly when the parent itself was missing. */
  lemma MadeParents(nodes: Nodes, ensured: Nodes, b: seq<string>, parents: bool, now: int)
    requires Tree(nodes) && b != [] && Segments(b) && ParentReady(nodes, b, parents)
    requires DirectoryAt(ensured, Path(Front(b))) && Extends(nodes, ensured, Front(b), now)
    ensures ensured != nodes <==> Path(Front(b)) !in nodes
    ensures ensured != nodes ==> parents && !Blocked(nodes, [], Front(b))
  {
    hide Path, Segments, Tree, Blocked, OnTheWay;
    PrefixSegments(b, |b| - 1);
    if Path(Front(b)) in nodes {
      forall p | p in ensured ensures p in nodes {
        if p !in nodes { AboveExists(nodes, Front(b), p); }
      }
    }
  }

  lemma AboveExists(nodes: Nodes, s: seq<string>, p: string)
    requires Tree(nodes) && Segments(s) && Path(s) in nodes && OnTheWay(p, s)
    ensures p in nodes
  {
    hide Path, Segments, Tree;
    var k :| 0 <= k <= |s| && p == Path(s[..k]);
    if k < |s| { TreeUp(nodes, s, k); } else { assert s[..k] == s; }
  }

  /** A move that is refused before it touches anything, or whose two ends are the same place. */
  lemma MoveNowhere(nodes: Nodes, source: string, target: string, replace: bool, parents: bool, now: int)
    requires !Distinct(source, target)
    ensures Move(nodes, source, target, replace, parents, now).nodes == nodes
    ensures Move(nodes, source, target, replace, parents, now).answer.Ok? <==>
      Normalise(source).Ok? && Normalise(target) == Normalise(source) &&
      Normalise(source).value != "/" && Normalise(source).value in nodes
  {
    if Normalise(source).Ok? && Normalise(target).Ok? {
      DistinctParts(source, target);
      hide Normalise, SegmentsOf, EnsureParent, Transfer;
    }
  }

  // ----- Runs -----

  datatype Op =
    | WriteOp(path: string, bytes: Data, mode: WriteMode, parents: bool)
    | MkdirOp(path: string, parents: bool, existsOk: bool)
    | DeleteOp(path: string, missingOk: bool)
    | CopyOp(source: string, target: string, replace: bool, parents: bool, preserve: bool)
    | MoveOp(source: string, target: string, replace: bool, parents: bool)

  function Apply(nodes: Nodes, op: Op, now: int): Outcome<string> {
    match op
    case WriteOp(path, bytes, mode, parents) => Write(nodes, path, bytes, mode, parents, now)
    case MkdirOp(path, parents, existsOk) => Mkdir(nodes, path, parents, existsOk, now)
    case DeleteOp(path, missingOk) => Delete(nodes, path, missingOk)
    case CopyOp(source, target, replace, parents, preserve) =>
      Copy(nodes, source, target, replace, parents, preserve, now)
    case MoveOp(source, target, replace, parents) => Move(nodes, source, target, replace, parents, now)
  }

  /** A run of operations, each at its own time, failures included. */
  function Run(nodes: Nodes, ops: seq<(Op, int)>): Nodes
    decreases |ops|
  {
    if ops == [] then nodes else Run(Apply(nodes, ops[0].0, ops[0].1).nodes, ops[1..])
  }

  /** One operation keeps the tree, and a failing one changes nothing unless it is a move. */
  lemma ApplyKeepsTree(nodes: Nodes, op: Op, now: int)
    requires Tree(nodes)
    ensures Tree(Apply(nodes, op, now).nodes)
    ensures Apply(nodes, op, now).answer.Err? && !op.MoveOp? ==> Apply(nodes, op, now).nodes == nodes
  {
    hide Tree, Write, Mkdir, Delete, Copy, Move, Writable, Makeable, Moved, Extends, LeavesParents, Movable;
    match op
    case WriteOp(path, bytes, mode, parents) => WriteEffect(nodes, path, bytes, mode, parents, now);
    case MkdirOp(path, parents, existsOk) => MkdirEffect(nodes, path, parents, existsOk, now);
    case DeleteOp(path, missingOk) => DeleteEffect(nodes, path, missingOk);
    case CopyOp(source, target, replace, parents, preserve) =>
      CopyEffect(nodes, source, target, replace, parents, preserve, now);
    case MoveOp(source, target, replace, parents) =>
      if Distinct(source, target) {
        MoveEffect(nodes, source, target, replace, parents, now);
      } else {
        MoveNowhere(nodes, source, target, replace, parents, now);
      }
  }

  /** The tree survives every run. */
  lemma {:induction false} RunKeepsTree(nodes: Nodes, ops: seq<(Op, int)>)
    requires Tree(nodes)
    ensures Tree(Run(nodes, ops))
    decreases |ops|
  {
    hide Tree, Apply;
    if ops != [] {
      ApplyKeepsTree(nodes, ops[0].0, ops[0].1);
      RunKeepsTree(Apply(nodes, ops[0].0, ops[0].1).nodes, ops[1..]);
    }
  }

  /** Every run from an empty filesystem is at a tree. */
  lemma FreshRunIsTree(start: int, ops: seq<(Op, int)>)
    ensures Tree(Run(Fresh(start), ops))
  {
    hide Tree, Run;
    FreshIsTree(start);
    RunKeepsTree(Fresh(start), ops);
  }
}
