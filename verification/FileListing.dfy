/** Listing: the children of a directory and the files below a path, told by segment lists. */
module FileListing {
  import opened FilePaths
  import opened FileTree
  import opened FileLaws
  import opened FileMoves

  /** The prefix `entries_values` looks for. */
  function ChildPrefix(path: string): string { if path == "/" then "/" else path + "/" }

  /** The test `entries_values` puts to every stored path. */
  predicate ChildOf(path: string, q: string) {
    q != path && ChildPrefix(path) <= q &&
    var remainder := q[|ChildPrefix(path)|..];
    remainder != "" && '/' !in remainder
  }

  /** At or below a path, the root included. */
  predicate Within(path: string, q: string) { path == "/" || AtOrBelow(path, q) }

  function Children(nodes: Nodes, path: string): set<string> { set q | q in nodes && ChildOf(path, q) }

  function Subtree(nodes: Nodes, path: string): set<string> { set q | q in nodes && Within(path, q) }

  function FilesWithin(nodes: Nodes, path: string): set<string> {
    set q | q in nodes && nodes[q].File? && Within(path, q)
  }

  lemma WithinBySegments(a: seq<string>, c: seq<string>)
    requires Segments(a) && Segments(c)
    ensures Within(Path(a), Path(c)) <==> a <= c
  {
    RootIsEmpty(a);
    hide Path, Segments, AtOrBelow;
    if a != [] { BelowBySegments(a, c); }
  }

  lemma PrefixRenders(a: seq<string>)
    requires Segments(a)
    ensures ChildPrefix(Path(a)) == Render(a) + "/"
  {
    RootIsEmpty(a);
  }

  lemma RenderSlash(u: seq<string>)
    requires u != [] && Segments(u)
    ensures Render(u) != [] && Render(u)[0] == '/' && Render(u)[1..] != ""
    ensures '/' in Render(u)[1..] <==> |u| > 1
  {
    HeadSlash(u);
    assert Segment(u[0]);
    RenderTail(u);
    if |u| > 1 { HeadSlash(u[1..]); } else { assert u[1..] == []; }
    hide Render, Segments;
    var x, rest := u[0], Render(u[1..]);
    if |u| > 1 { assert (x + rest)[|x|] == '/'; } else { assert x + rest == x; }
  }

  lemma RenderTail(u: seq<string>)
    requires u != []
    ensures Render(u) != [] && Render(u)[1..] == u[0] + Render(u[1..])
    ensures Render([]) == ""
  {
    assert Render(u) == "/" + (u[0] + Render(u[1..]));
  }

  /** The prefix test picks exactly the paths one segment longer. */
  lemma ChildBySegments(a: seq<string>, c: seq<string>)
    requires Segments(a) && Segments(c)
    ensures ChildOf(Path(a), Path(c)) <==> a <= c && |c| == |a| + 1
  {
    PrefixRenders(a);
    if a < c {
      var u := c[|a|..];
      assert c == a + u;
      JoinSegments([], a, c);
      RenderAppend(a, u);
      RenderSlash(u);
      hide Render, Segments;
      assert Path(c) == Render(c);
      assert Path(c)[|Render(a)| + 1..] == Render(u)[1..];
      assert Path(c) == Render(a) + "/" + Render(u)[1..];
      assert ChildPrefix(Path(a)) <= Path(c);
      if Path(c) == Path(a) { PathInjective(a, c); }
    } else {
      assert ChildOf(Path(a), Path(c)) ==> a < c by { ChildIsBelow(a, c); }
    }
  }

  lemma ChildIsBelow(a: seq<string>, c: seq<string>)
    requires Segments(a) && Segments(c)
    ensures ChildOf(Path(a), Path(c)) ==> a < c
  {
    if ChildOf(Path(a), Path(c)) {
      RootIsEmpty(a);
      RootIsEmpty(c);
      hide Path, Segments;
      if a != [] {
        BelowIsPrefix(a, c);
      } else {
        assert c != [];
      }
    }
  }

  // ----- What a walk must find -----

  /** Files at or below any of some paths. */
  ghost function FilesUnder(nodes: Nodes, paths: seq<string>): set<string> {
    set q | q in nodes && nodes[q].File? && exists i :: 0 <= i < |paths| && Within(paths[i], q)
  }

  /** Below two children of one directory there is nothing in common. */
  lemma ChildrenApart(nodes: Nodes, a: seq<string>, p: string, q: string, r: string)
    requires AllNormal(nodes) && Segments(a) && p != q
    requires p in Children(nodes, Path(a)) && q in Children(nodes, Path(a)) && r in nodes
    ensures !(Within(p, r) && Within(q, r))
  {
    hide Path, Segments, Within, ChildOf, Normal, SegmentsOf;
    NormalSegments(p);
    NormalSegments(q);
    NormalSegments(r);
    var x, y, z := SegmentsOf(p), SegmentsOf(q), SegmentsOf(r);
    ChildBySegments(a, x);
    ChildBySegments(a, y);
    WithinBySegments(x, z);
    WithinBySegments(y, z);
    SamePrefix(x, y, z);
  }

  lemma SamePrefix(x: seq<string>, y: seq<string>, z: seq<string>)
    requires |x| == |y|
    ensures x <= z && y <= z ==> x == y
  {
    if x <= z && y <= z { assert x == z[..|x|] && y == z[..|x|]; }
  }

  lemma UnderOneMore(nodes: Nodes, a: seq<string>, entries: seq<string>, i: nat)
    requires AllNormal(nodes) && Segments(a) && i < |entries|
    requires forall j :: 0 <= j < |entries| ==> entries[j] in Children(nodes, Path(a))
    requires forall j, k :: 0 <= j < k < |entries| ==> entries[j] != entries[k]
    ensures FilesUnder(nodes, entries[..i + 1]) == FilesUnder(nodes, entries[..i]) + FilesWithin(nodes, entries[i])
    ensures FilesUnder(nodes, entries[..i]) !! FilesWithin(nodes, entries[i])
  {
    hide Path, Segments, Within, ChildOf, AllNormal, Children;
    assert entries[..i + 1] == entries[..i] + [entries[i]];
    forall r | r in FilesUnder(nodes, entries[..i]) ensures r !in FilesWithin(nodes, entries[i]) {
      var j :| 0 <= j < i && Within(entries[..i][j], r);
      assert entries[j] != entries[i];
      ChildrenApart(nodes, a, entries[j], entries[i], r);
    }
    forall r | r in FilesWithin(nodes, entries[i]) ensures r in FilesUnder(nodes, entries[..i + 1]) {
      assert entries[..i + 1][i] == entries[i];
    }
    forall r | r in FilesUnder(nodes, entries[..i]) ensures r in FilesUnder(nodes, entries[..i + 1]) {
      var j :| 0 <= j < i && Within(entries[..i][j], r);
      assert entries[..i + 1][j] == entries[..i][j];
    }
  }

  /** Every file below a directory is at or below one of its children. */
  lemma UnderAll(nodes: Nodes, a: seq<string>, entries: seq<string>)
    requires Tree(nodes) && Segments(a) && DirectoryAt(nodes, Path(a))
    requires forall q :: q in entries <==> q in Children(nodes, Path(a))
    ensures FilesUnder(nodes, entries) == FilesWithin(nodes, Path(a))
  {
    hide Path, Segments, Within, ChildOf, Tree, Children;
    TreeNormal(nodes);
    forall r | r in nodes && nodes[r].File?
      ensures r in FilesUnder(nodes, entries) <==> r in FilesWithin(nodes, Path(a))
    {
      if r in FilesUnder(nodes, entries) {
        var i :| 0 <= i < |entries| && Within(entries[i], r);
        assert entries[i] in entries;
        WithinChild(nodes, a, entries[i], r);
      }
      if r in FilesWithin(nodes, Path(a)) {
        var q := ChildTowards(nodes, a, r);
        assert q in entries;
        var i :| 0 <= i < |entries| && entries[i] == q;
      }
    }
  }

  lemma WithinChild(nodes: Nodes, a: seq<string>, q: string, r: string)
    requires Tree(nodes) && Segments(a) && q in Children(nodes, Path(a)) && r in nodes && Within(q, r)
    ensures Within(Path(a), r)
  {
    hide Path, Segments, Within, ChildOf, SegmentsOf, Normal;
    NormalSegments(q);
    NormalSegments(r);
    var x, z := SegmentsOf(q), SegmentsOf(r);
    ChildBySegments(a, x);
    WithinBySegments(x, z);
    WithinBySegments(a, z);
  }

  /** The child on the way from a directory to a file below it. */
  lemma ChildTowards(nodes: Nodes, a: seq<string>, r: string) returns (q: string)
    requires Tree(nodes) && Segments(a) && DirectoryAt(nodes, Path(a)) && FileAt(nodes, r) && Within(Path(a), r)
    ensures q in Children(nodes, Path(a)) && Within(q, r)
  {
    NormalSegments(r);
    hide Path, Segments, Within, ChildOf, SegmentsOf, Tree;
    var z := SegmentsOf(r);
    WithinBySegments(a, z);
    assert a != z;
    var x := z[..|a| + 1];
    PrefixSegments(z, |a| + 1);
    if x != z {
      TreeUp(nodes, z, |a| + 1);
    }
    ChildBySegments(a, x);
    WithinBySegments(x, z);
    q := Path(x);
  }

  /** A child's subtree is smaller, so a walk ends. */
  lemma SubtreeShrinks(nodes: Nodes, a: seq<string>, q: string)
    requires Tree(nodes) && Segments(a) && Path(a) in nodes && q in Children(nodes, Path(a))
    ensures Subtree(nodes, q) < Subtree(nodes, Path(a))
  {
    hide Path, Segments, Within, ChildOf, SegmentsOf, Normal;
    forall r | r in Subtree(nodes, q) ensures r in Subtree(nodes, Path(a)) {
      WithinChild(nodes, a, q, r);
    }
    NormalSegments(q);
    ChildBySegments(a, SegmentsOf(q));
    WithinBySegments(a, a);
    WithinBySegments(SegmentsOf(q), a);
    assert Path(a) in Subtree(nodes, Path(a)) && Path(a) !in Subtree(nodes, q);
  }

  /** A file has only itself within. */
  lemma FileWithinItself(nodes: Nodes, p: string)
    requires Tree(nodes) && FileAt(nodes, p)
    ensures FilesWithin(nodes, p) == {p}
  {
    NormalSegments(p);
    var s := SegmentsOf(p);
    FileHasNothingBelow(nodes, s);
    hide Path, Segments, SegmentsOf, Normal;
    assert p != "/";
    forall q | q in FilesWithin(nodes, p) ensures q == p {
      assert !(p + "/" <= q);
    }
  }
}
