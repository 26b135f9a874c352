/** `MemoryFileProvider` and `walk_collect` as they run: a map updated in place. */
module FileProvider {
  import opened Prelude
  import FileMeaning
  import opened FilePaths
  import opened FileTree
  import opened FileLaws
  import opened FileMoves
  import opened FileListing
  import opened StringOrder

  class MemoryFileProvider {
    var nodes: Nodes

    ghost predicate Valid()
      reads this
    {
      Tree(nodes)
    }

    constructor (now: int)
      ensures nodes == Fresh(now) && Valid()
    {
      nodes := Fresh(now);
      new;
      FreshRunIsTree(now, []);
    }

    /** Makes the parent of a path ready, piece by piece. */
    method EnsureParent(path: string, parents: bool, now: int) returns (r: Result<(), FileError>)
      modifies this
      ensures Outcome(r, nodes) == FileTree.EnsureParent(old(nodes), path, parents, now)
    {
      hide Normalise, Resolve, Path, Segments, Split, TrimStart;
      var found := Parent(path);
      if found.Err? { return Err(found.error); }
      if found.value.None? { return Err(Denied); }
      var parent := found.value.value;
      if !parents {
        if parent !in nodes { return Err(FileError.NotFound); }
        if nodes[parent].Directory? { return Ok(()); }
        return Err(NotDirectory);
      }
      var pieces := Pieces(parent);
      var current := "/";
      ghost var done: seq<string> := [];
      assert Segments(pieces) by { ParentPieces(path); }
      assert current == Path(done) && Segments(done) by { RootPath(); }
      var i := 0;
      assert pieces[0..] == pieces;
      while i < |pieces|
        invariant 0 <= i <= |pieces|
        invariant done == pieces[..i] && Segments(done) && current == Path(done)
        invariant MakeDirs(nodes, done, pieces[i..], now) == MakeDirs(old(nodes), [], pieces, now)
      {
        assert Segment(pieces[i]) && Segments(pieces[..i + 1]) by { PieceOf(pieces, i); }
        ResolveChild(done, pieces[i]);
        current := Resolve(current, pieces[i]).value;
        assert pieces[i..][1..] == pieces[i + 1..];
        assert pieces[..i + 1] == done + [pieces[i]];
        done := done + [pieces[i]];
        if current !in nodes {
          nodes := nodes[current := Directory(now)];
        } else if !nodes[current].Directory? {
          return Err(NotDirectory);
        }
        i := i + 1;
      }
      return Ok(());
    }

    method ReadBytes(path: string) returns (r: Result<Data, FileError>)
      ensures r.Ok? <==> Normalise(path).Ok? && FileAt(nodes, Normalise(path).value)
      ensures r.Ok? ==> r.value == nodes[Normalise(path).value].bytes
      ensures r.Err? && Normalise(path).Ok? ==>
        r.error == if Normalise(path).value in nodes then IsDirectory else FileError.NotFound
    {
      var p := FileMeaning.NormaliseLoop(path);
      if p.Err? { return Err(p.error); }
      if p.value !in nodes { return Err(FileError.NotFound); }
      if nodes[p.value].Directory? { return Err(IsDirectory); }
      return Ok(nodes[p.value].bytes);
    }

    method WriteBytes(path: string, bytes: Data, mode: WriteMode, parents: bool, now: int)
      returns (r: Result<string, FileError>)
      requires Valid()
      modifies this
      ensures Valid()
      ensures Outcome(r, nodes) == Write(old(nodes), path, bytes, mode, parents, now)
    {
      WriteEffect(nodes, path, bytes, mode, parents, now);
      hide Normalise, Tree, Writable, Extends, FileTree.EnsureParent, SegmentsOf;
      var n := FileMeaning.NormaliseLoop(path);
      if n.Err? { return Err(n.error); }
      var p := n.value;
      if p == "/" { return Err(IsDirectory); }
      var ensured := EnsureParent(p, parents, now);
      if ensured.Err? { return Err(ensured.error); }
      var data := bytes;
      if p in nodes {
        if nodes[p].Directory? { return Err(IsDirectory); }
        if mode == Create { return Err(AlreadyExists); }
        if mode == Append { data := nodes[p].bytes + bytes; }
      }
      nodes := nodes[p := File(data, now)];
      return Ok(p);
    }

    method MkdirPath(path: string, parents: bool, existsOk: bool, now: int) returns (r: Result<string, FileError>)
      requires Valid()
      modifies this
      ensures Valid()
      ensures Outcome(r, nodes) == Mkdir(old(nodes), path, parents, existsOk, now)
    {
      MkdirEffect(nodes, path, parents, existsOk, now);
      hide Normalise, Tree, Makeable, Extends, FileTree.EnsureParent, SegmentsOf;
      var n := FileMeaning.NormaliseLoop(path);
      if n.Err? { return Err(n.error); }
      var p := n.value;
      if p in nodes {
        if nodes[p].Directory? && existsOk { return Ok(p); }
        return Err(AlreadyExists);
      }
      var ensured := EnsureParent(p, parents, now);
      if ensured.Err? { return Err(ensured.error); }
      nodes := nodes[p := Directory(now)];
      return Ok(p);
    }

    /** `keys().any(starts_with(prefix))`. */
    method AnyBelow(path: string) returns (found: bool)
      ensures found == HasBelow(nodes, path)
    {
      var prefix := path + "/";
      var keys := nodes.Keys;
      while keys != {}
        invariant keys <= nodes.Keys
        invariant forall q | q in nodes :: q in keys || !(prefix <= q)
        decreases |keys|
      {
        var q :| q in keys;
        if prefix <= q { return true; }
        keys := keys - {q};
      }
      return false;
    }

    method DeletePath(path: string, missingOk: bool) returns (r: Result<string, FileError>)
      requires Valid()
      modifies this
      ensures Valid()
      ensures Outcome(r, nodes) == Delete(old(nodes), path, missingOk)
    {
      DeleteEffect(nodes, path, missingOk);
      hide Normalise, Tree, HasBelow;
      var n := FileMeaning.NormaliseLoop(path);
      if n.Err? { return Err(n.error); }
      var p := n.value;
      if p == "/" { return Err(Denied); }
      if p !in nodes { return if missingOk then Ok(p) else Err(FileError.NotFound); }
      if nodes[p].Directory? {
        var below := AnyBelow(p);
        if below { return Err(DirectoryNotEmpty); }
      }
      nodes := nodes - {p};
      return Ok(p);
    }

    method CopyPath(source: string, target: string, replace: bool, parents: bool, preserve: bool, now: int)
      returns (r: Result<string, FileError>)
      requires Valid()
      modifies this
      ensures Valid()
      ensures Outcome(r, nodes) == Copy(old(nodes), source, target, replace, parents, preserve, now)
    {
      CopyEffect(nodes, source, target, replace, parents, preserve, now);
      hide Normalise, Tree, Writable, Extends, Write, SegmentsOf;
      var m := FileMeaning.NormaliseLoop(source);
      if m.Err? { return Err(m.error); }
      var n := FileMeaning.NormaliseLoop(target);
      if n.Err? { return Err(n.error); }
      var s, t := m.value, n.value;
      if s == t { return Err(AlreadyExists); }
      if s !in nodes { return Err(FileError.NotFound); }
      if nodes[s].Directory? { return Err(IsDirectory); }
      var bytes, modified := nodes[s].bytes, nodes[s].modified;
      var written := WriteBytes(t, bytes, if replace then Replace else Create, parents, now);
      if written.Err? { return written; }
      if preserve {
        if t in nodes && nodes[t].File? { nodes := nodes[t := File(nodes[t].bytes, modified)]; }
      }
      return written;
    }

    lemma MoveKeepsTree(
      nodes: map<string, Node>, source: string, target: string, replace: bool, parents: bool, now: int)
      requires Tree(nodes)
      ensures Tree(Move(nodes, source, target, replace, parents, now).nodes)
    {
      ApplyKeepsTree(nodes, MoveOp(source, target, replace, parents), now);
    }

    method MovePath(source: string, target: string, replace: bool, parents: bool, now: int)
      returns (r: Result<string, FileError>)
      requires Valid()
      modifies this
      ensures Valid()
      ensures Outcome(r, nodes) == Move(old(nodes), source, target, replace, parents, now)
    {
      MoveKeepsTree(nodes, source, target, replace, parents, now);
      hide Normalise, Tree, FileTree.EnsureParent, Transfer;
      var m := FileMeaning.NormaliseLoop(source);
      if m.Err? { return Err(m.error); }
      var n := FileMeaning.NormaliseLoop(target);
      if n.Err? { return Err(n.error); }
      var s, t := m.value, n.value;
      if s == "/" || t == "/" { return Err(Denied); }
      if s == t { return if s in nodes then Ok(t) else Err(FileError.NotFound); }
      if s + "/" <= t { return Err(InvalidPath("cannot move a directory beneath itself")); }
      var ensured := EnsureParent(t, parents, now);
      if ensured.Err? { return Err(ensured.error); }
      r := TransferPath(s, t, replace);
    }

    method TransferPath(s: string, t: string, replace: bool) returns (r: Result<string, FileError>)
      modifies this
      ensures Outcome(r, nodes) == Transfer(old(nodes), s, t, replace)
    {
      hide HasBelow, Relocate;
      if s !in nodes { return Err(FileError.NotFound); }
      if t in nodes && !replace { return Err(AlreadyExists); }
      if replace {
        if t in nodes && nodes[t].Directory? {
          var below := AnyBelow(t);
          if below { return Err(DirectoryNotEmpty); }
        }
        nodes := nodes - {t};
      }
      var moving := map q | q in nodes && AtOrBelow(s, q) :: nodes[q];
      PutBackAll(nodes, moving, s, t);
      TakeOut(moving.Keys);
      PutIn(moving, s, t);
      return Ok(t);
    }

    /** Removes keys one at a time, in any order. */
    method TakeOut(keys: set<string>)
      modifies this
      ensures nodes == old(nodes) - keys
    {
      var todo := keys;
      while todo != {}
        invariant todo <= keys
        invariant nodes == old(nodes) - (keys - todo)
        decreases |todo|
      {
        var q :| q in todo;
        nodes := nodes - {q};
        todo := todo - {q};
      }
    }

    /** Inserts the moved nodes under their new names one at a time, in any order. */
    method PutIn(moving: Nodes, s: string, t: string)
      requires forall q | q in moving :: s <= q
      modifies this
      ensures nodes == old(nodes) + PutBack(moving, s, t, moving.Keys)
    {
      hide PutBack;
      var todo := moving.Keys;
      assert moving.Keys - todo == {};
      PutBackNone(moving, s, t);
      while todo != {}
        invariant todo <= moving.Keys
        invariant nodes == old(nodes) + PutBack(moving, s, t, moving.Keys - todo)
        decreases |todo|
      {
        var q :| q in todo;
        ghost var done := moving.Keys - todo;
        var key, node := t + q[|s|..], moving[q];
        PutBackOne(moving, s, t, done, q);
        MergeUpdate(old(nodes), PutBack(moving, s, t, done), key, node);
        nodes := nodes[key := node];
        todo := todo - {q};
        assert moving.Keys - todo == done + {q};
      }
      assert moving.Keys - todo == moving.Keys;
    }

    /** The children of a directory, in path order. */
    method Entries(path: string) returns (r: Result<seq<string>, FileError>)
      ensures r.Ok? <==> Normalise(path).Ok? && DirectoryAt(nodes, Normalise(path).value)
      ensures r.Ok? ==> Ascending(r.value) &&
                        forall q :: q in r.value <==> q in Children(nodes, Normalise(path).value)
      ensures r.Err? && Normalise(path).Ok? ==>
        r.error == if Normalise(path).value in nodes then NotDirectory else FileError.NotFound
    {
      hide Normalise, Before, ChildOf;
      var n := FileMeaning.NormaliseLoop(path);
      if n.Err? { return Err(n.error); }
      var p := n.value;
      if p !in nodes { return Err(FileError.NotFound); }
      if !nodes[p].Directory? { return Err(NotDirectory); }
      var output: seq<string> := [];
      var todo := nodes.Keys;
      while todo != {}
        invariant todo <= nodes.Keys
        invariant Ascending(output)
        invariant forall q :: q in output <==> q in nodes.Keys - todo && ChildOf(p, q)
        decreases |todo|
      {
        var q :| q in todo;
        todo := todo - {q};
        if ChildOf(p, q) {
          PlacedAscending(output, q);
          output := Placed(output, q);
        }
      }
      return Ok(output);
    }

    /** Pushes every file at or below a path, each once. */
    method WalkCollect(path: string, output: seq<string>) returns (r: Result<seq<string>, FileError>)
      requires Valid()
      ensures r.Ok? <==> Normalise(path).Ok? && Normalise(path).value in nodes
      ensures r.Ok? ==> output <= r.value
      ensures r.Ok? ==>
        multiset(r.value) == multiset(output) + multiset(FilesWithin(nodes, Normalise(path).value))
      decreases if Normalise(path).Ok? then Subtree(nodes, Normalise(path).value) else {}
    {
      hide Normalise, Tree, Normal, Ascending, Path, Segments, SegmentsOf, FilesWithin, FilesUnder, Subtree, Children;
      var n := FileMeaning.NormaliseLoop(path);
      if n.Err? { return Err(n.error); }
      var p := n.value;
      if p !in nodes { return Err(FileError.NotFound); }
      if nodes[p].File? {
        FileWithinItself(nodes, p);
        return Ok(output + [p]);
      }
      var entries := Entries(path);
      assert entries.Ok?;
      var list := entries.value;
      AscendingDistinct(list);
      TreeNormal(nodes);
      assert Normal(p) by { StoredNormal(nodes, p); }
      ghost var a := SegmentsOf(p);
      NormalSegments(p);
      var collected := output;
      var i := 0;
      assert FilesUnder(nodes, list[..0]) == {} by { UnderNone(nodes, list); }
      while i < |list|
        invariant 0 <= i <= |list|
        invariant output <= collected
        invariant multiset(collected) == multiset(output) + multiset(FilesUnder(nodes, list[..i]))
      {
        var q := list[i];
        assert q in list && q in nodes by { ChildStored(nodes, p, list, i); }
        assert Normalise(q) == Ok(q) by { StoredNormal(nodes, q); }
        UnderOneMore(nodes, a, list, i);
        if nodes[q].Directory? {
          SubtreeShrinks(nodes, a, q);
          var inner := WalkCollect(q, collected);
          assert inner.Ok?;
          collected := inner.value;
        } else {
          FileWithinItself(nodes, q);
          collected := collected + [q];
        }
        i := i + 1;
      }
      assert list[..i] == list;
      UnderAll(nodes, a, list);
      return Ok(collected);
    }

    /** Every file at or below a path, in path order: the collected files, sorted. */
    method Walk(path: string) returns (r: Result<seq<string>, FileError>)
      requires Valid()
      ensures r.Ok? <==> Normalise(path).Ok? && Normalise(path).value in nodes
      ensures r.Ok? ==> Ascending(r.value) &&
                        forall q :: q in r.value <==> q in FilesWithin(nodes, Normalise(path).value)
    {
      hide Normalise, Tree, FilesWithin, Before;
      var values := WalkCollect(path, []);
      if values.Err? { return values; }
      ghost var files := FilesWithin(nodes, Normalise(path).value);
      assert multiset(values.value) == multiset(files);
      OnceEach(values.value, files);
      var sorted: seq<string> := [];
      var i := 0;
      while i < |values.value|
        invariant 0 <= i <= |values.value|
        invariant Ascending(sorted) && forall q :: q in sorted <==> q in values.value[..i]
      {
        assert values.value[..i + 1] == values.value[..i] + [values.value[i]];
        assert values.value[i] !in values.value[..i];
        PlacedAscending(sorted, values.value[i]);
        sorted := Placed(sorted, values.value[i]);
        i := i + 1;
      }
      assert values.value[..i] == values.value;
      return Ok(sorted);
    }
  }

  /** A list that holds each member of a set once. */
  lemma OnceEach(list: seq<string>, files: set<string>)
    requires multiset(list) == multiset(files)
    ensures forall q :: q in list <==> q in files
    ensures forall i, j :: 0 <= i < j < |list| ==> list[i] != list[j]
  {
    assert forall q :: q in list <==> q in multiset(list);
    forall i, j | 0 <= i < j < |list| ensures list[i] != list[j] {
      var front, back := list[..j], list[j..];
      assert list == front + back && front[i] == list[i] && back[0] == list[j];
      assert multiset(list)[list[i]] == multiset(front)[list[i]] + multiset(back)[list[i]];
      assert list[i] in multiset(front) && list[j] in multiset(back);
    }
  }

  lemma RootPath()
    ensures "/" == Path([]) && Segments([])
  {
  }

  lemma ParentPieces(path: string)
    requires Parent(path).Ok? && Parent(path).value.Some?
    ensures Segments(Pieces(Parent(path).value.value))
  {
    var p := Normalised(path);
    NormalSegments(p);
    var s := SegmentsOf(p);
    hide Path, Segments, Pieces, SegmentsOf;
    EnsureParentParts(map[], s, 0);
  }

  lemma PieceOf(pieces: seq<string>, i: nat)
    requires Segments(pieces) && i < |pieces|
    ensures Segment(pieces[i]) && Segments(pieces[..i + 1])
  {
  }

  lemma StoredNormal(nodes: Nodes, p: string)
    requires Tree(nodes) && p in nodes
    ensures Normal(p) && Normalise(p) == Ok(p)
  {
  }

  lemma UnderNone(nodes: Nodes, list: seq<string>)
    ensures FilesUnder(nodes, list[..0]) == {}
  {
  }

  lemma ChildStored(nodes: Nodes, p: string, list: seq<string>, i: nat)
    requires i < |list| && forall q :: q in list <==> q in Children(nodes, p)
    ensures list[i] in list && list[i] in nodes && list[i] in Children(nodes, p)
  {
    assert list[i] in list;
  }

  // ----- Putting a moved subtree back -----

  ghost function Landing(s: string, t: string, done: set<string>): set<string>
    requires forall q | q in done :: s <= q
  {
    set q | q in done :: Relocated(s, t, q)
  }

  /** The moved nodes `done` so far, under their new names. */
  ghost function PutBack(moving: Nodes, s: string, t: string, done: set<string>): Nodes
    requires forall q | q in moving :: s <= q
    requires done <= moving.Keys
  {
    map r | r in Landing(s, t, done) :: Returned(moving, s, t, done, r)
  }

  ghost function Returned(moving: Nodes, s: string, t: string, done: set<string>, r: string): Node
    requires forall q | q in moving :: s <= q
    requires done <= moving.Keys && r in Landing(s, t, done)
  {
    LandingBack(s, t, done, r);
    moving[Relocated(t, s, r)]
  }

  lemma LandingBack(s: string, t: string, done: set<string>, r: string)
    requires (forall q | q in done :: s <= q) && r in Landing(s, t, done)
    ensures t <= r && Relocated(t, s, r) in done
  {
    var q :| q in done && Relocated(s, t, q) == r;
    RelocatedBack(s, t, q);
  }

  lemma PutBackNone(moving: Nodes, s: string, t: string)
    requires forall q | q in moving :: s <= q
    ensures PutBack(moving, s, t, {}) == map[]
  {
  }

  lemma MergeUpdate(base: Nodes, put: Nodes, key: string, node: Node)
    ensures (base + put)[key := node] == base + put[key := node]
  {
  }

  lemma PutBackOne(moving: Nodes, s: string, t: string, done: set<string>, q: string)
    requires forall q | q in moving :: s <= q
    requires done <= moving.Keys && q in moving
    ensures PutBack(moving, s, t, done + {q}) == PutBack(moving, s, t, done)[t + q[|s|..] := moving[q]]
  {
    hide Returned, Relocated;
    var r := Relocated(s, t, q);
    RelocatedBack(s, t, q);
    assert Landing(s, t, done + {q}) == Landing(s, t, done) + {r};
    assert r == t + q[|s|..] by { RelocatedIs(s, t, q); }
    forall x | x in Landing(s, t, done + {q})
      ensures Returned(moving, s, t, done + {q}, x) == if x == r then moving[q] else PutBack(moving, s, t, done)[x]
    {
      ReturnedIs(moving, s, t, done + {q}, x);
      if x != r { ReturnedIs(moving, s, t, done, x); }
    }
  }

  lemma RelocatedIs(s: string, t: string, q: string)
    requires s <= q
    ensures Relocated(s, t, q) == t + q[|s|..]
  {
  }

  lemma ReturnedIs(moving: Nodes, s: string, t: string, done: set<string>, r: string)
    requires forall q | q in moving :: s <= q
    requires done <= moving.Keys && r in Landing(s, t, done)
    ensures t <= r && Relocated(t, s, r) in done && Returned(moving, s, t, done, r) == moving[Relocated(t, s, r)]
  {
    LandingBack(s, t, done, r);
  }

  lemma PutBackAll(was: Nodes, moving: Nodes, s: string, t: string)
    requires moving == map q | q in was && AtOrBelow(s, q) :: was[q]
    ensures forall q | q in moving :: s <= q
    ensures (was - moving.Keys) + PutBack(moving, s, t, moving.Keys) == Relocate(was, s, t)
  {
    assert moving.Keys == Moving(was, s);
    assert Landing(s, t, moving.Keys) == Arriving(was, s, t);
  }
}
