/**
 The in-memory filesystem as a flat map from normal paths to nodes (`file.rs`).

 Every operation is given as a function from the map to an outcome and the new
 map, with the partial effects the source leaves behind when it fails midway.
 The lemmas say what the flat map means: it is always a tree.
 */
module FileTree {
  import opened Prelude
  import opened FilePaths

  type Data = seq<nat>

  datatype Node = Directory(modified: int) | File(bytes: Data, modified: int)

  type Nodes = map<string, Node>

  datatype WriteMode = Create | Replace | Append

  /** The answer of an operation and the map it leaves. */
  datatype Outcome<T> = Outcome(answer: Result<T, FileError>, nodes: Nodes)

  function Fresh(now: int): Nodes { map["/" := Directory(now)] }

  // ----- Operations -----

  /** The directory loop of `ensure_parent`: `done` exists already, `todo` is made piece by piece. */
  function MakeDirs(nodes: Nodes, done: seq<string>, todo: seq<string>, now: int): Outcome<()>
    decreases |todo|
  {
    if todo == [] then Outcome(Ok(()), nodes)
    else
      var here := done + [todo[0]];
      var p := Path(here);
      if p !in nodes then MakeDirs(nodes[p := Directory(now)], here, todo[1..], now)
      else if nodes[p].Directory? then MakeDirs(nodes, here, todo[1..], now)
      else Outcome(Err(NotDirectory), nodes)
  }

  function NonEmpty(pieces: seq<string>): seq<string> {
    if pieces == [] then []
    else if pieces[0] == "" then NonEmpty(pieces[1..])
    else [pieces[0]] + NonEmpty(pieces[1..])
  }

  /** The pieces the directory loop visits. */
  function Pieces(path: string): seq<string> { NonEmpty(Split(TrimStart(path))) }

  function EnsureParent(nodes: Nodes, path: string, parents: bool, now: int): Outcome<()> {
    match Parent(path)
    case Err(e) => Outcome(Err(e), nodes)
    case Ok(None) => Outcome(Err(Denied), nodes)
    case Ok(Some(parent)) =>
      if parents then MakeDirs(nodes, [], Pieces(parent), now)
      else if parent !in nodes then Outcome(Err(FileError.NotFound), nodes)
      else if nodes[parent].Directory? then Outcome(Ok(()), nodes)
      else Outcome(Err(NotDirectory), nodes)
  }

  function Write(nodes: Nodes, path: string, bytes: Data, mode: WriteMode, parents: bool, now: int): Outcome<string> {
    match Normalise(path)
    case Err(e) => Outcome(Err(e), nodes)
    case Ok(p) =>
      if p == "/" then Outcome(Err(IsDirectory), nodes)
      else
        var ensured := EnsureParent(nodes, p, parents, now);
        if ensured.answer.Err? then Outcome(Err(ensured.answer.error), ensured.nodes)
        else PutFile(ensured.nodes, p, bytes, mode, now)
  }

  function PutFile(nodes: Nodes, p: string, bytes: Data, mode: WriteMode, now: int): Outcome<string> {
    if p in nodes && nodes[p].Directory? then Outcome(Err(IsDirectory), nodes)
    else if p in nodes && mode == Create then Outcome(Err(AlreadyExists), nodes)
    else if p in nodes && mode == Append then Outcome(Ok(p), nodes[p := File(nodes[p].bytes + bytes, now)])
    else Outcome(Ok(p), nodes[p := File(bytes, now)])
  }

  function Mkdir(nodes: Nodes, path: string, parents: bool, existsOk: bool, now: int): Outcome<string> {
    match Normalise(path)
    case Err(e) => Outcome(Err(e), nodes)
    case Ok(p) =>
      if p in nodes then
        Outcome(if nodes[p].Directory? && existsOk then Ok(p) else Err(AlreadyExists), nodes)
      else
        var ensured := EnsureParent(nodes, p, parents, now);
        if ensured.answer.Err? then Outcome(Err(ensured.answer.error), ensured.nodes)
        else Outcome(Ok(p), ensured.nodes[p := Directory(now)])
  }

  /** Whether some stored path starts with `{path}/`. */
  predicate HasBelow(nodes: Nodes, path: string) { exists q | q in nodes :: path + "/" <= q }

  function Delete(nodes: Nodes, path: string, missingOk: bool): Outcome<string> {
    match Normalise(path)
    case Err(e) => Outcome(Err(e), nodes)
    case Ok(p) =>
      if p == "/" then Outcome(Err(Denied), nodes)
      else if p !in nodes then Outcome(if missingOk then Ok(p) else Err(FileError.NotFound), nodes)
      else if nodes[p].Directory? && HasBelow(nodes, p) then Outcome(Err(DirectoryNotEmpty), nodes)
      else Outcome(Ok(p), nodes - {p})
  }

  function Copy(nodes: Nodes, source: string, target: string, replace: bool, parents: bool, preserve: bool, now: int)
    : Outcome<string>
  {
    match Normalise(source)
    case Err(e) => Outcome(Err(e), nodes)
    case Ok(s) =>
      match Normalise(target)
      case Err(e) => Outcome(Err(e), nodes)
      case Ok(t) =>
        if s == t then Outcome(Err(AlreadyExists), nodes)
        else if s !in nodes then Outcome(Err(FileError.NotFound), nodes)
        else if nodes[s].Directory? then Outcome(Err(IsDirectory), nodes)
        else
          var written := Write(nodes, t, nodes[s].bytes, if replace then Replace else Create, parents, now);
          if written.answer.Ok? && preserve then
            Outcome(written.answer, Stamp(written.nodes, t, nodes[s].modified))
          else written
  }

  /** Overwrites the time of a file, if there is one. */
  function Stamp(nodes: Nodes, p: string, modified: int): Nodes {
    if p in nodes && nodes[p].File? then nodes[p := File(nodes[p].bytes, modified)] else nodes
  }

  predicate AtOrBelow(path: string, q: string) { q == path || path + "/" <= q }

  /** Where the move puts a path at or below `source`. */
  function Relocated(source: string, target: string, q: string): string
    requires source <= q
  {
    target + q[|source|..]
  }

  function Moving(nodes: Nodes, source: string): set<string> { set q | q in nodes && AtOrBelow(source, q) }

  function Arriving(nodes: Nodes, source: string, target: string): set<string> {
    set q | q in Moving(nodes, source) :: Relocated(source, target, q)
  }

  lemma RelocatedBack(source: string, target: string, q: string)
    requires source <= q
    ensures target <= Relocated(source, target, q)
    ensures Relocated(target, source, Relocated(source, target, q)) == q
  {
    assert Relocated(source, target, q)[|target|..] == q[|source|..];
  }

  lemma ArrivingBack(nodes: Nodes, source: string, target: string, q: string)
    requires q in Arriving(nodes, source, target)
    ensures target <= q && Relocated(target, source, q) in Moving(nodes, source)
    ensures Relocated(source, target, Relocated(target, source, q)) == q
  {
    var from :| from in Moving(nodes, source) && Relocated(source, target, from) == q;
    RelocatedBack(source, target, from);
  }

  /** The node that arrives at a path. */
  function Arrival(nodes: Nodes, source: string, target: string, q: string): Node
    requires q in Arriving(nodes, source, target)
  {
    ArrivingBack(nodes, source, target, q);
    nodes[Relocated(target, source, q)]
  }

  /** The moved subtree taken out of the map and put back under `target`. */
  function Relocate(nodes: Nodes, source: string, target: string): Nodes {
    (nodes - Moving(nodes, source)) +
    map q | q in Arriving(nodes, source, target) :: Arrival(nodes, source, target, q)
  }

  function Move(nodes: Nodes, source: string, target: string, replace: bool, parents: bool, now: int): Outcome<string> {
    match Normalise(source)
    case Err(e) => Outcome(Err(e), nodes)
    case Ok(s) =>
      match Normalise(target)
      case Err(e) => Outcome(Err(e), nodes)
      case Ok(t) =>
        if s == "/" || t == "/" then Outcome(Err(Denied), nodes)
        else if s == t then Outcome(if s in nodes then Ok(t) else Err(FileError.NotFound), nodes)
        else if s + "/" <= t then Outcome(Err(InvalidPath("cannot move a directory beneath itself")), nodes)
        else
          var ensured := EnsureParent(nodes, t, parents, now);
          if ensured.answer.Err? then Outcome(Err(ensured.answer.error), ensured.nodes)
          else Transfer(ensured.nodes, s, t, replace)
  }

  /** A move once the parents of the target are there. */
  function Transfer(nodes: Nodes, s: string, t: string, replace: bool): Outcome<string> {
    if s !in nodes then Outcome(Err(FileError.NotFound), nodes)
    else if t in nodes && !replace then Outcome(Err(AlreadyExists), nodes)
    else if t in nodes && nodes[t].Directory? && HasBelow(nodes, t) then Outcome(Err(DirectoryNotEmpty), nodes)
    else Outcome(Ok(t), Relocate(if replace then nodes - {t} else nodes, s, t))
  }

  // ----- The tree -----

  predicate DirectoryAt(nodes: Nodes, p: string) { p in nodes && nodes[p].Directory? }

  predicate UnderDirectory(nodes: Nodes, p: string) {
    match Parent(p)
    case Ok(Some(parent)) => DirectoryAt(nodes, parent)
    case _ => false
  }

  /** Root is a directory, keys are normal, and every other node lies in a directory. */
  predicate Tree(nodes: Nodes) {
    DirectoryAt(nodes, "/") &&
    forall p | p in nodes :: Normal(p) && (p != "/" ==> UnderDirectory(nodes, p))
  }

  lemma TreeStep(nodes: Nodes, s: seq<string>)
    requires Tree(nodes) && s != [] && Segments(s) && Path(s) in nodes
    ensures DirectoryAt(nodes, Path(s[..|s| - 1]))
  {
    hide Normalise, Path, Segments;
    assert s == s[..|s| - 1] + [s[|s| - 1]];
    ParentOfPath(s[..|s| - 1], s[|s| - 1]);
  }

  lemma PrefixSegments(s: seq<string>, k: nat)
    requires Segments(s) && k <= |s|
    ensures Segments(s[..k])
  {
  }

  /** Everything above a node is a directory. */
  lemma {:induction false} TreeUp(nodes: Nodes, s: seq<string>, k: nat)
    requires Tree(nodes) && Segments(s) && Path(s) in nodes && k < |s|
    ensures DirectoryAt(nodes, Path(s[..k]))
    decreases |s|
  {
    hide Tree, Path, Segments;
    TreeStep(nodes, s);
    if k < |s| - 1 {
      var front := s[..|s| - 1];
      PrefixSegments(s, |s| - 1);
      TreeUp(nodes, front, k);
      assert front[..k] == s[..k];
    }
  }

  lemma IsUnder(nodes: Nodes, s: seq<string>)
    requires s != [] && Segments(s) && DirectoryAt(nodes, Path(s[..|s| - 1]))
    ensures Path(s) != "/" && UnderDirectory(nodes, Path(s))
  {
    hide Normalise, Path, Segments;
    assert s == s[..|s| - 1] + [s[|s| - 1]];
    ParentOfPath(s[..|s| - 1], s[|s| - 1]);
  }

  /** A tree, told by segment lists. */
  ghost predicate SegmentTree(nodes: Nodes) {
    DirectoryAt(nodes, "/") && (forall p | p in nodes :: Normal(p)) &&
    forall s: seq<string> | s != [] && Segments(s) && Path(s) in nodes :: DirectoryAt(nodes, Path(s[..|s| - 1]))
  }

  lemma TreeBySegments(nodes: Nodes)
    ensures Tree(nodes) <==> SegmentTree(nodes)
  {
    hide Normalise, Path, Segments, UnderDirectory;
    if SegmentTree(nodes) {
      forall p | p in nodes && p != "/" ensures UnderDirectory(nodes, p) {
        var s := SegmentsOf(p);
        RootIsEmpty(s);
        IsUnder(nodes, s);
      }
    }
    if Tree(nodes) {
      forall s: seq<string> | s != [] && Segments(s) && Path(s) in nodes
        ensures DirectoryAt(nodes, Path(s[..|s| - 1]))
      {
        TreeStep(nodes, s);
      }
    }
  }

  lemma RootIsEmpty(s: seq<string>)
    requires Segments(s)
    ensures s == [] <==> Path(s) == "/"
  {
    hide Segments, Normalise;
    if Path(s) == "/" {
      assert Path([]) == "/";
      assert Segments([]) by { EmptySegments(); }
      hide Path;
      PathInjective(s, []);
    }
  }

  lemma EmptySegments()
    ensures Segments([])
  {
  }

  lemma InsertUp(nodes: Nodes, s: seq<string>, node: Node, t: seq<string>)
    requires SegmentTree(nodes) && s != [] && Segments(s) && DirectoryAt(nodes, Path(s[..|s| - 1]))
    requires Path(s) in nodes && nodes[Path(s)].Directory? ==> node.Directory?
    requires t != [] && Segments(t) && Path(t) in nodes[Path(s) := node]
    ensures DirectoryAt(nodes[Path(s) := node], Path(t[..|t| - 1]))
  {
    hide Normalise, Path, Segments;
    if Path(t) == Path(s) {
      PathInjective(s, t);
    } else {
      assert DirectoryAt(nodes, Path(t[..|t| - 1]));
    }
  }

  /** Putting a node into a directory keeps the tree, unless a file covers a directory. */
  lemma TreeInsert(nodes: Nodes, s: seq<string>, node: Node)
    requires Tree(nodes) && s != [] && Segments(s) && DirectoryAt(nodes, Path(s[..|s| - 1]))
    requires Path(s) in nodes && nodes[Path(s)].Directory? ==> node.Directory?
    ensures Tree(nodes[Path(s) := node])
  {
    hide Normalise, Path, Segments, Tree;
    var after := nodes[Path(s) := node];
    TreeBySegments(nodes);
    RootIsEmpty(s);
    PathIsNormal(s);
    forall t: seq<string> | t != [] && Segments(t) && Path(t) in after
      ensures DirectoryAt(after, Path(t[..|t| - 1]))
    {
      InsertUp(nodes, s, node, t);
    }
    assert SegmentTree(after);
    TreeBySegments(after);
  }

  lemma RemoveUp(nodes: Nodes, s: seq<string>, t: seq<string>)
    requires SegmentTree(nodes) && s != [] && Segments(s) && !HasBelow(nodes, Path(s))
    requires t != [] && Segments(t) && Path(t) in nodes - {Path(s)}
    ensures DirectoryAt(nodes - {Path(s)}, Path(t[..|t| - 1]))
  {
    hide Normalise, Path, Segments;
    var up := t[..|t| - 1];
    assert DirectoryAt(nodes, Path(up));
    assert Segments(up) by { PrefixSegments(t, |t| - 1); }
    if Path(up) == Path(s) { PathInjective(s, up); }
    BelowIsPrefix(s, t);
    assert Path(s) + "/" <= Path(t) ==> HasBelow(nodes, Path(s));
  }

  /** Taking out a node with nothing below keeps the tree. */
  lemma TreeRemove(nodes: Nodes, s: seq<string>)
    requires Tree(nodes) && s != [] && Segments(s) && !HasBelow(nodes, Path(s))
    ensures Tree(nodes - {Path(s)})
  {
    hide Normalise, Path, Segments, Tree, HasBelow;
    var after := nodes - {Path(s)};
    TreeBySegments(nodes);
    RootIsEmpty(s);
    forall t: seq<string> | t != [] && Segments(t) && Path(t) in after
      ensures DirectoryAt(after, Path(t[..|t| - 1]))
    {
      RemoveUp(nodes, s, t);
    }
    assert SegmentTree(after);
    TreeBySegments(after);
  }
}
