/** The main results about the Component value graph. */
module GraphTheorems {
  import opened Prelude
  import opened GraphData
  import opened GraphSpec
  import opened GraphLaws

  // ----- Growth -----

  /** Every node from `from` on is referred to by a later one, or is one of `refs`. */
  ghost predicate Covered(nodes: seq<GraphNode>, from: nat, refs: seq<nat>) {
    forall i :: from <= i < |nodes| ==> i in refs || Referred(nodes, i)
  }

  ghost predicate Referred(nodes: seq<GraphNode>, i: nat) {
    exists j :: i < j < |nodes| && i in Children(nodes[j])
  }

  /** What appending does to the node list. */
  ghost predicate Extended(nodes: seq<GraphNode>, g: Grown, added: nat) {
    nodes <= g.nodes && |g.nodes| == |nodes| + added && |g.nodes| <= LIMIT &&
    (forall k :: 0 <= k < |g.refs| ==> |nodes| <= g.refs[k] < |g.nodes|) &&
    (forall i :: |nodes| <= i < |g.nodes| ==> InRange(Children(g.nodes[i]), i)) &&
    Covered(g.nodes, |nodes|, g.refs)
  }

  /** An append succeeds exactly when every value is supported and the indices suffice. */
  lemma {:induction false} AppendExtends(nodes: seq<GraphNode>, v: Value)
    requires |nodes| <= LIMIT
    ensures Append(nodes, v).Ok? <==> Supported(v) && |nodes| + Count(v) <= LIMIT
    ensures Append(nodes, v).Ok? ==>
      Extended(nodes, Append(nodes, v).value, Count(v)) &&
      Append(nodes, v).value.refs == [|Append(nodes, v).value.nodes| - 1]
    decreases Count(v), 0
  {
    hide Kids, AppendAll, AllSupported, Extended, NodeOf, Count, CountAll;
    CountKids(v);
    if Refusal(v).None? {
      AppendAllExtends(nodes, Kids(v));
      var kids := AppendAll(nodes, Kids(v));
      if kids.Ok? {
        ExtendedSize(nodes, kids.value, CountAll(Kids(v)));
        ChildrenOfNode(v, kids.value.refs);
        if |kids.value.nodes| < LIMIT {
          PushExtends(nodes, kids.value, NodeOf(v, kids.value.refs), CountAll(Kids(v)));
        }
      }
    }
  }

  lemma {:induction false} AppendAllExtends(nodes: seq<GraphNode>, vs: seq<Value>)
    requires |nodes| <= LIMIT
    ensures AppendAll(nodes, vs).Ok? <==> AllSupported(vs) && |nodes| + CountAll(vs) <= LIMIT
    ensures AppendAll(nodes, vs).Ok? ==> Extended(nodes, AppendAll(nodes, vs).value, CountAll(vs))
    decreases CountAll(vs), 1
  {
    hide Append, Extended, Supported, Count;
    if vs == [] {
      NothingExtends(nodes);
    } else {
      AppendExtends(nodes, vs[0]);
      var first := Append(nodes, vs[0]);
      if first.Ok? {
        ExtendedSize(nodes, first.value, Count(vs[0]));
        AppendAllExtends(first.value.nodes, vs[1..]);
        var rest := AppendAll(first.value.nodes, vs[1..]);
        if rest.Ok? {
          ExtendsTwice(nodes, first.value, rest.value, Count(vs[0]), CountAll(vs[1..]));
        }
      }
    }
  }

  lemma NothingExtends(nodes: seq<GraphNode>)
    requires |nodes| <= LIMIT
    ensures Extended(nodes, Grown(nodes, []), 0)
  {
  }

  lemma ExtendedSize(nodes: seq<GraphNode>, g: Grown, added: nat)
    requires Extended(nodes, g, added)
    ensures nodes <= g.nodes && |g.nodes| == |nodes| + added && |g.nodes| <= LIMIT
    ensures InRange(g.refs, |g.nodes|)
  {
  }

  lemma PushExtends(nodes: seq<GraphNode>, g: Grown, node: GraphNode, added: nat)
    requires Extended(nodes, g, added) && |g.nodes| < LIMIT && Children(node) == g.refs
    ensures Extended(nodes, Grown(g.nodes + [node], [|g.nodes|]), added + 1)
  {
    hide Children;
    var after := g.nodes + [node];
    forall i | |nodes| <= i < |g.nodes| ensures Referred(after, i) {
      if i in g.refs {
        assert i in Children(after[|g.nodes|]);
      } else {
        assert Referred(g.nodes, i);
        var j :| i < j < |g.nodes| && i in Children(g.nodes[j]);
        assert i in Children(after[j]);
      }
    }
  }

  lemma ReferredStays(nodes: seq<GraphNode>, more: seq<GraphNode>, i: nat)
    requires nodes <= more && Referred(nodes, i)
    ensures Referred(more, i)
  {
    hide Children;
    var j :| i < j < |nodes| && i in Children(nodes[j]);
    assert more[j] == nodes[j];
  }

  lemma ExtendsTwice(nodes: seq<GraphNode>, g: Grown, h: Grown, added: nat, more: nat)
    requires Extended(nodes, g, added) && Extended(g.nodes, h, more)
    ensures Extended(nodes, Grown(h.nodes, g.refs + h.refs), added + more)
  {
    hide Children, Referred;
    forall i | |nodes| <= i < |h.nodes| ensures i in g.refs + h.refs || Referred(h.nodes, i) {
      if i < |g.nodes| && i !in g.refs { ReferredStays(g.nodes, h.nodes, i); }
    }
    forall i | |nodes| <= i < |h.nodes| ensures InRange(Children(h.nodes[i]), i) {
      if i < |g.nodes| { assert h.nodes[i] == g.nodes[i]; }
    }
  }

  // ----- Reachability -----

  /** Going on one reference further. */
  lemma ReachesNext(nodes: seq<GraphNode>, from: nat, mid: nat, to: nat)
    requires Reaches(nodes, from, mid) && mid < |nodes| && to in Children(nodes[mid]) && to < |nodes|
    ensures Reaches(nodes, from, to)
  {
    hide Children;
    var trail :| Trail(nodes, trail) && trail[0] == from && trail[|trail| - 1] == mid;
    var more := trail + [to];
    assert Trail(nodes, more) && more[0] == from && more[|more| - 1] == to;
  }

  lemma ReachesItself(nodes: seq<GraphNode>, i: nat)
    requires i < |nodes|
    ensures Reaches(nodes, i, i)
  {
    assert Trail(nodes, [i]);
    assert [i][0] == i && [i][|[i]| - 1] == i;
  }

  /** If every node but the last is referred to from above, the last reaches all. */
  lemma {:induction false} LastReaches(nodes: seq<GraphNode>, i: nat)
    requires i < |nodes| && forall k :: 0 <= k < |nodes| - 1 ==> Referred(nodes, k)
    ensures Reaches(nodes, |nodes| - 1, i)
    decreases |nodes| - i
  {
    hide Reaches, Children;
    if i == |nodes| - 1 {
      ReachesItself(nodes, i);
    } else {
      assert Referred(nodes, i);
      var j :| i < j < |nodes| && i in Children(nodes[j]);
      LastReaches(nodes, j);
      ReachesNext(nodes, |nodes| - 1, j, i);
    }
  }

  /** Every graph made from a value is well formed. */
  lemma AppendedIsWellFormed(v: Value)
    requires Append([], v).Ok?
    ensures var g := Append([], v).value; WellFormed(Graph(g.refs[0], g.nodes))
  {
    hide Append, Count, Supported, Children, Reaches;
    var g := Append([], v).value;
    AppendExtends([], v);
    var nodes := g.nodes;
    forall k | 0 <= k < |nodes| - 1 ensures Referred(nodes, k) {
      assert k != g.refs[0];
      assert k !in g.refs;
    }
    var root := |nodes| - 1;
    forall i | 0 <= i < |nodes| ensures Reaches(nodes, root, i) {
      LastReaches(nodes, i);
    }
  }

  // ----- Reading back what was appended -----

  /** The nodes read back, the old ones as before and the new ones as wanted. */
  ghost predicate Comes(g: Grown, values: seq<Value>, want: seq<Value>) {
    MaterializeAll(g.nodes).Ok? && values <= MaterializeAll(g.nodes).value &&
    InRange(g.refs, |g.nodes|) && Select(MaterializeAll(g.nodes).value, g.refs) == want
  }

  lemma MaterializeOneMore(nodes: seq<GraphNode>, node: GraphNode)
    ensures MaterializeAll(nodes + [node]) ==
      match MaterializeAll(nodes)
      case Err(e) => Err(e)
      case Ok(values) =>
        match Build(node, values)
        case Err(e) => Err(e)
        case Ok(v) => Ok(values + [v])
  {
    hide Build;
    assert (nodes + [node])[..|nodes + [node]| - 1] == nodes;
  }

  /** What cannot be read back stays so. */
  lemma {:induction false} MaterializeFails(nodes: seq<GraphNode>, more: seq<GraphNode>)
    requires nodes <= more && MaterializeAll(nodes).Err?
    ensures MaterializeAll(more).Err?
    decreases |more|
  {
    hide Build;
    if |nodes| < |more| {
      MaterializeFails(nodes, more[..|more| - 1]);
    } else {
      assert nodes == more;
    }
  }

  lemma {:induction false} AppendComesBack(nodes: seq<GraphNode>, v: Value, values: seq<Value>)
    requires |nodes| <= LIMIT && Append(nodes, v).Ok? && MaterializeAll(nodes) == Ok(values)
    ensures
      var g := Append(nodes, v).value;
      if Sound(v) then Comes(g, values, [Canon(v)]) else MaterializeAll(g.nodes).Err?
    decreases Count(v), 0
  {
    hide Kids, AppendAll, AllSupported, AllSound, NodeOf, Count, CountAll, Comes, MaterializeAll, CanonAll, Extended;
    CountKids(v);
    var kids := AppendAll(nodes, Kids(v));
    AppendAllExtends(nodes, Kids(v));
    ExtendedSize(nodes, kids.value, CountAll(Kids(v)));
    AllComeBack(nodes, Kids(v), values);
    var refs := kids.value.refs;
    MaterializeOneMore(kids.value.nodes, NodeOf(v, refs));
    if AllSound(Kids(v)) {
      AssembleBack(v, refs);
      ChildrenOfNode(v, refs);
      NodeComesBack(kids.value, v, values);
    }
  }

  lemma NodeComesBack(kids: Grown, v: Value, values: seq<Value>)
    requires Refusal(v).None? && |kids.refs| == |Kids(v)|
    requires Comes(kids, values, CanonAll(Kids(v))) && Children(NodeOf(v, kids.refs)) == kids.refs
    requires ComesBack(v, kids.refs)
    ensures
      var node := NodeOf(v, kids.refs);
      var g := Grown(kids.nodes + [node], [|kids.nodes|]);
      if Readable(v) then Comes(g, values, [Canon(v)]) else MaterializeAll(g.nodes).Err?
  {
    hide Kids, NodeOf, CanonAll, Children, Assemble, Readable, Canon, MaterializeAll;
    var node := NodeOf(v, kids.refs);
    MaterializeOneMore(kids.nodes, node);
    var made := MaterializeAll(kids.nodes).value;
    assert Build(node, made) == if Readable(v) then Ok(Canon(v)) else Err(Invalid);
  }

  lemma {:induction false} AllComeBack(nodes: seq<GraphNode>, vs: seq<Value>, values: seq<Value>)
    requires |nodes| <= LIMIT && AppendAll(nodes, vs).Ok? && MaterializeAll(nodes) == Ok(values)
    ensures
      var g := AppendAll(nodes, vs).value;
      if AllSound(vs) then Comes(g, values, CanonAll(vs)) else MaterializeAll(g.nodes).Err?
    decreases CountAll(vs), 1
  {
    hide Append, Extended, Sound, Supported, AllSupported, Count, Comes, MaterializeAll, Canon;
    if vs == [] {
      NothingComes(nodes, values);
    } else {
      var first := Append(nodes, vs[0]);
      var rest := AppendAll(first.value.nodes, vs[1..]);
      AppendExtends(nodes, vs[0]);
      ExtendedSize(nodes, first.value, Count(vs[0]));
      AppendAllExtends(first.value.nodes, vs[1..]);
      ExtendedSize(first.value.nodes, rest.value, CountAll(vs[1..]));
      AppendComesBack(nodes, vs[0], values);
      if Sound(vs[0]) {
        var made := ComesMade(first.value, values, [Canon(vs[0])]);
        AllComeBack(first.value.nodes, vs[1..], made);
        if AllSound(vs[1..]) {
          ComeTwice(first.value, rest.value, values, made, [Canon(vs[0])], CanonAll(vs[1..]));
        }
      } else {
        MaterializeFails(first.value.nodes, rest.value.nodes);
      }
    }
  }

  lemma NothingComes(nodes: seq<GraphNode>, values: seq<Value>)
    requires MaterializeAll(nodes) == Ok(values)
    ensures Comes(Grown(nodes, []), values, [])
  {
    hide MaterializeAll;
  }

  lemma ComesMade(g: Grown, values: seq<Value>, want: seq<Value>) returns (made: seq<Value>)
    requires Comes(g, values, want)
    ensures MaterializeAll(g.nodes) == Ok(made) && values <= made && |made| == |g.nodes|
    ensures InRange(g.refs, |made|) && Select(made, g.refs) == want
  {
    hide MaterializeAll;
    made := MaterializeAll(g.nodes).value;
  }

  lemma ComeTwice(g: Grown, h: Grown, values: seq<Value>, made: seq<Value>, first: seq<Value>, rest: seq<Value>)
    requires g.nodes <= h.nodes && values <= made && |made| == |g.nodes|
    requires InRange(g.refs, |made|) && Select(made, g.refs) == first
    requires Comes(h, made, rest)
    ensures Comes(Grown(h.nodes, g.refs + h.refs), values, first + rest)
  {
    hide MaterializeAll;
    var all := MaterializeAll(h.nodes).value;
    assert all[..|made|] == made;
    var refs := g.refs + h.refs;
    assert InRange(refs, |h.nodes|);
    assert Select(all, refs) == Select(all, g.refs) + Select(all, h.refs);
    assert forall i :: 0 <= i < |g.refs| ==> all[g.refs[i]] == made[g.refs[i]];
    assert Select(all, g.refs) == first;
  }

  /** A value comes back from its graph exactly when its names parse, with every tuple a vector. */
  lemma RoundTrip(v: Value)
    requires Append([], v).Ok?
    ensures
      var g := Append([], v).value;
      var back := Materialize(Graph(g.refs[0], g.nodes));
      if Sound(v) then back == Ok(Canon(v)) else back.Err?
  {
    hide Append, Sound, Canon, Supported, Extended;
    AppendExtends([], v);
    AppendComesBack([], v, []);
    var g := Append([], v).value;
    if Sound(v) {
      var made := ComesMade(g, [], [Canon(v)]);
      assert Select(made, g.refs)[0] == made[g.refs[0]];
    }
  }

  /** The keyword `a/b/c`, which no parser makes, is flattened to one node that does not read back. */
  lemma UnparsedKeyword()
    ensures
      var v := Value.Keyword("a/b/c");
      Append([], v) == Ok(Grown([KeywordNode("a/b/c")], [0])) && !Sound(v) &&
      Materialize(Graph(0, [KeywordNode("a/b/c")])).Err?
  {
    var v := Value.Keyword("a/b/c");
    assert Kids(v) == [];
    assert [] + [KeywordNode("a/b/c")] == [KeywordNode("a/b/c")];
    assert Append([], v) == Ok(Grown([KeywordNode("a/b/c")], [0]));
    TwoSlashes();
    hide Append, Materialize;
    RoundTrip(v);
  }

  lemma TwoSlashes()
    ensures Slashes("a/b/c") == 2
  {
    assert "a/b/c"[1..] == "/b/c" && "/b/c"[1..] == "b/c" && "b/c"[1..] == "/c" && "/c"[1..] == "c" && "c"[1..] == "";
    assert Slashes("c") == 0 && Slashes("/c") == 1 && Slashes("b/c") == 1 && Slashes("/b/c") == 2;
  }

  // ----- Sharing -----

  lemma {:induction false} UnfoldAllSelects(nodes: seq<GraphNode>, i: nat, refs: seq<nat>, values: seq<Value>)
    requires Backward(nodes) && i <= |nodes| && InRange(refs, i) && |values| == i
    requires forall k :: 0 <= k < i ==> Unfold(nodes, k) == Ok(values[k])
    ensures UnfoldAll(nodes, i, refs) == Ok(Select(values, refs))
    decreases |refs|
  {
    hide Unfold, Backward;
    if refs != [] {
      UnfoldAllSelects(nodes, i, refs[1..], values);
      assert Select(values, refs) == [values[refs[0]]] + Select(values, refs[1..]);
    }
  }

  ghost predicate Tabled(nodes: seq<GraphNode>, values: seq<Value>)
    requires Backward(nodes) && |values| <= |nodes|
  {
    forall k :: 0 <= k < |values| ==> Unfold(nodes, k) == Ok(values[k])
  }

  lemma UnfoldBuilds(nodes: seq<GraphNode>, values: seq<Value>)
    requires Backward(nodes) && |values| < |nodes| && Tabled(nodes, values)
    ensures Unfold(nodes, |values|) == Build(nodes[|values|], values)
  {
    var k := |values|;
    UnfoldAllSelects(nodes, k, Children(nodes[k]), values);
  }

  /** The table holds what following references gives. */
  lemma {:induction false} TableUnfolds(nodes: seq<GraphNode>, n: nat)
    requires Backward(nodes) && n <= |nodes|
    ensures MaterializeAll(nodes[..n]).Ok? ==> Tabled(nodes, MaterializeAll(nodes[..n]).value)
    ensures MaterializeAll(nodes[..n]).Err? ==> exists k :: 0 <= k < n && Unfold(nodes, k).Err?
  {
    hide Unfold, Build, Backward;
    if n > 0 {
      var k := n - 1;
      TableUnfolds(nodes, k);
      assert nodes[..n] == nodes[..k] + [nodes[k]];
      MaterializeOneMore(nodes[..k], nodes[k]);
      if MaterializeAll(nodes[..k]).Ok? {
        UnfoldBuilds(nodes, MaterializeAll(nodes[..k]).value);
      }
    }
  }

  lemma {:induction false} UnfoldAllFails(nodes: seq<GraphNode>, i: nat, refs: seq<nat>, c: nat)
    requires Backward(nodes) && i <= |nodes| && InRange(refs, i) && c in refs && Unfold(nodes, c).Err?
    ensures UnfoldAll(nodes, i, refs).Err?
    decreases |refs|
  {
    hide Unfold, Backward;
    if refs[0] != c { UnfoldAllFails(nodes, i, refs[1..], c); }
  }

  /** A failure below is a failure above. */
  lemma {:induction false} TrailFails(nodes: seq<GraphNode>, trail: seq<nat>)
    requires Backward(nodes) && Trail(nodes, trail) && Unfold(nodes, trail[|trail| - 1]).Err?
    ensures Unfold(nodes, trail[0]).Err?
    decreases |trail|
  {
    if |trail| > 1 {
      assert Trail(nodes, trail[1..]);
      TrailFails(nodes, trail[1..]);
      hide Assemble, Children;
      UnfoldAllFails(nodes, trail[0], Children(nodes[trail[0]]), trail[1]);
    }
  }

  /** On a well-formed graph the table-driven reading is the plain recursive one: sharing does not show. */
  lemma SharingDoesNotShow(g: Graph)
    requires WellFormed(g)
    ensures Materialize(g).Ok? <==> Unfold(g.nodes, g.root).Ok?
    ensures Materialize(g).Ok? ==> Materialize(g) == Unfold(g.nodes, g.root)
  {
    var nodes := g.nodes;
    TableUnfolds(nodes, |nodes|);
    assert nodes[..|nodes|] == nodes;
    hide Unfold, MaterializeAll, Backward;
    if MaterializeAll(nodes).Err? {
      var k :| 0 <= k < |nodes| && Unfold(nodes, k).Err?;
      assert Reaches(nodes, g.root, k);
      var trail :| Trail(nodes, trail) && trail[0] == g.root && trail[|trail| - 1] == k;
      TrailFails(nodes, trail);
    }
  }
}
