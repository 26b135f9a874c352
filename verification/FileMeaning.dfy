/**
 What a logical path means, piece by piece: which pieces survive the `..` after
 them, when a path leaves the root, and how paths are joined.  Nothing here
 names the stack that normalisation keeps.
 */
module FileMeaning {
  import opened Prelude
  import opened FilePaths

  // ----- Levels -----

  const SMALL := "abcdefghijklmnopqrstuvwxyz"

  const CAPITAL := "ABCDEFGHIJKLMNOPQRSTUVWXYZ"

  lemma LetterAt(i: nat)
    requires i < 26
    ensures SMALL[i] as int == 'a' as int + i
    ensures CAPITAL[i] as int == 'A' as int + i
  {
  }

  lemma LetterIs(c: char)
    ensures 'a' <= c <= 'z' || 'A' <= c <= 'Z' <==> c in SMALL || c in CAPITAL
  {
    forall i | 0 <= i < 26
      ensures SMALL[i] as int == 'a' as int + i && CAPITAL[i] as int == 'A' as int + i
    {
      LetterAt(i);
    }
    if 'a' <= c <= 'z' { assert SMALL[c as int - 'a' as int] == c; }
    if 'A' <= c <= 'Z' { assert CAPITAL[c as int - 'A' as int] == c; }
  }

  /** A piece names a drive when it begins with a letter and a colon. */
  lemma DriveIs(piece: string)
    ensures HostDrive(piece) <==> exists c :: (c in SMALL || c in CAPITAL) && [c, ':'] <= piece
  {
    if HostDrive(piece) {
      LetterIs(piece[0]);
      assert [piece[0], ':'] <= piece;
    }
    if c :| (c in SMALL || c in CAPITAL) && [c, ':'] <= piece {
      LetterIs(c);
      assert piece[0] == [c, ':'][0] && piece[1] == [c, ':'][1];
    }
  }

  /** A piece that names something, rather than saying stay or go up. */
  predicate IsName(piece: string) { piece != "" && piece != "." && piece != ".." }

  /** How far a piece leads down. */
  function Step(piece: string): int { if piece == ".." then -1 else if IsName(piece) then 1 else 0 }

  /** How far some pieces lead down in all. */
  function Level(pieces: seq<string>): int {
    if pieces == [] then 0 else Level(pieces[..|pieces| - 1]) + Step(pieces[|pieces| - 1])
  }

  /** A name that is never left again: from it on, names always outnumber the `..`. */
  ghost predicate Survives(pieces: seq<string>, i: int) {
    0 <= i < |pieces| && IsName(pieces[i]) && forall j :: i < j <= |pieces| ==> Level(pieces[i..j]) >= 1
  }

  /** The names from one piece on that survive, in order. */
  ghost function Survivors(pieces: seq<string>, from: nat): seq<string>
    requires from <= |pieces|
    decreases |pieces| - from
  {
    if from == |pieces| then []
    else (if Survives(pieces, from) then [pieces[from]] else []) + Survivors(pieces, from + 1)
  }

  /** The first pieces lead above the root, and no drive stands among them. */
  ghost predicate Leaves(pieces: seq<string>, k: nat) {
    k <= |pieces| && Level(pieces[..k]) < 0 && forall piece <- pieces[..k] :: !HostDrive(piece)
  }

  // ----- Normalisation from its end -----

  lemma {:induction false} ReduceConcat(pieces: seq<string>, more: seq<string>, stack: seq<string>)
    ensures Reduce(pieces + more, stack) ==
      match Reduce(pieces, stack)
      case Err(e) => Err(e)
      case Ok(t) => Reduce(more, t)
    decreases |pieces|
  {
    var all := pieces + more;
    if pieces == [] {
      assert all == more;
    } else {
      assert all[0] == pieces[0] && all[1..] == pieces[1..] + more;
      if pieces[0] == "" || pieces[0] == "." {
        ReduceConcat(pieces[1..], more, stack);
      } else if pieces[0] == ".." {
        if stack != [] { ReduceConcat(pieces[1..], more, stack[..|stack| - 1]); }
      } else if !HostDrive(pieces[0]) {
        ReduceConcat(pieces[1..], more, stack + [pieces[0]]);
      }
    }
  }

  lemma ReduceOne(x: string, stack: seq<string>)
    ensures Reduce([x], stack) ==
      if x == "" || x == "." then Ok(stack)
      else if x == ".." then if stack == [] then Err(OutsideRoot) else Ok(stack[..|stack| - 1])
      else if HostDrive(x) then Err(InvalidPath("logical paths do not accept host drive prefixes"))
      else Ok(stack + [x])
  {
    assert [x][1..] == [];
  }

  // ----- The places of the survivors -----

  /** Where the names not yet left stand, first to last. */
  function Live(pieces: seq<string>): seq<nat> {
    if pieces == [] then []
    else
      var k := |pieces| - 1;
      var before := Live(pieces[..k]);
      if pieces[k] == ".." then if before == [] then [] else before[..|before| - 1]
      else if IsName(pieces[k]) then before + [k]
      else before
  }

  /** No front leads above the root. */
  ghost predicate Stays(pieces: seq<string>) { forall k :: 0 <= k <= |pieces| ==> Level(pieces[..k]) >= 0 }

  lemma LevelMore(pieces: seq<string>, i: nat)
    requires pieces != [] && i < |pieces|
    ensures Level(pieces[i..]) == Level(pieces[i..|pieces| - 1]) + Step(pieces[|pieces| - 1])
  {
    var tail := pieces[i..];
    assert tail[..|tail| - 1] == pieces[i..|pieces| - 1];
  }

  /** Survival through one more piece. */
  lemma SurvivesMore(pieces: seq<string>, i: nat)
    requires pieces != [] && i < |pieces| - 1
    ensures
      var front := pieces[..|pieces| - 1];
      Survives(pieces, i) <==> Survives(front, i) && Level(front[i..]) + Step(pieces[|pieces| - 1]) >= 1
  {
    hide Step;
    var k := |pieces| - 1;
    var front := pieces[..k];
    LevelMore(pieces, i);
    assert front[i..] == pieces[i..k] && pieces[i..|pieces|] == pieces[i..];
    forall j | i < j <= k ensures front[i..j] == pieces[i..j] {}
    if Survives(pieces, i) {
      forall j | i < j <= |front| ensures Level(front[i..j]) >= 1 { assert Level(pieces[i..j]) >= 1; }
      assert Level(pieces[i..|pieces|]) >= 1;
    }
    if Survives(front, i) && Level(front[i..]) + Step(pieces[k]) >= 1 {
      forall j | i < j <= |pieces| ensures Level(pieces[i..j]) >= 1 {
        if j <= k { assert Level(front[i..j]) >= 1; }
      }
    }
  }

  lemma SurvivesLast(pieces: seq<string>)
    requires pieces != []
    ensures Survives(pieces, |pieces| - 1) <==> IsName(pieces[|pieces| - 1])
  {
    var k := |pieces| - 1;
    assert pieces[k..k + 1] == [pieces[k]] && [pieces[k]][..0] == [];
    assert Level([pieces[k]]) == Step(pieces[k]);
  }

  lemma StaysFront(pieces: seq<string>)
    requires pieces != [] && Stays(pieces)
    ensures Stays(pieces[..|pieces| - 1])
  {
    hide Level;
    var front := pieces[..|pieces| - 1];
    forall k | 0 <= k <= |front| ensures Level(front[..k]) >= 0 { assert front[..k] == pieces[..k]; }
  }

  /** The places of exactly the survivors, in order, each as deep as those from it on are many. */
  ghost predicate Tracks(pieces: seq<string>, live: seq<nat>) {
    && |live| == Level(pieces)
    && (forall m :: 0 <= m < |live| ==> Survives(pieces, live[m]) && Level(pieces[live[m]..]) == |live| - m)
    && (forall m, l :: 0 <= m < l < |live| ==> live[m] < live[l])
    && forall i :: Survives(pieces, i) ==> i in live
  }

  lemma {:induction false} LiveTracks(pieces: seq<string>)
    requires Stays(pieces)
    ensures Tracks(pieces, Live(pieces))
    decreases |pieces|
  {
    hide Tracks, Survives, Stays;
    if pieces == [] {
      NothingTracks();
    } else {
      var k := |pieces| - 1;
      StaysFront(pieces);
      LiveTracks(pieces[..k]);
      var before := Live(pieces[..k]);
      if pieces[k] == ".." {
        assert Level(pieces) >= 0 by { WholeStays(pieces); }
        UpTracks(pieces, before);
      } else if IsName(pieces[k]) {
        NameTracks(pieces, before);
      } else {
        StayTracks(pieces, before);
      }
    }
  }

  lemma NothingTracks()
    ensures Tracks([], [])
  {
  }

  lemma WholeStays(pieces: seq<string>)
    requires Stays(pieces)
    ensures Level(pieces) >= 0
  {
    assert pieces[..|pieces|] == pieces;
  }

  /** One survivor's depth after one more piece. */
  lemma DepthMore(pieces: seq<string>, before: seq<nat>, m: nat)
    requires pieces != [] && Tracks(pieces[..|pieces| - 1], before) && m < |before|
    ensures before[m] < |pieces| - 1
    ensures Level(pieces[before[m]..]) == |before| - m + Step(pieces[|pieces| - 1])
    ensures Survives(pieces, before[m]) <==> |before| - m + Step(pieces[|pieces| - 1]) >= 1
  {
    hide Step, Level;
    var k := |pieces| - 1;
    var front := pieces[..k];
    assert Survives(front, before[m]);
    LevelMore(pieces, before[m]);
    assert front[before[m]..] == pieces[before[m]..k];
    SurvivesMore(pieces, before[m]);
  }

  /** Nothing survives that did not before, but a new name. */
  lemma SurvivedBefore(pieces: seq<string>, before: seq<nat>, i: int)
    requires pieces != [] && Tracks(pieces[..|pieces| - 1], before) && Survives(pieces, i)
    ensures i in before || (i == |pieces| - 1 && IsName(pieces[i]))
  {
    hide Level, Step;
    if i < |pieces| - 1 { SurvivesMore(pieces, i); }
  }

  lemma LevelLast(pieces: seq<string>)
    requires pieces != []
    ensures Level(pieces) == Level(pieces[..|pieces| - 1]) + Step(pieces[|pieces| - 1])
  {
  }

  /** After a `..`, what survives is all but the last of the survivors before. */
  lemma UpKeeps(pieces: seq<string>, before: seq<nat>, i: int)
    requires pieces != [] && pieces[|pieces| - 1] == ".." && Tracks(pieces[..|pieces| - 1], before)
    requires before != [] && Survives(pieces, i)
    ensures i in before[..|before| - 1]
  {
    hide Level, Survives, Tracks;
    SurvivedBefore(pieces, before, i);
    var m :| 0 <= m < |before| && before[m] == i;
    DepthMore(pieces, before, m);
    assert before[..|before| - 1][m] == i;
  }

  lemma UpTracks(pieces: seq<string>, before: seq<nat>)
    requires pieces != [] && pieces[|pieces| - 1] == ".." && Tracks(pieces[..|pieces| - 1], before)
    requires Level(pieces) >= 0
    ensures before != [] && Tracks(pieces, before[..|before| - 1])
  {
    LevelLast(pieces);
    hide Level, Survives;
    var live := before[..|before| - 1];
    forall m | 0 <= m < |live| ensures Survives(pieces, live[m]) && Level(pieces[live[m]..]) == |live| - m {
      DepthMore(pieces, before, m);
    }
    forall i | Survives(pieces, i) ensures i in live { UpKeeps(pieces, before, i); }
  }

  lemma NameTracks(pieces: seq<string>, before: seq<nat>)
    requires pieces != [] && IsName(pieces[|pieces| - 1]) && Tracks(pieces[..|pieces| - 1], before)
    ensures Tracks(pieces, before + [|pieces| - 1])
  {
    var k := |pieces| - 1;
    LevelLast(pieces);
    SurvivesLast(pieces);
    assert pieces[k..] == [pieces[k]] && [pieces[k]][..0] == [];
    assert Level(pieces[k..]) == 1;
    hide Level, Survives;
    var live := before + [k];
    forall m | 0 <= m < |before| ensures Level(pieces[before[m]..]) == |live| - m && Survives(pieces, before[m]) {
      DepthMore(pieces, before, m);
    }
    forall m | 0 <= m < |before| ensures before[m] < k { DepthMore(pieces, before, m); }
    forall i | Survives(pieces, i) ensures i in live { SurvivedBefore(pieces, before, i); }
  }

  lemma StayTracks(pieces: seq<string>, before: seq<nat>)
    requires pieces != [] && Step(pieces[|pieces| - 1]) == 0 && Tracks(pieces[..|pieces| - 1], before)
    ensures Tracks(pieces, before)
  {
    LevelLast(pieces);
    hide Level, Survives;
    forall m | 0 <= m < |before| ensures Level(pieces[before[m]..]) == |before| - m && Survives(pieces, before[m]) {
      DepthMore(pieces, before, m);
    }
    forall i | Survives(pieces, i) ensures i in before { SurvivedBefore(pieces, before, i); }
  }

  // ----- What is left -----

  predicate Within(places: seq<nat>, size: nat) { forall m :: 0 <= m < |places| ==> places[m] < size }

  function At(pieces: seq<string>, places: seq<nat>): (r: seq<string>)
    requires Within(places, |pieces|)
    ensures |r| == |places| && forall m :: 0 <= m < |places| ==> r[m] == pieces[places[m]]
  {
    seq(|places|, m requires 0 <= m < |places| => pieces[places[m]])
  }

  lemma TracksWithin(pieces: seq<string>, live: seq<nat>)
    requires Tracks(pieces, live)
    ensures Within(live, |pieces|)
  {
    hide Level;
    forall m | 0 <= m < |live| ensures live[m] < |pieces| { assert Survives(pieces, live[m]); }
  }

  /** Where the survivors from one piece on begin among those tracked. */
  ghost predicate Cut(live: seq<nat>, from: nat, m: nat) {
    m <= |live| && forall l :: 0 <= l < |live| ==> (live[l] >= from <==> l >= m)
  }

  lemma CutNext(pieces: seq<string>, live: seq<nat>, from: nat, m: nat)
    requires Tracks(pieces, live) && from < |pieces| && Cut(live, from, m)
    ensures Survives(pieces, from) <==> m < |live| && live[m] == from
    ensures Survives(pieces, from) ==> Cut(live, from + 1, m + 1)
    ensures !Survives(pieces, from) ==> Cut(live, from + 1, m)
  {
    hide Level, Survives;
    if m < |live| {
      assert Survives(pieces, live[m]);
      assert forall l :: m < l < |live| ==> live[m] < live[l];
    }
  }

  /** The survivors from one piece on are those tracked from there. */
  lemma {:induction false} SurvivorsAre(pieces: seq<string>, live: seq<nat>, from: nat, m: nat)
    requires Tracks(pieces, live) && from <= |pieces| && Cut(live, from, m)
    ensures Within(live, |pieces|) && Survivors(pieces, from) == At(pieces, live)[m..]
    decreases |pieces| - from
  {
    hide Level, Survives, Tracks;
    TracksWithin(pieces, live);
    if from == |pieces| {
      CutEnd(live, from, m);
    } else {
      CutNext(pieces, live, from, m);
      if Survives(pieces, from) {
        SurvivorsAre(pieces, live, from + 1, m + 1);
      } else {
        SurvivorsAre(pieces, live, from + 1, m);
      }
    }
  }

  lemma CutEnd(live: seq<nat>, size: nat, m: nat)
    requires Within(live, size) && Cut(live, size, m)
    ensures m == |live|
  {
    var last := |live| - 1;
    assert |live| > 0 ==> live[last] < size;
  }

  lemma SurvivorsLive(pieces: seq<string>)
    requires Stays(pieces)
    ensures Within(Live(pieces), |pieces|) && Survivors(pieces, 0) == At(pieces, Live(pieces))
    ensures |Live(pieces)| == Level(pieces)
  {
    hide Survives, Level, Live, Stays;
    LiveTracks(pieces);
    SurvivorsAre(pieces, Live(pieces), 0, 0);
    assert At(pieces, Live(pieces))[0..] == At(pieces, Live(pieces));
  }

  /** Pieces that neither leave the root nor name a drive reduce to their survivors. */
  lemma {:induction false} ReduceLive(pieces: seq<string>)
    requires Stays(pieces) && forall piece <- pieces :: !HostDrive(piece)
    ensures Within(Live(pieces), |pieces|) && Reduce(pieces, []) == Ok(At(pieces, Live(pieces)))
    decreases |pieces|
  {
    hide Reduce, Survives, Level, Stays;
    SurvivorsLive(pieces);
    if pieces == [] {
      NothingReduces();
    } else {
      var k := |pieces| - 1;
      var front, x := pieces[..k], pieces[k];
      StaysFront(pieces);
      assert forall piece <- front :: piece in pieces;
      ReduceLive(front);
      SurvivorsLive(front);
      assert pieces == front + [x] && x in pieces;
      ReduceConcat(front, [x], []);
      ReduceOne(x, At(front, Live(front)));
      NoDots(x);
      if x == ".." { RootHeld(pieces); }
      LiveLast(pieces);
    }
  }

  /** The last piece moves the survivors as it moves the stack. */
  lemma LiveLast(pieces: seq<string>)
    requires pieces != [] && Within(Live(pieces[..|pieces| - 1]), |pieces| - 1) && Within(Live(pieces), |pieces|)
    ensures
      var front, x := pieces[..|pieces| - 1], pieces[|pieces| - 1];
      var stack := At(front, Live(front));
      At(pieces, Live(pieces)) ==
        if x == ".." then if stack == [] then [] else stack[..|stack| - 1]
        else if IsName(x) then stack + [x]
        else stack
  {
  }

  lemma NothingReduces()
    ensures Reduce([], []) == Ok([]) && At([], []) == []
  {
  }

  lemma RootHeld(pieces: seq<string>)
    requires pieces != [] && Stays(pieces) && pieces[|pieces| - 1] == ".."
    ensures Level(pieces[..|pieces| - 1]) >= 1
  {
    WholeStays(pieces);
    LevelLast(pieces);
  }

  const DRIVE := InvalidPath("logical paths do not accept host drive prefixes")

  /** What some pieces mean, without a stack. */
  ghost function Meaning(pieces: seq<string>): Result<seq<string>, FileError> {
    if exists k :: Leaves(pieces, k) then Err(OutsideRoot)
    else if exists piece <- pieces :: HostDrive(piece) then Err(DRIVE)
    else Ok(Survivors(pieces, 0))
  }

  lemma {:induction false} ReduceMeans(pieces: seq<string>)
    ensures Reduce(pieces, []) == Meaning(pieces)
    decreases |pieces|
  {
    hide Reduce, Level, Survivors, Live, HostDrive;
    EmptyStays();
    if Stays(pieces) && forall piece <- pieces :: !HostDrive(piece) {
      ReduceLive(pieces);
      SurvivorsLive(pieces);
    } else {
      var k := |pieces| - 1;
      var front, x := pieces[..k], pieces[k];
      assert pieces == front + [x];
      ReduceMeans(front);
      ReduceConcat(front, [x], []);
      LastTells(pieces);
    }
  }

  lemma EmptyStays()
    ensures Stays([])
  {
    var none: seq<string> := [];
    assert none[..0] == none;
  }

  /** Leaving the root in a front is leaving it. */
  lemma LeavesFront(pieces: seq<string>, j: nat)
    requires pieces != [] && j < |pieces|
    ensures Leaves(pieces[..|pieces| - 1], j) <==> Leaves(pieces, j)
  {
    hide Level, HostDrive;
    assert pieces[..|pieces| - 1][..j] == pieces[..j];
  }

  /** What fails goes on failing. */
  lemma FailsOn(pieces: seq<string>)
    requires pieces != [] && Meaning(pieces[..|pieces| - 1]).Err?
    ensures Meaning(pieces) == Err(Meaning(pieces[..|pieces| - 1]).error)
  {
    hide Level, Survivors, HostDrive;
    var front := pieces[..|pieces| - 1];
    if j :| Leaves(front, j) {
      LeavesFront(pieces, j);
    } else {
      var piece :| piece in front && HostDrive(piece);
      assert piece in pieces;
      forall j: nat ensures !Leaves(pieces, j) {
        if j < |pieces| { LeavesFront(pieces, j); } else if j == |pieces| { assert pieces[..j] == pieces; }
      }
    }
  }

  ghost predicate NeverLeaves(pieces: seq<string>) { forall j: nat :: !Leaves(pieces, j) }

  /** Where a path can leave the root that its front does not leave. */
  lemma LeavesAtLast(pieces: seq<string>)
    requires pieces != [] && NeverLeaves(pieces[..|pieces| - 1])
    ensures (exists j :: Leaves(pieces, j)) <==> Level(pieces) < 0 && forall piece <- pieces :: !HostDrive(piece)
  {
    hide Level, HostDrive;
    forall j: nat | j < |pieces| ensures !Leaves(pieces, j) { LeavesFront(pieces, j); }
    assert pieces[..|pieces|] == pieces;
    if j :| Leaves(pieces, j) { assert j == |pieces|; }
    if Level(pieces) < 0 && forall piece <- pieces :: !HostDrive(piece) { assert Leaves(pieces, |pieces|); }
  }

  /** A last piece that makes a path fail is a drive, or a `..` at the root. */
  lemma FailsNow(pieces: seq<string>)
    requires pieces != [] && Meaning(pieces[..|pieces| - 1]).Ok?
    requires !(Stays(pieces) && forall piece <- pieces :: !HostDrive(piece))
    ensures
      var front, x := pieces[..|pieces| - 1], pieces[|pieces| - 1];
      if HostDrive(x) then Meaning(pieces) == Err(DRIVE)
      else x == ".." && Survivors(front, 0) == [] && Meaning(pieces) == Err(OutsideRoot)
  {
    LevelLast(pieces);
    hide Level, Survivors, HostDrive, Live, Leaves;
    var k := |pieces| - 1;
    var front, x := pieces[..k], pieces[k];
    assert pieces == front + [x];
    FrontStays(front);
    SurvivorsLive(front);
    LeavesAtLast(pieces);
    if HostDrive(x) {
      assert x in pieces;
    } else {
      StaysUnless(pieces);
      WholeStays(front);
    }
  }

  lemma StaysUnless(pieces: seq<string>)
    requires pieces != [] && Stays(pieces[..|pieces| - 1]) && !Stays(pieces)
    ensures Level(pieces) < 0
  {
    hide Level;
    var front := pieces[..|pieces| - 1];
    assert forall k | 0 <= k <= |front| :: front[..k] == pieces[..k];
    assert pieces[..|pieces|] == pieces;
  }

  lemma FrontStays(pieces: seq<string>)
    requires Meaning(pieces).Ok?
    ensures Stays(pieces) && forall piece <- pieces :: !HostDrive(piece)
  {
    hide Level, HostDrive, Survivors;
    forall k | 0 <= k <= |pieces| ensures Level(pieces[..k]) >= 0 { assert !Leaves(pieces, k); }
  }

  /** The last piece of a path that fails. */
  lemma LastTells(pieces: seq<string>)
    requires pieces != [] && !(Stays(pieces) && forall piece <- pieces :: !HostDrive(piece))
    ensures
      var front, x := pieces[..|pieces| - 1], pieces[|pieces| - 1];
      match Meaning(front)
      case Err(e) => Meaning(pieces) == Err(e)
      case Ok(t) => Meaning(pieces) == Reduce([x], t)
  {
    hide Level, Survivors, HostDrive, Reduce, Meaning, Stays;
    var k := |pieces| - 1;
    var front, x := pieces[..k], pieces[k];
    if Meaning(front).Err? {
      FailsOn(pieces);
    } else {
      FailsNow(pieces);
      ReduceOne(x, Meaning(front).value);
      MeantSurvive(front);
      NoDots(x);
    }
  }

  lemma MeantSurvive(pieces: seq<string>)
    requires Meaning(pieces).Ok?
    ensures Meaning(pieces).value == Survivors(pieces, 0)
  {
  }

  lemma NoDots(x: string)
    ensures HostDrive(x) ==> x != "" && x != "." && x != ".."
  {
  }

  // ----- Paths and their pieces -----

  /** Pieces with a slash between each two. */
  function Joined(pieces: seq<string>): string {
    if pieces == [] then "" else if |pieces| == 1 then pieces[0] else pieces[0] + "/" + Joined(pieces[1..])
  }

  /** The pieces a path is cut into at its slashes. */
  predicate Cuts(path: string, pieces: seq<string>) {
    pieces != [] && Joined(pieces) == path && forall piece <- pieces :: '/' !in piece
  }

  lemma {:induction false} SplitCuts(path: string)
    ensures Cuts(path, Split(path))
  {
    var pieces := Split(path);
    if path != [] {
      var rest := Split(path[1..]);
      SplitCuts(path[1..]);
      if path[0] == '/' {
        assert pieces[1..] == rest && path == "/" + path[1..];
      } else {
        assert forall piece <- rest[1..] :: piece in rest;
        assert pieces[1..] == rest[1..] && path == [path[0]] + path[1..];
      }
    }
  }

  lemma {:induction false} CutsSplit(path: string, pieces: seq<string>)
    requires Cuts(path, pieces)
    ensures Split(path) == pieces
    decreases |pieces|
  {
    hide Split;
    assert pieces[0] in pieces;
    if |pieces| == 1 {
      SplitWhole(path);
    } else {
      assert forall piece <- pieces[1..] :: piece in pieces;
      CutsSplit(Joined(pieces[1..]), pieces[1..]);
      SplitPrefix(pieces[0], Joined(pieces[1..]));
      assert pieces == [pieces[0]] + pieces[1..];
    }
  }

  /** A path is cut in one way, and splitting finds it. */
  lemma SplitExactly(path: string, pieces: seq<string>)
    ensures Split(path) == pieces <==> Cuts(path, pieces)
  {
    hide Split, Cuts;
    SplitCuts(path);
    if Cuts(path, pieces) { CutsSplit(path, pieces); }
  }

  lemma {:induction false} PathJoins(segments: seq<string>)
    ensures Path(segments) == "/" + Joined(segments)
  {
    if |segments| > 1 {
      PathJoins(segments[1..]);
      assert Path(segments) == "/" + segments[0] + Path(segments[1..]);
    } else if |segments| == 1 {
      RenderOne(segments[0]);
      assert segments == [segments[0]];
    }
  }

  const NUL := InvalidPath("logical path contains NUL")

  const SEPARATOR := InvalidPath("logical paths use '/' rather than host separators")

  /** What a path cut into pieces means. */
  ghost function Meant(path: string, pieces: seq<string>): Result<string, FileError> {
    if '\0' in path then Err(NUL)
    else if '\\' in path then Err(SEPARATOR)
    else if exists k :: Leaves(pieces, k) then Err(OutsideRoot)
    else if exists piece <- pieces :: HostDrive(piece) then Err(DRIVE)
    else Ok("/" + Joined(Survivors(pieces, 0)))
  }

  /** Normalising a path gives what its pieces mean. */
  lemma NormaliseMeans(path: string, pieces: seq<string>)
    requires Cuts(path, pieces)
    ensures Normalise(path) == Meant(path, pieces)
  {
    hide Split, Reduce, Leaves, Survivors, Cuts, HostDrive;
    SplitExactly(path, pieces);
    ReduceMeans(pieces);
    PathJoins(Survivors(pieces, 0));
  }

  /** `logical_normalise` as it runs: a loop over the pieces, pushing and popping a stack. */
  method NormaliseLoop(path: string) returns (r: Result<string, FileError>)
    ensures r == Normalise(path)
    ensures forall pieces :: Cuts(path, pieces) ==> r == Meant(path, pieces)
  {
    forall pieces | Cuts(path, pieces) ensures Normalise(path) == Meant(path, pieces) { NormaliseMeans(path, pieces); }
    hide Meant, Cuts;
    if '\0' in path { return Err(InvalidPath("logical path contains NUL")); }
    if '\\' in path { return Err(InvalidPath("logical paths use '/' rather than host separators")); }
    var pieces := Split(path);
    var stack: seq<string> := [];
    var i := 0;
    assert pieces[0..] == pieces;
    while i < |pieces|
      invariant 0 <= i <= |pieces|
      invariant Reduce(pieces[i..], stack) == Reduce(pieces, [])
    {
      var piece := pieces[i];
      assert pieces[i..][1..] == pieces[i + 1..];
      if piece == "" || piece == "." {
      } else if piece == ".." {
        if stack == [] { return Err(OutsideRoot); }
        stack := stack[..|stack| - 1];
      } else if HostDrive(piece) {
        return Err(InvalidPath("logical paths do not accept host drive prefixes"));
      } else {
        stack := stack + [piece];
      }
      i := i + 1;
    }
    return Ok(Path(stack));
  }

  // ----- Laws for callers -----

  lemma {:induction false} CutsConcat(u: string, pieces: seq<string>, w: string)
    requires Cuts(u, pieces)
    ensures Split(u + "/" + w) == pieces + Split(w)
    decreases |pieces|
  {
    hide Split;
    var x, rest := pieces[0], pieces[1..];
    assert x in pieces && forall piece <- rest :: piece in pieces;
    if rest == [] {
      assert pieces == [x];
      SplitPrefix(x, w);
    } else {
      var v := Joined(rest);
      CutsConcat(v, rest, w);
      SplitPrefix(x, v + "/" + w);
      assert u + "/" + w == x + "/" + (v + "/" + w);
      assert [x] + (rest + Split(w)) == pieces + Split(w);
    }
  }

  lemma SplitConcat(u: string, w: string)
    ensures Split(u + "/" + w) == Split(u) + Split(w)
  {
    hide Split, Cuts;
    SplitCuts(u);
    CutsConcat(u, Split(u), w);
  }

  /** A path that means something, followed by more, means what the more means from there. */
  lemma NormaliseFrom(u: string, s: seq<string>, w: string)
    requires Segments(s) && Normalise(u) == Ok(Path(s))
    ensures Normalise(u + "/" + w) ==
      if '\0' in w then Err(NUL)
      else if '\\' in w then Err(SEPARATOR)
      else
        match Reduce(Split(w), s)
        case Err(e) => Err(e)
        case Ok(t) => Ok(Path(t))
  {
    SplitClean(u);
    ReduceProper(Split(u), []);
    hide Split, Reduce, Path;
    PathInjective(Reduce(Split(u), []).value, s);
    SplitConcat(u, w);
    ReduceConcat(Split(u), Split(w), []);
  }

  /** What a path followed by more means depends only on what the path means. */
  lemma NormaliseAlike(u: string, v: string, w: string)
    requires Normalise(u).Ok? && Normalise(u) == Normalise(v)
    ensures Normalise(u + "/" + w) == Normalise(v + "/" + w)
  {
    hide Normalise, Path, Reduce;
    var s := SegmentsMeant(u);
    NormaliseFrom(u, s, w);
    NormaliseFrom(v, s, w);
  }

  lemma SegmentsMeant(u: string) returns (s: seq<string>)
    requires Normalise(u).Ok?
    ensures Segments(s) && Normalise(u) == Ok(Path(s))
  {
    NormaliseIdempotent(u);
    s := SegmentsOf(Normalise(u).value);
  }

  /** Going down and up again changes nothing, whatever follows. */
  lemma DotDotUndoes(s: seq<string>, x: string, rest: string)
    requires Segments(s + [x]) && (rest == "" || rest[0] == '/')
    ensures Normalise(Path(s + [x]) + "/.." + rest) == Normalise(Path(s) + rest)
  {
    hide Normalise, Path;
    assert forall i :: 0 <= i < |s| ==> (s + [x])[i] == s[i];
    PathIsNormal(s);
    UpFrom(s, x);
    if rest == "" {
      assert Path(s + [x]) + "/.." + rest == Path(s + [x]) + "/.." && Path(s) + rest == Path(s);
    } else {
      var w := rest[1..];
      assert Path(s + [x]) + "/.." + rest == (Path(s + [x]) + "/..") + "/" + w;
      assert Path(s) + rest == Path(s) + "/" + w;
      NormaliseAlike(Path(s + [x]) + "/..", Path(s), w);
    }
  }

  lemma UpFrom(s: seq<string>, x: string)
    requires Segments(s + [x])
    ensures Normalise(Path(s + [x]) + "/..") == Ok(Path(s))
  {
    var t := s + [x];
    PathIsNormal(t);
    assert Path(t) + "/.." == Path(t) + "/" + "..";
    NormaliseFrom(Path(t), t, "..");
    SplitWhole("..");
    ReduceOne("..", t);
    assert t[..|t| - 1] == s;
  }

  lemma {:induction false} TrimmedReduces(path: string, stack: seq<string>)
    ensures Reduce(Split(TrimStart(path)), stack) == Reduce(Split(path), stack)
  {
    if path != [] && path[0] == '/' {
      TrimmedReduces(path[1..], stack);
      assert Split(path)[1..] == Split(path[1..]);
    }
  }

  lemma {:induction false} TrimmedHolds(path: string, c: char)
    requires c != '/'
    ensures c in TrimStart(path) <==> c in path
  {
    if path != [] && path[0] == '/' {
      TrimmedHolds(path[1..], c);
      assert path == ['/'] + path[1..];
    }
  }

  lemma TrimmedPath(s: seq<string>)
    requires Segments(s)
    ensures TrimEnd(Path(s)) == Render(s)
  {
    if s == [] {
      assert "/"[..0] == "";
    } else {
      RenderEnd(s);
    }
  }

  /** Joining is normalising the two with a slash between them. */
  lemma JoinMeans(base: string, path: string)
    ensures Join(base, path) == if Normalise(base).Err? then Normalise(base) else Normalise(base + "/" + path)
  {
    if Normalise(base).Ok? {
      hide Normalise, Path, Reduce, Split;
      var s := SegmentsMeant(base);
      var w := TrimStart(path);
      TrimmedPath(s);
      JoinedOn(s, w);
      NormaliseFrom(base, s, path);
      TrimmedReduces(path, s);
      TrimmedHolds(path, '\0');
      TrimmedHolds(path, '\\');
    }
  }

  /** What follows the segments of a path is read from them. */
  lemma JoinedOn(s: seq<string>, w: string)
    requires Segments(s)
    ensures Normalise(Render(s) + "/" + w) ==
      if '\0' in w then Err(NUL)
      else if '\\' in w then Err(SEPARATOR)
      else
        match Reduce(Split(w), s)
        case Err(e) => Err(e)
        case Ok(t) => Ok(Path(t))
  {
    RenderClean(s);
    hide Path, Render, Split;
    SplitRenderRest(s, w);
    ReduceConcat([""] + s, Split(w), []);
    assert ([""] + s)[1..] == s;
    ReduceSegments(s, []);
    assert [] + s == s;
  }

  /** A path begun at the root stands alone; any other is joined to the base. */
  lemma ResolveMeans(base: string, path: string)
    ensures Resolve(base, path) ==
      if "/" <= path then Normalise(path)
      else if Normalise(base).Err? then Normalise(base)
      else Normalise(base + "/" + path)
  {
    hide Normalise, Join;
    JoinMeans(base, path);
  }

  /** The parent of a path is the path with `..` after it, and the root has none. */
  lemma ParentMeans(path: string)
    ensures
      match Normalise(path)
      case Err(e) => Parent(path) == Err(e)
      case Ok(p) =>
        if p == "/" then Parent(path) == Ok(None)
        else Normalise(path + "/..").Ok? && Parent(path) == Ok(Some(Normalise(path + "/..").value))
  {
    if Normalise(path).Ok? && Normalise(path).value != "/" {
      var t := SegmentsMeant(path);
      var s, x := t[..|t| - 1], t[|t| - 1];
      assert t == s + [x];
      hide Path, LastSlash, Normalise;
      PathIsNormal(t);
      ParentOfPath(s, x);
      UpFrom(s, x);
      assert path + "/.." == path + "/" + ".." && Path(t) + "/.." == Path(t) + "/" + "..";
      NormaliseAlike(path, Path(t), "..");
    }
  }
}
