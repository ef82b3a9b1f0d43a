/** The iterative strongly-connected-components search of the dependency resolver. */
module Tarjan {
  import opened Ordering
  import opened Graphs

  /** One entry of the explicit work stack: a node and the neighbours still to look at. */
  datatype Frame = Frame(node: Id, rest: seq<Id>)

  /** The search's variables, as one value the invariants can speak about. */
  datatype Search = Search(
    index: map<Id, nat>,
    low: map<Id, nat>,
    next: nat,
    stack: seq<Id>,
    comps: seq<seq<Id>>,
    work: seq<Frame>)
  {
    predicate TopFresh() {
      |work| > 0 && work[|work| - 1].node !in index
    }

    /** Frames whose node has been numbered; only the top frame may be fresh. */
    function Grays(): nat {
      if TopFresh() then |work| - 1 else |work|
    }

    predicate Popped(v: Id) {
      v in index && v !in stack
    }

    ghost predicate IsGray(v: Id) {
      exists i :: 0 <= i < Grays() && work[i].node == v
    }
  }

  /** `c` is a whole equivalence class of mutual reachability. */
  ghost predicate IsComponent(g: Graph, c: seq<Id>) {
    && c != []
    && Distinct(c)
    && forall a, b {:trigger Mutual(g, a, b)} :: a in c ==> (b in c <==> Mutual(g, a, b))
  }

  ghost predicate PairwiseDisjoint(cs: seq<seq<Id>>) {
    forall i, j, v :: 0 <= i < j < |cs| && v in cs[i] ==> v !in cs[j]
  }

  ghost predicate FromRoots(g: Graph, roots: set<Id>, v: Id) {
    exists r :: r in roots && Reach(g, r, v)
  }

  // ---- The invariant, conjunct by conjunct

  ghost predicate Numbered(s: Search) {
    && s.low.Keys == s.index.Keys
    && (forall v :: v in s.index ==> s.index[v] < s.next)
    && (forall i :: 0 <= i < |s.stack| ==> s.stack[i] in s.index)
    && (forall i, j :: 0 <= i < j < |s.stack| ==> s.index[s.stack[i]] < s.index[s.stack[j]])
  }

  ghost predicate Untouched(g: Graph, f: Frame) {
    forall x :: x in Succ(g, f.node) ==> x in f.rest
  }

  /** The numbered frames are on the stack, in increasing order. */
  ghost predicate FramesOrdered(s: Search)
    requires Numbered(s)
  {
    && (forall i :: 0 <= i < s.Grays() ==> s.work[i].node in s.index && s.work[i].node in s.stack)
    && (forall i, j :: 0 <= i < j < s.Grays() ==> s.index[s.work[i].node] < s.index[s.work[j].node])
  }

  /** Each frame was opened from the one below it. */
  ghost predicate FramesLinked(g: Graph, s: Search) {
    forall i, j :: 0 <= i && j == i + 1 && j < |s.work| ==> s.work[j].node in Succ(g, s.work[i].node)
  }

  /** What frame `f` still has to look at, given the numbered nodes and the node on top. */
  ghost predicate RestCovers(g: Graph, f: Frame, index: map<Id, nat>, top: Id) {
    && (forall x :: x in f.rest ==> x in Succ(g, f.node))
    && (forall x :: x in Succ(g, f.node) ==> x in f.rest || x in index || x == top)
  }

  ghost predicate FramesCover(g: Graph, s: Search) {
    && (forall i {:trigger RestCovers(g, s.work[i], s.index, s.work[|s.work| - 1].node)} :: 0 <= i < |s.work| ==>
          RestCovers(g, s.work[i], s.index, s.work[|s.work| - 1].node))
    && (s.TopFresh() ==> Untouched(g, s.work[|s.work| - 1]))
  }

  ghost predicate Framed(g: Graph, s: Search)
    requires Numbered(s)
  {
    FramesOrdered(s) && FramesLinked(g, s) && FramesCover(g, s)
  }

  ghost predicate BlackExplored(g: Graph, s: Search) {
    && (forall v, x :: v in s.stack && !s.IsGray(v) && x in Succ(g, v) ==> x in s.index)
    && (forall v, x :: s.Popped(v) && x in Succ(g, v) ==> s.Popped(x))
  }

  /** Earlier stack entries reach later ones. */
  ghost predicate StackReach(g: Graph, s: Search) {
    forall i, j {:trigger Reach(g, s.stack[i], s.stack[j])} ::
      0 <= i <= j < |s.stack| ==> Reach(g, s.stack[i], s.stack[j])
  }

  /** Gray frame `i` lies at or below `y` on the stack and `y` reaches it. */
  ghost predicate FallsTo(g: Graph, s: Search, y: Id, i: int)
    requires y in s.index
  {
    && 0 <= i < s.Grays()
    && s.work[i].node in s.index
    && s.index[s.work[i].node] <= s.index[y]
    && Reach(g, y, s.work[i].node)
  }

  ghost predicate Falls(g: Graph, s: Search, y: Id) {
    y in s.index && exists i :: FallsTo(g, s, y, i)
  }

  ghost predicate StackToGray(g: Graph, s: Search) {
    forall y {:trigger Falls(g, s, y)} :: y in s.stack ==> Falls(g, s, y)
  }

  ghost predicate LowWitness(g: Graph, s: Search, v: Id, w: Id)
    requires v in s.low
  {
    w in s.stack && w in s.index && s.index[w] == s.low[v] && Reach(g, v, w)
  }

  ghost predicate LowHeld(g: Graph, s: Search, v: Id) {
    v in s.low && v in s.index && s.low[v] <= s.index[v] && exists w :: LowWitness(g, s, v, w)
  }

  ghost predicate LowSound(g: Graph, s: Search) {
    forall i {:trigger LowHeld(g, s, s.work[i].node)} :: 0 <= i < s.Grays() ==> LowHeld(g, s, s.work[i].node)
  }

  /** `y` belongs to the stack segment that gray frame `i` opens. */
  ghost predicate InSegment(s: Search, i: nat, y: Id)
    requires i < s.Grays()
  {
    && y in s.stack && y in s.index && s.work[i].node in s.index
    && s.index[s.work[i].node] <= s.index[y]
    && (i + 1 < s.Grays() ==> s.work[i + 1].node in s.index && s.index[y] < s.index[s.work[i + 1].node])
  }

  /** The explored edges from `y` back into the stack are accounted for in frame `i`'s low link. */
  ghost predicate EdgesHeld(g: Graph, s: Search, i: nat, y: Id) {
    && i < |s.work| && s.work[i].node in s.low
    && forall z :: z in Succ(g, y) && z in s.stack && z in s.index && (y == s.work[i].node ==> z !in s.work[i].rest)
         ==> s.low[s.work[i].node] <= s.index[z]
  }

  ghost predicate LowComplete(g: Graph, s: Search) {
    forall i: nat, y {:trigger EdgesHeld(g, s, i, y)} ::
      i < s.Grays() && InSegment(s, i, y) ==> EdgesHeld(g, s, i, y)
  }

  ghost predicate Collected(g: Graph, s: Search) {
    && (forall i :: 0 <= i < |s.comps| ==> IsComponent(g, s.comps[i]))
    && (forall v :: s.Popped(v) <==> exists i :: 0 <= i < |s.comps| && v in s.comps[i])
    && PairwiseDisjoint(s.comps)
  }

  ghost predicate Rooted(g: Graph, roots: set<Id>, s: Search) {
    && (forall v {:trigger FromRoots(g, roots, v)} :: v in s.index ==> FromRoots(g, roots, v))
    && (forall i {:trigger FromRoots(g, roots, s.work[i].node)} :: 0 <= i < |s.work| ==> FromRoots(g, roots, s.work[i].node))
  }

  ghost predicate Inv(g: Graph, roots: set<Id>, s: Search) {
    && Numbered(s)
    && Framed(g, s)
    && BlackExplored(g, s)
    && StackReach(g, s)
    && StackToGray(g, s)
    && LowSound(g, s)
    && LowComplete(g, s)
    && Collected(g, s)
    && Rooted(g, roots, s)
  }

  // ---- The five kinds of step

  function Visited(s: Search): Search
    requires s.TopFresh()
  {
    var n := s.work[|s.work| - 1].node;
    s.(index := s.index[n := s.next], low := s.low[n := s.next], next := s.next + 1, stack := s.stack + [n])
  }

  /** Position of a member of the stack. */
  lemma StackPosition(s: Search, v: Id) returns (k: nat)
    requires v in s.stack
    ensures k < |s.stack| && s.stack[k] == v
  {
    k :| 0 <= k < |s.stack| && s.stack[k] == v;
  }

  lemma StackOrder(s: Search, i: nat, j: nat)
    requires Numbered(s) && i < |s.stack| && j < |s.stack|
    ensures s.index[s.stack[i]] <= s.index[s.stack[j]] <==> i <= j
  {
  }

  lemma OrderedReach(g: Graph, s: Search, a: Id, b: Id)
    requires Numbered(s) && StackReach(g, s)
    requires a in s.stack && b in s.stack && s.index[a] <= s.index[b]
    ensures Reach(g, a, b)
  {
    var i := StackPosition(s, a);
    var j := StackPosition(s, b);
    StackOrder(s, i, j);
    assert Reach(g, s.stack[i], s.stack[j]);
  }

  /** Everything on the stack reaches the deepest gray node. */
  lemma ReachesDeepestGray(g: Graph, s: Search, y: Id)
    requires Numbered(s) && Framed(g, s) && StackReach(g, s) && StackToGray(g, s)
    requires y in s.stack
    ensures s.Grays() > 0 && Reach(g, y, s.work[s.Grays() - 1].node)
  {
    assert Falls(g, s, y);
    var i :| FallsTo(g, s, y, i);
    var x, p := s.work[i].node, s.work[s.Grays() - 1].node;
    assert s.index[x] <= s.index[p];
    OrderedReach(g, s, x, p);
    ReachTransitive(g, y, x, p);
  }

  lemma VisitFrames(g: Graph, s: Search)
    requires s.TopFresh() && Numbered(s) && Framed(g, s)
    ensures Numbered(Visited(s)) && Framed(g, Visited(s))
  {
    var t := Visited(s);
    assert forall v :: v in t.index <==> v in s.index || v == s.work[|s.work| - 1].node;
    assert Numbered(t);
    assert FramesOrdered(t);
    assert FramesLinked(g, t);
    forall i | 0 <= i < |t.work| ensures RestCovers(g, t.work[i], t.index, t.work[|t.work| - 1].node) {
      assert RestCovers(g, s.work[i], s.index, s.work[|s.work| - 1].node);
    }
  }

  lemma VisitColours(g: Graph, s: Search)
    requires s.TopFresh() && Numbered(s) && Framed(g, s) && BlackExplored(g, s)
    ensures BlackExplored(g, Visited(s))
    ensures forall v :: Visited(s).Popped(v) <==> s.Popped(v)
  {
    var t := Visited(s);
    var k := |s.work| - 1;
    assert forall v :: t.Popped(v) <==> s.Popped(v);
    forall v | s.IsGray(v) ensures t.IsGray(v) {
      var i :| 0 <= i < s.Grays() && s.work[i].node == v;
      assert t.work[i].node == v;
    }
    assert t.IsGray(s.work[k].node) by { assert t.work[k].node == s.work[k].node; }
  }

  lemma VisitReach(g: Graph, s: Search)
    requires s.TopFresh() && Numbered(s) && Framed(g, s) && StackReach(g, s) && StackToGray(g, s)
    ensures StackReach(g, Visited(s))
  {
    var t := Visited(s);
    var k := |s.work| - 1;
    var n := s.work[k].node;
    forall i, j | 0 <= i <= j < |t.stack| ensures Reach(g, t.stack[i], t.stack[j]) {
      if j < |s.stack| {
        assert Reach(g, s.stack[i], s.stack[j]);
      } else if i == j {
        ReachSelf(g, n);
      } else {
        ReachesDeepestGray(g, s, s.stack[i]);
        ReachEdge(g, s.work[k - 1].node, n);
        ReachTransitive(g, s.stack[i], s.work[k - 1].node, n);
      }
    }
  }

  lemma VisitFalls(g: Graph, s: Search)
    requires s.TopFresh() && Numbered(s) && StackToGray(g, s)
    ensures StackToGray(g, Visited(s))
  {
    var t := Visited(s);
    var k := |s.work| - 1;
    forall y | y in t.stack ensures Falls(g, t, y) {
      if y in s.stack {
        assert Falls(g, s, y);
        var i :| FallsTo(g, s, y, i);
        assert FallsTo(g, t, y, i);
      } else {
        ReachSelf(g, y);
        assert FallsTo(g, t, y, k);
      }
    }
  }

  lemma VisitLowSound(g: Graph, s: Search)
    requires s.TopFresh() && Numbered(s) && LowSound(g, s)
    ensures LowSound(g, Visited(s))
  {
    var t := Visited(s);
    var k := |s.work| - 1;
    forall i | 0 <= i < t.Grays() ensures LowHeld(g, t, t.work[i].node) {
      if i == k {
        ReachSelf(g, t.work[k].node);
        assert LowWitness(g, t, t.work[k].node, t.work[k].node);
      } else {
        assert LowHeld(g, s, s.work[i].node);
        var w :| LowWitness(g, s, s.work[i].node, w);
        assert LowWitness(g, t, t.work[i].node, w);
      }
    }
  }

  lemma VisitLowComplete(g: Graph, s: Search)
    requires s.TopFresh() && Numbered(s) && FramesOrdered(s) && FramesCover(g, s)
    requires LowSound(g, s) && LowComplete(g, s)
    ensures LowComplete(g, Visited(s))
  {
    var t := Visited(s);
    var k := |s.work| - 1;
    var n := s.work[k].node;
    forall i: nat, y | i < t.Grays() && InSegment(t, i, y) ensures EdgesHeld(g, t, i, y) {
      if i < k {
        assert y in s.stack;
        assert InSegment(s, i, y);
        assert EdgesHeld(g, s, i, y);
        assert LowHeld(g, s, s.work[i].node);
      } else {
        assert y == n;
      }
    }
  }

  lemma VisitStep(g: Graph, roots: set<Id>, s: Search)
    requires Inv(g, roots, s) && s.TopFresh()
    ensures Inv(g, roots, Visited(s))
    ensures var n := s.work[|s.work| - 1].node;
            Visited(s) == Search(s.index[n := s.next], s.low[n := s.next], s.next + 1, s.stack + [n], s.comps, s.work)
  {
    VisitFrames(g, s);
    VisitColours(g, s);
    VisitReach(g, s);
    VisitFalls(g, s);
    VisitLowSound(g, s);
    VisitLowComplete(g, s);
    VisitRooted(g, roots, s);
  }

  lemma VisitRooted(g: Graph, roots: set<Id>, s: Search)
    requires s.TopFresh() && Rooted(g, roots, s)
    ensures Rooted(g, roots, Visited(s))
  {
    assert FromRoots(g, roots, s.work[|s.work| - 1].node);
  }

  // ---- Looking at the next neighbour of the top node

  predicate Scanning(s: Search) {
    |s.work| > 0 && !s.TopFresh() && s.work[|s.work| - 1].rest != []
  }

  function Min(a: nat, b: nat): nat {
    if a <= b then a else b
  }

  function Lowered(low: map<Id, nat>, n: Id, value: nat): map<Id, nat>
    requires n in low
  {
    low[n := Min(low[n], value)]
  }

  /** The neighbour is numbered already. */
  function Skipped(s: Search): Search
    requires Numbered(s) && Scanning(s)
    requires s.work[|s.work| - 1].rest[0] in s.index
  {
    var k := |s.work| - 1;
    var n, x := s.work[k].node, s.work[k].rest[0];
    s.(low := if x in s.stack then Lowered(s.low, n, s.index[x]) else s.low,
       work := s.work[k := Frame(n, s.work[k].rest[1..])])
  }

  /** The neighbour is fresh: it becomes the top frame. */
  function Descended(g: Graph, s: Search): Search
    requires Scanning(s)
  {
    var k := |s.work| - 1;
    var n, x := s.work[k].node, s.work[k].rest[0];
    s.(work := s.work[k := Frame(n, s.work[k].rest[1..])] + [Frame(x, Sorted(Succ(g, x)))])
  }

  lemma SameGrays(s: Search, t: Search)
    requires s.Grays() == t.Grays()
    requires forall i :: 0 <= i < s.Grays() ==> s.work[i].node == t.work[i].node
    ensures forall v :: s.IsGray(v) <==> t.IsGray(v)
  {
    forall v | s.IsGray(v) ensures t.IsGray(v) {
      var i :| 0 <= i < s.Grays() && s.work[i].node == v;
      assert t.work[i].node == v;
    }
    forall v | t.IsGray(v) ensures s.IsGray(v) {
      var i :| 0 <= i < t.Grays() && t.work[i].node == v;
      assert s.work[i].node == v;
    }
  }

  lemma SkipFrames(g: Graph, s: Search)
    requires Numbered(s) && Framed(g, s) && Scanning(s) && s.work[|s.work| - 1].rest[0] in s.index
    ensures Numbered(Skipped(s)) && Framed(g, Skipped(s))
  {
    var t := Skipped(s);
    var k := |s.work| - 1;
    assert s.Grays() == t.Grays() == k + 1;
    assert forall i :: 0 <= i <= k ==> t.work[i].node == s.work[i].node;
    forall i | 0 <= i < |t.work| ensures RestCovers(g, t.work[i], t.index, t.work[|t.work| - 1].node) {
      assert RestCovers(g, s.work[i], s.index, s.work[|s.work| - 1].node);
      if i == k {
        assert s.work[k].rest == [s.work[k].rest[0]] + t.work[k].rest;
      }
    }
  }

  lemma SkipFalls(g: Graph, s: Search, t: Search)
    requires Numbered(s) && StackToGray(g, s)
    requires t.stack == s.stack && t.index == s.index && s.Grays() == t.Grays()
    requires forall i :: 0 <= i < s.Grays() ==> s.work[i].node == t.work[i].node
    ensures StackToGray(g, t)
  {
    forall y | y in t.stack ensures Falls(g, t, y) {
      assert Falls(g, s, y);
      var i :| FallsTo(g, s, y, i);
      assert FallsTo(g, t, y, i);
    }
  }

  lemma SkipLowSound(g: Graph, s: Search)
    requires Numbered(s) && FramesOrdered(s) && FramesCover(g, s) && LowSound(g, s)
    requires Scanning(s) && s.work[|s.work| - 1].rest[0] in s.index
    ensures LowSound(g, Skipped(s))
  {
    var t := Skipped(s);
    var k := |s.work| - 1;
    var n, x := s.work[k].node, s.work[k].rest[0];
    forall i | 0 <= i < t.Grays() ensures LowHeld(g, t, t.work[i].node) {
      assert LowHeld(g, s, s.work[i].node);
      var w :| LowWitness(g, s, s.work[i].node, w);
      if i == k && x in s.stack && s.index[x] < s.low[n] {
        assert RestCovers(g, s.work[k], s.index, n);
        ReachEdge(g, n, x);
        assert LowWitness(g, t, n, x);
      } else {
        assert t.work[i].node == s.work[i].node;
        assert i < k ==> s.work[i].node != n;
        assert LowWitness(g, t, t.work[i].node, w);
      }
    }
  }

  lemma SkipLowComplete(g: Graph, s: Search)
    requires Numbered(s) && FramesOrdered(s) && LowComplete(g, s)
    requires Scanning(s) && s.work[|s.work| - 1].rest[0] in s.index
    ensures LowComplete(g, Skipped(s))
  {
    var t := Skipped(s);
    var k := |s.work| - 1;
    var n, x := s.work[k].node, s.work[k].rest[0];
    assert s.work[k].rest == [x] + t.work[k].rest;
    forall i: nat, y | i < t.Grays() && InSegment(t, i, y) ensures EdgesHeld(g, t, i, y) {
      assert t.work[i].node == s.work[i].node;
      assert InSegment(s, i, y);
      assert EdgesHeld(g, s, i, y);
    }
  }

  lemma SkipStep(g: Graph, roots: set<Id>, s: Search)
    requires Inv(g, roots, s) && Scanning(s) && s.work[|s.work| - 1].rest[0] in s.index
    ensures Inv(g, roots, Skipped(s))
  {
    var t := Skipped(s);
    var k := |s.work| - 1;
    SkipFrames(g, s);
    SameGrays(s, t);
    assert forall v :: t.Popped(v) <==> s.Popped(v);
    SkipFalls(g, s, t);
    SkipLowSound(g, s);
    SkipLowComplete(g, s);
    SkipRooted(g, roots, s);
    assert forall i, j {:trigger Reach(g, t.stack[i], t.stack[j])} ::
      0 <= i <= j < |t.stack| ==> Reach(g, s.stack[i], s.stack[j]);
  }

  lemma SkipRooted(g: Graph, roots: set<Id>, s: Search)
    requires Numbered(s) && Rooted(g, roots, s) && Scanning(s) && s.work[|s.work| - 1].rest[0] in s.index
    ensures Rooted(g, roots, Skipped(s))
  {
    var t := Skipped(s);
    forall i | 0 <= i < |t.work| ensures FromRoots(g, roots, t.work[i].node) {
      assert FromRoots(g, roots, s.work[i].node);
    }
  }

  lemma DescendFrames(g: Graph, s: Search)
    requires Numbered(s) && Framed(g, s) && Scanning(s) && s.work[|s.work| - 1].rest[0] !in s.index
    ensures Numbered(Descended(g, s)) && Framed(g, Descended(g, s))
  {
    hide Before, FramesCover, FramesLinked;
    DescendLinked(g, s);
    DescendCover(g, s);
    var t, k := Descended(g, s), |s.work| - 1;
    assert t.TopFresh() && t.Grays() == s.Grays() == k + 1;
    assert forall i :: 0 <= i <= k ==> t.work[i].node == s.work[i].node;
  }

  lemma DescendLinked(g: Graph, s: Search)
    requires FramesLinked(g, s) && FramesCover(g, s) && Scanning(s) && s.work[|s.work| - 1].rest[0] !in s.index
    ensures FramesLinked(g, Descended(g, s))
  {
    hide Before, Succ;
    var t, k := Descended(g, s), |s.work| - 1;
    assert RestCovers(g, s.work[k], s.index, s.work[k].node);
    assert forall i :: 0 <= i <= k ==> t.work[i].node == s.work[i].node;
  }

  lemma DescendCover(g: Graph, s: Search)
    requires FramesCover(g, s) && Scanning(s) && s.work[|s.work| - 1].rest[0] !in s.index
    requires s.work[|s.work| - 1].node in s.index
    ensures FramesCover(g, Descended(g, s))
  {
    hide Before;
    var t := Descended(g, s);
    var k := |s.work| - 1;
    var n, x := s.work[k].node, s.work[k].rest[0];
    assert t.TopFresh() && t.work[k + 1].node == x;
    forall i | 0 <= i < |t.work| ensures RestCovers(g, t.work[i], t.index, x) {
      if i <= k {
        assert RestCovers(g, s.work[i], s.index, n);
        if i == k {
          assert s.work[k].rest == [x] + t.work[k].rest;
        }
      }
    }
  }

  lemma DescendLow(g: Graph, s: Search)
    requires Numbered(s) && Framed(g, s) && LowSound(g, s) && LowComplete(g, s)
    requires Scanning(s) && s.work[|s.work| - 1].rest[0] !in s.index
    ensures LowSound(g, Descended(g, s)) && LowComplete(g, Descended(g, s))
  {
    var t := Descended(g, s);
    var k := |s.work| - 1;
    var x := s.work[k].rest[0];
    assert s.work[k].rest == [x] + t.work[k].rest;
    forall i | 0 <= i < t.Grays() ensures LowHeld(g, t, t.work[i].node) {
      assert LowHeld(g, s, s.work[i].node);
      var w :| LowWitness(g, s, s.work[i].node, w);
      assert LowWitness(g, t, t.work[i].node, w);
    }
    forall i: nat, y | i < t.Grays() && InSegment(t, i, y) ensures EdgesHeld(g, t, i, y) {
      assert t.work[i].node == s.work[i].node;
      assert InSegment(s, i, y);
      assert EdgesHeld(g, s, i, y);
    }
  }

  lemma DescendStep(g: Graph, roots: set<Id>, s: Search)
    requires Inv(g, roots, s) && Scanning(s) && s.work[|s.work| - 1].rest[0] !in s.index
    ensures Inv(g, roots, Descended(g, s))
  {
    var t := Descended(g, s);
    DescendFrames(g, s);
    SameGrays(s, t);
    assert forall v :: t.Popped(v) <==> s.Popped(v);
    SkipFalls(g, s, t);
    DescendLow(g, s);
    DescendRooted(g, roots, s);
    assert forall i, j {:trigger Reach(g, t.stack[i], t.stack[j])} ::
      0 <= i <= j < |t.stack| ==> Reach(g, s.stack[i], s.stack[j]);
  }

  lemma DescendRooted(g: Graph, roots: set<Id>, s: Search)
    requires Rooted(g, roots, s) && Scanning(s) && FramesCover(g, s)
    ensures Rooted(g, roots, Descended(g, s))
  {
    var t := Descended(g, s);
    var k := |s.work| - 1;
    var n, x := s.work[k].node, s.work[k].rest[0];
    assert RestCovers(g, s.work[k], s.index, n);
    assert FromRoots(g, roots, n);
    RootsExtend(g, roots, n, x);
    forall i | 0 <= i < |t.work| ensures FromRoots(g, roots, t.work[i].node) {
      if i <= k { assert FromRoots(g, roots, s.work[i].node); }
    }
  }

  lemma RootsExtend(g: Graph, roots: set<Id>, n: Id, x: Id)
    requires FromRoots(g, roots, n) && x in Succ(g, n)
    ensures FromRoots(g, roots, x)
  {
    var r :| r in roots && Reach(g, r, n);
    ReachEdge(g, n, x);
    ReachTransitive(g, r, n, x);
  }

  // ---- The top node has no neighbour left

  predicate Finished(s: Search) {
    |s.work| > 0 && !s.TopFresh() && s.work[|s.work| - 1].rest == []
  }

  function HandedDown(s: Search): map<Id, nat>
    requires Numbered(s) && FramesOrdered(s) && Finished(s)
  {
    var k := |s.work| - 1;
    if k > 0 then Lowered(s.low, s.work[k - 1].node, s.low[s.work[k].node]) else s.low
  }

  /** Pop the frame and hand its low link to the frame below. */
  function Retreated(s: Search): Search
    requires Numbered(s) && FramesOrdered(s) && Finished(s)
  {
    s.(work := s.work[..|s.work| - 1], low := HandedDown(s))
  }

  /** The frame's node closes a component: the stack from position `j` up. */
  ghost function Emitted(s: Search, j: nat): Search
    requires Numbered(s) && FramesOrdered(s) && Finished(s) && j <= |s.stack|
  {
    Retreated(s).(stack := s.stack[..j], comps := s.comps + [Sorted(Elements(s.stack[j..]))])
  }

  predicate Merging(s: Search) {
    && Finished(s)
    && s.work[|s.work| - 1].node in s.index && s.work[|s.work| - 1].node in s.low
    && s.low[s.work[|s.work| - 1].node] != s.index[s.work[|s.work| - 1].node]
  }

  /** A node whose low link is below its own number reaches an earlier gray frame. */
  lemma MergingFalls(g: Graph, s: Search) returns (i: nat)
    requires Numbered(s) && FramesOrdered(s) && StackToGray(g, s) && LowSound(g, s) && Merging(s)
    ensures i < |s.work| - 1
    ensures Reach(g, s.work[|s.work| - 1].node, s.work[i].node)
  {
    var k := |s.work| - 1;
    var n := s.work[k].node;
    assert LowHeld(g, s, s.work[k].node);
    var w :| LowWitness(g, s, n, w);
    assert Falls(g, s, w);
    i :| FallsTo(g, s, w, i);
    ReachTransitive(g, n, w, s.work[i].node);
  }

  lemma RetreatFrames(g: Graph, s: Search)
    requires Numbered(s) && Framed(g, s) && Finished(s)
    ensures Numbered(Retreated(s)) && Framed(g, Retreated(s))
    ensures Retreated(s).Grays() == |s.work| - 1
  {
    var t := Retreated(s);
    var k := |s.work| - 1;
    forall i | 0 <= i < |t.work| ensures RestCovers(g, t.work[i], t.index, t.work[|t.work| - 1].node) {
      assert RestCovers(g, s.work[i], s.index, s.work[|s.work| - 1].node);
    }
  }

  lemma FinishedExplored(g: Graph, s: Search)
    requires Numbered(s) && Framed(g, s) && Finished(s)
    ensures forall x :: x in Succ(g, s.work[|s.work| - 1].node) ==> x in s.index
  {
    var k := |s.work| - 1;
    assert RestCovers(g, s.work[k], s.index, s.work[k].node);
  }

  /** Once the top frame is gone its node is the only one that stops being gray. */
  lemma RetreatGrays(s: Search)
    requires Numbered(s) && FramesOrdered(s) && Finished(s)
    ensures forall v :: Retreated(s).IsGray(v) ==> s.IsGray(v)
    ensures forall v :: s.IsGray(v) ==> v == s.work[|s.work| - 1].node || Retreated(s).IsGray(v)
  {
    var t := Retreated(s);
    var k := |s.work| - 1;
    forall v | t.IsGray(v) ensures s.IsGray(v) {
      var i :| 0 <= i < t.Grays() && t.work[i].node == v;
      assert s.work[i].node == v;
    }
    forall v | s.IsGray(v) ensures v == s.work[k].node || t.IsGray(v) {
      var i :| 0 <= i < s.Grays() && s.work[i].node == v;
      if i < k { assert t.work[i].node == v; }
    }
  }

  lemma MergeFalls(g: Graph, s: Search)
    requires Numbered(s) && FramesOrdered(s) && StackToGray(g, s) && LowSound(g, s) && Merging(s)
    ensures StackToGray(g, Retreated(s))
  {
    var t := Retreated(s);
    var k := |s.work| - 1;
    var n := s.work[k].node;
    var d := MergingFalls(g, s);
    forall y | y in t.stack ensures Falls(g, t, y) {
      assert Falls(g, s, y);
      var i :| FallsTo(g, s, y, i);
      if i < k {
        assert FallsTo(g, t, y, i);
      } else {
        assert s.index[s.work[d].node] < s.index[n];
        ReachTransitive(g, y, n, s.work[d].node);
        assert FallsTo(g, t, y, d);
      }
    }
  }

  lemma MergeLowSound(g: Graph, s: Search)
    requires Numbered(s) && Framed(g, s) && LowSound(g, s) && Merging(s)
    ensures LowSound(g, Retreated(s))
  {
    var t := Retreated(s);
    var k := |s.work| - 1;
    var n := s.work[k].node;
    assert LowHeld(g, s, s.work[k].node);
    var wn :| LowWitness(g, s, n, wn);
    forall i | 0 <= i < t.Grays() ensures LowHeld(g, t, t.work[i].node) {
      assert LowHeld(g, s, s.work[i].node);
      var v := s.work[i].node;
      var w :| LowWitness(g, s, v, w);
      if i == k - 1 && s.low[n] < s.low[v] {
        ReachEdge(g, v, n);
        ReachTransitive(g, v, n, wn);
        assert LowWitness(g, t, v, wn);
      } else {
        assert i < k - 1 ==> v != s.work[k - 1].node;
        assert LowWitness(g, t, v, w);
      }
    }
  }

  lemma RetreatLowComplete(g: Graph, s: Search)
    requires Numbered(s) && FramesOrdered(s) && LowComplete(g, s) && Finished(s)
    ensures LowComplete(g, Retreated(s))
  {
    var t := Retreated(s);
    var k := |s.work| - 1;
    forall i: nat, y | i < t.Grays() && InSegment(t, i, y) ensures EdgesHeld(g, t, i, y) {
      if i == k - 1 && s.index[s.work[k].node] <= s.index[y] {
        assert InSegment(s, k, y);
        assert EdgesHeld(g, s, k, y);
      } else {
        assert InSegment(s, i, y);
        assert EdgesHeld(g, s, i, y);
      }
    }
  }

  lemma MergeStep(g: Graph, roots: set<Id>, s: Search)
    requires Inv(g, roots, s) && Merging(s)
    ensures Inv(g, roots, s.(low := HandedDown(s), work := s.work[..|s.work| - 1]))
  {
    var t := Retreated(s);
    RetreatFrames(g, s);
    RetreatGrays(s);
    FinishedExplored(g, s);
    assert forall v :: t.Popped(v) <==> s.Popped(v);
    MergeFalls(g, s);
    MergeLowSound(g, s);
    RetreatLowComplete(g, s);
    RetreatRooted(g, roots, s);
    assert forall i, j {:trigger Reach(g, t.stack[i], t.stack[j])} ::
      0 <= i <= j < |t.stack| ==> Reach(g, s.stack[i], s.stack[j]);
  }

  lemma RetreatRooted(g: Graph, roots: set<Id>, s: Search)
    requires Numbered(s) && FramesOrdered(s) && Rooted(g, roots, s) && Finished(s)
    ensures Rooted(g, roots, Retreated(s))
  {
    var t := Retreated(s);
    forall i | 0 <= i < |t.work| ensures FromRoots(g, roots, t.work[i].node) {
      assert FromRoots(g, roots, s.work[i].node);
    }
  }

  // ---- The top node closes a component

  predicate Closing(s: Search, j: nat) {
    && Finished(s) && j < |s.stack| && s.stack[j] == s.work[|s.work| - 1].node
    && s.stack[j] in s.index && s.stack[j] in s.low
    && s.low[s.stack[j]] == s.index[s.stack[j]]
  }

  ghost function Segment(s: Search, j: nat): set<Id>
    requires j <= |s.stack|
  {
    Elements(s.stack[j..])
  }

  function PoppedSet(s: Search): set<Id> {
    set v | v in s.index && s.Popped(v)
  }

  lemma PoppedClosed(g: Graph, s: Search)
    requires BlackExplored(g, s)
    ensures Closed(g, PoppedSet(s))
  {
    forall a, b | a in PoppedSet(s) && b in Succ(g, a) ensures b in PoppedSet(s) {
      assert s.Popped(a) && s.Popped(b);
    }
  }

  lemma SegmentMembers(s: Search, j: nat)
    requires Numbered(s) && j < |s.stack|
    ensures forall v :: v in Segment(s, j) <==> v in s.stack && s.index[s.stack[j]] <= s.index[v]
    ensures forall v :: v in s.stack[..j] <==> v in s.stack && s.index[v] < s.index[s.stack[j]]
  {
    forall v | v in s.stack && s.index[s.stack[j]] <= s.index[v] ensures v in s.stack[j..] {
      var i := StackPosition(s, v);
      assert s.stack[j..][i - j] == v;
    }
    forall v | v in s.stack && s.index[v] < s.index[s.stack[j]] ensures v in s.stack[..j] {
      var i := StackPosition(s, v);
      assert s.stack[..j][i] == v;
    }
  }

  /** No edge leaves the top segment except into components already emitted. */
  lemma SegmentClosed(g: Graph, s: Search, j: nat)
    requires Numbered(s) && Framed(g, s) && BlackExplored(g, s) && LowComplete(g, s) && Closing(s, j)
    ensures Closed(g, Segment(s, j) + PoppedSet(s))
  {
    var k := |s.work| - 1;
    var n := s.stack[j];
    SegmentMembers(s, j);
    FinishedExplored(g, s);
    PoppedClosed(g, s);
    forall a, b | a in Segment(s, j) && b in Succ(g, a) ensures b in Segment(s, j) + PoppedSet(s) {
      assert InSegment(s, k, a);
      assert EdgesHeld(g, s, k, a);
      assert a == n || !s.IsGray(a) by { TopGray(s, a, j); }
      assert b in s.index;
      if b in s.stack {
        assert s.low[n] <= s.index[b];
      }
    }
  }

  lemma TopGray(s: Search, a: Id, j: nat)
    requires Numbered(s) && FramesOrdered(s) && Closing(s, j)
    requires a in s.stack && s.index[s.stack[j]] <= s.index[a]
    ensures s.IsGray(a) ==> a == s.stack[j]
  {
    if s.IsGray(a) {
      var i :| 0 <= i < s.Grays() && s.work[i].node == a;
      assert i == |s.work| - 1;
    }
  }

  lemma SegmentReachesTop(g: Graph, s: Search, j: nat, a: Id)
    requires Numbered(s) && Framed(g, s) && BlackExplored(g, s) && StackToGray(g, s) && LowComplete(g, s)
    requires Closing(s, j) && a in Segment(s, j)
    ensures Reach(g, a, s.stack[j])
  {
    SegmentMembers(s, j);
    SegmentClosed(g, s, j);
    assert Falls(g, s, a);
    var i :| FallsTo(g, s, a, i);
    var x := s.work[i].node;
    ClosedReach(g, Segment(s, j) + PoppedSet(s), a, x);
    assert x in s.stack;
    assert i == |s.work| - 1;
  }

  lemma SegmentIsComponent(g: Graph, s: Search, j: nat)
    requires Numbered(s) && Framed(g, s) && BlackExplored(g, s) && StackToGray(g, s) && LowComplete(g, s)
    requires StackReach(g, s) && Closing(s, j)
    ensures IsComponent(g, Sorted(Segment(s, j)))
  {
    var n := s.stack[j];
    SegmentMembers(s, j);
    assert n in Segment(s, j);
    forall a, b | a in Segment(s, j) ensures b in Segment(s, j) <==> Mutual(g, a, b) {
      SegmentReachesTop(g, s, j, a);
      OrderedReach(g, s, n, a);
      if b in Segment(s, j) {
        SegmentReachesTop(g, s, j, b);
        OrderedReach(g, s, n, b);
        ReachTransitive(g, a, n, b);
        ReachTransitive(g, b, n, a);
      }
      if Mutual(g, a, b) {
        MutualStaysInSegment(g, s, j, a, b);
      }
    }
  }

  lemma MutualStaysInSegment(g: Graph, s: Search, j: nat, a: Id, b: Id)
    requires Numbered(s) && Framed(g, s) && BlackExplored(g, s) && LowComplete(g, s) && Closing(s, j)
    requires a in Segment(s, j) && Mutual(g, a, b)
    ensures b in Segment(s, j)
  {
    SegmentMembers(s, j);
    SegmentClosed(g, s, j);
    ClosedReach(g, Segment(s, j) + PoppedSet(s), a, b);
    if b in PoppedSet(s) {
      PoppedClosed(g, s);
      ClosedReach(g, PoppedSet(s), b, a);
    }
  }

  /** `t` is `s` without its top frame and without the stack from `top` up. */
  ghost predicate Truncates(s: Search, t: Search, top: Id)
    requires Numbered(s) && FramesOrdered(s)
  {
    && |s.work| > 0 && !s.TopFresh() && top == s.work[|s.work| - 1].node
    && t.index == s.index && t.next == s.next && t.low.Keys == s.low.Keys
    && t.work == s.work[..|s.work| - 1]
    && (forall i :: 0 <= i < |t.work| ==> t.low[s.work[i].node] == s.low[s.work[i].node])
    && (forall v :: v in t.stack <==> v in s.stack && s.index[v] < s.index[top])
    && t.stack <= s.stack
  }

  /** A node that closes a component leaves the low links below it as they were. */
  lemma HandedDownKeeps(g: Graph, s: Search, j: nat)
    requires Numbered(s) && FramesOrdered(s) && LowSound(g, s) && Closing(s, j)
    ensures HandedDown(s).Keys == s.low.Keys
    ensures forall i :: 0 <= i < |s.work| - 1 ==> HandedDown(s)[s.work[i].node] == s.low[s.work[i].node]
  {
    forall i | 0 <= i < |s.work| - 1 ensures HandedDown(s)[s.work[i].node] == s.low[s.work[i].node] {
      assert LowHeld(g, s, s.work[i].node);
    }
  }

  lemma EmitTruncates(g: Graph, s: Search, j: nat)
    requires Numbered(s) && FramesOrdered(s) && LowSound(g, s) && Closing(s, j)
    ensures Truncates(s, Emitted(s, j), s.stack[j])
  {
    assert Finished(s) && j < |s.stack|;
    hide *;
    EmittedFields(s, j);
    HandedDownKeeps(g, s, j);
    SegmentMembers(s, j);
    TruncatesIntro(s, Emitted(s, j), j);
  }

  lemma EmittedFields(s: Search, j: nat)
    requires Numbered(s) && FramesOrdered(s) && Closing(s, j)
    ensures var t := Emitted(s, j);
      && t.index == s.index && t.next == s.next && t.low == HandedDown(s)
      && t.stack == s.stack[..j] && s.work != [] && t.work == s.work[..|s.work| - 1]
      && t.comps == s.comps + [Sorted(Segment(s, j))]
      && !s.TopFresh() && s.stack[j] == s.work[|s.work| - 1].node
  {
    hide Numbered, FramesOrdered, HandedDown, Elements;
  }

  lemma TruncatesIntro(s: Search, t: Search, j: nat)
    requires Numbered(s) && FramesOrdered(s)
    requires j < |s.stack| && |s.work| > 0 && !s.TopFresh() && s.stack[j] == s.work[|s.work| - 1].node
    requires t.index == s.index && t.next == s.next && t.low.Keys == s.low.Keys
    requires t.work == s.work[..|s.work| - 1] && t.stack == s.stack[..j]
    requires forall i :: 0 <= i < |s.work| - 1 ==> t.low[s.work[i].node] == s.low[s.work[i].node]
    requires forall v :: v in s.stack[..j] <==> v in s.stack && s.index[v] < s.index[s.stack[j]]
    ensures Truncates(s, t, s.stack[j])
  {
  }

  lemma EmitFrames(g: Graph, s: Search, t: Search, top: Id)
    requires Numbered(s) && Framed(g, s) && Truncates(s, t, top)
    ensures Numbered(t) && Framed(g, t)
    ensures t.Grays() == |s.work| - 1
  {
    assert Numbered(t);
    assert forall i :: 0 <= i < |t.work| ==> s.index[s.work[i].node] < s.index[top];
    assert FramesOrdered(t);
    forall i | 0 <= i < |t.work| ensures RestCovers(g, t.work[i], t.index, t.work[|t.work| - 1].node) {
      assert RestCovers(g, s.work[i], s.index, s.work[|s.work| - 1].node);
    }
  }

  lemma EmitGrays(s: Search, t: Search, top: Id)
    requires Numbered(s) && FramesOrdered(s) && Truncates(s, t, top) && t.Grays() == |s.work| - 1
    ensures forall v :: s.IsGray(v) ==> v == top || t.IsGray(v)
  {
    forall v | s.IsGray(v) ensures v == top || t.IsGray(v) {
      var i :| 0 <= i < s.Grays() && s.work[i].node == v;
      if i < |t.work| { assert t.work[i].node == v; }
    }
  }

  lemma EmitExplored(g: Graph, s: Search, t: Search, top: Id, segment: set<Id>)
    requires Numbered(s) && FramesOrdered(s) && BlackExplored(g, s) && Truncates(s, t, top)
    requires t.Grays() == |s.work| - 1
    requires forall v :: v in segment <==> v in s.stack && s.index[top] <= s.index[v]
    requires Closed(g, segment + PoppedSet(s))
    ensures BlackExplored(g, t)
    ensures forall v :: t.Popped(v) <==> s.Popped(v) || v in segment
  {
    EmitGrays(s, t, top);
    forall v ensures t.Popped(v) <==> v in segment + PoppedSet(s) {}
  }

  lemma EmitFalls(g: Graph, s: Search, t: Search, top: Id)
    requires Numbered(s) && FramesOrdered(s) && StackToGray(g, s) && Truncates(s, t, top)
    requires t.Grays() == |s.work| - 1
    ensures StackToGray(g, t)
  {
    forall y | y in t.stack ensures Falls(g, t, y) {
      assert Falls(g, s, y);
      var i :| FallsTo(g, s, y, i);
      assert FallsTo(g, t, y, i);
    }
  }

  lemma EmitLowSound(g: Graph, s: Search, t: Search, top: Id)
    requires Numbered(s) && FramesOrdered(s) && LowSound(g, s) && Truncates(s, t, top)
    requires t.Grays() == |s.work| - 1
    ensures LowSound(g, t)
  {
    forall i | 0 <= i < t.Grays() ensures LowHeld(g, t, t.work[i].node) {
      assert LowHeld(g, s, s.work[i].node);
      var w :| LowWitness(g, s, s.work[i].node, w);
      assert LowWitness(g, t, t.work[i].node, w);
    }
  }

  lemma EmitLowComplete(g: Graph, s: Search, t: Search, top: Id)
    requires Numbered(s) && FramesOrdered(s) && LowComplete(g, s) && Truncates(s, t, top)
    requires t.Grays() == |s.work| - 1
    ensures LowComplete(g, t)
  {
    forall i: nat, y | i < t.Grays() && InSegment(t, i, y) ensures EdgesHeld(g, t, i, y) {
      assert y in t.stack && t.work[i] == s.work[i];
      assert InSegment(s, i, y);
      assert EdgesHeld(g, s, i, y);
    }
  }

  lemma EmitCollected(g: Graph, s: Search, t: Search, segment: set<Id>)
    requires Collected(g, s) && IsComponent(g, Sorted(segment)) && t.comps == s.comps + [Sorted(segment)]
    requires forall v :: t.Popped(v) <==> s.Popped(v) || v in segment
    requires forall v :: v in segment ==> v in s.stack
    ensures Collected(g, t)
  {
    hide IsComponent, Before, Sorted, PairwiseDisjoint;
    EmitPopped(s, t, Sorted(segment));
    EmitDisjoint(s, t, Sorted(segment));
  }

  lemma EmitPopped(s: Search, t: Search, c: seq<Id>)
    requires forall v :: s.Popped(v) <==> exists i :: 0 <= i < |s.comps| && v in s.comps[i]
    requires t.comps == s.comps + [c] && forall v :: t.Popped(v) <==> s.Popped(v) || v in c
    ensures forall v :: t.Popped(v) <==> exists i :: 0 <= i < |t.comps| && v in t.comps[i]
  {
    forall v ensures t.Popped(v) <==> exists i :: 0 <= i < |t.comps| && v in t.comps[i] {
      if s.Popped(v) {
        var i :| 0 <= i < |s.comps| && v in s.comps[i];
        assert v in t.comps[i];
      } else if v in c {
        assert v in t.comps[|s.comps|];
      }
    }
  }

  lemma EmitDisjoint(s: Search, t: Search, c: seq<Id>)
    requires PairwiseDisjoint(s.comps) && t.comps == s.comps + [c]
    requires forall v :: s.Popped(v) <==> exists i :: 0 <= i < |s.comps| && v in s.comps[i]
    requires forall v :: v in c ==> v in s.stack
    ensures PairwiseDisjoint(t.comps)
  {
    forall i, m, v | 0 <= i < m < |t.comps| && v in t.comps[i] ensures v !in t.comps[m] {
      if m == |s.comps| {
        assert v in s.comps[i] && s.Popped(v);
      }
    }
  }

  lemma EmitRooted(g: Graph, roots: set<Id>, s: Search, t: Search, top: Id)
    requires Numbered(s) && FramesOrdered(s) && Rooted(g, roots, s) && Truncates(s, t, top)
    ensures Rooted(g, roots, t)
  {
    forall i | 0 <= i < |t.work| ensures FromRoots(g, roots, t.work[i].node) {
      assert FromRoots(g, roots, s.work[i].node);
    }
  }

  lemma EmitReach(g: Graph, s: Search, t: Search)
    requires StackReach(g, s) && t.stack <= s.stack
    ensures StackReach(g, t)
  {
    assert forall a, b {:trigger Reach(g, t.stack[a], t.stack[b])} ::
      0 <= a <= b < |t.stack| ==> Reach(g, s.stack[a], s.stack[b]);
  }

  lemma EmitStep(g: Graph, roots: set<Id>, s: Search, j: nat)
    requires Inv(g, roots, s) && Closing(s, j)
    ensures Inv(g, roots, Emitted(s, j))
    ensures Emitted(s, j) == Search(s.index, HandedDown(s), s.next, s.stack[..j],
                                    s.comps + [Sorted(Elements(s.stack[j..]))], s.work[..|s.work| - 1])
  {
    var t, top := Emitted(s, j), s.stack[j];
    EmittedFields(s, j);
    EmitTruncates(g, s, j);
    hide Numbered, FramesOrdered, FramesLinked, FramesCover, BlackExplored, StackReach, StackToGray;
    hide LowSound, LowComplete, Rooted, Truncates, Elements, Closing, HandedDown, Collected, Search.Popped;
    assert t.stack <= s.stack;
    EmitFrames(g, s, t, top);
    SegmentMembers(s, j);
    SegmentClosed(g, s, j);
    EmitExplored(g, s, t, top, Segment(s, j));
    EmitFalls(g, s, t, top);
    EmitLowSound(g, s, t, top);
    EmitLowComplete(g, s, t, top);
    SegmentIsComponent(g, s, j);
    EmitCollected(g, s, t, Segment(s, j));
    EmitRooted(g, roots, s, t, top);
    EmitReach(g, s, t);
  }

  // ---- Termination

  /** Neighbours still listed in the frames of numbered nodes. */
  function Pending(work: seq<Frame>): nat {
    if work == [] then 0 else |work[|work| - 1].rest| + Pending(work[..|work| - 1])
  }

  function Universe(g: Graph, nodes: set<Id>): set<Id> {
    nodes + (set n, x | n in g && x in g[n] :: x)
  }

  // ---- The search

  ghost predicate IsPartitionIntoComponents(g: Graph, nodes: set<Id>, comps: seq<seq<Id>>) {
    && (forall i :: 0 <= i < |comps| ==> IsComponent(g, comps[i]))
    && PairwiseDisjoint(comps)
    && (forall v :: (exists i :: 0 <= i < |comps| && v in comps[i]) <==> FromRoots(g, nodes, v))
  }

  lemma StartStep(g: Graph, roots: set<Id>, s: Search, root: Id)
    requires Inv(g, roots, s) && s.work == [] && root in roots && root !in s.index
    ensures Inv(g, roots, s.(work := [Frame(root, Sorted(Succ(g, root)))]))
  {
    var t := s.(work := [Frame(root, Sorted(Succ(g, root)))]);
    EmptyWorkEmptiesStack(g, s);
    ReachSelf(g, root);
    assert FromRoots(g, roots, root);
    assert forall v :: t.Popped(v) <==> s.Popped(v);
  }

  lemma EmptyWorkEmptiesStack(g: Graph, s: Search)
    requires s.work == [] && StackToGray(g, s)
    ensures s.stack == []
  {
    assert s.stack == [] || (s.stack[0] in s.stack && Falls(g, s, s.stack[0]));
  }

  lemma SearchComplete(g: Graph, roots: set<Id>, s: Search)
    requires Inv(g, roots, s) && s.work == []
    requires forall r :: r in roots ==> r in s.index
    ensures IsPartitionIntoComponents(g, roots, s.comps)
  {
    EmptyWorkEmptiesStack(g, s);
    forall v ensures s.Popped(v) <==> FromRoots(g, roots, v) {
      if FromRoots(g, roots, v) {
        var r :| r in roots && Reach(g, r, v);
        assert s.Popped(r);
        PoppedClosed(g, s);
        ClosedReach(g, PoppedSet(s), r, v);
      }
    }
  }

  /** Look at the top node's neighbours until one is fresh or none is left. */
  method Scan(g: Graph, ghost roots: set<Id>, indices: map<Id, nat>, lowlink: map<Id, nat>, ghost counter: nat,
              ghost stack: seq<Id>, onStack: set<Id>, ghost components: seq<seq<Id>>, work: seq<Frame>)
    returns (low: map<Id, nat>, frames: seq<Frame>, advanced: bool)
    requires Inv(g, roots, Search(indices, lowlink, counter, stack, components, work))
    requires onStack == Elements(stack)
    requires work != [] && work[|work| - 1].node in indices
    ensures Inv(g, roots, Search(indices, low, counter, stack, components, frames))
    ensures |frames| == |work| + (if advanced then 1 else 0)
    ensures frames[..|work| - 1] == work[..|work| - 1]
    ensures frames[|work| - 1].node == work[|work| - 1].node
    ensures advanced ==> |frames[|work| - 1].rest| < |work[|work| - 1].rest|
    ensures advanced ==> frames[|work|].node in Succ(g, work[|work| - 1].node) && frames[|work|].node !in indices
    ensures !advanced ==> frames[|work| - 1].rest == []
  {
    hide Inv, Elements, Succ;
    var k := |work| - 1;
    var node := work[k].node;
    low, frames, advanced := lowlink, work, false;
    while !advanced && frames[k].rest != []
      invariant Inv(g, roots, Search(indices, low, counter, stack, components, frames))
      invariant |frames| == k + 1 + (if advanced then 1 else 0)
      invariant frames[..k] == work[..k] && frames[k].node == node
      invariant |frames[k].rest| <= |work[k].rest|
      invariant advanced ==> |frames[k].rest| < |work[k].rest|
      invariant advanced ==> frames[k + 1].node in Succ(g, node) && frames[k + 1].node !in indices
      decreases !advanced, |frames[k].rest|
    {
      low, frames, advanced := Look(g, roots, indices, low, counter, stack, onStack, components, frames);
    }
  }

  /** Take one neighbour off the top frame: descend into it, or lower the frame's low link. */
  method Look(g: Graph, ghost roots: set<Id>, indices: map<Id, nat>, lowlink: map<Id, nat>, ghost counter: nat,
              ghost stack: seq<Id>, onStack: set<Id>, ghost components: seq<seq<Id>>, work: seq<Frame>)
    returns (low: map<Id, nat>, frames: seq<Frame>, advanced: bool)
    requires Inv(g, roots, Search(indices, lowlink, counter, stack, components, work))
    requires onStack == Elements(stack)
    requires work != [] && work[|work| - 1].node in indices && work[|work| - 1].rest != []
    ensures Inv(g, roots, Search(indices, low, counter, stack, components, frames))
    ensures |frames| == |work| + (if advanced then 1 else 0)
    ensures frames[..|work| - 1] == work[..|work| - 1]
    ensures frames[|work| - 1] == Frame(work[|work| - 1].node, work[|work| - 1].rest[1..])
    ensures advanced ==> frames[|work|].node in Succ(g, work[|work| - 1].node) && frames[|work|].node !in indices
  {
    var k := |work| - 1;
    var node, neighbour := work[k].node, work[k].rest[0];
    low, frames, advanced := lowlink, work[k := Frame(node, work[k].rest[1..])], false;
    ghost var s := Search(indices, lowlink, counter, stack, components, work);
    assert RestCovers(g, s.work[k], s.index, s.work[k].node);
    hide FramesLinked, BlackExplored, StackReach, StackToGray, LowComplete, Collected, Rooted;
    if neighbour !in indices {
      DescendStep(g, roots, s);
      frames := frames + [Frame(neighbour, Sorted(Succ(g, neighbour)))];
      advanced := true;
    } else {
      SkipStep(g, roots, s);
      if neighbour in onStack {
        low := low[node := Min(low[node], indices[neighbour])];
      }
    }
  }

  lemma PopElements(stack: seq<Id>, last: nat)
    requires last < |stack| && Distinct(stack)
    ensures Elements(stack[..last]) == Elements(stack[..last + 1]) - {stack[last]}
    ensures Elements(stack[last..]) == Elements(stack[last + 1..]) + {stack[last]}
  {
    assert stack[..last + 1] == stack[..last] + [stack[last]];
    assert stack[last..] == [stack[last]] + stack[last + 1..];
  }

  /** Pop the stack down to and including `node`. */
  method PopComponent(stack: seq<Id>, onStack: set<Id>, node: Id, ghost j: nat)
    returns (rest: seq<Id>, off: set<Id>, component: seq<Id>)
    requires Distinct(stack) && onStack == Elements(stack)
    requires j < |stack| && stack[j] == node
    ensures rest == stack[..j] && off == Elements(rest)
    ensures component == Sorted(Elements(stack[j..]))
  {
    hide Elements;
    rest, off := stack, onStack;
    var members: set<Id> := {};
    assert stack[|stack|..] == [] && Elements<Id>([]) == {} by { ElementsGrow([], node); }
    assert stack[..|stack|] == stack;
    while true
      invariant j < |rest| <= |stack| && rest == stack[..|rest|]
      invariant off == Elements(rest)
      invariant members == Elements(stack[|rest|..])
      decreases |rest|
    {
      var last := |rest| - 1;
      var member := rest[last];
      PopElements(stack, last);
      rest, off, members := rest[..last], off - {member}, members + {member};
      if member == node {
        assert last == j;
        break;
      }
    }
    component := Sorted(members);
  }

  /** What finishing the top frame may rely on. */
  lemma FinishedFacts(g: Graph, roots: set<Id>, s: Search)
    requires Inv(g, roots, s) && Finished(s)
    ensures Numbered(s) && FramesOrdered(s) && Distinct(s.stack)
    ensures s.work[|s.work| - 1].node in s.stack
    ensures s.work[|s.work| - 1].node in s.index && s.work[|s.work| - 1].node in s.low
    ensures |s.work| > 1 ==> s.work[|s.work| - 2].node in s.low
    ensures HandedDown(s) ==
      if |s.work| == 1 then s.low
      else s.low[s.work[|s.work| - 2].node :=
                   Min(s.low[s.work[|s.work| - 2].node], s.low[s.work[|s.work| - 1].node])]
    ensures forall j :: 0 <= j < |s.stack| && s.stack[j] == s.work[|s.work| - 1].node ==>
      if s.low[s.stack[j]] == s.index[s.stack[j]] then Closing(s, j) else Merging(s)
  {
  }

  lemma SortedElements(s: set<Id>)
    ensures Sorted(Elements(Sorted(s))) == Sorted(s)
  {
    assert Elements(Sorted(s)) == s;
  }

  /** The top frame has nothing left: hand its low link down and emit a component if it closes one. */
  method Retreat(g: Graph, ghost roots: set<Id>, indices: map<Id, nat>, lowlink: map<Id, nat>, ghost counter: nat,
                 stack: seq<Id>, onStack: set<Id>, components: seq<seq<Id>>, work: seq<Frame>)
    returns (low: map<Id, nat>, rest: seq<Id>, off: set<Id>, comps: seq<seq<Id>>, frames: seq<Frame>)
    requires Inv(g, roots, Search(indices, lowlink, counter, stack, components, work))
    requires Finished(Search(indices, lowlink, counter, stack, components, work))
    requires onStack == Elements(stack)
    requires forall i :: 0 <= i < |components| ==> components[i] == Sorted(Elements(components[i]))
    ensures Inv(g, roots, Search(indices, low, counter, rest, comps, frames))
    ensures off == Elements(rest)
    ensures work != [] && frames == work[..|work| - 1]
    ensures forall i :: 0 <= i < |comps| ==> comps[i] == Sorted(Elements(comps[i]))
  {
    ghost var s := Search(indices, lowlink, counter, stack, components, work);
    FinishedFacts(g, roots, s);
    hide *;
    var node := work[|work| - 1].node;
    low, rest, off, comps := lowlink, stack, onStack, components;
    frames := work[..|work| - 1];
    if frames != [] {
      var parent := frames[|frames| - 1].node;
      low := low[parent := Min(low[parent], low[node])];
    }
    ghost var j := StackPosition(s, node);
    if lowlink[node] == indices[node] {
      EmitStep(g, roots, s, j);
      var component;
      rest, off, component := PopComponent(stack, onStack, node, j);
      SortedElements(Elements(stack[j..]));
      comps := comps + [component];
    } else {
      MergeStep(g, roots, s);
    }
  }

  // ---- Facts the search loop needs about its own bookkeeping

  function Unscanned(work: seq<Frame>, index: map<Id, nat>): nat {
    if work == [] then 0
    else Pending(if work[|work| - 1].node in index then work else work[..|work| - 1])
  }

  lemma ScanShrinks(before: seq<Frame>, after: seq<Frame>, index: map<Id, nat>)
    requires before != [] && |after| == |before| + 1 && before[|before| - 1].node in index
    requires after[..|before| - 1] == before[..|before| - 1]
    requires |after[|before| - 1].rest| < |before[|before| - 1].rest|
    requires after[|before|].node !in index
    ensures Unscanned(after, index) < Unscanned(before, index)
  {
    var k := |before| - 1;
    assert after[..|after| - 1][..k] == before[..k];
    assert after[..|after| - 1][k] == after[k];
  }

  lemma RetreatShrinks(before: seq<Frame>, after: seq<Frame>, index: map<Id, nat>)
    requires before != [] && after == before[..|before| - 1]
    requires forall i :: 0 <= i < |before| ==> before[i].node in index
    ensures Unscanned(after, index) <= Unscanned(before, index)
  {
  }

  lemma IsFinished(s: Search)
    requires s.work != [] && s.work[|s.work| - 1].node in s.index && s.work[|s.work| - 1].rest == []
    ensures Finished(s)
  {
  }

  lemma ElementsGrow(xs: seq<Id>, x: Id)
    ensures Elements<Id>([]) == {} && Elements(xs + [x]) == Elements(xs) + {x}
  {
  }

  lemma SuccInUniverse(g: Graph, roots: set<Id>, n: Id, x: Id)
    ensures x in Succ(g, n) ==> x in Universe(g, roots)
    ensures n in roots ==> n in Universe(g, roots)
  {
  }

  lemma InvEmpty(g: Graph, roots: set<Id>)
    ensures Inv(g, roots, Search(map[], map[], 0, [], [], []))
  {
  }

  lemma InvEmptyStack(g: Graph, roots: set<Id>, s: Search)
    requires Inv(g, roots, s) && s.work == []
    ensures s.stack == []
  {
    EmptyWorkEmptiesStack(g, s);
  }

  lemma InvNodes(g: Graph, roots: set<Id>, s: Search)
    requires Inv(g, roots, s) && s.work != [] && s.work[|s.work| - 1].node in s.index
    ensures forall i :: 0 <= i < |s.work| ==> s.work[i].node in s.index
  {
  }

  /** The depth-first search from one root: until the work stack is empty. */
  method Explore(g: Graph, ghost roots: set<Id>, ghost u: set<Id>, root: Id, indices0: map<Id, nat>,
                 lowlink0: map<Id, nat>, counter0: nat, components0: seq<seq<Id>>)
    returns (indices: map<Id, nat>, lowlink: map<Id, nat>, counter: nat, components: seq<seq<Id>>)
    requires Inv(g, roots, Search(indices0, lowlink0, counter0, [], components0, []))
    requires root in roots && root !in indices0
    requires u == Universe(g, roots) && indices0.Keys <= u
    requires forall i :: 0 <= i < |components0| ==> components0[i] == Sorted(Elements(components0[i]))
    ensures Inv(g, roots, Search(indices, lowlink, counter, [], components, []))
    ensures root in indices && indices0.Keys <= indices.Keys <= u
    ensures forall i :: 0 <= i < |components| ==> components[i] == Sorted(Elements(components[i]))
  {
    hide *;
    indices, lowlink, counter, components := indices0, lowlink0, counter0, components0;
    var stack: seq<Id>, onStack: set<Id> := [], {};
    var work := [Frame(root, Sorted(Succ(g, root)))];
    StartStep(g, roots, Search(indices, lowlink, counter, stack, components, []), root);
    ElementsGrow([], root);
    SuccInUniverse(g, roots, root, root);
    while work != []
      invariant Inv(g, roots, Search(indices, lowlink, counter, stack, components, work))
      invariant onStack == Elements(stack)
      invariant indices0.Keys <= indices.Keys <= u
      invariant forall i :: 0 <= i < |work| ==> work[i].node in u
      invariant root in indices || (|work| == 1 && work[0].node == root)
      invariant forall i :: 0 <= i < |components| ==> components[i] == Sorted(Elements(components[i]))
      decreases u - indices.Keys, Unscanned(work, indices), |work|
    {
      ghost var k, before, known := |work| - 1, work, indices;
      var node := work[|work| - 1].node;
      if node !in indices {
        VisitStep(g, roots, Search(indices, lowlink, counter, stack, components, work));
        indices, lowlink, counter := indices[node := counter], lowlink[node := counter], counter + 1;
        ElementsGrow(stack, node);
        stack, onStack := stack + [node], onStack + {node};
      }
      InvNodes(g, roots, Search(indices, lowlink, counter, stack, components, work));
      var advanced;
      lowlink, work, advanced := Scan(g, roots, indices, lowlink, counter, stack, onStack, components, work);
      if advanced {
        SuccInUniverse(g, roots, node, work[k + 1].node);
        ScanShrinks(before, work, indices);
      } else {
        IsFinished(Search(indices, lowlink, counter, stack, components, work));
        lowlink, stack, onStack, components, work :=
          Retreat(g, roots, indices, lowlink, counter, stack, onStack, components, work);
        assert work == before[..k];
        RetreatShrinks(before, work, indices);
      }
    }
    InvEmptyStack(g, roots, Search(indices, lowlink, counter, stack, components, work));
  }

  method StronglyConnectedComponents(nodes: set<Id>, g: Graph) returns (components: seq<seq<Id>>)
    ensures IsPartitionIntoComponents(g, nodes, components)
    ensures forall i :: 0 <= i < |components| ==> components[i] == Sorted(Elements(components[i]))
  {
    hide *;
    var counter: nat := 0;
    var indices: map<Id, nat>, lowlink: map<Id, nat> := map[], map[];
    components := [];
    var roots := Sorted(nodes);
    ghost var u := Universe(g, nodes);
    InvEmpty(g, nodes);
    assert forall i :: 0 <= i < |roots| ==> roots[i] in nodes;
    for r := 0 to |roots|
      invariant Inv(g, nodes, Search(indices, lowlink, counter, [], components, []))
      invariant indices.Keys <= u
      invariant forall i :: 0 <= i < r ==> roots[i] in indices
      invariant forall i :: 0 <= i < |components| ==> components[i] == Sorted(Elements(components[i]))
    {
      if roots[r] !in indices {
        indices, lowlink, counter, components :=
          Explore(g, nodes, u, roots[r], indices, lowlink, counter, components);
      }
    }
    SearchComplete(g, nodes, Search(indices, lowlink, counter, [], components, []));
  }
}
