/** Directed graphs given as adjacency maps, reachability by explicit paths, and
    what it means to be a strongly connected component or to lie on a cycle. */
module Graphs {
  import opened Ordering

  type Graph = map<Id, set<Id>>

  /** `adjacency.get(n, ())`. */
  function Succ(g: Graph, n: Id): set<Id> {
    if n in g then g[n] else {}
  }

  ghost predicate IsPath(g: Graph, p: seq<Id>) {
    |p| > 0 && forall i, j :: 0 <= i && j == i + 1 && j < |p| ==> p[j] in Succ(g, p[i])
  }

  ghost predicate Joins(g: Graph, p: seq<Id>, a: Id, b: Id) {
    IsPath(g, p) && p[0] == a && p[|p| - 1] == b
  }

  ghost predicate Reach(g: Graph, a: Id, b: Id) {
    exists p :: Joins(g, p, a, b)
  }

  /** A directed cycle through `n` with at least one edge. */
  ghost predicate OnCycle(g: Graph, n: Id) {
    exists p :: Joins(g, p, n, n) && |p| > 1
  }

  ghost predicate Acyclic(g: Graph) {
    forall n :: !OnCycle(g, n)
  }

  ghost predicate SelfLoopFree(g: Graph) {
    forall n :: n !in Succ(g, n)
  }

  ghost predicate Mutual(g: Graph, a: Id, b: Id) {
    Reach(g, a, b) && Reach(g, b, a)
  }

  ghost predicate Closed(g: Graph, s: set<Id>) {
    forall a, b :: a in s && b in Succ(g, a) ==> b in s
  }

  lemma ReachSelf(g: Graph, a: Id)
    ensures Reach(g, a, a)
  {
    assert Joins(g, [a], a, a);
  }

  lemma ReachEdge(g: Graph, a: Id, b: Id)
    requires b in Succ(g, a)
    ensures Reach(g, a, b)
  {
    assert Joins(g, [a, b], a, b);
  }

  lemma JoinPaths(g: Graph, p: seq<Id>, q: seq<Id>, a: Id, b: Id, c: Id)
    requires Joins(g, p, a, b) && Joins(g, q, b, c)
    ensures Joins(g, p + q[1..], a, c)
  {
    var r := p + q[1..];
    forall i, j | 0 <= i && j == i + 1 && j < |r| ensures r[j] in Succ(g, r[i]) {
      if j < |p| {
        assert r[i] == p[i] && r[j] == p[j];
      } else {
        var k := i - (|p| - 1);
        assert r[i] == q[k] && r[j] == q[k + 1];
      }
    }
    assert r[|r| - 1] == if |q| == 1 then p[|p| - 1] else q[|q| - 1];
  }

  lemma ReachTransitive(g: Graph, a: Id, b: Id, c: Id)
    requires Reach(g, a, b) && Reach(g, b, c)
    ensures Reach(g, a, c)
  {
    var p :| Joins(g, p, a, b);
    var q :| Joins(g, q, b, c);
    JoinPaths(g, p, q, a, b, c);
  }

  /** Nothing leaves a closed set. */
  lemma {:induction false} ClosedPath(g: Graph, s: set<Id>, p: seq<Id>)
    requires Closed(g, s) && IsPath(g, p) && p[0] in s
    ensures forall i :: 0 <= i < |p| ==> p[i] in s
    decreases |p|
  {
    if |p| > 1 {
      assert p[1] in Succ(g, p[0]);
      ClosedPath(g, s, p[1..]);
      assert forall i :: 0 < i < |p| ==> p[i] == p[1..][i - 1];
    }
  }

  lemma ClosedReach(g: Graph, s: set<Id>, a: Id, b: Id)
    requires Closed(g, s) && a in s && Reach(g, a, b)
    ensures b in s
  {
    var p :| Joins(g, p, a, b);
    ClosedPath(g, s, p);
  }

  /** Any two nodes of one path: the earlier reaches the later. */
  lemma ReachAlong(g: Graph, p: seq<Id>, i: nat, j: nat)
    requires IsPath(g, p) && i <= j < |p|
    ensures Reach(g, p[i], p[j])
  {
    var q := p[i..j + 1];
    assert Joins(g, q, p[i], p[j]);
  }

  /** In a graph without self loops, a node lies on a cycle exactly when it is
      mutually reachable with some other node. */
  lemma OnCycleIffMutual(g: Graph, n: Id)
    requires SelfLoopFree(g)
    ensures OnCycle(g, n) <==> exists m :: m != n && Mutual(g, n, m)
  {
    if OnCycle(g, n) {
      var p :| Joins(g, p, n, n) && |p| > 1;
      assert p[1] in Succ(g, p[0]);
      ReachAlong(g, p, 0, 1);
      ReachAlong(g, p, 1, |p| - 1);
      assert Mutual(g, n, p[1]);
    }
    if m :| m != n && Mutual(g, n, m) {
      var p :| Joins(g, p, n, m);
      var q :| Joins(g, q, m, n);
      JoinPaths(g, p, q, n, m, n);
      assert |p + q[1..]| > 1;
    }
  }

  lemma CycleInLargerGraph(sub: Graph, g: Graph, n: Id)
    requires forall a :: Succ(sub, a) <= Succ(g, a)
    requires OnCycle(sub, n)
    ensures OnCycle(g, n)
  {
    var p :| Joins(sub, p, n, n) && |p| > 1;
    assert Joins(g, p, n, n);
  }

  lemma CycleHasAnEdge(g: Graph, n: Id)
    requires OnCycle(g, n)
    ensures exists a :: Succ(g, a) != {}
  {
    var p :| Joins(g, p, n, n) && |p| > 1;
    assert p[1] in Succ(g, p[0]);
  }
}
