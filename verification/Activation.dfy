/** Activation order: Kahn's algorithm with ties broken by entry id. */
module Activation {
  import opened Ordering
  import opened Graphs

  /** Dependency edges `(provider, consumer)`. */
  type Edges = set<(Id, Id)>

  ghost function Providers(nodes: set<Id>, edges: Edges, n: Id): set<Id> {
    set p | p in nodes && (p, n) in edges
  }

  /** Nodes not yet emitted whose providers all are. */
  ghost function ReadySet(nodes: set<Id>, edges: Edges, done: seq<Id>): set<Id> {
    set n | n in nodes && n !in done && Providers(nodes, edges, n) <= Elements(done)
  }

  /** The edges between `nodes`, as a graph from provider to consumer. */
  ghost function EdgeGraph(nodes: set<Id>, edges: Edges): Graph {
    map p | p in nodes :: set c | c in nodes && (p, c) in edges
  }

  ghost predicate IsPermutationOf(order: seq<Id>, nodes: set<Id>) {
    Distinct(order) && Elements(order) == nodes
  }

  /** Up to position `m` each step emits the least ready node; there none is ready
      any more, and the rest follows in id order. */
  ghost predicate FollowsKahn(nodes: set<Id>, edges: Edges, order: seq<Id>, m: nat) {
    && m <= |order|
    && (forall k :: 0 <= k < m ==> IsLeast(order[k], ReadySet(nodes, edges, order[..k])))
    && ReadySet(nodes, edges, order[..m]) == {}
    && order[m..] == Sorted(nodes - Elements(order[..m]))
  }

  /** Every provider precedes its consumer. */
  ghost predicate Topological(nodes: set<Id>, edges: Edges, order: seq<Id>) {
    forall k :: 0 <= k < |order| ==> Providers(nodes, edges, order[k]) <= Elements(order[..k])
  }

  /** The ordering loop's state: the emitted prefix, what each node still waits for, and who is ready. */
  ghost predicate Emitting(nodes: set<Id>, edges: Edges, order: seq<Id>, incoming: map<Id, set<Id>>) {
    && Distinct(order) && Elements(order) <= nodes
    && incoming.Keys == nodes
    && (forall n :: n in nodes ==> incoming[n] == Providers(nodes, edges, n) - Elements(order))
    && (forall k :: 0 <= k < |order| ==> IsLeast(order[k], ReadySet(nodes, edges, order[..k])))
  }

  lemma EmitLeast(nodes: set<Id>, edges: Edges, order: seq<Id>, current: Id)
    requires forall k :: 0 <= k < |order| ==> IsLeast(order[k], ReadySet(nodes, edges, order[..k]))
    requires IsLeast(current, ReadySet(nodes, edges, order))
    ensures forall k :: 0 <= k <= |order| ==>
      IsLeast((order + [current])[k], ReadySet(nodes, edges, (order + [current])[..k]))
  {
    var longer := order + [current];
    forall k | 0 <= k <= |order| ensures IsLeast(longer[k], ReadySet(nodes, edges, longer[..k])) {
      assert longer[..k] == order[..k];
      assert order[..|order|] == order;
    }
  }

  /** Emit `current` and tell its consumers. */
  method Emit(nodes: set<Id>, edges: Edges, outgoing: map<Id, set<Id>>, order0: seq<Id>,
              incoming0: map<Id, set<Id>>, ready0: seq<Id>)
    returns (order: seq<Id>, incoming: map<Id, set<Id>>, ready: seq<Id>)
    requires Emitting(nodes, edges, order0, incoming0)
    requires outgoing == map n | n in nodes :: set c | c in nodes && (n, c) in edges
    requires ready0 != [] && ready0 == Sorted(ReadySet(nodes, edges, order0))
    ensures Emitting(nodes, edges, order, incoming)
    ensures order == order0 + [ready0[0]]
    ensures ready == Sorted(ReadySet(nodes, edges, order))
  {
    hide *;
    var current := ready0[0];
    ReadyIsNonempty(nodes, edges, order0, incoming0, outgoing, ready0);
    FirstIsLeast(ReadySet(nodes, edges, order0));
    EmitLeast(nodes, edges, order0, current);
    EmptyIncoming(nodes, edges, order0, incoming0);
    order := order0 + [current];
    var consumers := Sorted(outgoing[current]);
    WaitingAfter(order0, current, ready0, incoming0);
    incoming, ready := Release(current, consumers, order, incoming0, ready0[1..]);
    StillWaiting(nodes, edges, order0, current, consumers, incoming0, incoming);
    ReadyElements(nodes, edges, order, incoming, ready);
    ready := Sorted(Elements(ready));
    OrderGrows(nodes, order0, current);
    EmittingHolds(nodes, edges, order, incoming);
  }

  lemma ReadyIsNonempty(nodes: set<Id>, edges: Edges, order: seq<Id>, incoming: map<Id, set<Id>>,
                        outgoing: map<Id, set<Id>>, ready: seq<Id>)
    requires Emitting(nodes, edges, order, incoming)
    requires outgoing == map n | n in nodes :: set c | c in nodes && (n, c) in edges
    requires ready != [] && ready == Sorted(ReadySet(nodes, edges, order))
    ensures ReadySet(nodes, edges, order) != {} && ready[0] in nodes && ready[0] !in order
    ensures Distinct(order) && Elements(order) <= nodes && incoming.Keys == nodes
    ensures forall n :: n in nodes ==> incoming[n] == Providers(nodes, edges, n) - Elements(order)
    ensures forall k :: 0 <= k < |order| ==> IsLeast(order[k], ReadySet(nodes, edges, order[..k]))
    ensures forall c :: c in outgoing[ready[0]] <==> c in nodes && (ready[0], c) in edges
  {
    assert ready[0] in ReadySet(nodes, edges, order);
  }

  lemma OrderGrows(nodes: set<Id>, order: seq<Id>, current: Id)
    requires Distinct(order) && Elements(order) <= nodes && current in nodes && current !in order
    ensures Distinct(order + [current]) && Elements(order + [current]) <= nodes
  {
    DistinctConcat(order, [current]);
  }

  lemma EmittingHolds(nodes: set<Id>, edges: Edges, order: seq<Id>, incoming: map<Id, set<Id>>)
    requires Distinct(order) && Elements(order) <= nodes && incoming.Keys == nodes
    requires forall n :: n in nodes ==> incoming[n] == Providers(nodes, edges, n) - Elements(order)
    requires forall k :: 0 <= k < |order| ==> IsLeast(order[k], ReadySet(nodes, edges, order[..k]))
    ensures Emitting(nodes, edges, order, incoming)
  {
  }

  lemma WaitingAfter(order: seq<Id>, current: Id, ready: seq<Id>, incoming: map<Id, set<Id>>)
    requires ready != [] && ready[0] == current && Distinct(ready)
    requires forall n :: n in ready <==> n in incoming && n !in order && incoming[n] == {}
    ensures forall n :: n in ready[1..] <==> n in incoming && n !in order + [current] && incoming[n] == {}
  {
    assert ready == [current] + ready[1..];
    assert current !in ready[1..];
  }

  lemma StillWaiting(nodes: set<Id>, edges: Edges, order: seq<Id>, current: Id, consumers: seq<Id>,
                     incoming0: map<Id, set<Id>>, incoming: map<Id, set<Id>>)
    requires incoming0.Keys == nodes == incoming.Keys
    requires forall n :: n in nodes ==> incoming0[n] == Providers(nodes, edges, n) - Elements(order)
    requires forall n :: n in nodes ==> incoming[n] == incoming0[n] - (if n in consumers then {current} else {})
    requires forall n :: n in consumers <==> n in nodes && (current, n) in edges
    ensures forall n :: n in nodes ==> incoming[n] == Providers(nodes, edges, n) - Elements(order + [current])
  {
    assert Elements(order + [current]) == Elements(order) + {current};
    forall n | n in nodes ensures incoming[n] == Providers(nodes, edges, n) - Elements(order + [current]) {
      assert n !in consumers ==> current !in Providers(nodes, edges, n);
    }
  }

  lemma FirstIsLeast(s: set<Id>)
    requires s != {}
    ensures Sorted(s) != [] && IsLeast(Sorted(s)[0], s)
    ensures forall n :: n in Sorted(s)[1..] <==> n in s && n != Sorted(s)[0]
  {
    var xs := Sorted(s);
    assert xs == [xs[0]] + xs[1..];
  }

  /** Strike `current` from what its consumers wait for; those that wait for nothing become ready. */
  method Release(current: Id, consumers: seq<Id>, order: seq<Id>, incoming0: map<Id, set<Id>>, ready0: seq<Id>)
    returns (incoming: map<Id, set<Id>>, ready: seq<Id>)
    requires forall i :: 0 <= i < |consumers| ==> consumers[i] in incoming0
    requires forall n :: n in ready0 <==> n in incoming0 && n !in order && incoming0[n] == {}
    ensures incoming.Keys == incoming0.Keys
    ensures forall n :: n in incoming ==> incoming[n] == incoming0[n] - (if n in consumers then {current} else {})
    ensures forall n :: n in ready <==> n in incoming && n !in order && incoming[n] == {}
  {
    incoming, ready := incoming0, ready0;
    for i := 0 to |consumers|
      invariant incoming.Keys == incoming0.Keys
      invariant forall n :: n in incoming ==>
        incoming[n] == incoming0[n] - (if n in consumers[..i] then {current} else {})
      invariant forall n :: n in ready <==> n in incoming && n !in order && incoming[n] == {}
    {
      var consumer := consumers[i];
      assert consumers[..i + 1] == consumers[..i] + [consumer];
      incoming := incoming[consumer := incoming[consumer] - {current}];
      if incoming[consumer] == {} && consumer !in order && consumer !in ready {
        ready := ready + [consumer];
      }
    }
    assert consumers[..|consumers|] == consumers;
  }

  lemma EmptyIncoming(nodes: set<Id>, edges: Edges, order: seq<Id>, incoming: map<Id, set<Id>>)
    requires incoming.Keys == nodes
    requires forall n :: n in nodes ==> incoming[n] == Providers(nodes, edges, n) - Elements(order)
    ensures forall n :: n in ReadySet(nodes, edges, order) <==> n in nodes && n !in order && incoming[n] == {}
  {
    hide Providers;
    forall n ensures n in ReadySet(nodes, edges, order) <==> n in nodes && n !in order && incoming[n] == {} {
      if n in nodes {
        EmptyDifference(Providers(nodes, edges, n), Elements(order));
      }
    }
  }

  lemma ReadyElements(nodes: set<Id>, edges: Edges, order: seq<Id>, incoming: map<Id, set<Id>>, ready: seq<Id>)
    requires incoming.Keys == nodes
    requires forall n :: n in nodes ==> incoming[n] == Providers(nodes, edges, n) - Elements(order)
    requires forall n :: n in ready <==> n in nodes && n !in order && incoming[n] == {}
    ensures Elements(ready) == ReadySet(nodes, edges, order)
  {
    EmptyIncoming(nodes, edges, order, incoming);
  }

  lemma CompleteIsPermutation(nodes: set<Id>, kahn: seq<Id>)
    requires Distinct(kahn) && Elements(kahn) <= nodes
    ensures IsPermutationOf(kahn + Sorted(nodes - Elements(kahn)), nodes)
    ensures |kahn| == |nodes| ==> kahn + Sorted(nodes - Elements(kahn)) == kahn
  {
    var rest := nodes - Elements(kahn);
    var tail := Sorted(rest);
    hide Sorted, Before;
    assert Elements(tail) == rest;
    assert forall x :: x in kahn ==> x in Elements(kahn);
    DistinctConcat(kahn, tail);
    ElementsOfDistinct(kahn);
    SplitSet(Elements(kahn), nodes);
  }

  lemma CompleteOrder(nodes: set<Id>, edges: Edges, kahn: seq<Id>, incoming: map<Id, set<Id>>)
    requires Emitting(nodes, edges, kahn, incoming) && ReadySet(nodes, edges, kahn) == {}
    ensures IsPermutationOf(kahn + Sorted(nodes - Elements(kahn)), nodes)
    ensures FollowsKahn(nodes, edges, kahn + Sorted(nodes - Elements(kahn)), |kahn|)
    ensures |kahn| == |nodes| ==> kahn + Sorted(nodes - Elements(kahn)) == kahn
  {
    hide Before, IsLeast, ReadySet, Providers, Distinct;
    CompleteIsPermutation(nodes, kahn);
    var rest := nodes - Elements(kahn);
    var order := kahn + Sorted(rest);
    assert order[..|kahn|] == kahn && order[|kahn|..] == Sorted(rest);
    forall k | 0 <= k < |kahn| ensures IsLeast(order[k], ReadySet(nodes, edges, order[..k])) {
      assert order[..k] == kahn[..k];
    }
  }

  method ActivationOrder(eligible: set<Id>, edges: Edges, excluded: set<Id>) returns (order: seq<Id>)
    ensures IsPermutationOf(order, eligible - excluded)
    ensures exists m :: FollowsKahn(eligible - excluded, edges, order, m)
    ensures Topological(eligible - excluded, edges, order)
       <==> Acyclic(EdgeGraph(eligible - excluded, edges))
  {
    var nodes := eligible - excluded;
    var incoming := map n | n in nodes :: set p | p in nodes && (p, n) in edges;
    var outgoing := map n | n in nodes :: set c | c in nodes && (n, c) in edges;
    order := [];
    var ready := Sorted(set n | n in nodes && incoming[n] == {});
    StartEmitting(nodes, edges, incoming);
    hide *;
    while ready != []
      invariant Emitting(nodes, edges, order, incoming)
      invariant ready == Sorted(ReadySet(nodes, edges, order))
      decreases |nodes| - |order|
    {
      EmittedBound(nodes, edges, order, incoming, ready);
      order, incoming, ready := Emit(nodes, edges, outgoing, order, incoming, ready);
    }
    NobodyReady(ReadySet(nodes, edges, order));
    CompleteOrder(nodes, edges, order, incoming);
    ghost var m := |order|;
    if |order| != |nodes| {
      order := order + Sorted(nodes - Elements(order));
    }
    TopologicalIffAcyclic(nodes, edges, order, m);
  }

  lemma NobodyReady(s: set<Id>)
    requires Sorted(s) == []
    ensures s == {}
  {
    assert |s| == 0;
  }

  lemma StartEmitting(nodes: set<Id>, edges: Edges, incoming: map<Id, set<Id>>)
    requires incoming == map n | n in nodes :: set p | p in nodes && (p, n) in edges
    ensures Emitting(nodes, edges, [], incoming)
    ensures (set n | n in nodes && incoming[n] == {}) == ReadySet(nodes, edges, [])
  {
    assert forall n :: n in nodes ==> incoming[n] == Providers(nodes, edges, n);
  }

  lemma EmittedBound(nodes: set<Id>, edges: Edges, order: seq<Id>, incoming: map<Id, set<Id>>, ready: seq<Id>)
    requires Emitting(nodes, edges, order, incoming)
    requires ready != [] && ready == Sorted(ReadySet(nodes, edges, order))
    ensures |order| < |nodes|
  {
    ElementsOfDistinct(order);
    SplitSet(Elements(order), nodes);
    assert ready[0] in nodes - Elements(order);
  }

  // ---- Topological exactly when acyclic

  ghost function Position(order: seq<Id>, n: Id): (k: int)
    ensures n in order ==> 0 <= k < |order| && order[k] == n
  {
    if n in order then (var k :| 0 <= k < |order| && order[k] == n; k) else 0
  }

  /** Along a topological order every path moves strictly forward. */
  lemma {:induction false} TopologicalPathsAdvance(nodes: set<Id>, edges: Edges, order: seq<Id>, p: seq<Id>)
    requires IsPermutationOf(order, nodes) && Topological(nodes, edges, order)
    requires IsPath(EdgeGraph(nodes, edges), p) && |p| > 1
    ensures p[0] in order && p[|p| - 1] in order
    ensures Position(order, p[0]) < Position(order, p[|p| - 1])
    decreases |p|
  {
    var g := EdgeGraph(nodes, edges);
    var a, b := p[|p| - 2], p[|p| - 1];
    assert b in Succ(g, a);
    assert a in nodes && b in nodes && (a, b) in edges;
    assert a in Elements(order) && b in Elements(order);
    var k := Position(order, b);
    assert a in Providers(nodes, edges, order[k]);
    assert a in order[..k];
    var i :| 0 <= i < k && order[i] == a;
    assert Position(order, a) == i;
    if |p| > 2 {
      TopologicalPathsAdvance(nodes, edges, order, p[..|p| - 1]);
    }
  }

  lemma TopologicalImpliesAcyclic(nodes: set<Id>, edges: Edges, order: seq<Id>)
    requires IsPermutationOf(order, nodes) && Topological(nodes, edges, order)
    ensures Acyclic(EdgeGraph(nodes, edges))
  {
    var g := EdgeGraph(nodes, edges);
    forall n ensures !OnCycle(g, n) {
      forall p | Joins(g, p, n, n) ensures |p| <= 1 {
        if |p| > 1 {
          TopologicalPathsAdvance(nodes, edges, order, p);
        }
      }
    }
  }

  ghost predicate HasPredecessor(g: Graph, r: set<Id>, x: Id) {
    exists y :: y in r && x in Succ(g, y)
  }

  ghost predicate AllHavePredecessors(g: Graph, r: set<Id>) {
    forall x {:trigger HasPredecessor(g, r, x)} :: x in r ==> HasPredecessor(g, r, x)
  }

  /** A path of the given length, every node of which lies in `r`. */
  lemma {:induction false} BackwardPath(g: Graph, r: set<Id>, n: Id, length: nat) returns (p: seq<Id>)
    requires n in r
    requires AllHavePredecessors(g, r)
    decreases length
    ensures IsPath(g, p) && |p| == length + 1 && p[|p| - 1] == n
    ensures forall i :: 0 <= i < |p| ==> p[i] in r
  {
    if length == 0 {
      p := [n];
    } else {
      assert HasPredecessor(g, r, n);
      var y :| y in r && n in Succ(g, y);
      var q := BackwardPath(g, r, y, length - 1);
      p := q + [n];
    }
  }

  /** A sequence longer than the set it draws from repeats an element. */
  lemma Repetition(p: seq<Id>, r: set<Id>) returns (i: nat, j: nat)
    requires |p| > |r| && forall k :: 0 <= k < |p| ==> p[k] in r
    ensures i < j < |p| && p[i] == p[j]
  {
    if Distinct(p) {
      ElementsOfDistinct(p);
      SubsetSize(Elements(p), r);
    }
    i, j :| 0 <= i < j < |p| && p[i] == p[j];
  }

  /** Where every node of a nonempty finite set has a predecessor in the set, there is a cycle. */
  lemma PredecessorsMakeCycle(g: Graph, r: set<Id>)
    requires r != {}
    requires AllHavePredecessors(g, r)
    ensures exists n :: OnCycle(g, n)
  {
    var n :| n in r;
    var p := BackwardPath(g, r, n, |r|);
    var i, j := Repetition(p, r);
    var q := p[i..j + 1];
    assert Joins(g, q, p[i], p[i]) && |q| > 1;
    assert OnCycle(g, p[i]);
  }

  lemma SubsetSize<T>(a: set<T>, b: set<T>)
    requires a <= b
    ensures |a| <= |b|
  {
    SplitSet(a, b);
  }

  /** What is left when nobody is ready waits on something else that is left. */
  lemma StuckNodesHavePredecessors(nodes: set<Id>, edges: Edges, done: seq<Id>)
    requires ReadySet(nodes, edges, done) == {}
    ensures AllHavePredecessors(EdgeGraph(nodes, edges), nodes - Elements(done))
  {
    var g, rest := EdgeGraph(nodes, edges), nodes - Elements(done);
    forall x | x in rest ensures HasPredecessor(g, rest, x) {
      assert x !in ReadySet(nodes, edges, done);
      var y :| y in Providers(nodes, edges, x) && y !in Elements(done);
      assert y in rest && x in Succ(g, y);
    }
  }

  lemma AcyclicImpliesTopological(nodes: set<Id>, edges: Edges, order: seq<Id>, m: nat)
    requires FollowsKahn(nodes, edges, order, m)
    requires Acyclic(EdgeGraph(nodes, edges))
    ensures m == |order| && Topological(nodes, edges, order)
  {
    StuckNodesHavePredecessors(nodes, edges, order[..m]);
    if nodes - Elements(order[..m]) != {} {
      PredecessorsMakeCycle(EdgeGraph(nodes, edges), nodes - Elements(order[..m]));
    }
    hide Before, Acyclic, EdgeGraph;
    assert order[m..] == [];
    forall k | 0 <= k < |order| ensures Providers(nodes, edges, order[k]) <= Elements(order[..k]) {
      assert order[k] in ReadySet(nodes, edges, order[..k]);
    }
  }

  lemma TopologicalIffAcyclic(nodes: set<Id>, edges: Edges, order: seq<Id>, m: nat)
    requires IsPermutationOf(order, nodes) && FollowsKahn(nodes, edges, order, m)
    ensures Topological(nodes, edges, order) <==> Acyclic(EdgeGraph(nodes, edges))
  {
    if Topological(nodes, edges, order) {
      TopologicalImpliesAcyclic(nodes, edges, order);
    }
    if Acyclic(EdgeGraph(nodes, edges)) {
      AcyclicImpliesTopological(nodes, edges, order, m);
    }
  }
}
