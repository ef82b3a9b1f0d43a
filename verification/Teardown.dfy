/** The order in which instances are disposed: consumers before the providers they reach. */
module Teardown {
  import opened Ordering
  import opened Graphs
  import opened Activation
  import opened Registry
  import opened Reuse

  /** From each live instance to the live instances it captured. */
  function BoundGraph(live: map<Id, Instance>): Graph {
    map c | c in live :: set k | k in live[c].resolved && live[c].resolved[k] in live :: live[c].resolved[k]
  }

  /** Those of `remaining` that nothing remaining is bound to. */
  function Unused(g: Graph, remaining: set<Id>): set<Id> {
    set i | i in remaining && forall c :: c in remaining ==> i !in Succ(g, c)
  }

  /** What goes next: the unused ones, or everything left when a cycle leaves none. */
  function Layer(g: Graph, remaining: set<Id>): (layer: set<Id>)
    ensures layer <= remaining && (remaining != {} ==> layer != {})
  {
    if Unused(g, remaining) == {} then remaining else Unused(g, remaining)
  }

  lemma LayerThenRest(layer: set<Id>, remaining: set<Id>, rest: seq<Id>)
    requires layer <= remaining && Elements(rest) == remaining - layer && Distinct(rest)
    ensures Elements(Sorted(layer) + rest) == remaining && Distinct(Sorted(layer) + rest)
  {
    var first := Sorted(layer);
    forall x | x in first ensures x !in rest {
      assert x in layer && (x in rest ==> x in Elements(rest));
    }
    DistinctConcat(first, rest);
    assert Elements(first) == layer;
  }

  /** Layer by layer, each sorted. */
  function Layers(g: Graph, remaining: set<Id>): (order: seq<Id>)
    ensures Elements(order) == remaining && Distinct(order)
    decreases remaining
  {
    if remaining == {} then []
    else
      var layer := Layer(g, remaining);
      var rest := Layers(g, remaining - layer);
      LayerThenRest(layer, remaining, rest);
      Sorted(layer) + rest
  }

  lemma LayersUnfold(g: Graph, remaining: set<Id>)
    requires remaining != {}
    ensures Layers(g, remaining) == Sorted(Layer(g, remaining)) + Layers(g, remaining - Layer(g, remaining))
  {
  }

  /** `_teardown_order`: collect the edges between live instances, then peel. */
  method TeardownOrder(live: map<Id, Instance>, target: set<Id>) returns (order: seq<Id>)
    ensures order == Layers(BoundGraph(live), target)
  {
    var edges := CollectEdges(live);
    ghost var g := BoundGraph(live);
    order := [];
    assert Layers(g, {}) == [];
    hide Unused, BoundGraph, Distinct, Elements, Sorted, Layers, Before, Succ;
    var remaining := target;
    while remaining != {}
      invariant order + Layers(g, remaining) == Layers(g, target)
      decreases remaining
    {
      var ready := ReadyNow(edges, remaining, g);
      if ready == {} {
        ready := remaining;
      }
      assert ready == Layer(g, remaining);
      LayersUnfold(g, remaining);
      Associative(order, Sorted(ready), Layers(g, remaining - ready));
      order := order + Sorted(ready);
      remaining := remaining - ready;
    }
  }

  lemma Associative(a: seq<Id>, b: seq<Id>, c: seq<Id>)
    ensures a + (b + c) == (a + b) + c
  {
  }

  method ReadyNow(edges: set<(Id, Id)>, remaining: set<Id>, ghost g: Graph) returns (ready: set<Id>)
    requires forall p, c :: (p, c) in edges <==> p in Succ(g, c)
    ensures ready == Unused(g, remaining)
  {
    SameReady(g, edges, remaining);
    ready := set i | i in remaining && !exists e :: e in edges && e.0 == i && e.1 in remaining;
  }

  lemma SameReady(g: Graph, edges: set<(Id, Id)>, remaining: set<Id>)
    requires forall p, c :: (p, c) in edges <==> p in Succ(g, c)
    ensures (set i | i in remaining && !exists e :: e in edges && e.0 == i && e.1 in remaining) == Unused(g, remaining)
  {
    forall i | i in remaining
      ensures (exists e :: e in edges && e.0 == i && e.1 in remaining) <==> !forall c :: c in remaining ==> i !in Succ(g, c)
    {
      if exists e :: e in edges && e.0 == i && e.1 in remaining {
        var e :| e in edges && e.0 == i && e.1 in remaining;
        assert (e.0, e.1) in edges;
      }
      if c :| c in remaining && i in Succ(g, c) {
        assert (i, c) in edges && (i, c).0 == i && (i, c).1 in remaining;
      }
    }
  }

  method CollectEdges(live: map<Id, Instance>) returns (edges: set<(Id, Id)>)
    ensures forall p, c :: (p, c) in edges <==> p in Succ(BoundGraph(live), c)
  {
    edges := {};
    var ids := Sorted(live.Keys);
    hide BoundGraph, Succ, Sorted, Before;
    for k := 0 to |ids|
      invariant forall p, c :: (p, c) in edges <==> c in ids[..k] && p in Succ(BoundGraph(live), c)
    {
      assert ids[..k + 1] == ids[..k] + [ids[k]] && ids[k] in live;
      var providers := Providers(live, ids[k]);
      edges := edges + set p | p in providers :: (p, ids[k]);
    }
    assert ids[..|ids|] == ids;
    OnlyLiveConsume(live);
  }

  lemma OnlyLiveConsume(live: map<Id, Instance>)
    ensures forall p, c :: p in Succ(BoundGraph(live), c) ==> c in live
  {
  }

  function Providers(live: map<Id, Instance>, c: Id): (r: set<Id>)
    requires c in live
    ensures r == Succ(BoundGraph(live), c)
  {
    set k | k in live[c].resolved && live[c].resolved[k] in live :: live[c].resolved[k]
  }

  // ---- Consumers first

  /** Without a cycle some remaining instance is always unused. */
  lemma SomeUnused(g: Graph, remaining: set<Id>)
    requires Acyclic(g) && remaining != {}
    ensures Unused(g, remaining) != {}
  {
    if Unused(g, remaining) == {} {
      forall x | x in remaining ensures HasPredecessor(g, remaining, x) {
        assert x !in Unused(g, remaining);
      }
      PredecessorsMakeCycle(g, remaining);
    }
  }

  /** Where no chain of captures is circular, nothing is disposed before its consumers. */
  lemma {:induction false} ConsumersFirst(g: Graph, target: set<Id>, i: nat, j: nat)
    requires Acyclic(g) && i <= j < |Layers(g, target)|
    ensures Layers(g, target)[i] !in Succ(g, Layers(g, target)[j])
    decreases target
  {
    hide Acyclic, Layers, Before, Sorted, Distinct;
    var order := Layers(g, target);
    assert order[i] in Elements(order) && order[j] in Elements(order);
    SomeUnused(g, target);
    LayersUnfold(g, target);
    var first := Sorted(Layer(g, target));
    if i < |first| {
      assert order[i] in first;
    } else {
      ConsumersFirst(g, target - Layer(g, target), i - |first|, j - |first|);
    }
  }

  /** What is not disposed is bound to nothing that is, unless nobody is bound to it in turn. */
  ghost predicate KeptIsClosed(g: Graph, target: set<Id>) {
    forall x, p :: x !in target && p in Succ(g, x) && p in target ==> !exists c :: x in Succ(g, c)
  }

  /** A chain of captures between two disposed instances never leaves the disposed ones. */
  lemma {:induction false} ChainStaysInside(g: Graph, target: set<Id>, p: seq<Id>)
    requires KeptIsClosed(g, target) && IsPath(g, p) && p[0] in target && p[|p| - 1] in target
    ensures forall k :: 0 <= k < |p| ==> p[k] in target
    decreases |p|
  {
    if |p| > 1 {
      var n := |p| - 1;
      assert p[n] in Succ(g, p[n - 1]);
      if n > 1 {
        assert p[n - 1] in Succ(g, p[n - 2]);
      }
      assert p[n - 1] in target;
      ChainStaysInside(g, target, p[..n]);
      assert forall k :: 0 <= k < n ==> p[..n][k] in target;
    }
  }

  /** So the order respects every chain of captures, also through instances that stay. */
  lemma {:induction false} ChainsRespected(g: Graph, target: set<Id>, p: seq<Id>)
    requires Acyclic(g) && KeptIsClosed(g, target) && IsPath(g, p) && |p| > 1
    requires p[0] in target && p[|p| - 1] in target
    ensures var order := Layers(g, target);
      p[0] in order && p[|p| - 1] in order && Position(order, p[0]) < Position(order, p[|p| - 1])
    decreases |p|
  {
    var order, n := Layers(g, target), |p| - 1;
    ChainStaysInside(g, target, p);
    forall x | x in target ensures x in order { assert x in Elements(order); }
    var a, b := Position(order, p[n - 1]), Position(order, p[n]);
    assert p[n] in Succ(g, p[n - 1]);
    if b <= a {
      ConsumersFirst(g, target, b, a);
    }
    if n > 1 {
      assert p[..n][|p[..n]| - 1] == p[n - 1];
      ChainsRespected(g, target, p[..n]);
    }
  }

  /** A reclaim's kept instances are closed: each belongs to a live, binding-closed generation,
      or is a failed one, which nothing was ever bound to. */
  lemma ReclaimKeepsAClosedSet(live: map<Id, Instance>, target: set<Id>, generations: set<seq<Instance>>)
    requires forall gen :: gen in generations ==> BindingClosed(gen)
    requires forall gen, i :: gen in generations && i in gen ==> i.id !in target
    requires forall id :: id in live && id !in target ==>
      (exists gen :: gen in generations && live[id] in gen) || !exists c :: id in Succ(BoundGraph(live), c)
    ensures KeptIsClosed(BoundGraph(live), target)
  {
    var g := BoundGraph(live);
    forall x, p | x !in target && p in Succ(g, x) && exists gen :: gen in generations && live[x] in gen ensures p !in target {
      var gen :| gen in generations && live[x] in gen;
      var k :| k in live[x].resolved && live[x].resolved[k] == p;
      var j :| j in gen && j.id == live[x].resolved[k];
    }
  }

  // ---- The whole order, by how long the chains of consumers are

  /** `n` bindings one after the other, all among the disposed, end at `x`. */
  ghost predicate HasChain(g: Graph, target: set<Id>, x: Id, n: nat) {
    exists p :: IsChain(g, target, x, n, p)
  }

  ghost predicate IsChain(g: Graph, target: set<Id>, x: Id, n: nat, p: seq<Id>) {
    IsPath(g, p) && |p| == n + 1 && p[n] == x && forall k :: 0 <= k < |p| ==> p[k] in target
  }

  ghost function Chained(g: Graph, target: set<Id>, n: nat): set<Id> {
    set x | x in target && HasChain(g, target, x, n)
  }

  lemma ChainShrinks(g: Graph, target: set<Id>, x: Id, n: nat)
    requires HasChain(g, target, x, n + 1)
    ensures HasChain(g, target, x, n) && x in target
  {
    var p :| IsChain(g, target, x, n + 1, p);
    assert IsChain(g, target, x, n, p[1..]);
  }

  lemma {:induction false} ShorterChain(g: Graph, target: set<Id>, x: Id, m: nat, n: nat)
    requires m <= n && HasChain(g, target, x, n)
    ensures HasChain(g, target, x, m)
    decreases n
  {
    if m < n {
      ChainShrinks(g, target, x, n - 1);
      ShorterChain(g, target, x, m, n - 1);
    }
  }

  lemma EveryoneChained(g: Graph, target: set<Id>)
    ensures Chained(g, target, 0) == target
  {
    forall x | x in target ensures HasChain(g, target, x, 0) {
      assert IsChain(g, target, x, 0, [x]);
    }
  }

  /** Who has a longer chain is bound to by one that has a chain. */
  lemma LongerIff(g: Graph, target: set<Id>, x: Id, n: nat)
    requires x in target
    ensures HasChain(g, target, x, n + 1) <==> exists c :: c in Chained(g, target, n) && x in Succ(g, c)
  {
    if HasChain(g, target, x, n + 1) {
      var p :| IsChain(g, target, x, n + 1, p);
      assert p[n + 1] in Succ(g, p[n]);
      assert IsChain(g, target, p[n], n, p[..n + 1]);
      assert p[n] in Chained(g, target, n);
    }
    if c :| c in Chained(g, target, n) && x in Succ(g, c) {
      var p :| IsChain(g, target, c, n, p);
      assert IsChain(g, target, x, n + 1, p + [x]);
    }
  }

  lemma PeeledIsChained(g: Graph, target: set<Id>, n: nat)
    ensures Chained(g, target, n) - Unused(g, Chained(g, target, n)) == Chained(g, target, n + 1)
  {
    var r := Chained(g, target, n);
    forall x ensures x in r && x !in Unused(g, r) <==> x in Chained(g, target, n + 1) {
      if x in target {
        LongerIff(g, target, x, n);
        if HasChain(g, target, x, n + 1) {
          ChainShrinks(g, target, x, n);
        }
      }
    }
  }

  /** `x` ends only shorter chains than `y`, or chains of the same lengths and comes first by id. */
  ghost predicate RanksBefore(g: Graph, target: set<Id>, x: Id, y: Id) {
    || (exists n: nat :: HasChain(g, target, y, n) && !HasChain(g, target, x, n))
    || ((forall n: nat :: HasChain(g, target, x, n) <==> HasChain(g, target, y, n)) && Before(x, y))
  }

  lemma RankByLayer(g: Graph, target: set<Id>, x: Id, y: Id, n: nat)
    requires x in Chained(g, target, n) && x !in Chained(g, target, n + 1) && y in Chained(g, target, n)
    ensures y in Chained(g, target, n + 1) ==> RanksBefore(g, target, x, y) && !RanksBefore(g, target, y, x)
    ensures y !in Chained(g, target, n + 1) ==> (RanksBefore(g, target, x, y) <==> Before(x, y))
  {
    hide HasChain;
    forall m: nat
      ensures HasChain(g, target, x, m) <==> m <= n
      ensures y in Chained(g, target, n + 1) && m <= n + 1 ==> HasChain(g, target, y, m)
      ensures y !in Chained(g, target, n + 1) ==> (HasChain(g, target, y, m) <==> m <= n)
    {
      ChainsUpTo(g, target, x, m, n);
      ChainsUpTo(g, target, y, m, n);
      if HasChain(g, target, y, n + 1) && m <= n + 1 {
        ShorterChain(g, target, y, m, n + 1);
      }
    }
    assert HasChain(g, target, y, n + 1) ==> !HasChain(g, target, x, n + 1);
  }

  lemma ChainsUpTo(g: Graph, target: set<Id>, x: Id, m: nat, n: nat)
    requires x in Chained(g, target, n)
    ensures m <= n ==> HasChain(g, target, x, m)
    ensures x !in Chained(g, target, n + 1) && m > n ==> !HasChain(g, target, x, m)
  {
    if m <= n {
      ShorterChain(g, target, x, m, n);
    } else if HasChain(g, target, x, m) {
      ShorterChain(g, target, x, n + 1, m);
    }
  }

  lemma PositionInConcat(a: seq<Id>, b: seq<Id>, x: Id)
    requires Distinct(a + b) && x in a + b
    ensures x in a ==> Position(a + b, x) == Position(a, x)
    ensures x !in a ==> x in b && Position(a + b, x) == |a| + Position(b, x)
  {
    var c := a + b;
    if x in a {
      var k := Position(a, x);
      assert c[k] == x;
    } else {
      assert x in b;
      var k := Position(b, x);
      assert c[|a| + k] == x;
    }
  }

  lemma {:induction false} LayersByRank(g: Graph, target: set<Id>, n: nat, x: Id, y: Id)
    requires Acyclic(g) && x in Chained(g, target, n) && y in Chained(g, target, n) && x != y
    ensures var order := Layers(g, Chained(g, target, n));
      x in order && y in order && (Position(order, x) < Position(order, y) <==> RanksBefore(g, target, x, y))
    decreases Chained(g, target, n)
  {
    hide *;
    var r, next := Chained(g, target, n), Chained(g, target, n + 1);
    SomeUnused(g, r);
    LayerIsUnused(g, r);
    PeeledIsChained(g, target, n);
    LayersUnfold(g, r);
    var first, rest := Sorted(Unused(g, r)), Layers(g, next);
    LayersHave(g, r, x);
    LayersHave(g, r, y);
    PositionInConcat(first, rest, x);
    PositionInConcat(first, rest, y);
    if x in next && y in next {
      LayersByRank(g, target, n + 1, x, y);
    } else if x !in next {
      RankByLayer(g, target, x, y, n);
      if y !in next {
        SortedPositions(Unused(g, r), x, y);
      }
    } else {
      RankByLayer(g, target, y, x, n);
    }
  }

  lemma LayerIsUnused(g: Graph, r: set<Id>)
    requires Unused(g, r) != {}
    ensures Layer(g, r) == Unused(g, r) && Unused(g, r) <= r
    ensures forall x :: x in Sorted(Unused(g, r)) <==> x in Unused(g, r)
  {
  }

  lemma LayersHave(g: Graph, r: set<Id>, x: Id)
    requires x in r
    ensures x in Layers(g, r) && Distinct(Layers(g, r))
  {
    assert x in Elements(Layers(g, r));
  }

  lemma SortedPositions(s: set<Id>, x: Id, y: Id)
    requires x in s && y in s && x != y
    ensures x in Sorted(s) && y in Sorted(s)
    ensures Position(Sorted(s), x) < Position(Sorted(s), y) <==> Before(x, y)
  {
    var xs := Sorted(s);
    var i, j := Position(xs, x), Position(xs, y);
    hide Before;
    if i < j {
      assert Before(xs[i], xs[j]);
    } else {
      assert Before(xs[j], xs[i]);
      BeforeIsAsymmetric(y, x);
    }
  }

  /** Where bindings are acyclic the order of a teardown is by the length of the longest chain of
      consumers, and among equals by id. */
  lemma TeardownByRank(g: Graph, target: set<Id>, x: Id, y: Id)
    requires Acyclic(g) && x in target && y in target && x != y
    ensures var order := Layers(g, target);
      x in order && y in order && (Position(order, x) < Position(order, y) <==> RanksBefore(g, target, x, y))
  {
    EveryoneChained(g, target);
    hide *;
    LayersByRank(g, target, 0, x, y);
  }
}
