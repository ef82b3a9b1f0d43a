/** The order and the contents of the graph cache told by its history alone: by which operation
    touched a key last, which put stands, and what was invalidated since. */
module Recency {
  import opened Wrappers
  import opened Ordering
  import opened Cache

  /** Operation `i` makes the key the most recent one: it puts it, or gets it while it is cached. */
  ghost predicate Touches(ops: seq<Op>, limit: nat, i: nat, d: Id)
    requires i < |ops|
  {
    match ops[i]
    case Put(key, _) => key.digest == d
    case Get(key) => key.digest == d && d in After(ops[..i], limit).graphs
    case Invalidate(_) => false
  }

  ghost predicate TouchedLast(ops: seq<Op>, limit: nat, i: nat, d: Id) {
    && i < |ops| && Touches(ops, limit, i, d)
    && forall j {:trigger Touches(ops, limit, j, d)} :: i < j < |ops| ==> !Touches(ops, limit, j, d)
  }

  /** The put at `i` is the key's last, and nothing invalidated its agent's keys since. */
  ghost predicate Stands(ops: seq<Op>, i: nat, d: Id) {
    && i < |ops| && ops[i].Put? && ops[i].key.digest == d
    && forall j {:trigger ops[j]} :: i < j < |ops| ==>
         && !(ops[j].Put? && ops[j].key.digest == d)
         && (ops[j].Invalidate? ==> ops[j].agent.Some? && ops[j].agent.value != ops[i].key.agent)
  }

  // ---- One more operation

  lemma StandsNext(ops: seq<Op>, i: nat, d: Id)
    requires ops != []
    ensures var (n, op) := (|ops| - 1, ops[|ops| - 1]);
      Stands(ops, i, d) <==>
        if i == n then op.Put? && op.key.digest == d
        else i < n && Stands(ops[..n], i, d) && !(op.Put? && op.key.digest == d)
             && (op.Invalidate? ==> op.agent.Some? && op.agent.value != ops[i].key.agent)
  {
    var n := |ops| - 1;
    var front := ops[..n];
    assert forall j :: 0 <= j < n ==> front[j] == ops[j];
  }

  lemma TouchedNext(ops: seq<Op>, limit: nat, i: nat, d: Id)
    requires ops != []
    ensures var n := |ops| - 1;
      TouchedLast(ops, limit, i, d) <==>
        if i == n then Touches(ops, limit, n, d) else TouchedLast(ops[..n], limit, i, d) && !Touches(ops, limit, n, d)
  {
    var n := |ops| - 1;
    var front := ops[..n];
    forall j | 0 <= j < n ensures Touches(front, limit, j, d) <==> Touches(ops, limit, j, d) {
      assert front[j] == ops[j] && front[..j] == ops[..j];
    }
    hide Touches;
  }

  lemma UnboundedNext(ops: seq<Op>, limit: nat)
    requires ops != []
    ensures var (n, op) := (|ops| - 1, ops[|ops| - 1]); var u := Unbounded(ops[..n], limit);
      Unbounded(ops, limit) ==
        match op
        case Get(key) => if Touches(ops, limit, n, key.digest) then u.Touched(key.digest) else u
        case Put(key, graph) => u.Stored(key, graph)
        case Invalidate(agent) => u.Invalidate(agent)
  {
    hide After, State.Touched, State.Stored, State.Invalidate;
  }

  // ---- What is there

  /** What stands is kept, with the graph and the key last put. */
  lemma {:induction false} StandingIsKept(ops: seq<Op>, limit: nat, i: nat, d: Id)
    requires Stands(ops, i, d)
    ensures var u := Unbounded(ops, limit);
      d in u.graphs && d in u.keys && u.graphs[d] == ops[i].graph && u.keys[d] == ops[i].key
    decreases |ops|
  {
    var n := |ops| - 1;
    StandsNext(ops, i, d);
    UnboundedNext(ops, limit);
    hide Stands, Unbounded, Touches, Keeping, Without;
    if i < n {
      StandingIsKept(ops[..n], limit, i, d);
      assert ops[..n][i] == ops[i];
    }
  }

  /** What is kept and not just put was kept before, its agent not just invalidated. */
  lemma KeptBefore(ops: seq<Op>, limit: nat, d: Id)
    requires ops != [] && d in Unbounded(ops, limit).graphs
    ensures var (op, u) := (ops[|ops| - 1], Unbounded(ops[..|ops| - 1], limit));
      && (op.Put? && op.key.digest == d ==> Unbounded(ops, limit).graphs[d] == op.graph)
      && (!(op.Put? && op.key.digest == d) ==>
            && d in u.graphs && u.graphs[d] == Unbounded(ops, limit).graphs[d]
            && (op.Invalidate? && d in u.keys ==> op.agent.Some? && op.agent.value != u.keys[d].agent))
  {
    UnboundedNext(ops, limit);
    hide Unbounded, Touches, Keeping, Without;
  }

  /** And nothing else is. */
  lemma {:induction false} KeptStands(ops: seq<Op>, limit: nat, d: Id) returns (i: nat)
    requires d in Unbounded(ops, limit).graphs
    ensures Stands(ops, i, d) && i < |ops| && ops[i].Put? && Unbounded(ops, limit).graphs[d] == ops[i].graph
    decreases |ops|
  {
    NothingKept(limit);
    hide *;
    var n := |ops| - 1;
    KeptBefore(ops, limit, d);
    if ops[n].Put? && ops[n].key.digest == d {
      i := n;
    } else {
      i := KeptStands(ops[..n], limit, d);
      StandingIsKept(ops[..n], limit, i, d);
      assert ops[i] == ops[..n][i];
    }
    StandsNext(ops, i, d);
  }

  lemma NothingKept(limit: nat)
    ensures Unbounded([], limit).graphs == map[]
  {
  }

  lemma StandsMeans(ops: seq<Op>, i: nat, d: Id)
    requires Stands(ops, i, d)
    ensures i < |ops| && ops[i].Put? && ops[i].key.digest == d
  {
  }

  // ---- In which order

  lemma WithoutIsKeeping(xs: seq<Id>, x: Id)
    ensures Without(xs, x) == Keeping(xs, {x})
    decreases |xs|
  {
    if xs != [] {
      WithoutIsKeeping(xs[..|xs| - 1], x);
    }
  }

  /** What is kept of a list stays in its order. */
  lemma {:induction false} KeepingInOrder(xs: seq<Id>, gone: set<Id>, p: nat, q: nat) returns (a: nat, b: nat)
    requires p <= q < |Keeping(xs, gone)|
    ensures a <= b < |xs| && xs[a] == Keeping(xs, gone)[p] && xs[b] == Keeping(xs, gone)[q] && (p < q ==> a < b)
    ensures xs[a] !in gone && xs[b] !in gone
    decreases |xs|
  {
    assert xs != [];
    var n := |xs| - 1;
    KeepingNext(xs, gone);
    var front := Keeping(xs[..n], gone);
    hide Keeping;
    if q < |front| {
      a, b := KeepingInOrder(xs[..n], gone, p, q);
    } else if p < |front| {
      a, b := KeepingInOrder(xs[..n], gone, p, p);
      b := n;
    } else {
      a, b := n, n;
    }
  }

  /** The keys kept are in the order they were last touched. */
  lemma {:induction false} KeptByRecency(ops: seq<Op>, limit: nat, p: nat, q: nat) returns (i: nat, j: nat)
    requires p <= q < |Unbounded(ops, limit).order|
    ensures TouchedLast(ops, limit, i, Unbounded(ops, limit).order[p])
    ensures TouchedLast(ops, limit, j, Unbounded(ops, limit).order[q]) && (p < q ==> i < j)
    decreases |ops|
  {
    SomethingHappened(ops, limit);
    hide *;
    var n := |ops| - 1;
    if x :| Touches(ops, limit, n, x) {
      TouchedOrder(ops, limit, x);
      i, j := TouchedByRecency(ops, limit, x, p, q);
    } else {
      var gone := UntouchedOrder(ops, limit, n);
      var a, b := KeepingInOrder(Unbounded(ops[..n], limit).order, gone, p, q);
      i, j := KeptByRecency(ops[..n], limit, a, b);
      StillTouchedLast(ops, limit, i, Unbounded(ops, limit).order[p]);
      StillTouchedLast(ops, limit, j, Unbounded(ops, limit).order[q]);
    }
  }

  lemma SomethingHappened(ops: seq<Op>, limit: nat)
    ensures ops == [] ==> Unbounded(ops, limit).order == []
  {
  }

  lemma TouchedOrder(ops: seq<Op>, limit: nat, x: Id)
    requires ops != [] && Touches(ops, limit, |ops| - 1, x)
    ensures Unbounded(ops, limit).order == Without(Unbounded(ops[..|ops| - 1], limit).order, x) + [x]
  {
    UnboundedNext(ops, limit);
    hide Unbounded, Without, After;
  }

  lemma UntouchedOrder(ops: seq<Op>, limit: nat, n: nat) returns (gone: set<Id>)
    requires n + 1 == |ops| && forall x :: !Touches(ops, limit, n, x)
    ensures Unbounded(ops, limit).order == Keeping(Unbounded(ops[..n], limit).order, gone)
  {
    UnboundedNext(ops, limit);
    hide Unbounded, After;
    var op, u := ops[n], Unbounded(ops[..n], limit);
    assert op.Put? ==> Touches(ops, limit, n, op.key.digest);
    gone := if op.Invalidate? then u.Matching(op.agent) else {};
    KeepingNothing(u.order);
  }

  lemma {:induction false} KeepingNothing(xs: seq<Id>)
    ensures Keeping(xs, {}) == xs
    decreases |xs|
  {
    if xs != [] {
      KeepingNext(xs, {});
      KeepingNothing(xs[..|xs| - 1]);
    }
  }

  lemma StillTouchedLast(ops: seq<Op>, limit: nat, i: nat, d: Id)
    requires ops != [] && TouchedLast(ops[..|ops| - 1], limit, i, d) && !Touches(ops, limit, |ops| - 1, d)
    ensures TouchedLast(ops, limit, i, d) && i < |ops| - 1
  {
    TouchedNext(ops, limit, i, d);
    hide Touches;
  }

  /** A touched key comes last, the others stay in order before it. */
  lemma {:induction false} TouchedByRecency(ops: seq<Op>, limit: nat, x: Id, p: nat, q: nat) returns (i: nat, j: nat)
    requires ops != [] && Touches(ops, limit, |ops| - 1, x)
    requires Unbounded(ops, limit).order == Without(Unbounded(ops[..|ops| - 1], limit).order, x) + [x]
    requires p <= q < |Unbounded(ops, limit).order|
    ensures TouchedLast(ops, limit, i, Unbounded(ops, limit).order[p])
    ensures TouchedLast(ops, limit, j, Unbounded(ops, limit).order[q]) && (p < q ==> i < j)
    decreases |ops|, 0
  {
    var n := |ops| - 1;
    var front, was, order := ops[..n], Unbounded(ops[..n], limit).order, Unbounded(ops, limit).order;
    WithoutIsKeeping(was, x);
    var kept := Keeping(was, {x});
    hide Unbounded, TouchedLast, Without, Keeping, Touches;
    OnlyOneTouched(ops, limit, n, x);
    TouchedNext(ops, limit, n, x);
    if q < |kept| {
      var a, b := KeepingInOrder(was, {x}, p, q);
      i, j := KeptByRecency(front, limit, a, b);
      StillTouchedLast(ops, limit, i, order[p]);
      StillTouchedLast(ops, limit, j, order[q]);
    } else if p < |kept| {
      var a, b := KeepingInOrder(was, {x}, p, p);
      i, j := KeptByRecency(front, limit, a, a);
      StillTouchedLast(ops, limit, i, order[p]);
      j := n;
    } else {
      i, j := n, n;
    }
  }

  lemma OnlyOneTouched(ops: seq<Op>, limit: nat, n: nat, x: Id)
    requires n < |ops| && Touches(ops, limit, n, x)
    ensures forall d :: d != x ==> !Touches(ops, limit, n, d)
  {
  }

  // ---- What the cache holds

  lemma EndMeans(s: State, u: State)
    requires EndOf(s, u)
    ensures var k := |u.order| - |s.order|; k >= 0 && forall p :: 0 <= p < |s.order| ==> s.order[p] == u.order[k + p]
    ensures forall d :: d in s.graphs ==> d in u.graphs && s.graphs[d] == u.graphs[d]
    ensures forall d :: d in s.order <==> d in s.graphs
  {
    assert u.order[|u.order| - |s.order|..] == s.order;
    assert forall d :: d in s.order <==> d in Elements(s.order);
  }

  /** The cache holds its keys in the order of their last touch. */
  lemma HoldsByRecency(ops: seq<Op>, limit: nat, p: nat, q: nat) returns (i: nat, j: nat)
    requires p < q < |After(ops, limit).order|
    ensures i < j && TouchedLast(ops, limit, i, After(ops, limit).order[p]) && TouchedLast(ops, limit, j, After(ops, limit).order[q])
  {
    hide *;
    HoldsTheMostRecent(ops, limit);
    var s, u := After(ops, limit), Unbounded(ops, limit);
    EndMeans(s, u);
    var k := |u.order| - |s.order|;
    i, j := KeptByRecency(ops, limit, k + p, k + q);
  }

  /** A key is cached only while its last put stands, and then with that put's graph. */
  lemma HoldsWhatStands(ops: seq<Op>, limit: nat, d: Id) returns (i: nat)
    requires d in After(ops, limit).graphs
    ensures Stands(ops, i, d) && After(ops, limit).graphs[d] == ops[i].graph
  {
    hide *;
    HoldsTheMostRecent(ops, limit);
    EndMeans(After(ops, limit), Unbounded(ops, limit));
    i := KeptStands(ops, limit, d);
    StandsMeans(ops, i, d);
  }

  /** What stands and is not cached was touched before everything that is. */
  lemma MissingIsOlder(ops: seq<Op>, limit: nat, i: nat, d: Id, p: nat) returns (was: nat, last: nat)
    requires Stands(ops, i, d) && d !in After(ops, limit).graphs && p < |After(ops, limit).order|
    ensures was < last && TouchedLast(ops, limit, was, d) && TouchedLast(ops, limit, last, After(ops, limit).order[p])
  {
    hide *;
    HoldsTheMostRecent(ops, limit);
    var s, u := After(ops, limit), Unbounded(ops, limit);
    EndMeans(s, u);
    StandingIsKept(ops, limit, i, d);
    UnboundedIsConsistent(ops, limit);
    var a := AheadOfEnd(s, u, d);
    was, last := KeptByRecency(ops, limit, a, |u.order| - |s.order| + p);
  }

  lemma AheadOfEnd(s: State, u: State, d: Id) returns (a: nat)
    requires EndOf(s, u) && Elements(u.order) == u.graphs.Keys && d in u.graphs && d !in s.graphs
    ensures a + |s.order| < |u.order| && u.order[a] == d
  {
    var k := |u.order| - |s.order|;
    EndMeans(s, u);
    forall q | k <= q < |u.order| ensures u.order[q] != d {
      assert s.order[q - k] == u.order[k + (q - k)] && s.order[q - k] in s.order;
    }
    assert d in Elements(u.order);
    a :| 0 <= a < |u.order| && u.order[a] == d;
  }

  lemma {:induction false} UnboundedIsConsistent(ops: seq<Op>, limit: nat)
    ensures Elements(Unbounded(ops, limit).order) == Unbounded(ops, limit).graphs.Keys == Unbounded(ops, limit).keys.Keys
    decreases |ops|
  {
    if ops != [] {
      UnboundedIsConsistent(ops[..|ops| - 1], limit);
      UnboundedNext(ops, limit);
      hide Unbounded, Touches;
      var n, op, u := |ops| - 1, ops[|ops| - 1], Unbounded(ops[..|ops| - 1], limit);
      match op
      case Get(key) =>
        if Touches(ops, limit, n, key.digest) {
          TouchedWasKept(ops, limit, key.digest);
        }
      case Put(key, _) =>
      case Invalidate(agent) =>
    }
  }

  lemma TouchedWasKept(ops: seq<Op>, limit: nat, d: Id)
    requires ops != [] && ops[|ops| - 1].Get? && Touches(ops, limit, |ops| - 1, d)
    ensures d in Unbounded(ops[..|ops| - 1], limit).graphs
  {
    HoldsTheMostRecent(ops[..|ops| - 1], limit);
  }

  // ---- What the counters say

  function Gets(ops: seq<Op>): nat {
    if ops == [] then 0 else Gets(ops[..|ops| - 1]) + if ops[|ops| - 1].Get? then 1 else 0
  }

  function Puts(ops: seq<Op>): nat {
    if ops == [] then 0 else Puts(ops[..|ops| - 1]) + if ops[|ops| - 1].Put? then 1 else 0
  }

  /** Every get is a hit or a miss, every put a build. */
  lemma {:induction false} CountersMean(ops: seq<Op>, limit: nat)
    ensures var stats := After(ops, limit).stats; stats.hits + stats.misses == Gets(ops) && stats.builds == Puts(ops)
    decreases |ops|
  {
    if ops != [] {
      var n, op := |ops| - 1, ops[|ops| - 1];
      var s := After(ops[..n], limit);
      CountersMean(ops[..n], limit);
      hide Without, Keeping, State.Trimmed;
      if op.Put? {
        AlwaysConsistent(ops[..n], limit);
        StoredIsConsistent(s, op.key, op.graph, limit);
        TrimmedIsConsistent(s.Stored(op.key, op.graph), limit);
      }
    }
  }

  /** A get is a hit exactly when it touches. */
  lemma HitsTouch(ops: seq<Op>, limit: nat, n: nat)
    requires n + 1 == |ops| && ops[n].Get?
    ensures After(ops, limit).stats.hits == After(ops[..n], limit).stats.hits + if Touches(ops, limit, n, ops[n].key.digest) then 1 else 0
  {
    hide Without;
  }
}
