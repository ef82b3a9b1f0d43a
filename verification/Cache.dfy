/** The LRU cache of compiled graphs: two dictionaries in step, and what any sequence of gets,
    puts and invalidations leaves in them. */
module Cache {
  import opened Wrappers
  import opened Ordering

  /** A cache key, with its digest taken. */
  datatype Key = Key(agent: Id, digest: Id)

  datatype Stats = Stats(hits: nat, misses: nat, builds: nat, evictions: nat, invalidations: nat)

  /** The ordered dictionary as its order, least recent first, and its contents. */
  datatype State = State(order: seq<Id>, graphs: map<Id, Id>, keys: map<Id, Key>, stats: Stats)
  {
    ghost predicate Consistent(limit: nat) {
      && Distinct(order) && Elements(order) == graphs.Keys == keys.Keys && |order| <= limit
    }

    function Touched(digest: Id): State {
      this.(order := Without(order, digest) + [digest])
    }

    function Get(key: Key): State {
      if key.digest in graphs then Touched(key.digest).(stats := stats.(hits := stats.hits + 1))
      else this.(stats := stats.(misses := stats.misses + 1))
    }

    /** Evict from the front until the limit is met. */
    function Trimmed(limit: nat): State
      decreases |order|
    {
      if |order| <= limit then this
      else
        this.(order := order[1..], graphs := graphs - {order[0]}, keys := keys - {order[0]},
              stats := stats.(evictions := stats.evictions + 1)).Trimmed(limit)
    }

    function Stored(key: Key, graph: Id): State {
      Touched(key.digest).(graphs := graphs[key.digest := graph], keys := keys[key.digest := key],
                           stats := stats.(builds := stats.builds + 1))
    }

    function Put(key: Key, graph: Id, limit: nat): State {
      Stored(key, graph).Trimmed(limit)
    }

    function Matching(agent: Option<Id>): set<Id> {
      set d | d in keys && (agent.None? || keys[d].agent == agent.value)
    }

    function Invalidate(agent: Option<Id>): State {
      var gone := Matching(agent);
      State(Keeping(order, gone), graphs - gone, keys - gone, stats.(invalidations := stats.invalidations + |gone|))
    }
  }

  const EMPTY := State([], map[], map[], Stats(0, 0, 0, 0, 0))

  /** What is left of a list when a set is removed from it. */
  function Keeping(xs: seq<Id>, gone: set<Id>): (r: seq<Id>)
    ensures forall y :: y in r <==> y in xs && y !in gone
    ensures Distinct(xs) ==> Distinct(r)
  {
    if xs == [] then []
    else
      var n := |xs| - 1;
      var front := Keeping(xs[..n], gone);
      assert xs == xs[..n] + [xs[n]];
      assert Distinct(xs) ==> Distinct(xs[..n]) && xs[n] !in xs[..n];
      if xs[n] in gone then front else front + [xs[n]]
  }

  // ---- The dictionaries stay in step

  lemma MovedToEnd(xs: seq<Id>, x: Id)
    requires Distinct(xs)
    ensures var r := Without(xs, x) + [x];
      Distinct(r) && Elements(r) == Elements(xs) + {x} && |r| == |xs| + if x in xs then 0 else 1
  {
    var r := Without(xs, x) + [x];
    DistinctConcat(Without(xs, x), [x]);
    assert Elements(r) == Elements(xs) + {x};
    ElementsOfDistinct(xs);
    ElementsOfDistinct(r);
    hide Distinct, Without;
    if x in xs {
      assert Elements(xs) + {x} == Elements(xs);
    } else {
      assert x !in Elements(xs);
    }
  }

  lemma TouchedIsConsistent(s: State, digest: Id, limit: nat)
    requires s.Consistent(limit) && digest in s.graphs
    ensures s.Touched(digest).Consistent(limit)
  {
    hide Distinct, Without;
    MovedToEnd(s.order, digest);
    assert digest in Elements(s.order);
  }

  lemma StoredIsConsistent(s: State, key: Key, graph: Id, limit: nat)
    requires s.Consistent(limit)
    ensures s.Stored(key, graph).Consistent(|s.Stored(key, graph).order|)
    ensures |s.Stored(key, graph).order| == |s.order| + if key.digest in s.graphs then 0 else 1
  {
    hide Distinct, Without;
    MovedToEnd(s.order, key.digest);
    assert key.digest in Elements(s.order) <==> key.digest in s.graphs;
  }

  function WithoutFirst(s: State): State
    requires s.order != []
  {
    s.(order := s.order[1..], graphs := s.graphs - {s.order[0]}, keys := s.keys - {s.order[0]},
       stats := s.stats.(evictions := s.stats.evictions + 1))
  }

  lemma WithoutFirstIsConsistent(s: State)
    requires s.Consistent(|s.order|) && s.order != []
    ensures WithoutFirst(s).Consistent(|s.order| - 1)
  {
    var first, rest := s.order[0], s.order[1..];
    assert s.order == [first] + rest;
    assert first !in rest && Distinct(rest);
    hide Distinct;
    assert Elements(s.order) == {first} + Elements(rest);
    assert first !in Elements(rest);
  }

  lemma {:induction false} TrimmedIsConsistent(s: State, limit: nat)
    requires s.Consistent(|s.order|)
    ensures s.Trimmed(limit).Consistent(limit)
    ensures s.Trimmed(limit).order == s.order[if |s.order| > limit then |s.order| - limit else 0..]
    ensures s.Trimmed(limit).stats.evictions == s.stats.evictions + if |s.order| > limit then |s.order| - limit else 0
    ensures s.Trimmed(limit).stats.(evictions := 0) == s.stats.(evictions := 0)
    ensures Agrees(s.Trimmed(limit).graphs, s.graphs) && Agrees(s.Trimmed(limit).keys, s.keys)
    decreases |s.order|
  {
    if |s.order| > limit {
      WithoutFirstIsConsistent(s);
      hide Distinct, Elements;
      var rest := WithoutFirst(s);
      assert s.Trimmed(limit) == rest.Trimmed(limit);
      assert Agrees(rest.graphs, s.graphs) && Agrees(rest.keys, s.keys);
      TrimmedIsConsistent(rest, limit);
      AgreesThrough(rest.Trimmed(limit).graphs, rest.graphs, s.graphs);
      AgreesThrough(rest.Trimmed(limit).keys, rest.keys, s.keys);
      hide Agrees;
    }
  }

  lemma KeepingElements(xs: seq<Id>, gone: set<Id>)
    requires Distinct(xs) && gone <= Elements(xs)
    ensures Elements(Keeping(xs, gone)) == Elements(xs) - gone && |Keeping(xs, gone)| == |xs| - |gone|
  {
    ElementsOfDistinct(xs);
    ElementsOfDistinct(Keeping(xs, gone));
    SplitSet(gone, Elements(xs));
  }

  lemma InvalidateIsConsistent(s: State, agent: Option<Id>, limit: nat)
    requires s.Consistent(limit)
    ensures s.Invalidate(agent).Consistent(limit)
    ensures |s.Invalidate(agent).order| == |s.order| - |s.Matching(agent)|
  {
    KeepingElements(s.order, s.Matching(agent));
    hide Distinct;
  }

  // ---- Runs

  datatype Op = Get(key: Key) | Put(key: Key, graph: Id) | Invalidate(agent: Option<Id>)

  function Do(s: State, op: Op, limit: nat): State {
    match op
    case Get(key) => s.Get(key)
    case Put(key, graph) => s.Put(key, graph, limit)
    case Invalidate(agent) => s.Invalidate(agent)
  }

  lemma DoIsConsistent(s: State, op: Op, limit: nat)
    requires s.Consistent(limit)
    ensures Do(s, op, limit).Consistent(limit)
  {
    match op
    case Get(key) =>
      if key.digest in s.graphs { TouchedIsConsistent(s, key.digest, limit); }
    case Put(key, graph) =>
      StoredIsConsistent(s, key, graph, limit);
      TrimmedIsConsistent(s.Stored(key, graph), limit);
    case Invalidate(agent) => InvalidateIsConsistent(s, agent, limit);
  }

  function After(ops: seq<Op>, limit: nat): State
    decreases |ops|
  {
    if ops == [] then EMPTY else Do(After(ops[..|ops| - 1], limit), ops[|ops| - 1], limit)
  }

  lemma {:induction false} AlwaysConsistent(ops: seq<Op>, limit: nat)
    ensures After(ops, limit).Consistent(limit)
    decreases |ops|
  {
    if ops != [] {
      hide State.Consistent, Do;
      AlwaysConsistent(ops[..|ops| - 1], limit);
      DoIsConsistent(After(ops[..|ops| - 1], limit), ops[|ops| - 1], limit);
    } else {
      assert EMPTY.Consistent(limit);
    }
  }

  // ---- The most recently touched

  /** The same history without a limit: every key by its last put or hit, invalidated ones gone,
      evicted ones still there. A get only touches what the cache itself had. */
  function Unbounded(ops: seq<Op>, limit: nat): State
    decreases |ops|
  {
    if ops == [] then EMPTY
    else
      var n := |ops| - 1;
      var u := Unbounded(ops[..n], limit);
      match ops[n]
      case Get(key) => if key.digest in After(ops[..n], limit).graphs then u.Touched(key.digest) else u
      case Put(key, graph) => u.Stored(key, graph)
      case Invalidate(agent) => u.Invalidate(agent)
  }

  ghost predicate IsSuffix(a: seq<Id>, b: seq<Id>) {
    |a| <= |b| && b[|b| - |a|..] == a
  }

  /** The cache is what the unbounded history ends with, contents and keys included. */
  ghost predicate EndOf(s: State, u: State) {
    && IsSuffix(s.order, u.order) && Elements(s.order) == s.graphs.Keys == s.keys.Keys
    && Agrees(s.graphs, u.graphs) && Agrees(s.keys, u.keys)
  }

  ghost predicate Agrees<T(!new)>(some: map<Id, T>, all: map<Id, T>) {
    forall d :: d in some ==> d in all && some[d] == all[d]
  }

  lemma AgreesUpdated<T(!new)>(some: map<Id, T>, all: map<Id, T>, d: Id, x: T)
    requires Agrees(some, all)
    ensures Agrees(some[d := x], all[d := x])
  {
  }

  lemma AgreesThrough<T(!new)>(fewer: map<Id, T>, some: map<Id, T>, all: map<Id, T>)
    requires Agrees(fewer, some) && Agrees(some, all)
    ensures Agrees(fewer, all)
  {
  }

  lemma {:induction false} WithoutConcat(a: seq<Id>, b: seq<Id>, x: Id)
    ensures Without(a + b, x) == Without(a, x) + Without(b, x)
    decreases |b|
  {
    if b == [] {
      assert a + b == a;
    } else {
      var n := |b| - 1;
      assert (a + b)[..|a + b| - 1] == a + b[..n];
      WithoutConcat(a, b[..n], x);
    }
  }

  lemma {:induction false} KeepingConcat(a: seq<Id>, b: seq<Id>, gone: set<Id>)
    ensures Keeping(a + b, gone) == Keeping(a, gone) + Keeping(b, gone)
    decreases |b|
  {
    if b == [] {
      assert a + b == a;
    } else {
      var n := |b| - 1;
      assert (a + b)[..|a + b| - 1] == a + b[..n];
      KeepingConcat(a, b[..n], gone);
    }
  }

  lemma SuffixOf(e: seq<Id>, s: seq<Id>)
    ensures IsSuffix(s, e + s)
  {
  }

  lemma TouchKeepsSuffix(a: seq<Id>, b: seq<Id>, x: Id)
    requires IsSuffix(a, b)
    ensures IsSuffix(Without(a, x) + [x], Without(b, x) + [x])
  {
    var e := b[..|b| - |a|];
    assert b == e + a;
    WithoutConcat(e, a, x);
    assert Without(b, x) + [x] == Without(e, x) + (Without(a, x) + [x]);
    SuffixOf(Without(e, x), Without(a, x) + [x]);
  }

  lemma {:induction false} KeepingAgrees(xs: seq<Id>, g: set<Id>, h: set<Id>)
    requires forall x :: x in xs ==> (x in g <==> x in h)
    ensures Keeping(xs, g) == Keeping(xs, h)
    decreases |xs|
  {
    if xs != [] {
      var n := |xs| - 1;
      KeepingNext(xs, g);
      KeepingNext(xs, h);
      hide Keeping;
      assert xs[n] in xs && forall x :: x in xs[..n] ==> x in xs;
      KeepingAgrees(xs[..n], g, h);
    }
  }

  lemma KeepingNext(xs: seq<Id>, gone: set<Id>)
    requires xs != []
    ensures var n := |xs| - 1; Keeping(xs, gone) == Keeping(xs[..n], gone) + if xs[n] in gone then [] else [xs[n]]
  {
  }

  lemma InvalidateKeepsEnd(s: State, u: State, agent: Option<Id>)
    requires EndOf(s, u)
    ensures EndOf(s.Invalidate(agent), u.Invalidate(agent))
  {
    var e := u.order[..|u.order| - |s.order|];
    assert u.order == e + s.order;
    var gone, all := s.Matching(agent), u.Matching(agent);
    forall x | x in s.order ensures x in gone <==> x in all {
      assert x in Elements(s.order);
    }
    KeepingAgrees(s.order, gone, all);
    KeepingConcat(e, s.order, all);
    SuffixOf(Keeping(e, all), Keeping(s.order, gone));
    assert Elements(Keeping(s.order, gone)) == Elements(s.order) - gone;
  }

  lemma StoredKeepsEnd(s: State, u: State, key: Key, graph: Id, limit: nat)
    requires EndOf(s, u) && s.Consistent(limit)
    ensures EndOf(s.Stored(key, graph), u.Stored(key, graph))
  {
    hide IsSuffix, Without, Agrees, Elements, Distinct;
    TouchKeepsSuffix(s.order, u.order, key.digest);
    AgreesUpdated(s.graphs, u.graphs, key.digest, graph);
    AgreesUpdated(s.keys, u.keys, key.digest, key);
    StoredIsConsistent(s, key, graph, limit);
  }

  lemma SuffixOfSuffix(a: seq<Id>, k: nat, b: seq<Id>)
    requires IsSuffix(a, b) && k <= |a|
    ensures IsSuffix(a[k..], b)
  {
  }

  lemma TrimmedKeepsEnd(s: State, u: State, limit: nat)
    requires EndOf(s, u) && s.Consistent(|s.order|)
    ensures EndOf(s.Trimmed(limit), u)
  {
    hide IsSuffix, Distinct, State.Trimmed, Agrees, Elements;
    TrimmedIsConsistent(s, limit);
    AgreesThrough(s.Trimmed(limit).graphs, s.graphs, u.graphs);
    AgreesThrough(s.Trimmed(limit).keys, s.keys, u.keys);
    SuffixOfSuffix(s.order, if |s.order| > limit then |s.order| - limit else 0, u.order);
  }

  lemma PutKeepsEnd(s: State, u: State, key: Key, graph: Id, limit: nat)
    requires EndOf(s, u) && s.Consistent(limit)
    ensures EndOf(s.Put(key, graph, limit), u.Stored(key, graph))
  {
    hide EndOf, State.Consistent, State.Stored, State.Trimmed;
    StoredKeepsEnd(s, u, key, graph, limit);
    StoredIsConsistent(s, key, graph, limit);
    TrimmedKeepsEnd(s.Stored(key, graph), u.Stored(key, graph), limit);
  }

  /** After any history the cache holds the most recently touched end of what survived, each key
      with the graph last stored for it. */
  lemma {:induction false} HoldsTheMostRecent(ops: seq<Op>, limit: nat)
    ensures EndOf(After(ops, limit), Unbounded(ops, limit))
    decreases |ops|
  {
    if ops != [] {
      var n := |ops| - 1;
      var s, u := After(ops[..n], limit), Unbounded(ops[..n], limit);
      HoldsTheMostRecent(ops[..n], limit);
      AlwaysConsistent(ops[..n], limit);
      match ops[n]
      case Get(key) =>
        if key.digest in s.graphs {
          TouchKeepsSuffix(s.order, u.order, key.digest);
          TouchedIsConsistent(s, key.digest, limit);
        }
      case Put(key, graph) => PutKeepsEnd(s, u, key, graph, limit);
      case Invalidate(agent) => InvalidateKeepsEnd(s, u, agent);
    }
  }

  function Capped(n: nat, limit: nat): nat {
    if n < limit then n else limit
  }

  /** That end is as long as the limit allows. */
  ghost predicate Full(ops: seq<Op>, limit: nat) {
    |After(ops, limit).order| == Capped(|Unbounded(ops, limit).order|, limit)
  }

  /** What survived but is no longer cached. */
  function Lost(ops: seq<Op>, limit: nat): set<Id> {
    Elements(Unbounded(ops, limit).order) - Elements(After(ops, limit).order)
  }

  /** What every history provides for the lemmas below. */
  ghost predicate Paired(s: State, u: State, limit: nat) {
    s.Consistent(limit) && EndOf(s, u) && Distinct(u.order)
  }

  lemma HistoryPairs(ops: seq<Op>, limit: nat)
    ensures Paired(After(ops, limit), Unbounded(ops, limit), limit)
  {
    HoldsTheMostRecent(ops, limit);
    AlwaysConsistent(ops, limit);
    UnboundedIsDistinct(ops, limit);
  }

  lemma LostCount(s: State, u: State, limit: nat)
    requires Paired(s, u, limit)
    ensures Elements(s.order) <= Elements(u.order) && |s.order| <= limit && |s.order| <= |u.order|
    ensures |Elements(u.order) - Elements(s.order)| == |u.order| - |s.order|
  {
    hide Agrees;
    SuffixSplits(s.order, u.order);
    ElementsOfDistinct(s.order);
    ElementsOfDistinct(u.order);
    SplitSet(Elements(s.order), Elements(u.order));
  }

  /** It is as long as it may be exactly when it is at the limit or nothing was lost. */
  lemma FullIff(ops: seq<Op>, limit: nat)
    ensures Full(ops, limit) <==> Lost(ops, limit) == {} || |After(ops, limit).order| == limit
  {
    HistoryPairs(ops, limit);
    hide Paired, After, Unbounded, Elements;
    LostCount(After(ops, limit), Unbounded(ops, limit), limit);
    NoneLost(Lost(ops, limit));
  }

  lemma NoneLost(lost: set<Id>)
    ensures |lost| == 0 <==> lost == {}
  {
  }

  lemma Extended(ops: seq<Op>, op: Op)
    ensures ops + [op] != [] && |ops + [op]| == |ops| + 1 && (ops + [op])[..|ops|] == ops && (ops + [op])[|ops|] == op
  {
  }

  /** No get changes whether the cache is as long as it may be. */
  lemma GetKeepsFull(ops: seq<Op>, key: Key, limit: nat)
    ensures Full(ops + [Get(key)], limit) <==> Full(ops, limit)
  {
    Extended(ops, Get(key));
    HistoryPairs(ops, limit);
    var s, u := After(ops, limit), Unbounded(ops, limit);
    assert After(ops + [Get(key)], limit) == s.Get(key);
    assert Unbounded(ops + [Get(key)], limit) == if key.digest in s.graphs then u.Touched(key.digest) else u;
    hide After, Unbounded, EndOf, State.Consistent, Distinct, State.Touched, Capped;
    if key.digest in s.graphs {
      HitKeepsLengths(s, u, key, limit);
    }
  }

  /** A put leaves it so, and makes it so again when it brings it to the limit or brings back
      the one key that was lost. */
  lemma PutRefills(ops: seq<Op>, key: Key, graph: Id, limit: nat)
    ensures Full(ops + [Put(key, graph)], limit) <==>
      Full(ops, limit) || |After(ops + [Put(key, graph)], limit).order| == limit || Lost(ops, limit) == {key.digest}
  {
    var op, s, u := Put(key, graph), After(ops, limit), Unbounded(ops, limit);
    Extended(ops, op);
    HistoryPairs(ops, limit);
    assert After(ops + [op], limit) == s.Put(key, graph, limit) && Unbounded(ops + [op], limit) == u.Stored(key, graph);
    hide After, Unbounded, Paired, State.Put, State.Stored, Lost;
    PutLengths(s, u, key, graph, limit);
    OneLost(s, u, key.digest, limit);
    LostIs(ops, limit);
  }

  lemma LostIs(ops: seq<Op>, limit: nat)
    ensures Lost(ops, limit) == Elements(Unbounded(ops, limit).order) - Elements(After(ops, limit).order)
  {
  }

  lemma PutLengths(s: State, u: State, key: Key, graph: Id, limit: nat)
    requires Paired(s, u, limit)
    ensures |s.Put(key, graph, limit).order| == if key.digest in s.order then |s.order| else Capped(|s.order| + 1, limit)
    ensures |u.Stored(key, graph).order| == |u.order| + if key.digest in u.order then 0 else 1
    ensures |s.order| <= limit && |s.order| <= |u.order| && (key.digest in s.order ==> key.digest in u.order)
  {
    HeldIsMember(s, u, key.digest);
    LostCount(s, u, limit);
    StoredIsConsistent(s, key, graph, limit);
    TrimmedIsConsistent(s.Stored(key, graph), limit);
    hide Paired, Distinct, Without, State.Trimmed, EndOf, Agrees, Elements;
    MovedToEnd(u.order, key.digest);
  }

  lemma OneLost(s: State, u: State, d: Id, limit: nat)
    requires Paired(s, u, limit)
    ensures Elements(u.order) - Elements(s.order) == {d} <==> d in u.order && d !in s.order && |u.order| == |s.order| + 1
  {
    LostCount(s, u, limit);
    assert d in u.order <==> d in Elements(u.order);
    assert d in s.order <==> d in Elements(s.order);
    hide *;
    Singleton(Elements(u.order) - Elements(s.order), d);
  }

  lemma Singleton(lost: set<Id>, d: Id)
    ensures lost == {d} <==> d in lost && |lost| == 1
  {
    if d in lost && |lost| == 1 {
      SplitSet({d}, lost);
      NoneLost(lost - {d});
    }
  }

  /** What an invalidation would drop from the history covers what it would expose. */
  ghost predicate Harmless(ops: seq<Op>, agent: Option<Id>, limit: nat) {
    || After(ops, limit).Matching(agent) == {}
    || Lost(ops, limit) <= Unbounded(ops, limit).Matching(agent)
  }

  /** An invalidation leaves it as long as it may be exactly when it drops everything that was
      lost, or drops nothing from a cache at its limit. */
  lemma InvalidationLeavesFullIff(ops: seq<Op>, agent: Option<Id>, limit: nat)
    ensures Full(ops + [Invalidate(agent)], limit) <==>
      || Lost(ops, limit) <= Unbounded(ops, limit).Matching(agent)
      || (|After(ops, limit).order| == limit && After(ops, limit).Matching(agent) == {})
    ensures Full(ops, limit) ==> (Full(ops + [Invalidate(agent)], limit) <==> Harmless(ops, agent, limit))
  {
    var op, s, u := Invalidate(agent), After(ops, limit), Unbounded(ops, limit);
    Extended(ops, op);
    HistoryPairs(ops, limit);
    assert After(ops + [op], limit) == s.Invalidate(agent) && Unbounded(ops + [op], limit) == u.Invalidate(agent);
    FullIff(ops, limit);
    FullIff(ops + [op], limit);
    LostIs(ops, limit);
    LostIs(ops + [op], limit);
    hide After, Unbounded, Paired, State.Invalidate, Lost, Full, State.Matching, Elements;
    InvalidatedElements(s, u, agent, limit);
    NoneLost(s.Matching(agent));
  }

  lemma InvalidatedElements(s: State, u: State, agent: Option<Id>, limit: nat)
    requires Paired(s, u, limit)
    ensures Elements(s.Invalidate(agent).order) == Elements(s.order) - s.Matching(agent)
    ensures Elements(u.Invalidate(agent).order) == Elements(u.order) - u.Matching(agent)
    ensures |s.Invalidate(agent).order| == |s.order| - |s.Matching(agent)| && |s.order| <= limit
    ensures Elements(u.Invalidate(agent).order) - Elements(s.Invalidate(agent).order)
         == Elements(u.order) - Elements(s.order) - u.Matching(agent)
  {
    InvalidateIsConsistent(s, agent, limit);
    hide State.Invalidate, Agrees, State.Matching;
    MatchingAgrees(s, u, agent);
    KeptElements(s, agent);
    KeptElements(u, agent);
    LostCount(s, u, limit);
  }

  lemma KeptElements(s: State, agent: Option<Id>)
    ensures Elements(s.Invalidate(agent).order) == Elements(s.order) - s.Matching(agent)
  {
  }

  /** What matches in the cache is what matches in the history and is cached. */
  lemma MatchingAgrees(s: State, u: State, agent: Option<Id>)
    requires EndOf(s, u)
    ensures s.Matching(agent) == u.Matching(agent) * Elements(s.order)
  {
    hide IsSuffix;
  }

  ghost predicate FullThroughout(ops: seq<Op>, limit: nat) {
    forall n {:trigger ops[..n]} :: 0 <= n <= |ops| ==> Full(ops[..n], limit)
  }

  ghost predicate HarmlessAt(ops: seq<Op>, n: nat, limit: nat)
    requires n < |ops|
  {
    ops[n].Invalidate? ==> Harmless(ops[..n], ops[n].agent, limit)
  }

  ghost predicate HarmlessThroughout(ops: seq<Op>, limit: nat) {
    forall n {:trigger HarmlessAt(ops, n, limit)} :: 0 <= n < |ops| ==> HarmlessAt(ops, n, limit)
  }

  /** Throughout a history the cache is as long as it may be exactly when no invalidation in it
      opens a gap: drops something cached, and leaves something evicted before. */
  lemma {:induction false} HoldsAsManyAsItMay(ops: seq<Op>, limit: nat)
    ensures FullThroughout(ops, limit) <==> HarmlessThroughout(ops, limit)
    decreases |ops|
  {
    hide Full, HarmlessAt, HarmlessThroughout, FullThroughout;
    if ops == [] {
      NothingIsFull(limit);
    } else {
      var last := |ops| - 1;
      HoldsAsManyAsItMay(ops[..last], limit);
      SplitHistory(ops, limit);
      if FullThroughout(ops[..last], limit) {
        StepKeepsFull(ops[..last], ops[last], limit);
        assert ops == ops[..last] + [ops[last]];
        HarmlessLast(ops, limit);
      }
    }
  }

  lemma HarmlessLast(ops: seq<Op>, limit: nat)
    requires ops != []
    ensures var last := |ops| - 1;
      HarmlessAt(ops, last, limit) <==> (ops[last].Invalidate? ==> Harmless(ops[..last], ops[last].agent, limit))
  {
  }

  lemma SplitHistory(ops: seq<Op>, limit: nat)
    requires ops != []
    ensures var last := |ops| - 1;
      && (FullThroughout(ops, limit) <==> FullThroughout(ops[..last], limit) && Full(ops, limit))
      && (HarmlessThroughout(ops, limit) <==> HarmlessThroughout(ops[..last], limit) && HarmlessAt(ops, last, limit))
      && (FullThroughout(ops[..last], limit) ==> Full(ops[..last], limit))
  {
    hide Full, Harmless;
    var last := |ops| - 1;
    var front := ops[..last];
    assert ops[..|ops|] == ops && front[..last] == front;
    forall n | 0 <= n <= last ensures front[..n] == ops[..n] {}
    forall n | 0 <= n < last ensures HarmlessAt(front, n, limit) <==> HarmlessAt(ops, n, limit) {
      assert front[..n] == ops[..n];
    }
    if FullThroughout(ops, limit) {
      forall n | 0 <= n <= last ensures Full(front[..n], limit) {
        assert Full(ops[..n], limit);
      }
    }
    if FullThroughout(front, limit) && Full(ops, limit) {
      forall n | 0 <= n <= |ops| ensures Full(ops[..n], limit) {
        assert n <= last ==> Full(front[..n], limit);
      }
    }
  }

  lemma NothingIsFull(limit: nat)
    ensures FullThroughout([], limit) && HarmlessThroughout([], limit)
  {
    var ops: seq<Op> := [];
    assert ops[..0] == [] && Full([], limit);
  }

  lemma StepKeepsFull(ops: seq<Op>, op: Op, limit: nat)
    requires Full(ops, limit)
    ensures Full(ops + [op], limit) <==> (op.Invalidate? ==> Harmless(ops, op.agent, limit))
  {
    hide Full, Harmless;
    match op
    case Get(key) => GetKeepsFull(ops, key, limit);
    case Put(key, graph) => PutRefills(ops, key, graph, limit);
    case Invalidate(agent) => InvalidationLeavesFullIff(ops, agent, limit);
  }

  lemma {:induction false} UnboundedIsDistinct(ops: seq<Op>, limit: nat)
    ensures Distinct(Unbounded(ops, limit).order)
    decreases |ops|
  {
    if ops != [] {
      hide Distinct, Without;
      var n := |ops| - 1;
      UnboundedIsDistinct(ops[..n], limit);
      var u := Unbounded(ops[..n], limit);
      match ops[n]
      case Get(key) => MovedToEnd(u.order, key.digest);
      case Put(key, graph) => MovedToEnd(u.order, key.digest);
      case Invalidate(agent) =>
    } else {
      assert Unbounded(ops, limit).order == [];
    }
  }

  lemma HeldIsMember(s: State, u: State, d: Id)
    requires EndOf(s, u)
    ensures d in s.graphs <==> d in s.order
    ensures d in s.order ==> d in u.order
    ensures |u.order| <= |s.order| ==> u.order == s.order
  {
    assert d in Elements(s.order) <==> d in s.order;
    SuffixSplits(s.order, u.order);
  }

  lemma SuffixSplits(a: seq<Id>, b: seq<Id>)
    requires IsSuffix(a, b)
    ensures |a| <= |b| && b == b[..|b| - |a|] + a
  {
  }

  lemma HitKeepsLengths(s: State, u: State, key: Key, limit: nat)
    requires s.Consistent(limit) && EndOf(s, u) && Distinct(u.order) && key.digest in s.graphs
    ensures |s.Get(key).order| == |s.order| && |u.Touched(key.digest).order| == |u.order|
  {
    HeldIsMember(s, u, key.digest);
    hide Distinct, Without, EndOf;
    MovedToEnd(s.order, key.digest);
    MovedToEnd(u.order, key.digest);
  }

  const ONE := Put(Key("a", "1"), "g")
  const TWO := Put(Key("b", "2"), "g")

  lemma AfterOnePut()
    ensures After([ONE], 1) == Unbounded([ONE], 1) == EMPTY.Stored(ONE.key, "g")
    ensures EMPTY.Stored(ONE.key, "g").order == ["1"]
  {
    assert [ONE][..0] == [];
    var s := EMPTY.Stored(ONE.key, "g");
    assert s.order == ["1"] && s.Trimmed(1) == s;
  }

  lemma AfterTwoPuts()
    ensures After([ONE, TWO], 1).order == ["2"] && Unbounded([ONE, TWO], 1).order == ["1", "2"]
    ensures After([ONE, TWO], 1).Matching(Some("b")) == {"2"} && Unbounded([ONE, TWO], 1).Matching(Some("b")) == {"2"}
  {
    AfterOnePut();
    assert [ONE, TWO][..1] == [ONE];
    hide After, Unbounded;
    var s := EMPTY.Stored(ONE.key, "g");
    var t := s.Stored(TWO.key, "g");
    assert After([ONE, TWO], 1) == t.Trimmed(1) && Unbounded([ONE, TWO], 1) == t by { StepTwo(); }
    assert Without(["1"], "2") == ["1"];
    assert t.order == ["1", "2"];
    assert t.Trimmed(1) == WithoutFirst(t).Trimmed(1) == WithoutFirst(t);
  }

  lemma StepTwo()
    ensures var t := EMPTY.Stored(ONE.key, "g").Stored(TWO.key, "g");
      After([ONE, TWO], 1) == t.Trimmed(1) && Unbounded([ONE, TWO], 1) == t
  {
    AfterOnePut();
    assert [ONE, TWO][..1] == [ONE];
    hide State.Stored, State.Trimmed;
  }

  /** Invalidation leaves a gap: what was evicted before is not brought back to fill it. */
  lemma EvictedKeysStayOut()
    ensures After([ONE, TWO, Invalidate(Some("b"))], 1).order == []
    ensures Unbounded([ONE, TWO, Invalidate(Some("b"))], 1).order == ["1"]
  {
    AfterTwoPuts();
    KeepingOfTwo();
    hide Keeping;
    var ops := [ONE, TWO, Invalidate(Some("b"))];
    assert ops[..2] == [ONE, TWO];
  }

  lemma KeepingOfTwo()
    ensures Keeping(["2"], {"2"}) == [] && Keeping(["1", "2"], {"2"}) == ["1"]
  {
    hide Keeping, Distinct;
    assert ["2"][..0] == [] && ["1", "2"][..1] == ["1"] && ["1"][..0] == [];
    KeepingOfNone({"2"});
    KeepingNext(["2"], {"2"});
    KeepingNext(["1"], {"2"});
    KeepingNext(["1", "2"], {"2"});
  }

  lemma KeepingOfNone(gone: set<Id>)
    ensures Keeping([], gone) == []
  {
  }

  // ---- Counting

  /** Puts over a key that was still cached. */
  function Overwrites(ops: seq<Op>, limit: nat): nat
    decreases |ops|
  {
    if ops == [] then 0
    else
      var n := |ops| - 1;
      Overwrites(ops[..n], limit) +
      if ops[n].Put? && ops[n].key.digest in After(ops[..n], limit).graphs then 1 else 0
  }

  /** Every build is still cached, overwritten, evicted or invalidated; so when puts follow
      misses the size is builds minus evictions minus invalidations. */
  lemma {:induction false} SizeIsAccountedFor(ops: seq<Op>, limit: nat)
    ensures var s := After(ops, limit);
      |s.order| + Overwrites(ops, limit) + s.stats.evictions + s.stats.invalidations == s.stats.builds
    decreases |ops|
  {
    if ops != [] {
      var n := |ops| - 1;
      var s := After(ops[..n], limit);
      SizeIsAccountedFor(ops[..n], limit);
      AlwaysConsistent(ops[..n], limit);
      hide Distinct, Without, Keeping, State.Trimmed;
      match ops[n]
      case Get(key) =>
        if key.digest in s.graphs {
          MovedToEnd(s.order, key.digest);
          assert key.digest in Elements(s.order);
        }
      case Put(key, graph) =>
        StoredIsConsistent(s, key, graph, limit);
        TrimmedIsConsistent(s.Stored(key, graph), limit);
      case Invalidate(agent) => InvalidateIsConsistent(s, agent, limit);
    }
  }

  // ---- The cache itself

  class GraphCache {
    var order: seq<Id>
    var graphs: map<Id, Id>
    var keys: map<Id, Key>
    var stats: Stats
    const maxEntries: nat

    constructor (maxEntries: nat)
      ensures this.maxEntries == maxEntries && View() == EMPTY
    {
      this.maxEntries := maxEntries;
      order, graphs, keys, stats := [], map[], map[], Stats(0, 0, 0, 0, 0);
    }

    ghost function View(): State
      reads this
    {
      State(order, graphs, keys, stats)
    }

    method Get(key: Key) returns (graph: Option<Id>)
      modifies `order, `stats
      ensures View() == old(View()).Get(key)
      ensures graph == if key.digest in graphs then Some(graphs[key.digest]) else None
    {
      if key.digest !in graphs {
        stats := stats.(misses := stats.misses + 1);
        return None;
      }
      order := Without(order, key.digest) + [key.digest];
      stats := stats.(hits := stats.hits + 1);
      graph := Some(graphs[key.digest]);
    }

    method Put(key: Key, graph: Id)
      modifies this
      ensures View() == old(View()).Put(key, graph, maxEntries)
    {
      hide Without;
      graphs := graphs[key.digest := graph];
      keys := keys[key.digest := key];
      order := Without(order, key.digest) + [key.digest];
      stats := stats.(builds := stats.builds + 1);
      assert View() == old(View()).Stored(key, graph);
      EvictOverflow();
    }

    method EvictOverflow()
      modifies this
      ensures View() == old(View()).Trimmed(maxEntries)
    {
      while |order| > maxEntries
        invariant View().Trimmed(maxEntries) == old(View()).Trimmed(maxEntries)
      {
        assert View().Trimmed(maxEntries) == WithoutFirst(View()).Trimmed(maxEntries);
        EvictOne();
      }
    }

    method EvictOne()
      requires order != []
      modifies this
      ensures View() == WithoutFirst(old(View()))
    {
      var evicted := order[0];
      order, graphs, keys := order[1..], graphs - {evicted}, keys - {evicted};
      stats := stats.(evictions := stats.evictions + 1);
    }

    /** Drop what belongs to one agent, or everything; says how many. */
    method Invalidate(agent: Option<Id>) returns (dropped: nat)
      modifies this
      ensures View() == old(View()).Invalidate(agent) && dropped == |old(View()).Matching(agent)|
    {
      hide Keeping, Sorted, Without, Distinct, Elements, Before;
      ghost var s := View();
      var digests := Sorted(set d | d in keys && (agent.None? || keys[d].agent == agent.value));
      KeepingNothing(order);
      SortedElements(s.Matching(agent));
      for k := 0 to |digests|
        invariant order == Keeping(s.order, Elements(digests[..k]))
        invariant graphs == s.graphs - Elements(digests[..k]) && keys == s.keys - Elements(digests[..k])
        invariant stats == s.stats
      {
        ElementsNext(digests, k);
        KeepingOneLess(s.order, Elements(digests[..k]), digests[k]);
        order := Without(order, digests[k]);
        graphs := graphs - {digests[k]};
        keys := keys - {digests[k]};
      }
      assert digests[..|digests|] == digests;
      dropped := |digests|;
      stats := stats.(invalidations := stats.invalidations + dropped);
    }
  }

  lemma ElementsNext(xs: seq<Id>, k: nat)
    requires k < |xs|
    ensures Elements(xs[..k + 1]) == Elements(xs[..k]) + {xs[k]}
  {
    assert xs[..k + 1] == xs[..k] + [xs[k]];
  }

  lemma SortedElements(s: set<Id>)
    ensures Elements(Sorted(s)) == s && Elements(Sorted(s)[..0]) == {}
  {
  }

  lemma {:induction false} KeepingNothing(xs: seq<Id>)
    ensures Keeping(xs, {}) == xs
    decreases |xs|
  {
    hide Keeping, Distinct;
    if xs == [] {
      KeepingOfNone({});
    } else {
      KeepingNext(xs, {});
      KeepingNothing(xs[..|xs| - 1]);
    }
  }

  lemma {:induction false} KeepingOneLess(xs: seq<Id>, gone: set<Id>, x: Id)
    ensures Without(Keeping(xs, gone), x) == Keeping(xs, gone + {x})
    decreases |xs|
  {
    if xs != [] {
      var n := |xs| - 1;
      KeepingOneLess(xs[..n], gone, x);
      if xs[n] !in gone {
        var front := Keeping(xs[..n], gone);
        assert (front + [xs[n]])[..|front + [xs[n]]| - 1] == front;
      }
    }
  }
}
