/** Runtime generations: lease accounting, publication, draining and retirement. */
module Generations {
  import opened Wrappers
  import opened Ordering

  datatype GenerationState = Building | Current | Draining | Retired

  /** One generation as a value: what it reaches, and its outstanding leases with their starts. */
  datatype Gen = Gen(state: GenerationState, instances: set<Id>, starts: map<nat, real>, next: nat)
  {
    predicate Leased() { starts != map[] }

    function Acquired(now: real): Gen {
      this.(starts := starts[next := now], next := next + 1)
    }

    function Released(lease: nat): Gen {
      this.(starts := starts - {lease})
    }
  }

  /** Generations by sequence number; `retired` is the bounded diagnostics buffer. */
  datatype Manager = Manager(
    gens: seq<Gen>,
    current: Option<nat>,
    draining: seq<nat>,
    retired: seq<nat>,
    evicted: nat,
    shuttingDown: bool,
    limit: nat)
  {
    function Live(): set<nat> {
      Elements(draining) + if current.Some? then {current.value} else {}
    }

    /** Instances some live generation reaches. */
    function Reachable(): set<Id> {
      set g, i | g in Live() && g < |gens| && i in gens[g].instances :: i
    }

    function RetiredSet(): set<nat> {
      set g: nat | g < |gens| && gens[g].state == Retired
    }

    /** The buffer holds some of the retired generations, the counter the others. */
    ghost predicate BufferOk() {
      && Distinct(retired) && (forall g :: g in retired ==> g in RetiredSet())
      && |retired| <= limit && |RetiredSet()| == |retired| + evicted
    }

    ghost predicate Sane() {
      && (forall g: nat {:trigger gens[g]} :: g < |gens| ==>
            && (gens[g].state == Current <==> current == Some(g))
            && (gens[g].state == Draining <==> g in draining)
            && (forall l :: l in gens[g].starts ==> l < gens[g].next))
      && (current.Some? ==> current.value < |gens|)
      && Distinct(draining) && (forall g :: g in draining ==> g < |gens|)
      && BufferOk()
      && (!shuttingDown ==> forall g: nat {:trigger gens[g]} :: g < |gens| && gens[g].Leased() ==> g in Live())
    }

    function Built(instances: set<Id>): Manager {
      this.(gens := gens + [Gen(Building, instances, map[], 0)])
    }

    function Published(g: nat): Manager
      requires g < |gens| && gens[g].state == Building && (current.Some? ==> current.value < |gens|)
    {
      var drained := if current.None? then this
        else this.(gens := gens[current.value := gens[current.value].(state := Draining)], draining := draining + [current.value]);
      drained.(gens := drained.gens[g := drained.gens[g].(state := Current)], current := Some(g))
    }

    /** Refused while current, or while leased outside shutdown. */
    predicate Retirable(g: nat)
      requires g < |gens|
    {
      gens[g].state != Retired && gens[g].state != Current && (gens[g].Leased() ==> shuttingDown)
    }

    function Retiring(g: nat): Manager
      requires g < |gens|
    {
      var kept := retired + [g];
      var overflow := if |kept| > limit then |kept| - limit else 0;
      this.(gens := gens[g := gens[g].(state := Retired)],
            draining := Without(draining, g),
            retired := kept[overflow..],
            evicted := evicted + overflow)
    }

    function ShutDown(): Manager
      requires current.Some? ==> current.value < |gens|
    {
      var stopped := this.(shuttingDown := true);
      if current.None? then stopped
      else stopped.(gens := gens[current.value := gens[current.value].(state := Draining)],
                    draining := draining + [current.value],
                    current := None)
    }

    function Acquired(now: real): Manager
      requires current.Some? && current.value < |gens|
    {
      this.(gens := gens[current.value := gens[current.value].Acquired(now)])
    }

    function Released(g: nat, lease: nat): Manager
      requires g < |gens|
    {
      this.(gens := gens[g := gens[g].Released(lease)])
    }

    /** Retire, in draining order, every draining generation without leases. */
    function Swept(waiting: seq<nat>): Manager
      requires forall g :: g in waiting ==> g < |gens|
      decreases |waiting|
    {
      if waiting == [] then this
      else
        var g := waiting[0];
        assert g in waiting && forall h :: h in waiting[1..] ==> h in waiting;
        var next := if Retirable(g) && !gens[g].Leased() then Retiring(g) else this;
        next.Swept(waiting[1..])
    }

    /** How many live generations reach an instance. */
    function RefCount(i: Id): nat {
      |set g | g in Live() && g < |gens| && i in gens[g].instances|
    }
  }

  /** A run leases the current generation under an id not outstanding, and releasing that id leaves
      everything as it was before, the id excepted, which is not given out again. */
  lemma LeaseAndRelease(m: Manager, now: real)
    requires m.Sane() && m.current.Some?
    ensures var c := m.current.value;
      var (id, leased) := (m.gens[c].next, m.Acquired(now));
      && id !in m.gens[c].starts
      && |leased.gens| == |m.gens| && leased.gens[c].starts == m.gens[c].starts[id := now] && leased.gens[c].next > id
      && leased.Released(c, id) == m.(gens := m.gens[c := m.gens[c].(next := leased.gens[c].next)])
  {
    hide Manager.BufferOk;
    var c := m.current.value;
    var id := m.gens[c].next;
    assert m.gens[c].starts[id := now] - {id} == m.gens[c].starts;
    assert m.Acquired(now).Released(c, id).gens == m.gens[c := m.gens[c].(next := m.Acquired(now).gens[c].next)];
  }

  /** Reachable is what the current generation or a draining one holds, and nothing else. */
  lemma ReachableMeans(m: Manager, i: Id)
    ensures i in m.Reachable() <==>
      || (m.current.Some? && m.current.value < |m.gens| && i in m.gens[m.current.value].instances)
      || exists k :: 0 <= k < |m.draining| && m.draining[k] < |m.gens| && i in m.gens[m.draining[k]].instances
  {
    if i in m.Reachable() {
      var g :| g in m.Live() && g < |m.gens| && i in m.gens[g].instances;
    }
    if k :| 0 <= k < |m.draining| && m.draining[k] < |m.gens| && i in m.gens[m.draining[k]].instances {
      assert m.draining[k] in Elements(m.draining) && m.draining[k] in m.Live();
    }
  }

  /** What is reachable only depends on which generations are live, and what those hold. */
  lemma ReachableFrom(m: Manager, n: Manager, more: set<nat>)
    requires m.Live() <= n.Live() <= m.Live() + more
    requires forall g :: g in n.Live() ==> g < |n.gens|
    requires forall g :: g in m.Live() ==> g < |m.gens| && n.gens[g].instances == m.gens[g].instances
    ensures m.Reachable() <= n.Reachable()
    ensures forall i :: i in n.Reachable() - m.Reachable() ==> exists g :: g in more && g < |n.gens| && i in n.gens[g].instances
    ensures forall g, i :: g in n.Live() && i in n.gens[g].instances ==> i in n.Reachable()
  {
    forall i | i in m.Reachable() ensures i in n.Reachable() {
      var g :| g in m.Live() && g < |m.gens| && i in m.gens[g].instances;
      assert i in n.gens[g].instances;
    }
    forall i | i in n.Reachable() - m.Reachable() ensures exists g :: g in more && g < |n.gens| && i in n.gens[g].instances {
      var g :| g in n.Live() && g < |n.gens| && i in n.gens[g].instances;
      assert g in more;
    }
  }

  // ---- What every operation keeps

  lemma BuiltIsSane(m: Manager, instances: set<Id>)
    requires m.Sane()
    ensures m.Built(instances).Sane() && m.Built(instances).Live() == m.Live()
    ensures m.Built(instances).Reachable() == m.Reachable()
  {
    var n := m.Built(instances);
    assert n.RetiredSet() == m.RetiredSet();
    ReachableFrom(m, n, {});
  }

  /** The outgoing generation stays live: publication loses nothing. */
  lemma PublishedIsSane(m: Manager, g: nat)
    requires m.Sane() && g < |m.gens| && m.gens[g].state == Building
    ensures m.Published(g).Sane() && m.Published(g).Live() == m.Live() + {g}
    ensures m.Published(g).Reachable() == m.Reachable() + m.gens[g].instances
  {
    PublishedLive(m, g);
    hide Manager.Sane, Manager.Published;
    ReachableFrom(m, m.Published(g), {g});
  }

  lemma PublishedLive(m: Manager, g: nat)
    requires m.Sane() && g < |m.gens| && m.gens[g].state == Building
    ensures var n := m.Published(g);
      && n.Sane() && n.Live() == m.Live() + {g} && (forall x :: x in n.Live() ==> x < |n.gens|)
      && (forall x :: x in m.Live() ==> x < |m.gens|) && |n.gens| == |m.gens|
      && forall x: nat {:trigger n.gens[x]} :: x < |m.gens| ==> n.gens[x].instances == m.gens[x].instances
  {
    var n := m.Published(g);
    assert n.RetiredSet() == m.RetiredSet();
    if m.current.Some? {
      assert m.gens[m.current.value].state == Current;
      DistinctConcat(m.draining, [m.current.value]);
    }
  }

  lemma RetiringIsSane(m: Manager, g: nat)
    requires m.Sane() && g < |m.gens| && m.Retirable(g)
    ensures m.Retiring(g).Sane() && m.Retiring(g).Live() == m.Live() - {g}
  {
    hide Without, Distinct, Manager.BufferOk;
    RetiringBuffer(m, g);
    var n := m.Retiring(g);
    assert forall x :: x in n.draining <==> x in m.draining && x != g;
    assert n.Live() == m.Live() - {g};
  }

  lemma RetiringBuffer(m: Manager, g: nat)
    requires m.BufferOk() && g < |m.gens| && m.gens[g].state != Retired
    ensures m.Retiring(g).BufferOk()
  {
    hide Without;
    var n := m.Retiring(g);
    assert n.RetiredSet() == m.RetiredSet() + {g};
    BufferOfRetired(m.retired, m.RetiredSet(), g, m.limit);
    hide Manager.RetiredSet, Distinct;
  }

  /** The buffer after one more retirement: a suffix within the limit. */
  lemma BufferOfRetired(retired: seq<nat>, all: set<nat>, g: nat, limit: nat)
    requires Distinct(retired) && (forall x :: x in retired ==> x in all) && g !in all && |retired| <= limit
    ensures var kept := retired + [g];
      var overflow := if |kept| > limit then |kept| - limit else 0;
      && Distinct(kept[overflow..]) && |kept[overflow..]| <= limit && |kept[overflow..]| + overflow == |retired| + 1
      && forall x :: x in kept[overflow..] ==> x in all + {g}
  {
    assert g !in retired;
    DistinctConcat(retired, [g]);
  }

  /** The buffer keeps the newest within its limit, in the order they were retired, and the counter
      counts the others. */
  lemma RetiringKeepsNewest(m: Manager, g: nat) returns (dropped: seq<nat>)
    requires g < |m.gens|
    ensures var n := m.Retiring(g);
      && dropped + n.retired == m.retired + [g] && n.evicted == m.evicted + |dropped|
      && |n.retired| == if |m.retired| + 1 < m.limit then |m.retired| + 1 else m.limit
  {
    var kept := m.retired + [g];
    dropped := kept[..if |kept| > m.limit then |kept| - m.limit else 0];
  }

  /** Publishing, retiring and shutting down move states only: nobody's instances or leases. */
  ghost predicate OnlyStatesMove(m: Manager, n: Manager) {
    |n.gens| == |m.gens| && forall h: nat {:trigger n.gens[h]} :: h < |m.gens| ==>
      n.gens[h].instances == m.gens[h].instances && n.gens[h].starts == m.gens[h].starts && n.gens[h].next == m.gens[h].next
  }

  lemma LeasesStay(m: Manager, g: nat)
    requires m.Sane() && g < |m.gens|
    ensures m.gens[g].state == Building ==> OnlyStatesMove(m, m.Published(g))
    ensures OnlyStatesMove(m, m.Retiring(g)) && OnlyStatesMove(m, m.ShutDown())
    ensures m.ShutDown().shuttingDown && m.ShutDown().current == None && m.ShutDown().draining == m.draining + (if m.current.Some? then [m.current.value] else [])
    ensures m.gens[g].state == Building ==>
      m.Published(g).draining == m.draining + (if m.current.Some? then [m.current.value] else []) && m.Published(g).current == Some(g)
  {
  }

  lemma ShutDownIsSane(m: Manager)
    requires m.Sane()
    ensures m.ShutDown().Sane() && m.ShutDown().Live() == m.Live() && m.ShutDown().Reachable() == m.Reachable()
  {
    assert m.ShutDown().RetiredSet() == m.RetiredSet();
    if m.current.Some? {
      assert m.gens[m.current.value].state == Current;
      DistinctConcat(m.draining, [m.current.value]);
    }
    assert m.ShutDown().Live() == m.Live();
    ReachableFrom(m, m.ShutDown(), {});
  }

  lemma AcquiredIsSane(m: Manager, now: real)
    requires m.Sane() && m.current.Some?
    ensures m.Acquired(now).Sane() && m.Acquired(now).Live() == m.Live() && m.Acquired(now).Reachable() == m.Reachable()
  {
    assert m.Acquired(now).RetiredSet() == m.RetiredSet();
    ReachableFrom(m, m.Acquired(now), {});
  }

  lemma ReleasedIsSane(m: Manager, g: nat, lease: nat)
    requires m.Sane() && g < |m.gens|
    ensures m.Released(g, lease).Sane() && m.Released(g, lease).Live() == m.Live()
    ensures m.Released(g, lease).Reachable() == m.Reachable()
  {
    var n := m.Released(g, lease);
    assert n.RetiredSet() == m.RetiredSet();
    assert n.gens[g].Leased() ==> m.gens[g].Leased() by {
      assert n.gens[g].starts.Keys <= m.gens[g].starts.Keys;
      assert m.gens[g].starts == map[] ==> n.gens[g].starts == map[];
    }
    ReachableFrom(m, n, {});
  }

  lemma SweepOne(m: Manager, g: nat)
    requires m.Sane() && g in m.draining
    ensures g < |m.gens| && (m.Retirable(g) || m.gens[g].Leased())
    ensures var n := if m.gens[g].Leased() then m else m.Retiring(g);
      && n.Sane() && n.Live() == m.Live() - (if m.gens[g].Leased() then {} else {g})
      && (forall h :: h in m.draining && h != g ==> h in n.draining)
      && SameHoldings(m, n) && |n.gens| == |m.gens|
  {
    assert m.gens[g].state == Draining;
    if !m.gens[g].Leased() {
      RetiringIsSane(m, g);
    }
  }

  function Unleased(m: Manager, waiting: seq<nat>): set<nat>
    requires forall g :: g in waiting ==> g < |m.gens|
  {
    set g | g in waiting && !m.gens[g].Leased()
  }

  ghost predicate SameHoldings(m: Manager, n: Manager) {
    && |n.gens| == |m.gens| && n.current == m.current && n.shuttingDown == m.shuttingDown
    && forall g: nat {:trigger n.gens[g]} :: g < |m.gens| ==> n.gens[g].instances == m.gens[g].instances && n.gens[g].starts == m.gens[g].starts
  }

  function SweptFirst(m: Manager, g: nat): Manager
    requires g < |m.gens|
  {
    if m.gens[g].Leased() then m else m.Retiring(g)
  }

  lemma SweptUnfolds(m: Manager, waiting: seq<nat>, g: nat, rest: seq<nat>)
    requires waiting == [g] + rest && m.Sane() && g in m.draining
    requires (forall h :: h in waiting ==> h < |m.gens|) && forall h :: h in rest ==> h < |m.gens|
    ensures g < |m.gens| && SameHoldings(m, SweptFirst(m, g)) && m.Swept(waiting) == SweptFirst(m, g).Swept(rest)
  {
    assert g in waiting;
    SweepOne(m, g);
    hide Manager.Sane, Manager.Retiring;
    assert waiting[1..] == rest && forall h :: h in rest ==> h in waiting;
  }

  lemma UnleasedUnfolds(m: Manager, n: Manager, waiting: seq<nat>, g: nat, rest: seq<nat>)
    requires waiting == [g] + rest && g !in rest && (forall h :: h in waiting ==> h < |m.gens|) && g < |m.gens|
    requires SameHoldings(m, n) && forall h :: h in rest ==> h < |n.gens|
    ensures Unleased(m, waiting) == Unleased(n, rest) + if m.gens[g].Leased() then {} else {g}
  {
    assert forall h :: h in waiting <==> h == g || h in rest;
    assert forall h :: h in rest ==> n.gens[h].Leased() == m.gens[h].Leased();
  }

  /** A sweep retires exactly the draining generations nobody leases. */
  lemma {:induction false} SweptIsSane(m: Manager, waiting: seq<nat>)
    requires m.Sane() && Distinct(waiting) && forall g :: g in waiting ==> g in m.draining && g < |m.gens|
    ensures m.Swept(waiting).Sane() && SameHoldings(m, m.Swept(waiting))
    ensures m.Swept(waiting).Live() == m.Live() - Unleased(m, waiting)
    decreases |waiting|
  {
    hide Manager.Sane, Manager.Live, Manager.Swept, Unleased, Manager.Retiring, Manager.Retirable, Distinct, SameHoldings;
    if waiting == [] {
      SweptNothing(m);
    } else {
      var g, rest := waiting[0], waiting[1..];
      DistinctTail(waiting);
      assert forall h :: h in rest ==> h in waiting;
      SweptUnfolds(m, waiting, g, rest);
      SweepOne(m, g);
      var n := SweptFirst(m, g);
      SweptIsSane(n, rest);
      UnleasedUnfolds(m, n, waiting, g, rest);
      HoldingsChain(m, n, n.Swept(rest));
    }
  }

  lemma SweptNothing(m: Manager)
    ensures m.Swept([]) == m && SameHoldings(m, m) && m.Live() == m.Live() - Unleased(m, [])
  {
  }

  lemma DistinctTail(xs: seq<nat>)
    requires Distinct(xs) && xs != []
    ensures xs == [xs[0]] + xs[1..] && xs[0] in xs && xs[0] !in xs[1..] && Distinct(xs[1..])
  {
  }

  lemma HoldingsChain(a: Manager, b: Manager, c: Manager)
    requires SameHoldings(a, b) && SameHoldings(b, c)
    ensures SameHoldings(a, c)
  {
    forall g: nat | g < |a.gens| ensures c.gens[g].instances == a.gens[g].instances && c.gens[g].starts == a.gens[g].starts {
      assert b.gens[g].instances == a.gens[g].instances;
    }
  }
}
