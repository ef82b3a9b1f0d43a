/** Which instance captured which: a chain of captures is never circular, and what reclaiming
    disposes goes in an order that respects every chain. */
module Bindings {
  import opened Wrappers
  import opened Ordering
  import opened Keys
  import opened Graphs
  import opened Activation
  import opened Identity
  import opened Registry
  import opened Reuse
  import opened Reconcile
  import opened Teardown

  /** Only active instances have registrations, only active ones are captured, and an instance
      captures nothing younger than itself. */
  ghost predicate Bound(t: Tables) {
    && (forall id :: id in t.instances ==> t.instances[id].id == id && id in t.issued)
    && (forall l :: l in t.live ==> l.provider in t.instances && t.instances[l.provider].state == Active)
    && (forall id {:trigger CapturesOk(t, id)} :: id in t.instances ==> CapturesOk(t, id))
    && Acyclic(BoundGraph(t.instances))
  }

  ghost predicate CapturesOk(t: Tables, id: Id)
    requires id in t.instances
  {
    forall c :: c in t.instances[id].resolved ==>
      var p := t.instances[id].resolved[c];
      p in t.issued && (p in t.instances ==> t.instances[p].state == Active)
  }

  lemma NothingIsBound()
    ensures Bound(NO_WORLD.tables)
  {
    var g := BoundGraph(NO_WORLD.tables.instances);
    forall n ensures !OnCycle(g, n) {
      if OnCycle(g, n) {
        CycleHasAnEdge(g, n);
      }
    }
  }

  /** A node nothing points to lies on no cycle. */
  lemma CycleAvoidsSource(g: Graph, h: Graph, x: Id, n: Id)
    requires forall n :: x !in Succ(h, n)
    requires forall n :: n != x ==> Succ(h, n) <= Succ(g, n)
    requires OnCycle(h, n)
    ensures OnCycle(g, n)
  {
    var p :| Joins(h, p, n, n) && |p| > 1;
    var last := |p| - 1;
    assert p[last] in Succ(h, p[last - 1]);
    forall i | 0 <= i < |p| ensures p[i] != x {
      assert i > 0 ==> p[i] in Succ(h, p[i - 1]);
    }
    assert IsPath(g, p);
    assert Joins(g, p, n, n);
  }

  lemma SourceClosesNoCycle(g: Graph, h: Graph, x: Id)
    requires Acyclic(g)
    requires forall n :: x !in Succ(h, n)
    requires forall n :: n != x ==> Succ(h, n) <= Succ(g, n)
    ensures Acyclic(h)
  {
    hide OnCycle;
    forall n ensures !OnCycle(h, n) {
      if OnCycle(h, n) {
        CycleAvoidsSource(g, h, x, n);
      }
    }
  }

  lemma AddedIsBound(t: Tables, i: Instance, offers: set<(Key, Version)>)
    requires Bound(t) && i.id !in t.issued && (i.state == Active || offers == {})
    requires forall c :: c in i.resolved ==> i.resolved[c] in t.instances && t.instances[i.resolved[c]].state == Active
    ensures Bound(t.Added(i, offers))
  {
    var u := t.Added(i, offers);
    forall id | id in u.instances ensures CapturesOk(u, id) {
      assert id != i.id ==> CapturesOk(t, id);
    }
    AddedGraph(t, i, offers);
    hide BoundGraph;
    SourceClosesNoCycle(BoundGraph(t.instances), BoundGraph(u.instances), i.id);
  }

  lemma AddedGraph(t: Tables, i: Instance, offers: set<(Key, Version)>)
    requires Bound(t) && i.id !in t.issued
    requires forall c :: c in i.resolved ==> i.resolved[c] in t.instances
    ensures var h := BoundGraph(t.Added(i, offers).instances);
      && (forall n :: i.id !in Succ(h, n))
      && (forall n :: n != i.id ==> Succ(h, n) <= Succ(BoundGraph(t.instances), n))
  {
    hide Acyclic;
    var h := BoundGraph(t.Added(i, offers).instances);
    forall n ensures i.id !in Succ(h, n) {
      assert n in t.instances ==> CapturesOk(t, n);
    }
    forall n | n != i.id ensures Succ(h, n) <= Succ(BoundGraph(t.instances), n) {
      assert n in t.instances ==> CapturesOk(t, n);
    }
  }

  lemma ForgottenIsBound(t: Tables, id: Id)
    requires Bound(t)
    ensures Bound(t.Forgotten(id)) && t.Forgotten(id).issued == t.issued
  {
    if id in t.instances {
      var u := t.Forgotten(id);
      forall x | x in u.instances ensures CapturesOk(u, x) {
        assert CapturesOk(t, x);
      }
      forall n ensures !OnCycle(BoundGraph(u.instances), n) {
        if OnCycle(BoundGraph(u.instances), n) {
          CycleInLargerGraph(BoundGraph(u.instances), BoundGraph(t.instances), n);
        }
      }
    }
  }

  lemma ClearedIsBound(t: Tables, existing: Option<Instance>)
    requires Bound(t)
    ensures Bound(Cleared(t, existing)) && Cleared(t, existing).issued == t.issued
  {
    hide Bound;
    if existing.Some? {
      ForgottenIsBound(t, existing.value.id);
    }
  }

  /** A mount captures only active instances that are filed already. */
  lemma CapturesActive(t: Tables, ss: seq<Selection>, c: Id)
    requires Bound(t) && c in Captured(t, ss)
    ensures Captured(t, ss)[c] in t.instances && t.instances[Captured(t, ss)[c]].state == Active
  {
    hide Accepts, CapturesOk, Acyclic;
    CapturedFrom(t, ss, c);
  }

  lemma StepIsBound(entry: Entry, ss: seq<Selection>, o: Outcome, p: Progress)
    requires Bound(p.tables) && o.id !in p.tables.issued
    ensures Bound(Step(entry, ss, o, p).tables) && Step(entry, ss, o, p).tables.issued <= p.tables.issued + {o.id}
  {
    hide Bound, IdentityOf, Answers, Captured;
    var cleared := Cleared(p.tables, p.tables.InstanceFor(entry.id));
    ClearedIsBound(p.tables, p.tables.InstanceFor(entry.id));
    forall c | c in Captured(cleared, ss)
      ensures Captured(cleared, ss)[c] in cleared.instances && cleared.instances[Captured(cleared, ss)[c]].state == Active
    {
      CapturesActive(cleared, ss, c);
    }
    var resolved := Captured(cleared, ss);
    AddedIsBound(cleared, Instance(o.id, entry.id, entry.revision, Failed, None, resolved), {});
    var identity := IdentityOf(entry, ss, Answers(p.tables, p.identities, ss));
    AddedIsBound(cleared, Instance(o.id, entry.id, entry.revision, Active, Some(identity), resolved), o.offers);
  }

  /** The ids mounting can have used up by then. */
  function Used(plan: Agenda, outcomes: map<Id, Outcome>, k: nat): set<Id>
    requires k <= |plan.order| && forall e :: e in plan.order ==> e in outcomes
  {
    set d | d in plan.order[..k] :: outcomes[d].id
  }

  lemma StillUnused(plan: Agenda, outcomes: map<Id, Outcome>, issued: set<Id>, k: nat)
    requires k < |plan.order| && Distinct(plan.order) && (forall e :: e in plan.order ==> e in outcomes) && Fresh(outcomes, issued)
    ensures outcomes[plan.order[k]].id !in issued + Used(plan, outcomes, k)
    ensures Used(plan, outcomes, k + 1) == Used(plan, outcomes, k) + {outcomes[plan.order[k]].id}
  {
    assert plan.order[..k + 1] == plan.order[..k] + [plan.order[k]];
    assert plan.order[k] in plan.order && plan.order[k] !in plan.order[..k];
    assert forall d :: d in plan.order[..k] ==> d in plan.order;
  }

  lemma {:induction false} AfterIsBound(plan: Agenda, entries: map<Id, Entry>, outcomes: map<Id, Outcome>, t: Tables, k: nat)
    requires Possible(plan, entries, outcomes, t) && Bound(t) && k <= |plan.order|
    ensures Bound(After(plan, entries, outcomes, t, k).tables)
    ensures After(plan, entries, outcomes, t, k).tables.issued <= t.issued + Used(plan, outcomes, k)
  {
    hide Bound, Step, Fresh, Distinct, Used;
    if k > 0 {
      AfterIsBound(plan, entries, outcomes, t, k - 1);
      StillUnused(plan, outcomes, t.issued, k - 1);
      var p, e := After(plan, entries, outcomes, t, k - 1), plan.order[k - 1];
      if !p.failed && e in entries {
        StepIsBound(entries[e], plan.SelectionsOf(e), outcomes[e], p);
      }
    }
  }

  lemma {:induction false} RolledBackIsBound(t: Tables, mounted: seq<Instance>)
    requires Bound(t)
    ensures Bound(RolledBack(t, mounted)) && RolledBack(t, mounted).issued == t.issued
    decreases |mounted|
  {
    hide Bound, Tables.Forgotten;
    if mounted != [] {
      var n := |mounted| - 1;
      ForgottenIsBound(t, mounted[n].id);
      RolledBackIsBound(t.Forgotten(mounted[n].id), mounted[..n]);
    }
  }

  lemma NextIsBound(w: World, e: Event)
    requires Reconcile.Enabled(w, e) && Bound(w.tables)
    ensures Bound(Reconcile.Next(w, e).tables)
  {
    hide Bound, After, RolledBack, Tables.Forgotten, Possible;
    match e
    case Disposed(id) => ForgottenIsBound(w.tables, id);
    case Reconciled(plan, entries, outcomes) =>
      PossibleMeans(plan, entries, outcomes, w.tables);
      AfterIsBound(plan, entries, outcomes, w.tables, |plan.order|);
      var p := After(plan, entries, outcomes, w.tables, |plan.order|);
      RolledBackIsBound(p.tables, p.mounted);
  }

  lemma PossibleMeans(plan: Agenda, entries: map<Id, Entry>, outcomes: map<Id, Outcome>, t: Tables)
    requires Possible(plan, entries, outcomes, t)
    ensures forall e :: e in plan.order ==> e in outcomes
  {
  }

  /** In every world any sequence of reconciliations and disposals leads to, circular plans
      included, no chain of captures is circular. */
  lemma {:induction false} CapturesNeverCircle(worlds: seq<World>, events: seq<Event>, k: nat)
    requires Reconcile.IsRun(worlds, events) && k < |worlds|
    ensures Bound(worlds[k].tables) && Acyclic(BoundGraph(worlds[k].tables.instances))
  {
    hide Bound, Reconcile.Enabled, Reconcile.Next, Acyclic, BoundGraph;
    if k == 0 {
      NothingIsBound();
    } else {
      CapturesNeverCircle(worlds, events, k - 1);
      assert Reconcile.Follows(worlds, events, k - 1);
      NextIsBound(worlds[k - 1], events[k - 1]);
    }
    BoundMeansAcyclic(worlds[k].tables);
  }

  lemma BoundMeansAcyclic(t: Tables)
    requires Bound(t)
    ensures Acyclic(BoundGraph(t.instances))
  {
  }

  /** So whatever is torn down there, no instance goes before one that captured it. */
  lemma TeardownPutsConsumersFirst(worlds: seq<World>, events: seq<Event>, k: nat, target: set<Id>, i: nat, j: nat)
    requires Reconcile.IsRun(worlds, events) && k < |worlds|
    requires i <= j < |Layers(BoundGraph(worlds[k].tables.instances), target)|
    ensures var g := BoundGraph(worlds[k].tables.instances); Layers(g, target)[i] !in Succ(g, Layers(g, target)[j])
  {
    CapturesNeverCircle(worlds, events, k);
    ConsumersFirst(BoundGraph(worlds[k].tables.instances), target, i, j);
  }

  // ---- Filed instances never change

  /** What is filed under the id in `u`, if anything, is what was in `t`, and so is what it has
      registered. */
  ghost predicate Unaltered(t: Tables, u: Tables, id: Id) {
    && (id in t.issued ==> id in u.issued)
    && (id in u.instances ==> id in t.instances && u.instances[id] == t.instances[id])
    && (id in u.instances ==> forall l: Live :: l.provider == id ==> (l in u.live <==> l in t.live))
  }

  lemma UnalteredThrough(t: Tables, u: Tables, v: Tables, id: Id)
    requires Unaltered(t, u, id) && Unaltered(u, v, id)
    ensures Unaltered(t, v, id)
  {
  }

  lemma ForgettingAltersNothing(t: Tables, id: Id, other: Id)
    ensures Unaltered(t, t.Forgotten(other), id)
  {
  }

  lemma StepAltersNothing(entry: Entry, ss: seq<Selection>, o: Outcome, p: Progress, id: Id)
    requires id != o.id
    ensures Unaltered(p.tables, Step(entry, ss, o, p).tables, id)
  {
    hide IdentityOf, Answers, Captured, Reusable, Tables.InstanceFor;
    var existing := p.tables.InstanceFor(entry.id);
    if existing.Some? {
      ForgettingAltersNothing(p.tables, id, existing.value.id);
    }
  }

  lemma {:induction false} AfterAltersNothing(plan: Agenda, entries: map<Id, Entry>, outcomes: map<Id, Outcome>, t: Tables, k: nat, id: Id)
    requires (forall e :: e in plan.order ==> e in outcomes) && k <= |plan.order|
    requires forall e :: e in outcomes ==> outcomes[e].id != id
    ensures Unaltered(t, After(plan, entries, outcomes, t, k).tables, id)
  {
    hide Step, Unaltered;
    if k == 0 {
      NothingAltered(t, id);
    } else {
      AfterAltersNothing(plan, entries, outcomes, t, k - 1, id);
      var p, e := After(plan, entries, outcomes, t, k - 1), plan.order[k - 1];
      if !p.failed && e in entries {
        StepAltersNothing(entries[e], plan.SelectionsOf(e), outcomes[e], p, id);
        UnalteredThrough(t, p.tables, Step(entries[e], plan.SelectionsOf(e), outcomes[e], p).tables, id);
      }
    }
  }

  lemma NothingAltered(t: Tables, id: Id)
    ensures Unaltered(t, t, id)
  {
  }

  lemma {:induction false} RollingBackAltersNothing(t: Tables, mounted: seq<Instance>, id: Id)
    ensures Unaltered(t, RolledBack(t, mounted), id)
    decreases |mounted|
  {
    hide Unaltered, Tables.Forgotten;
    if mounted == [] {
      NothingAltered(t, id);
    } else {
      var n := |mounted| - 1;
      ForgettingAltersNothing(t, id, mounted[n].id);
      RollingBackAltersNothing(t.Forgotten(mounted[n].id), mounted[..n], id);
      UnalteredThrough(t, t.Forgotten(mounted[n].id), RolledBack(t, mounted), id);
    }
  }

  lemma NextAltersNothing(w: World, e: Event, id: Id)
    requires Reconcile.Enabled(w, e) && id in w.tables.issued
    ensures Unaltered(w.tables, Reconcile.Next(w, e).tables, id)
  {
    hide Unaltered, After, RolledBack, Tables.Forgotten, Distinct, Installed;
    match e
    case Disposed(other) => ForgettingAltersNothing(w.tables, id, other);
    case Reconciled(plan, entries, outcomes) =>
      AfterAltersNothing(plan, entries, outcomes, w.tables, |plan.order|, id);
      var p := After(plan, entries, outcomes, w.tables, |plan.order|);
      RollingBackAltersNothing(p.tables, p.mounted, id);
      UnalteredThrough(w.tables, p.tables, RolledBack(p.tables, p.mounted), id);
  }

  /** An instance is filed once, and stays as it is with what it registered until it is disposed
      of, whatever happens to others. */
  lemma {:induction false} FiledInstancesStay(worlds: seq<World>, events: seq<Event>, k: nat, m: nat, id: Id)
    requires Reconcile.IsRun(worlds, events) && k <= m < |worlds| && id in worlds[k].tables.issued
    ensures Unaltered(worlds[k].tables, worlds[m].tables, id) && id in worlds[m].tables.issued
    decreases m
  {
    hide Reconcile.Enabled, Reconcile.Next;
    if k < m {
      FiledInstancesStay(worlds, events, k, m - 1, id);
      assert Reconcile.Follows(worlds, events, m - 1);
      NextAltersNothing(worlds[m - 1], events[m - 1], id);
    }
  }

  // ---- What a failure leaves

  lemma ReconciledTables(worlds: seq<World>, events: seq<Event>, k: nat)
    requires Reconcile.IsRun(worlds, events) && k < |events| && events[k].Reconciled?
    ensures |worlds| == |events| + 1
    ensures var e := events[k]; Possible(e.plan, e.entries, e.outcomes, worlds[k].tables)
    ensures forall d :: d in events[k].plan.order ==> d in events[k].outcomes
    ensures var (e, p) := (events[k], After(events[k].plan, events[k].entries, events[k].outcomes, worlds[k].tables, |events[k].plan.order|));
      worlds[k + 1].tables == if p.failed then RolledBack(p.tables, p.mounted) else p.tables
  {
    assert Reconcile.Follows(worlds, events, k);
    hide After, RolledBack, Fresh, Distinct, Installed;
  }

  lemma EventIsOrdered(events: seq<Event>, k: nat)
    requires k < |events| && forall e :: e in events ==> Ordered(e)
    ensures events[k].Reconciled? ==> ProvidersFirst(events[k].plan)
  {
    hide ProvidersFirst;
    assert Ordered(events[k]);
  }

  lemma RunIsConsistent(worlds: seq<World>, events: seq<Event>, k: nat)
    requires Reconcile.IsRun(worlds, events) && k < |worlds| && forall e :: e in events ==> Ordered(e)
    ensures Consistent(worlds[k].tables)
  {
    EveryGenerationIsClosed(worlds, events, k);
  }

  lemma LegalWhenOrdered(plan: Agenda, entries: map<Id, Entry>, outcomes: map<Id, Outcome>, t: Tables)
    requires Possible(plan, entries, outcomes, t) && ProvidersFirst(plan) && Consistent(t)
    ensures Legal(plan, entries, outcomes, t)
  {
    hide ProvidersFirst, Consistent, Fresh, Installed;
  }

  /** A failed reconciliation leaves exactly the registrations it found. */
  lemma FailureRestoresRegistrations(worlds: seq<World>, events: seq<Event>, k: nat)
    requires Reconcile.IsRun(worlds, events) && (forall e :: e in events ==> Ordered(e)) && k < |events| && events[k].Reconciled?
    requires forall d :: d in events[k].plan.order ==> d in events[k].outcomes
    requires After(events[k].plan, events[k].entries, events[k].outcomes, worlds[k].tables, |events[k].plan.order|).failed
    ensures worlds[k + 1].tables.live == worlds[k].tables.live
  {
    hide *;
    ReconciledTables(worlds, events, k);
    var e, t, u := events[k], worlds[k].tables, worlds[k + 1].tables;
    var p := After(e.plan, e.entries, e.outcomes, t, |e.plan.order|);
    EventIsOrdered(events, k);
    RunIsConsistent(worlds, events, k);
    LegalWhenOrdered(e.plan, e.entries, e.outcomes, t);
    FailureRestoresActive(e.plan, e.entries, e.outcomes, t);
    CapturesNeverCircle(worlds, events, k);
    CapturesNeverCircle(worlds, events, k + 1);
    forall l: Live ensures l in u.live <==> l in t.live {
      if l in t.live {
        LiveIsActive(t, l);
        ActiveInBoth(t, u, l.provider);
        FiledInstancesStay(worlds, events, k, k + 1, l.provider);
        RegisteredAlike(t, u, l);
      }
      if l in u.live {
        LiveIsActive(u, l);
        ActiveInBoth(u, t, l.provider);
        FiledInstancesStay(worlds, events, k, k + 1, l.provider);
        RegisteredAlike(t, u, l);
      }
    }
  }

  lemma ActiveInBoth(t: Tables, u: Tables, id: Id)
    requires Bound(u) && Bound(t) && ActiveSet(u) == ActiveSet(t)
    requires id in t.instances && t.instances[id].state == Active
    ensures id in u.instances && id in t.issued && id in u.issued
  {
    var i := t.instances[id];
    assert i in ActiveSet(t) && i.id == id;
    var x :| x in u.instances && u.instances[x] == i;
    hide Acyclic, CapturesOk;
  }

  lemma RegisteredAlike(t: Tables, u: Tables, l: Live)
    requires Unaltered(t, u, l.provider) && l.provider in u.instances
    ensures l in u.live <==> l in t.live
  {
  }

  lemma LiveIsActive(t: Tables, l: Live)
    requires Bound(t) && l in t.live
    ensures l.provider in t.instances && t.instances[l.provider].state == Active
  {
  }

  // ---- Consumers go before every provider that was selected for them

  /** Whatever an orderly run mounted for an entry is, as long as both are filed and whatever is
      torn down, disposed of before the instance that served one of the entry's selections. */
  lemma SelectedProvidersGoLast(worlds: seq<World>, events: seq<Event>, k: nat, m: nat, i: Instance, n: nat, id: Id, target: set<Id>)
    requires Reconcile.IsRun(worlds, events) && (forall e :: e in events ==> Ordered(e)) && k < |events| && events[k].Reconciled?
    requires forall d :: d in events[k].plan.order ==> d in events[k].outcomes
    requires var e := events[k]; var p := After(e.plan, e.entries, e.outcomes, worlds[k].tables, |e.plan.order|);
      !p.failed && i in p.mounted
    requires var ss := events[k].plan.SelectionsOf(i.entry);
      NamesDiffer(ss) && n < |ss| && Serving(worlds[k + 1].tables, ss[n], id)
    requires k < m < |worlds| && i.id in target && id in target
    requires i.id in worlds[m].tables.instances && id in worlds[m].tables.instances
    ensures var order := Layers(BoundGraph(worlds[m].tables.instances), target);
      i.id in order && id in order && Position(order, i.id) < Position(order, id)
  {
    hide *;
    var e, t, u := events[k], worlds[k].tables, worlds[m].tables;
    ReconciledTables(worlds, events, k);
    EventIsOrdered(events, k);
    RunIsConsistent(worlds, events, k);
    LegalWhenOrdered(e.plan, e.entries, e.outcomes, t);
    var p := After(e.plan, e.entries, e.outcomes, t, |e.plan.order|);
    MountsCaptureServed(e.plan, e.entries, e.outcomes, t, |e.plan.order|);
    OnlyMountsAfter(e.plan, e.entries, e.outcomes, t, |e.plan.order|);
    MountedIsFiled(t, p, i);
    FiledInstancesStay(worlds, events, k + 1, m, i.id);
    CapturedAsServed(p.tables, e.plan.SelectionsOf(i.entry), i, n, id);
    StaysBound(p.tables, u, i, e.plan.SelectionsOf(i.entry)[n].requirement.name, id);
    CapturesNeverCircle(worlds, events, m);
    EdgeOrders(BoundGraph(u.instances), target, i.id, id);
  }

  lemma MountedIsFiled(t: Tables, p: Progress, i: Instance)
    requires OnlyMounts(t, p) && i in p.mounted
    ensures i.id in p.tables.instances && p.tables.instances[i.id] == i && i.id in p.tables.issued
  {
    assert i in Elements(p.mounted) && i in ActiveSet(p.tables);
    var x :| x in p.tables.instances && p.tables.instances[x] == i;
    assert InstanceOk(p.tables, x);
  }

  lemma CapturedAsServed(t: Tables, ss: seq<Selection>, i: Instance, n: nat, id: Id)
    requires CapturesServed(t, ss, i) && NamesDiffer(ss) && n < |ss| && Serving(t, ss[n], id)
    ensures ss[n].requirement.name in i.resolved && i.resolved[ss[n].requirement.name] == id
  {
    hide Serving;
  }

  lemma StaysBound(t: Tables, u: Tables, i: Instance, c: Id, id: Id)
    requires Unaltered(t, u, i.id) && i.id in t.instances && t.instances[i.id] == i
    requires c in i.resolved && i.resolved[c] == id && i.id in u.instances && id in u.instances
    ensures id in Succ(BoundGraph(u.instances), i.id)
  {
  }

  lemma EdgeOrders(g: Graph, target: set<Id>, a: Id, b: Id)
    requires Acyclic(g) && a in target && b in target && b in Succ(g, a)
    ensures a in Layers(g, target) && b in Layers(g, target)
    ensures Position(Layers(g, target), a) < Position(Layers(g, target), b)
  {
    hide Acyclic, Layers, Succ;
    var order := Layers(g, target);
    assert a in Elements(order) && b in Elements(order);
    var x, y := Position(order, a), Position(order, b);
    if y <= x {
      ConsumersFirst(g, target, y, x);
    }
  }
}
