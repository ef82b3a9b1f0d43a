/** The control plane with its registry: the step machine of `Lifecycle`, where each step of the
    lock holder is one of the reconciliation's loops on the tables, and what leased generations
    are bound to. */
module Control {
  import opened Wrappers
  import opened Ordering
  import opened Keys
  import opened Graphs
  import opened Identity
  import opened Registry
  import opened Reuse
  import opened Activation
  import opened Teardown
  import opened Generations
  import opened Bindings
  import Reconcile
  import L = Lifecycle

  /** How far the lock holder got with the plan at hand; `cleared` once the failed instance of the
      next entry was disposed. */
  datatype Job =
    | Nothing
    | Work(plan: Agenda, entries: map<Id, Entry>, outcomes: map<Id, Outcome>, start: Tables, k: nat, cleared: bool)
  {
    ghost predicate Valid() {
      Work? && Legal(plan, entries, outcomes, start) && k <= |plan.order| && (cleared ==> k < |plan.order|)
    }

    ghost function Done(): Progress
      requires Valid()
    {
      After(plan, entries, outcomes, start, k)
    }

    ghost predicate AtEntry() {
      Valid() && k < |plan.order|
    }

    ghost function Current(): Entry
      requires AtEntry()
    {
      assert plan.order[k] in plan.order;
      entries[plan.order[k]]
    }

    ghost function Selections(): seq<Selection>
      requires AtEntry()
    {
      plan.SelectionsOf(plan.order[k])
    }

    ghost function Setup(): Outcome
      requires AtEntry()
    {
      assert plan.order[k] in plan.order;
      outcomes[plan.order[k]]
    }

    ghost function Existing(): Option<Instance>
      requires AtEntry()
    {
      Done().tables.InstanceFor(plan.order[k])
    }

    ghost predicate Reuses()
      requires AtEntry()
    {
      Reusable(Existing(), Current().revision, Identified(Current(), Selections(), Done()))
    }

    ghost predicate MustClear()
      requires AtEntry()
    {
      !Reuses() && Existing().Some? && Existing().value.state == Failed && !cleared
    }
  }

  /** `gens` are the instances of each generation the manager knows by number. */
  datatype Plane = Plane(s: L.System, tables: Tables, gens: seq<seq<Instance>>, job: Job)

  datatype Step =
    | Acquire(now: real)
    | Release(gen: nat, lease: nat)
    | Begin(plan: Agenda, entries: map<Id, Entry>, outcomes: map<Id, Outcome>)
    | Keep
    | Clear
    | Mount
    | Abort
    | RollBackOne
    | RollBackDone
    | Publish
    | KeepCurrent
    | Reclaim(desired: set<Id>)
    | DisposeOne
    | ReclaimDone

  function Initial(limit: nat): Plane {
    Plane(L.Initial(limit), Tables(map[], map[], {}, {}), [], Nothing)
  }

  /** What a reclaim disposes: active instances no live generation reaches once the idle ones are
      retired, and failed ones of entries that are gone. */
  ghost function Doomed(p: Plane, desired: set<Id>): set<Id>
    requires forall g :: g in p.s.m.draining ==> g < |p.s.m.gens|
  {
    var kept := p.s.m.Swept(p.s.m.draining).Reachable();
    set id | id in p.tables.instances &&
      ((p.tables.instances[id].state == Active && id !in kept)
       || (p.tables.instances[id].state == Failed && p.tables.instances[id].entry !in desired))
  }

  ghost predicate Enabled(p: Plane, e: Step) {
    match e
    case Acquire(_) => p.s.m.current.Some? && p.s.m.current.value < |p.s.m.gens|
    case Release(g, l) => g < |p.s.m.gens| && l in p.s.m.gens[g].starts
    case Begin(plan, entries, outcomes) => p.s.pc.Idle? && Legal(plan, entries, outcomes, p.tables)
    case Keep => p.s.pc.Mounting? && p.job.AtEntry() && p.job.Reuses()
    case Clear => p.s.pc.Mounting? && p.job.AtEntry() && p.job.MustClear()
    case Mount => p.s.pc.Mounting? && p.job.AtEntry() && !p.job.Reuses() && !p.job.MustClear()
    case Abort => p.s.pc.Mounting?
    case RollBackOne => p.s.pc.RollingBack? && p.s.pc.rest != []
    case RollBackDone => p.s.pc.RollingBack? && p.s.pc.rest == []
    case Publish => p.s.pc.Mounting? && p.job.Valid() && p.job.k == |p.job.plan.order|
    case KeepCurrent =>
      && p.s.pc.Mounting? && p.job.Valid() && p.job.k == |p.job.plan.order|
      && p.s.m.current.Some? && p.s.m.current.value < |p.s.m.gens|
      && p.s.m.gens[p.s.m.current.value].instances == Elements(p.s.pc.ordered)
    case Reclaim(_) => (p.s.pc.Idle? || p.s.pc.Published?) && forall g :: g in p.s.m.draining ==> g < |p.s.m.gens|
    case DisposeOne => p.s.pc.Reclaiming? && p.s.pc.doomed != []
    case ReclaimDone => p.s.pc.Reclaiming? && p.s.pc.doomed == []
  }

  /** The step of the control plane it is. */
  ghost function Abstract(p: Plane, e: Step): L.Step
    requires Enabled(p, e)
  {
    match e
    case Acquire(now) => L.Acquire(now)
    case Release(g, l) => L.Release(g, l)
    case Begin(_, _, _) => L.Begin
    case Keep => L.Keep(p.job.Existing().value.id)
    case Clear => L.Retry(p.job.Existing().value.id)
    case Mount => if p.job.Setup().ok then L.Mount(p.job.Setup().id) else L.SetupFails(p.job.Setup().id)
    case Abort => L.Abort
    case RollBackOne => L.RollBackOne
    case RollBackDone => L.RollBackDone
    case Publish => L.Publish
    case KeepCurrent => L.KeepCurrent
    case Reclaim(desired) => L.Reclaim(Layers(BoundGraph(p.tables.instances), Doomed(p, desired)))
    case DisposeOne => L.DisposeOne
    case ReclaimDone => L.ReclaimDone
  }

  ghost function TablesAfter(p: Plane, e: Step): Tables
    requires Enabled(p, e)
  {
    match e
    case Clear => p.tables.Forgotten(p.job.Existing().value.id)
    case Mount => Reuse.Step(p.job.Current(), p.job.Selections(), p.job.Setup(), p.job.Done()).tables
    case RollBackOne => p.tables.Forgotten(p.s.pc.rest[|p.s.pc.rest| - 1])
    case DisposeOne => p.tables.Forgotten(p.s.pc.doomed[0])
    case _ => p.tables
  }

  ghost function JobAfter(p: Plane, e: Step): Job
    requires Enabled(p, e)
  {
    match e
    case Begin(plan, entries, outcomes) => Work(plan, entries, outcomes, p.tables, 0, false)
    case Keep => p.job.(k := p.job.k + 1, cleared := false)
    case Clear => p.job.(cleared := true)
    case Mount => p.job.(k := p.job.k + 1, cleared := false)
    case _ => p.job
  }

  ghost function Next(p: Plane, e: Step): Plane
    requires Enabled(p, e)
  {
    Plane(if L.Enabled(p.s, Abstract(p, e)) then L.Next(p.s, Abstract(p, e)) else p.s,
          TablesAfter(p, e),
          if e.Publish? then p.gens + [p.job.Done().ordered] else p.gens,
          JobAfter(p, e))
  }

  // ---- What links the two

  function Ids(instances: seq<Instance>): (r: seq<Id>)
    ensures |r| == |instances| && forall k :: 0 <= k < |r| ==> r[k] == instances[k].id
  {
    seq(|instances|, k requires 0 <= k < |instances| => instances[k].id)
  }

  function InState(t: Tables, state: PluginState): set<Id> {
    set id | id in t.instances && t.instances[id].state == state
  }

  ghost predicate Linked(p: Plane) {
    p.s.active == InState(p.tables, Active) && p.s.failed == InState(p.tables, Failed) && p.s.seen == p.tables.issued
  }

  /** The tables file these instances, as they are, and active. */
  ghost predicate Holds(t: Tables, instances: seq<Instance>) {
    forall i :: i in instances ==> i.id in t.instances && t.instances[i.id] == i && i.state == Active
  }

  ghost predicate JobOk(p: Plane) {
    p.s.pc.Mounting? ==>
      && p.job.Valid() && !p.job.Done().failed
      && p.s.pc.mounted == Ids(p.job.Done().mounted) && p.s.pc.ordered == Ids(p.job.Done().ordered)
      && p.tables == (if p.job.cleared then Cleared(p.job.Done().tables, p.job.Existing()) else p.job.Done().tables)
      && Holds(p.tables, p.job.Done().ordered)
  }

  ghost predicate GenOk(p: Plane, g: nat)
    requires g < |p.gens| == |p.s.m.gens|
  {
    && p.s.m.gens[g].instances == Elements(Ids(p.gens[g])) && BindingClosed(p.gens[g])
    && (g in p.s.m.Live() ==> Holds(p.tables, p.gens[g]))
  }

  ghost predicate GensOk(p: Plane) {
    |p.gens| == |p.s.m.gens| && forall g: nat {:trigger GenOk(p, g)} :: g < |p.gens| ==> GenOk(p, g)
  }

  ghost predicate Inv(p: Plane) {
    L.Inv(p.s) && Linked(p) && Consistent(p.tables) && Bound(p.tables) && JobOk(p) && GensOk(p)
  }

  // ---- The tables

  lemma AddedStates(t: Tables, i: Instance, offers: set<(Key, Version)>, state: PluginState)
    requires i.id !in t.instances
    ensures InState(t.Added(i, offers), state) == InState(t, state) + if i.state == state then {i.id} else {}
  {
  }

  lemma ForgottenStates(t: Tables, id: Id, state: PluginState)
    ensures InState(t.Forgotten(id), state) == InState(t, state) - {id} && t.Forgotten(id).issued == t.issued
  {
  }

  lemma AddedHolds(t: Tables, i: Instance, offers: set<(Key, Version)>, instances: seq<Instance>)
    requires i.id !in t.instances && Holds(t, instances)
    ensures Holds(t.Added(i, offers), instances)
  {
  }

  lemma ForgottenHolds(t: Tables, id: Id, instances: seq<Instance>)
    requires Holds(t, instances) && id !in Ids(instances)
    ensures Holds(t.Forgotten(id), instances)
  {
    forall i | i in instances ensures i.id != id {
      var k :| 0 <= k < |instances| && instances[k] == i;
      assert Ids(instances)[k] in Ids(instances);
    }
  }

  lemma HoldsIds(t: Tables, instances: seq<Instance>)
    requires Holds(t, instances)
    ensures Elements(Ids(instances)) <= InState(t, Active)
  {
    forall id | id in Ids(instances) ensures id in InState(t, Active) {
      var k :| 0 <= k < |instances| && Ids(instances)[k] == id;
      assert instances[k] in instances;
    }
  }

  // ---- The generations

  /** What a step of the manager other than publication may do. */
  ghost predicate Shrinks(m: Manager, n: Manager) {
    && |n.gens| == |m.gens| && n.Live() <= m.Live()
    && forall g: nat {:trigger n.gens[g]} :: g < |m.gens| ==> n.gens[g].instances == m.gens[g].instances
  }

  lemma ManagerShrinks(s: L.System, e: L.Step)
    requires L.Inv(s) && L.Enabled(s, e) && !e.Publish?
    ensures Shrinks(s.m, L.Next(s, e).m)
  {
    match e
    case Acquire(now) => AcquiredIsSane(s.m, now);
    case Release(g, l) => ReleasedIsSane(s.m, g, l);
    case Reclaim(_) => SweptIsSane(s.m, s.m.draining);
    case _ =>
  }

  lemma LiveIsReachable(p: Plane, g: nat)
    requires GensOk(p) && g < |p.gens| && g in p.s.m.Live()
    ensures Elements(Ids(p.gens[g])) <= p.s.m.Reachable()
  {
    assert GenOk(p, g);
  }

  /** Unless a live generation reaches what goes, every generation stays as it is. */
  lemma GensStay(p: Plane, q: Plane, gone: set<Id>)
    requires GensOk(p) && q.gens == p.gens && Shrinks(p.s.m, q.s.m) && gone !! p.s.m.Reachable()
    requires forall id :: id in p.tables.instances && id !in gone ==>
      id in q.tables.instances && q.tables.instances[id] == p.tables.instances[id]
    ensures GensOk(q)
  {
    hide BindingClosed, Manager.Reachable, Manager.Live;
    forall g: nat | g < |q.gens| ensures GenOk(q, g) {
      assert GenOk(p, g);
      if g in q.s.m.Live() {
        LiveIsReachable(p, g);
        HeldOutside(p.tables, q.tables, p.gens[g], gone);
      }
    }
  }

  lemma HeldOutside(t: Tables, u: Tables, instances: seq<Instance>, gone: set<Id>)
    requires Holds(t, instances) && Elements(Ids(instances)) !! gone
    requires forall id :: id in t.instances && id !in gone ==> id in u.instances && u.instances[id] == t.instances[id]
    ensures Holds(u, instances)
  {
    forall i | i in instances ensures i.id !in gone {
      var k :| 0 <= k < |instances| && instances[k] == i;
      assert Ids(instances)[k] in Elements(Ids(instances));
    }
  }

  // ---- The steps that leave the tables alone

  lemma LeasingKeepsInv(p: Plane, e: Step)
    requires Inv(p) && Enabled(p, e) && (e.Acquire? || e.Release?)
    ensures L.Enabled(p.s, Abstract(p, e)) && Inv(Next(p, e))
  {
    var a := Abstract(p, e);
    L.LeasingKeepsInv(p.s, a);
    ManagerShrinks(p.s, a);
    hide L.Inv, Consistent, Bound, Shrinks, GensOk, Manager.Reachable;
    assert JobOk(Next(p, e));
    GensStay(p, Next(p, e), {});
  }

  lemma BeginKeepsInv(p: Plane, e: Step)
    requires Inv(p) && Enabled(p, e) && e.Begin?
    ensures L.Enabled(p.s, Abstract(p, e)) && Inv(Next(p, e))
  {
    var a := Abstract(p, e);
    L.NextKeepsInv(p.s, a);
    ManagerShrinks(p.s, a);
    hide L.Inv, Bound, Shrinks, GensOk, Manager.Reachable, Legal, Consistent;
    GensStay(p, Next(p, e), {});
  }

  lemma IdleEnabled(p: Plane, e: Step)
    requires L.Inv(p.s) && Linked(p) && JobOk(p) && Enabled(p, e) && (e.Abort? || e.RollBackDone? || e.ReclaimDone? || e.KeepCurrent?)
    ensures L.Enabled(p.s, Abstract(p, e)) && TablesAfter(p, e) == p.tables
    ensures JobOk(Next(p, e)) && Linked(Next(p, e))
  {
    hide Job.Done, Job.Valid, Holds, InState, Manager.Reachable, Manager.Sane, L.InHand, Cleared;
  }

  lemma IdleKeepsInv(p: Plane, e: Step)
    requires Inv(p) && Enabled(p, e) && (e.Abort? || e.RollBackDone? || e.ReclaimDone? || e.KeepCurrent?)
    ensures L.Enabled(p.s, Abstract(p, e)) && Inv(Next(p, e))
  {
    hide *;
    InvParts(p);
    IdleEnabled(p, e);
    NextParts(p, e);
    L.NextKeepsInv(p.s, Abstract(p, e));
    NoPublish(p, e);
    ManagerShrinks(p.s, Abstract(p, e));
    GensStay(p, Next(p, e), {});
    InvFrom(Next(p, e));
  }

  // ---- One entry of the plan

  lemma EntryFacts(j: Job)
    requires j.AtEntry() && !j.Done().failed
    ensures Consistent(j.Done().tables) && j.Setup().id !in j.Done().tables.issued
    ensures Ready(j.start, j.outcomes, j.Current(), j.Selections(), j.Done(), j.plan.order[..j.k])
    ensures j.Current().id == j.plan.order[j.k] && j.outcomes[j.Current().id] == j.Setup()
    ensures After(j.plan, j.entries, j.outcomes, j.start, j.k + 1) == Reuse.Step(j.Current(), j.Selections(), j.Setup(), j.Done())
  {
    hide Reuse.Step, ProvidersFirst, Fresh, Consistent, Installed, Sound, Decided, After;
    Reconcile.BeforeEntry(j.plan, j.entries, j.outcomes, j.start, j.k);
    Progressed(j.plan, j.entries, j.outcomes, j.start, j.k);
    LegalAt(j.plan, j.entries, j.outcomes, j.start, j.k + 1);
  }

  lemma ExistingFacts(j: Job)
    requires j.AtEntry() && !j.Done().failed && j.Existing().Some?
    ensures var i := j.Existing().value; i.id in j.Done().tables.instances && j.Done().tables.instances[i.id] == i
  {
    EntryFacts(j);
    hide Consistent, Job.Done, Ready;
    InstanceForFacts(j.Done().tables, j.plan.order[j.k]);
  }

  lemma KeepMoves(j: Job)
    requires j.AtEntry() && !j.Done().failed && j.Reuses()
    ensures var n := j.(k := j.k + 1, cleared := false);
      && n.Valid() && !n.Done().failed && n.Done().tables == j.Done().tables && n.Done().mounted == j.Done().mounted
      && n.Done().ordered == j.Done().ordered + [j.Existing().value]
  {
    EntryFacts(j);
    hide Legal, After, Ready, Consistent, IdentityOf;
  }

  lemma InvParts(p: Plane)
    requires Inv(p)
    ensures L.Inv(p.s) && Linked(p) && Consistent(p.tables) && Bound(p.tables) && JobOk(p) && GensOk(p)
  {
  }

  lemma InvFrom(p: Plane)
    requires L.Inv(p.s) && Linked(p) && Consistent(p.tables) && Bound(p.tables) && JobOk(p) && GensOk(p)
    ensures Inv(p)
  {
  }

  lemma NextParts(p: Plane, e: Step)
    requires Enabled(p, e) && L.Enabled(p.s, Abstract(p, e))
    ensures var q := Next(p, e);
      && q.s == L.Next(p.s, Abstract(p, e)) && q.tables == TablesAfter(p, e) && q.job == JobAfter(p, e)
      && (!e.Publish? ==> q.gens == p.gens)
  {
    hide Enabled, Abstract, TablesAfter, JobAfter, L.Enabled;
  }

  lemma KeepEnabled(p: Plane, e: Step)
    requires JobOk(p) && Linked(p) && Enabled(p, e) && e.Keep?
    ensures L.Enabled(p.s, Abstract(p, e)) && TablesAfter(p, e) == p.tables == p.job.Done().tables
    ensures var i := p.job.Existing().value; i.id in p.tables.instances && p.tables.instances[i.id] == i && i.state == Active
  {
    ExistingFacts(p.job);
    hide Job.Done, Job.Valid;
    assert p.job.Existing().value.id in InState(p.tables, Active);
  }

  lemma KeepJob(p: Plane, e: Step)
    requires JobOk(p) && Linked(p) && Enabled(p, e) && e.Keep? && L.Enabled(p.s, Abstract(p, e))
    ensures JobOk(Next(p, e)) && Linked(Next(p, e))
  {
    KeepEnabled(p, e);
    KeepMoves(p.job);
    hide Job.Done, Job.Reuses, Job.Valid, InState, Holds, Ids;
    var i := p.job.Existing().value;
    IdsOneMore(p.job.Done().ordered, i);
    HoldsOneMore(p.tables, p.job.Done().ordered, i);
  }

  lemma KeepKeepsInv(p: Plane, e: Step)
    requires Inv(p) && Enabled(p, e) && e.Keep?
    ensures L.Enabled(p.s, Abstract(p, e)) && Inv(Next(p, e))
  {
    hide *;
    InvParts(p);
    KeepEnabled(p, e);
    NextParts(p, e);
    KeepJob(p, e);
    L.NextKeepsInv(p.s, Abstract(p, e));
    NoPublish(p, e);
    ManagerShrinks(p.s, Abstract(p, e));
    GensStay(p, Next(p, e), {});
    InvFrom(Next(p, e));
  }

  lemma NoPublish(p: Plane, e: Step)
    requires Enabled(p, e) && !e.Publish?
    ensures !Abstract(p, e).Publish?
  {
  }

  lemma ClearEnabled(p: Plane, e: Step)
    requires JobOk(p) && Linked(p) && Enabled(p, e) && e.Clear?
    ensures L.Enabled(p.s, Abstract(p, e)) && p.job.AtEntry() && p.job.Existing().Some? && p.tables == p.job.Done().tables
    ensures var i := p.job.Existing().value; TablesAfter(p, e) == p.tables.Forgotten(i.id) && i.id in InState(p.tables, Failed)
    ensures L.Disposed(p.s, Abstract(p, e)) == {p.job.Existing().value.id}
  {
    ExistingFacts(p.job);
    hide Job.Done, Job.Valid, Job.Reuses;
    assert p.job.Existing().value.id in InState(p.tables, Failed);
  }

  lemma ClearJob(p: Plane, e: Step)
    requires JobOk(p) && Linked(p) && Enabled(p, e) && e.Clear? && L.Enabled(p.s, Abstract(p, e))
    ensures JobOk(Next(p, e)) && Linked(Next(p, e))
  {
    ClearEnabled(p, e);
    var i := p.job.Existing().value;
    ForgottenStates(p.tables, i.id, Active);
    ForgottenStates(p.tables, i.id, Failed);
    FailedIsNotHeld(p.tables, i.id, p.job.Done().ordered);
    ForgottenHolds(p.tables, i.id, p.job.Done().ordered);
    OtherState(p.tables, i.id);
    hide Job.Done, Job.Reuses, Holds, InState, Legal;
  }

  lemma OtherState(t: Tables, id: Id)
    requires id in InState(t, Failed)
    ensures id !in InState(t, Active)
  {
  }

  lemma FailedIsNotHeld(t: Tables, id: Id, instances: seq<Instance>)
    requires Holds(t, instances) && id in InState(t, Failed)
    ensures id !in Ids(instances)
  {
    HoldsIds(t, instances);
    assert id in Ids(instances) ==> id in Elements(Ids(instances));
  }

  lemma ClearKeepsInv(p: Plane, e: Step)
    requires Inv(p) && Enabled(p, e) && e.Clear?
    ensures L.Enabled(p.s, Abstract(p, e)) && Inv(Next(p, e))
  {
    hide *;
    InvParts(p);
    ClearEnabled(p, e);
    ClearJob(p, e);
    ForgettingKeepsRest(p, e, p.job.Existing().value.id);
  }

  /** What every disposal of the lock holder leaves in order. */
  lemma ForgettingKeepsRest(p: Plane, e: Step, id: Id)
    requires Inv(p) && Enabled(p, e) && !e.Publish? && L.Enabled(p.s, Abstract(p, e))
    requires TablesAfter(p, e) == p.tables.Forgotten(id) && L.Disposed(p.s, Abstract(p, e)) == {id}
    requires JobOk(Next(p, e)) && Linked(Next(p, e))
    ensures Inv(Next(p, e))
  {
    hide *;
    InvParts(p);
    NextParts(p, e);
    L.NextKeepsInv(p.s, Abstract(p, e));
    L.NothingReachableIsDisposed(p.s, Abstract(p, e));
    NoPublish(p, e);
    ManagerShrinks(p.s, Abstract(p, e));
    ForgottenStaysConsistent(p.tables, id);
    ForgottenIsBound(p.tables, id);
    GensStay(p, Next(p, e), {id});
    InvFrom(Next(p, e));
  }

  lemma ClearedNow(p: Plane)
    requires JobOk(p) && p.s.pc.Mounting? && p.job.AtEntry() && !p.job.Reuses() && !p.job.MustClear()
    ensures p.tables == Cleared(p.job.Done().tables, p.job.Existing())
  {
    hide Job.Done, Job.Reuses, Holds;
  }

  /** The instance a setup leaves behind. */
  ghost function Left(p: Plane): Instance
    requires p.job.AtEntry()
  {
    var ok := p.job.Setup().ok;
    Instance(p.job.Setup().id, p.job.Current().id, p.job.Current().revision, if ok then Active else Failed,
             if ok then Some(Identified(p.job.Current(), p.job.Selections(), p.job.Done())) else None,
             Captured(p.tables, p.job.Selections()))
  }

  lemma MountMoves(p: Plane)
    requires JobOk(p) && p.s.pc.Mounting? && p.job.AtEntry() && !p.job.Reuses() && !p.job.MustClear()
    ensures p.job.Setup().id == Left(p).id && p.job.Setup().id !in p.job.Done().tables.issued
    ensures var r := Reuse.Step(p.job.Current(), p.job.Selections(), p.job.Setup(), p.job.Done());
      && r.tables == p.tables.Added(Left(p), if p.job.Setup().ok then p.job.Setup().offers else {})
      && Consistent(r.tables)
      && (p.job.Setup().ok ==>
            var n := p.job.(k := p.job.k + 1, cleared := false);
            && n.Valid() && n.Done() == r && !r.failed
            && r.mounted == p.job.Done().mounted + [Left(p)] && r.ordered == p.job.Done().ordered + [Left(p)])
  {
    var j := p.job;
    ClearedNow(p);
    EntryFacts(j);
    hide JobOk, After, Captured, IdentityOf, Answers, Holds;
    if j.Setup().ok {
      assert !Reuse.Step(j.Current(), j.Selections(), j.Setup(), j.Done()).failed;
      hide Reuse.Step, Ready, Legal, Consistent, Sound, Decided;
      Progressed(j.plan, j.entries, j.outcomes, j.start, j.k + 1);
      InvariantIsConsistent(j, After(j.plan, j.entries, j.outcomes, j.start, j.k + 1));
    } else {
      Reconcile.StepFails(j.start, j.outcomes, j.Current(), j.Selections(), j.Done(), j.plan.order[..j.k]);
    }
  }

  lemma InvariantIsConsistent(j: Job, r: Progress)
    requires j.AtEntry() && Invariant(j.plan, j.entries, j.outcomes, j.start, r, j.plan.order[..j.k + 1])
    ensures Consistent(r.tables)
  {
  }

  // ---- Mounting

  lemma FreshId(p: Plane)
    requires Bound(p.tables) && p.job.AtEntry() && !p.job.Done().failed
    requires p.tables == Cleared(p.job.Done().tables, p.job.Existing())
    ensures p.job.Setup().id !in p.tables.issued && p.job.Setup().id !in p.tables.instances
  {
    EntryFacts(p.job);
    hide Job.Done, Ready, Consistent, Legal;
  }

  lemma MountEnabled(p: Plane, e: Step)
    requires JobOk(p) && Linked(p) && Bound(p.tables) && Enabled(p, e) && e.Mount?
    ensures L.Enabled(p.s, Abstract(p, e))
    ensures p.job.Setup().id !in p.tables.issued && p.job.Setup().id !in p.tables.instances
  {
    hide Job.Done, Job.Reuses, Job.Valid, Bound, Holds, InState, Cleared, Job.Existing;
    ClearedNow(p);
    FreshId(p);
  }

  lemma MountJob(p: Plane, e: Step)
    requires JobOk(p) && Linked(p) && Bound(p.tables) && Enabled(p, e) && e.Mount? && L.Enabled(p.s, Abstract(p, e))
    ensures JobOk(Next(p, e)) && Linked(Next(p, e)) && Consistent(Next(p, e).tables)
  {
    hide Job.Done, Job.Reuses, Job.Valid, Bound, Holds, InState, Consistent, Reuse.Step, Job.MustClear;
    MountEnabled(p, e);
    MountMoves(p);
    var i, offers := Left(p), if p.job.Setup().ok then p.job.Setup().offers else {};
    AddedStates(p.tables, i, offers, Active);
    AddedStates(p.tables, i, offers, Failed);
    AddedHolds(p.tables, i, offers, p.job.Done().ordered);
    if p.job.Setup().ok {
      HoldsOneMore(p.tables.Added(i, offers), p.job.Done().ordered, i);
      IdsOneMore(p.job.Done().ordered, i);
      IdsOneMore(p.job.Done().mounted, i);
    }
  }

  lemma HoldsOneMore(t: Tables, instances: seq<Instance>, i: Instance)
    requires Holds(t, instances) && i.id in t.instances && t.instances[i.id] == i && i.state == Active
    ensures Holds(t, instances + [i])
  {
  }

  lemma IdsOneMore(instances: seq<Instance>, i: Instance)
    ensures Ids(instances + [i]) == Ids(instances) + [i.id]
  {
  }

  lemma MountIsBound(p: Plane, e: Step)
    requires JobOk(p) && Linked(p) && Bound(p.tables) && Enabled(p, e) && e.Mount?
    ensures Bound(TablesAfter(p, e)) && forall id :: id in p.tables.instances ==>
      id in TablesAfter(p, e).instances && TablesAfter(p, e).instances[id] == p.tables.instances[id]
  {
    hide Job.Done, Job.Reuses, Job.Valid, Bound, Holds, InState, Consistent, Reuse.Step, Job.MustClear, Captured;
    MountEnabled(p, e);
    MountMoves(p);
    var i, offers := Left(p), if p.job.Setup().ok then p.job.Setup().offers else {};
    forall c | c in i.resolved ensures i.resolved[c] in p.tables.instances && p.tables.instances[i.resolved[c]].state == Active {
      CapturesActive(p.tables, p.job.Selections(), c);
    }
    AddedIsBound(p.tables, i, offers);
  }

  lemma MountKeepsInv(p: Plane, e: Step)
    requires Inv(p) && Enabled(p, e) && e.Mount?
    ensures L.Enabled(p.s, Abstract(p, e)) && Inv(Next(p, e))
  {
    hide *;
    InvParts(p);
    MountEnabled(p, e);
    MountJob(p, e);
    MountIsBound(p, e);
    NextParts(p, e);
    L.NextKeepsInv(p.s, Abstract(p, e));
    NoPublish(p, e);
    ManagerShrinks(p.s, Abstract(p, e));
    GensStay(p, Next(p, e), {});
    InvFrom(Next(p, e));
  }

  // ---- Disposing

  lemma DisposalMoves(p: Plane, e: Step) returns (id: Id)
    requires L.Inv(p.s) && Linked(p) && Enabled(p, e) && (e.RollBackOne? || e.DisposeOne?)
    ensures L.Enabled(p.s, Abstract(p, e)) && TablesAfter(p, e) == p.tables.Forgotten(id)
    ensures L.Disposed(p.s, Abstract(p, e)) == {id} && JobOk(Next(p, e)) && Linked(Next(p, e))
  {
    id := if e.RollBackOne? then p.s.pc.rest[|p.s.pc.rest| - 1] else p.s.pc.doomed[0];
    ForgottenStates(p.tables, id, Active);
    ForgottenStates(p.tables, id, Failed);
    assert e.RollBackOne? ==> id in Elements(p.s.pc.rest) && id in p.s.active;
    hide Manager.Sane, Manager.Reachable, InState, L.InHand, JobAfter, Tables.Forgotten, Job.Valid, Job.Done, Holds, Cleared;
  }

  lemma DisposalKeepsInv(p: Plane, e: Step)
    requires Inv(p) && Enabled(p, e) && (e.RollBackOne? || e.DisposeOne?)
    ensures L.Enabled(p.s, Abstract(p, e)) && Inv(Next(p, e))
  {
    hide *;
    InvParts(p);
    var id := DisposalMoves(p, e);
    ForgettingKeepsRest(p, e, id);
  }

  // ---- Reclaiming

  lemma ReclaimEnabled(p: Plane, e: Step)
    requires L.Inv(p.s) && Linked(p) && Enabled(p, e) && e.Reclaim?
    ensures L.Enabled(p.s, Abstract(p, e)) && JobOk(Next(p, e)) && Linked(Next(p, e)) && TablesAfter(p, e) == p.tables
    ensures Next(p, e).s.pc == L.Reclaiming(Layers(BoundGraph(p.tables.instances), Doomed(p, e.desired)))
  {
    var m := p.s.m.Swept(p.s.m.draining);
    hide Manager.Sane, Manager.Reachable, Manager.Swept, L.InHand, BoundGraph;
    var order := Layers(BoundGraph(p.tables.instances), Doomed(p, e.desired));
    assert Distinct(order) && Elements(order) == Doomed(p, e.desired);
  }

  lemma ReclaimKeepsInv(p: Plane, e: Step)
    requires Inv(p) && Enabled(p, e) && e.Reclaim?
    ensures L.Enabled(p.s, Abstract(p, e)) && Inv(Next(p, e))
  {
    hide *;
    InvParts(p);
    ReclaimEnabled(p, e);
    NextParts(p, e);
    L.NextKeepsInv(p.s, Abstract(p, e));
    NoPublish(p, e);
    ManagerShrinks(p.s, Abstract(p, e));
    GensStay(p, Next(p, e), {});
    InvFrom(Next(p, e));
  }

  // ---- Publishing

  lemma PublishEnabled(p: Plane, e: Step)
    requires L.Inv(p.s) && JobOk(p) && Linked(p) && Enabled(p, e) && e.Publish?
    ensures L.Enabled(p.s, Abstract(p, e)) && JobOk(Next(p, e)) && Linked(Next(p, e)) && TablesAfter(p, e) == p.tables
    ensures Next(p, e).gens == p.gens + [p.job.Done().ordered] && p.s.pc.ordered == Ids(p.job.Done().ordered)
    ensures Holds(p.tables, p.job.Done().ordered)
    ensures Next(p, e).s.m == p.s.m.Built(Elements(p.s.pc.ordered)).Published(|p.s.m.gens|)
  {
    hide Job.Done, Holds, InState, Manager.Reachable, L.InHand, Job.Valid;
  }

  lemma PublishedGens(p: Plane, e: Step)
    requires L.Inv(p.s) && JobOk(p) && Linked(p) && GensOk(p) && Enabled(p, e) && e.Publish?
    ensures GensOk(Next(p, e))
  {
    PublishEnabled(p, e);
    CandidateIsClosed(p.job);
    var q, instances := Next(p, e), Elements(p.s.pc.ordered);
    BuiltIsSane(p.s.m, instances);
    PublishedIsSane(p.s.m.Built(instances), |p.s.m.gens|);
    PublishedInstances(p.s.m, instances);
    hide L.Inv, Manager.Published, Manager.Built, Manager.Live, Manager.Sane, Job.Done, BindingClosed, Holds, Enabled, Next, JobOk;
    forall g: nat | g < |q.gens| ensures GenOk(q, g) {
      if g < |p.gens| {
        assert GenOk(p, g);
      }
    }
  }

  lemma PublishedInstances(m: Manager, instances: set<Id>)
    requires m.Sane()
    ensures var n := m.Built(instances).Published(|m.gens|);
      && |n.gens| == |m.gens| + 1 && n.gens[|m.gens|].instances == instances
      && forall g: nat {:trigger n.gens[g]} :: g < |m.gens| ==> n.gens[g].instances == m.gens[g].instances
  {
    hide Manager.BufferOk;
  }

  lemma CandidateIsClosed(j: Job)
    requires j.Valid() && j.k == |j.plan.order| && !j.Done().failed
    ensures BindingClosed(j.Done().ordered)
  {
    hide After, BindingClosed, Legal;
    Reconcile.PublishedIsClosed(j.plan, j.entries, j.outcomes, j.start);
  }

  lemma PublishKeepsInv(p: Plane, e: Step)
    requires Inv(p) && Enabled(p, e) && e.Publish?
    ensures L.Enabled(p.s, Abstract(p, e)) && Inv(Next(p, e))
  {
    hide *;
    InvParts(p);
    PublishEnabled(p, e);
    NextParts(p, e);
    PublishedGens(p, e);
    L.NextKeepsInv(p.s, Abstract(p, e));
    InvFrom(Next(p, e));
  }

  // ---- What holds in every run

  lemma NextKeepsInv(p: Plane, e: Step)
    requires Inv(p) && Enabled(p, e)
    ensures L.Enabled(p.s, Abstract(p, e)) && Inv(Next(p, e))
  {
    hide Inv, Next, Enabled, Abstract, L.Enabled;
    match e
    case Acquire(_) => LeasingKeepsInv(p, e);
    case Release(_, _) => LeasingKeepsInv(p, e);
    case Begin(_, _, _) => BeginKeepsInv(p, e);
    case Keep => KeepKeepsInv(p, e);
    case Clear => ClearKeepsInv(p, e);
    case Mount => MountKeepsInv(p, e);
    case Abort => IdleKeepsInv(p, e);
    case RollBackOne => DisposalKeepsInv(p, e);
    case RollBackDone => IdleKeepsInv(p, e);
    case Publish => PublishKeepsInv(p, e);
    case KeepCurrent => IdleKeepsInv(p, e);
    case Reclaim(_) => ReclaimKeepsInv(p, e);
    case DisposeOne => DisposalKeepsInv(p, e);
    case ReclaimDone => IdleKeepsInv(p, e);
  }

  lemma InitialInv(limit: nat)
    ensures Inv(Initial(limit))
  {
    L.InitialInv(limit);
    EmptyIsConsistent();
    NothingIsBound();
    hide Acyclic, L.Inv, Consistent, Bound;
    assert Linked(Initial(limit)) && JobOk(Initial(limit)) && GensOk(Initial(limit));
  }

  ghost predicate Follows(planes: seq<Plane>, steps: seq<Step>, k: nat)
    requires k < |steps| && |planes| == |steps| + 1
  {
    Enabled(planes[k], steps[k]) && planes[k + 1] == Next(planes[k], steps[k])
  }

  ghost predicate IsRun(planes: seq<Plane>, steps: seq<Step>) {
    && |planes| == |steps| + 1
    && (exists limit :: planes[0] == Initial(limit))
    && forall k {:trigger Follows(planes, steps, k)} :: 0 <= k < |steps| ==> Follows(planes, steps, k)
  }

  lemma {:induction false} InvThroughout(planes: seq<Plane>, steps: seq<Step>, k: nat)
    requires IsRun(planes, steps) && k < |planes|
    ensures Inv(planes[k])
  {
    hide Inv, Next, Enabled;
    if k == 0 {
      var limit :| planes[0] == Initial(limit);
      InitialInv(limit);
    } else {
      InvThroughout(planes, steps, k - 1);
      assert Follows(planes, steps, k - 1);
      NextKeepsInv(planes[k - 1], steps[k - 1]);
    }
  }

  ghost function AbstractSteps(planes: seq<Plane>, steps: seq<Step>): (r: seq<L.Step>)
    requires |planes| == |steps| + 1 && forall k :: 0 <= k < |steps| ==> Enabled(planes[k], steps[k])
    ensures |r| == |steps| && forall k :: 0 <= k < |r| ==> r[k] == Abstract(planes[k], steps[k])
  {
    seq(|steps|, k requires 0 <= k < |steps| => Abstract(planes[k], steps[k]))
  }

  ghost function Systems(planes: seq<Plane>): (r: seq<L.System>)
    ensures |r| == |planes| && forall k :: 0 <= k < |r| ==> r[k] == planes[k].s
  {
    seq(|planes|, k requires 0 <= k < |planes| => planes[k].s)
  }

  lemma RunIsEnabled(planes: seq<Plane>, steps: seq<Step>)
    requires IsRun(planes, steps)
    ensures forall k :: 0 <= k < |steps| ==> Enabled(planes[k], steps[k])
  {
    hide Enabled, Next;
    forall k | 0 <= k < |steps| ensures Enabled(planes[k], steps[k]) {
      assert Follows(planes, steps, k);
    }
  }

  /** The lock holder can always go on: at each entry of the plan exactly one of keeping, clearing
      and mounting is due, and after the last one publishing. */
  lemma NeverStuck(p: Plane)
    requires Inv(p)
    ensures p.s.pc.Mounting? && p.job.k < |p.job.plan.order| ==>
      && (Enabled(p, Keep) || Enabled(p, Clear) || Enabled(p, Mount))
      && !(Enabled(p, Keep) && Enabled(p, Clear)) && !(Enabled(p, Keep) && Enabled(p, Mount)) && !(Enabled(p, Clear) && Enabled(p, Mount))
    ensures p.s.pc.Mounting? && p.job.k == |p.job.plan.order| ==> Enabled(p, Publish)
    ensures p.s.pc.Mounting? ==> Enabled(p, Abort) && p.job.Valid()
    ensures p.s.pc.Idle? || p.s.pc.Published? ==> forall desired :: Enabled(p, Reclaim(desired))
    ensures p.s.pc.RollingBack? ==> Enabled(p, RollBackOne) || Enabled(p, RollBackDone)
    ensures p.s.pc.Reclaiming? ==> Enabled(p, DisposeOne) || Enabled(p, ReclaimDone)
  {
    hide Job.Reuses, Job.Existing, Legal, Consistent, Bound, GensOk, Manager.Reachable, L.InHand, Holds, Linked, Job.Done;
  }

  /** Every run with its registry is a run of the control plane, so all that is proved of those
      holds of it. */
  lemma RefinesLifecycle(planes: seq<Plane>, steps: seq<Step>)
    requires IsRun(planes, steps)
    ensures forall k :: 0 <= k < |steps| ==> Enabled(planes[k], steps[k])
    ensures L.IsRun(Systems(planes), AbstractSteps(planes, steps))
  {
    RunIsEnabled(planes, steps);
    hide Inv, Enabled, Abstract, L.Enabled, L.Next;
    var states, moves := Systems(planes), AbstractSteps(planes, steps);
    var limit :| planes[0] == Initial(limit);
    assert states[0] == L.Initial(limit);
    forall k | 0 <= k < |moves| ensures L.Follows(states, moves, k) {
      InvThroughout(planes, steps, k);
      assert Follows(planes, steps, k);
      NextKeepsInv(planes[k], steps[k]);
    }
  }

  /** In every interleaving, each provider an instance of a leased generation captured belongs to
      that generation, and is active. */
  lemma LeasedProvidersAreActive(planes: seq<Plane>, steps: seq<Step>, k: nat, g: nat, i: Instance, c: Id)
    requires IsRun(planes, steps) && k < |planes|
    requires g < |planes[k].s.m.gens| && planes[k].s.m.gens[g].Leased()
    ensures |planes[k].gens| == |planes[k].s.m.gens|
    ensures i in planes[k].gens[g] && c in i.resolved ==>
      var p, t := i.resolved[c], planes[k].tables;
      && p in planes[k].s.m.gens[g].instances && p in planes[k].s.active
      && p in t.instances && t.instances[p].state == Active && t.instances[p] in planes[k].gens[g]
  {
    InvThroughout(planes, steps, k);
    var p := planes[k];
    assert L.Inv(p.s) && GenOk(p, g) && g in p.s.m.Live();
    if i in p.gens[g] && c in i.resolved {
      var j :| j in p.gens[g] && j.id == i.resolved[c];
      var n :| 0 <= n < |p.gens[g]| && p.gens[g][n] == j;
      assert Ids(p.gens[g])[n] in Elements(Ids(p.gens[g]));
      assert j.id in InState(p.tables, Active);
    }
  }

  // ---- The order of disposal

  /** The generations still live once the idle ones are retired. */
  ghost function Surviving(p: Plane): set<seq<Instance>>
    requires |p.gens| == |p.s.m.gens| && forall g :: g in p.s.m.draining ==> g < |p.s.m.gens|
  {
    set g | g in p.s.m.Swept(p.s.m.draining).Live() && g < |p.gens| :: p.gens[g]
  }

  lemma SurvivorIsReached(p: Plane, g: nat)
    requires L.Inv(p.s) && GensOk(p) && g < |p.gens| && g in p.s.m.Swept(p.s.m.draining).Live()
    ensures BindingClosed(p.gens[g]) && Holds(p.tables, p.gens[g])
    ensures Elements(Ids(p.gens[g])) <= p.s.m.Swept(p.s.m.draining).Reachable()
  {
    SweptIsSane(p.s.m, p.s.m.draining);
    hide L.InHand, Manager.Swept, BindingClosed, Holds;
    assert GenOk(p, g);
    assert p.s.m.Swept(p.s.m.draining).gens[g].instances == p.s.m.gens[g].instances;
  }

  /** A reclaim goes after the active instances that no generation left over reaches, and the failed
      ones whose entries are no longer wanted; a failed instance of a wanted entry waits to be retried. */
  lemma ReclaimTakes(p: Plane, desired: set<Id>, id: Id)
    requires Inv(p) && Enabled(p, Reclaim(desired))
    ensures var q := Next(p, Reclaim(desired));
      && q.s.pc.Reclaiming?
      && (id in q.s.pc.doomed <==>
            && id in p.tables.instances
            && if p.tables.instances[id].state == Active then id !in q.s.m.Reachable() else p.tables.instances[id].entry !in desired)
  {
    hide *;
    InvParts(p);
    EnabledReclaim(p, desired);
    ReclaimEnabled(p, Reclaim(desired));
    ReclaimSweeps(p, desired);
    TakesDoomed(p, desired, id);
    DoomedMeans(p, desired, id);
  }

  lemma EnabledReclaim(p: Plane, desired: set<Id>)
    requires Enabled(p, Reclaim(desired))
    ensures forall g :: g in p.s.m.draining ==> g < |p.s.m.gens|
  {
  }

  lemma ReclaimSweeps(p: Plane, desired: set<Id>)
    requires Enabled(p, Reclaim(desired)) && L.Enabled(p.s, Abstract(p, Reclaim(desired)))
    requires forall g :: g in p.s.m.draining ==> g < |p.s.m.gens|
    ensures Next(p, Reclaim(desired)).s.m == p.s.m.Swept(p.s.m.draining)
  {
    hide L.Enabled, Manager.Swept, Manager.Reachable, Doomed, BoundGraph, TablesAfter, JobAfter, Layers, Tables.Forgotten, L.Counted;
  }

  lemma DoomedMeans(p: Plane, desired: set<Id>, id: Id)
    requires Consistent(p.tables) && forall g :: g in p.s.m.draining ==> g < |p.s.m.gens|
    ensures id in Doomed(p, desired) <==>
      && id in p.tables.instances
      && if p.tables.instances[id].state == Active then id !in p.s.m.Swept(p.s.m.draining).Reachable()
         else p.tables.instances[id].entry !in desired
  {
    hide Manager.Swept, Manager.Reachable, CapturedAsBound, WellFormed, BindsIssued;
    assert id in p.tables.instances ==> InstanceOk(p.tables, id);
  }

  lemma TakesDoomed(p: Plane, desired: set<Id>, id: Id)
    requires forall g :: g in p.s.m.draining ==> g < |p.s.m.gens|
    ensures id in Layers(BoundGraph(p.tables.instances), Doomed(p, desired)) <==> id in Doomed(p, desired)
  {
    hide BoundGraph, Doomed;
    var order := Layers(BoundGraph(p.tables.instances), Doomed(p, desired));
    assert Elements(order) == Doomed(p, desired);
  }

  lemma SurvivorIsKept(p: Plane, desired: set<Id>, gen: seq<Instance>)
    requires Inv(p) && Enabled(p, Reclaim(desired)) && gen in Surviving(p)
    ensures BindingClosed(gen) && forall i :: i in gen ==> i.id !in Doomed(p, desired)
  {
    InvParts(p);
    var g :| g in p.s.m.Swept(p.s.m.draining).Live() && g < |p.gens| && p.gens[g] == gen;
    hide Inv, Enabled, Manager.Swept, Manager.Reachable, BindingClosed, Bound, Consistent, L.Inv, Linked, JobOk, GensOk;
    SurvivorIsReached(p, g);
    forall i | i in gen ensures i.id !in Doomed(p, desired) {
      var n :| 0 <= n < |gen| && gen[n] == i;
      assert Ids(gen)[n] in Elements(Ids(gen));
    }
  }

  /** A kept active instance belongs to a surviving generation. */
  lemma KeptActive(p: Plane, desired: set<Id>, x: Id)
    requires Inv(p) && Enabled(p, Reclaim(desired)) && x in p.tables.instances && x !in Doomed(p, desired)
    requires p.tables.instances[x].state == Active
    ensures exists gen :: gen in Surviving(p) && p.tables.instances[x] in gen
  {
    var m := p.s.m.Swept(p.s.m.draining);
    SweptIsSane(p.s.m, p.s.m.draining);
    hide L.InHand, Acyclic, JobOk, Manager.Swept, Consistent, BindingClosed;
    assert x in m.Reachable();
    var g :| g in m.Live() && g < |m.gens| && x in m.gens[g].instances;
    assert GenOk(p, g) && g in p.s.m.Live();
    var n :| 0 <= n < |p.gens[g]| && Ids(p.gens[g])[n] == x;
    assert p.gens[g][n] in p.gens[g] && p.gens[g] in Surviving(p);
  }

  /** Nobody is bound to one that is not active. */
  lemma FailedIsUnbound(t: Tables, x: Id)
    requires Bound(t) && x in t.instances && t.instances[x].state != Active
    ensures forall c :: x !in Succ(BoundGraph(t.instances), c)
  {
    hide Acyclic;
    forall c ensures x !in Succ(BoundGraph(t.instances), c) {
      assert c in t.instances ==> CapturesOk(t, c);
    }
  }

  /** What a reclaim keeps is bound to nothing it disposes of, unless nobody is bound to it. */
  lemma KeptInstancesAreClosed(p: Plane, desired: set<Id>)
    requires Inv(p) && Enabled(p, Reclaim(desired))
    ensures KeptIsClosed(BoundGraph(p.tables.instances), Doomed(p, desired))
  {
    InvParts(p);
    hide Inv, Enabled, Doomed, Bound, BoundGraph, BindingClosed, KeptIsClosed;
    var live, target := p.tables.instances, Doomed(p, desired);
    forall gen | gen in Surviving(p) ensures BindingClosed(gen) && forall i :: i in gen ==> i.id !in target {
      SurvivorIsKept(p, desired, gen);
    }
    forall x | x in live && x !in target
      ensures (exists gen :: gen in Surviving(p) && live[x] in gen) || !exists c :: x in Succ(BoundGraph(live), c)
    {
      if live[x].state == Active {
        KeptActive(p, desired, x);
      } else {
        FailedIsUnbound(p.tables, x);
      }
    }
    hide Surviving;
    ReclaimKeepsAClosedSet(live, target, Surviving(p));
  }

  /** At every reclaim of every run, whatever is disposed of goes before everything it is bound to,
      directly or through any chain of instances, kept ones included. */
  lemma ReclaimRespectsChains(planes: seq<Plane>, steps: seq<Step>, k: nat, path: seq<Id>)
    requires IsRun(planes, steps) && k < |steps| && steps[k].Reclaim? && Enabled(planes[k], steps[k])
    requires IsPath(BoundGraph(planes[k].tables.instances), path) && |path| > 1
    requires path[0] in Doomed(planes[k], steps[k].desired) && path[|path| - 1] in Doomed(planes[k], steps[k].desired)
    ensures planes[k + 1].s.pc.Reclaiming?
    ensures var order := planes[k + 1].s.pc.doomed;
      && Elements(order) == Doomed(planes[k], steps[k].desired) && Distinct(order)
      && path[0] in order && path[|path| - 1] in order
      && Position(order, path[0]) < Position(order, path[|path| - 1])
  {
    assert Follows(planes, steps, k) && planes[k + 1] == Next(planes[k], steps[k]);
    hide *;
    InvThroughout(planes, steps, k);
    var p, desired := planes[k], steps[k].desired;
    InvParts(p);
    ReclaimEnabled(p, Reclaim(desired));
    assert steps[k] == Reclaim(desired);
    KeptInstancesAreClosed(p, desired);
    BoundMeansAcyclic(p.tables);
    ChainsRespected(BoundGraph(p.tables.instances), Doomed(p, desired), path);
  }
}
