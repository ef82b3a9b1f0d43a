/** The whole control plane as a step machine: one holder of the composition lock, with a
    program counter, interleaved at every await with runs acquiring and releasing leases. Runs
    of the machine are runs of the harness until its shutdown begins. */
module Lifecycle {
  import opened Wrappers
  import opened Ordering
  import opened Generations

  /** Where the lock holder is. */
  datatype Counter =
    | Idle
    | Mounting(mounted: seq<Id>, ordered: seq<Id>)
    | RollingBack(rest: seq<Id>)
    | Published
    | Reclaiming(doomed: seq<Id>)

  /** `refs` are the reference counts as last refreshed; `seen` every instance id ever made. */
  datatype System = System(
    m: Manager,
    active: set<Id>,
    failed: set<Id>,
    seen: set<Id>,
    refs: map<Id, nat>,
    pc: Counter)

  datatype Step =
    | Acquire(now: real)
    | Release(gen: nat, lease: nat)
    | Begin
    | Keep(i: Id)
    | Retry(i: Id)
    | Mount(i: Id)
    | SetupFails(i: Id)
    | Abort
    | RollBackOne
    | RollBackDone
    | Publish
    | KeepCurrent
    | Reclaim(order: seq<Id>)
    | DisposeOne
    | ReclaimDone

  function Initial(limit: nat): System {
    System(Manager([], None, [], [], 0, false, limit), {}, {}, {}, map[], Idle)
  }

  ghost predicate Enabled(s: System, e: Step) {
    match e
    case Acquire(_) => s.m.current.Some? && s.m.current.value < |s.m.gens|
    case Release(g, l) => g < |s.m.gens| && l in s.m.gens[g].starts
    case Begin => s.pc.Idle?
    case Keep(i) => s.pc.Mounting? && i in s.active
    case Retry(i) => s.pc.Mounting? && i in s.failed
    case Mount(i) => s.pc.Mounting? && i !in s.seen
    case SetupFails(i) => s.pc.Mounting? && i !in s.seen
    case Abort => s.pc.Mounting?
    case RollBackOne => s.pc.RollingBack? && s.pc.rest != []
    case RollBackDone => s.pc.RollingBack? && s.pc.rest == []
    case Publish => s.pc.Mounting? && (s.m.current.Some? ==> s.m.current.value < |s.m.gens|)
    case KeepCurrent =>
      && s.pc.Mounting? && s.m.current.Some? && s.m.current.value < |s.m.gens|
      && s.m.gens[s.m.current.value].instances == Elements(s.pc.ordered)
    case Reclaim(order) =>
      && (s.pc.Idle? || s.pc.Published?) && (forall g :: g in s.m.draining ==> g < |s.m.gens|)
      && Distinct(order)
      && var kept := s.m.Swept(s.m.draining).Reachable();
         s.active - kept <= Elements(order) <= (s.active - kept) + s.failed
    case DisposeOne => s.pc.Reclaiming? && s.pc.doomed != []
    case ReclaimDone => s.pc.Reclaiming? && s.pc.doomed == []
  }

  function Counted(m: Manager, ids: set<Id>): map<Id, nat> {
    map i | i in ids :: m.RefCount(i)
  }

  ghost function Next(s: System, e: Step): System
    requires Enabled(s, e)
  {
    match e
    case Acquire(now) => s.(m := s.m.Acquired(now))
    case Release(g, l) => s.(m := s.m.Released(g, l))
    case Begin => s.(pc := Mounting([], []))
    case Keep(i) => s.(pc := Mounting(s.pc.mounted, s.pc.ordered + [i]))
    case Retry(i) => s.(failed := s.failed - {i})
    case Mount(i) =>
      s.(active := s.active + {i}, seen := s.seen + {i}, pc := Mounting(s.pc.mounted + [i], s.pc.ordered + [i]))
    case SetupFails(i) => s.(failed := s.failed + {i}, seen := s.seen + {i}, pc := RollingBack(s.pc.mounted))
    case Abort => s.(pc := RollingBack(s.pc.mounted))
    case RollBackOne =>
      var n := |s.pc.rest| - 1;
      s.(active := s.active - {s.pc.rest[n]}, pc := RollingBack(s.pc.rest[..n]))
    case RollBackDone => s.(pc := Idle)
    case Publish =>
      s.(m := s.m.Built(Elements(s.pc.ordered)).Published(|s.m.gens|), pc := Published)
    case KeepCurrent => s.(pc := Published)
    case Reclaim(order) =>
      var m := s.m.Swept(s.m.draining);
      s.(m := m, refs := Counted(m, s.active + s.failed), pc := Reclaiming(order))
    case DisposeOne =>
      var i := s.pc.doomed[0];
      s.(active := s.active - {i}, failed := s.failed - {i}, pc := Reclaiming(s.pc.doomed[1..]))
    case ReclaimDone => s.(refs := Counted(s.m, s.active + s.failed), pc := Idle)
  }

  /** The instance a disposing step disposes. */
  function Disposed(s: System, e: Step): set<Id> {
    match e
    case Retry(i) => {i}
    case RollBackOne => if s.pc.RollingBack? && s.pc.rest != [] then {s.pc.rest[|s.pc.rest| - 1]} else {}
    case DisposeOne => if s.pc.Reclaiming? && s.pc.doomed != [] then {s.pc.doomed[0]} else {}
    case _ => {}
  }

  // ---- The invariant

  /** What the lock holder has in hand besides what is reachable. */
  ghost predicate InHand(s: System) {
    var kept := s.m.Reachable();
    match s.pc
    case Idle => s.active == kept
    case Published => s.active == kept
    case Mounting(mounted, ordered) =>
      && s.active == kept + Elements(mounted) && kept !! Elements(mounted) && Distinct(mounted)
      && Elements(ordered) <= s.active && Elements(mounted) <= Elements(ordered)
    case RollingBack(rest) => s.active == kept + Elements(rest) && kept !! Elements(rest) && Distinct(rest)
    case Reclaiming(doomed) =>
      && kept <= s.active <= kept + Elements(doomed) && kept !! Elements(doomed)
      && Elements(doomed) <= s.active + s.failed && Distinct(doomed)
  }

  function Mine(pc: Counter): set<Id> {
    match pc
    case Mounting(mounted, _) => Elements(mounted)
    case RollingBack(rest) => Elements(rest)
    case Reclaiming(doomed) => Elements(doomed)
    case _ => {}
  }

  ghost predicate Inv(s: System) {
    && s.m.Sane() && !s.m.shuttingDown
    && s.active !! s.failed && s.active + s.failed <= s.seen && s.refs.Keys <= s.seen
    && InHand(s)
    && forall i :: i in s.refs && s.refs[i] > 0 ==> i !in s.failed && i !in Mine(s.pc)
  }

  lemma RefCountMeans(m: Manager, i: Id)
    ensures m.RefCount(i) > 0 <==> i in m.Reachable()
  {
    var reaching := set g | g in m.Live() && g < |m.gens| && i in m.gens[g].instances;
    if i in m.Reachable() {
      var g :| g in m.Live() && g < |m.gens| && i in m.gens[g].instances;
      assert g in reaching;
    }
    if m.RefCount(i) > 0 {
      assert reaching != {};
      var g :| g in reaching;
    }
  }

  lemma InitialInv(limit: nat)
    ensures Inv(Initial(limit))
  {
    assert Initial(limit).m.RetiredSet() == {};
    assert Initial(limit).m.Reachable() == {};
  }

  /** Acquiring and releasing change neither what is reachable nor what is active. */
  lemma LeasingKeepsInv(s: System, e: Step)
    requires Inv(s) && Enabled(s, e) && (e.Acquire? || e.Release?)
    ensures Inv(Next(s, e)) && Next(s, e).m.Reachable() == s.m.Reachable()
  {
    if e.Acquire? {
      AcquiredIsSane(s.m, e.now);
    } else {
      ReleasedIsSane(s.m, e.gen, e.lease);
    }
    hide Manager.Sane, Manager.Reachable;
  }

  lemma MountingKeepsInv(s: System, e: Step)
    requires Inv(s) && Enabled(s, e) && (e.Begin? || e.Keep? || e.Retry? || e.Mount? || e.SetupFails? || e.Abort?)
    ensures Inv(Next(s, e)) && Next(s, e).m == s.m
  {
    hide Manager.Sane, Manager.Reachable;
    if e.Mount? {
      DistinctConcat(s.pc.mounted, [e.i]);
    }
    assert e.Keep? ==> Elements(s.pc.ordered + [e.i]) == Elements(s.pc.ordered) + {e.i};
    assert e.Mount? ==> Elements(s.pc.ordered + [e.i]) == Elements(s.pc.ordered) + {e.i};
  }

  lemma RollingBackKeepsInv(s: System, e: Step)
    requires Inv(s) && Enabled(s, e) && (e.RollBackOne? || e.RollBackDone?)
    ensures Inv(Next(s, e)) && Next(s, e).m == s.m
  {
    hide Manager.Sane, Manager.Reachable;
    if e.RollBackOne? {
      var rest, n := s.pc.rest, |s.pc.rest| - 1;
      assert rest == rest[..n] + [rest[n]] && rest[n] !in rest[..n];
      assert Elements(rest) == Elements(rest[..n]) + {rest[n]};
    }
  }

  lemma PublishingKeepsInv(s: System, e: Step)
    requires Inv(s) && Enabled(s, e) && (e.Publish? || e.KeepCurrent?)
    ensures Inv(Next(s, e))
  {
    if e.Publish? {
      var instances, g := Elements(s.pc.ordered), |s.m.gens|;
      BuiltIsSane(s.m, instances);
      PublishedIsSane(s.m.Built(instances), g);
      hide Manager.Sane, Manager.Reachable;
    } else {
      CurrentIsReachable(s.m);
      hide Manager.Sane, Manager.Reachable;
      assert Elements(s.pc.mounted) == {};
    }
  }

  lemma CurrentIsReachable(m: Manager)
    requires m.current.Some? && m.current.value < |m.gens|
    ensures m.gens[m.current.value].instances <= m.Reachable()
  {
    assert m.current.value in m.Live();
  }

  lemma SweptReach(m: Manager)
    requires m.Sane()
    ensures m.Swept(m.draining).Sane() && m.Swept(m.draining).Reachable() <= m.Reachable()
    ensures m.Swept(m.draining).shuttingDown == m.shuttingDown
  {
    SweptIsSane(m, m.draining);
    var n := m.Swept(m.draining);
    forall i | i in n.Reachable() ensures i in m.Reachable() {
      var g :| g in n.Live() && g < |n.gens| && i in n.gens[g].instances;
      assert i in m.gens[g].instances && g in m.Live();
    }
  }

  /** A fresh count is positive only for what is reachable. */
  lemma CountedMeans(m: Manager, ids: set<Id>)
    ensures forall i :: i in Counted(m, ids) && Counted(m, ids)[i] > 0 ==> i in m.Reachable()
    ensures Counted(m, ids).Keys == ids
  {
    forall i | i in Counted(m, ids) && Counted(m, ids)[i] > 0 ensures i in m.Reachable() {
      RefCountMeans(m, i);
    }
  }

  lemma ReclaimKeepsInv(s: System, e: Step)
    requires Inv(s) && Enabled(s, e) && e.Reclaim?
    ensures Inv(Next(s, e))
  {
    hide Manager.Sane, Manager.Reachable, Counted, Manager.Swept;
    SweptReach(s.m);
    CountedMeans(s.m.Swept(s.m.draining), s.active + s.failed);
  }

  lemma DisposingKeepsInv(s: System, e: Step)
    requires Inv(s) && Enabled(s, e) && (e.DisposeOne? || e.ReclaimDone?)
    ensures Inv(Next(s, e)) && Next(s, e).m == s.m
  {
    CountedMeans(s.m, s.active + s.failed);
    hide Manager.Sane, Manager.Reachable, Counted;
    if e.DisposeOne? {
      var doomed := s.pc.doomed;
      assert doomed == [doomed[0]] + doomed[1..] && doomed[0] !in doomed[1..];
      assert Elements(doomed) == {doomed[0]} + Elements(doomed[1..]);
    }
  }

  lemma NextKeepsInv(s: System, e: Step)
    requires Inv(s) && Enabled(s, e)
    ensures Inv(Next(s, e))
  {
    hide Inv, Next, Enabled;
    match e
    case Acquire(_) => LeasingKeepsInv(s, e);
    case Release(_, _) => LeasingKeepsInv(s, e);
    case Begin => MountingKeepsInv(s, e);
    case Keep(_) => MountingKeepsInv(s, e);
    case Retry(_) => MountingKeepsInv(s, e);
    case Mount(_) => MountingKeepsInv(s, e);
    case SetupFails(_) => MountingKeepsInv(s, e);
    case Abort => MountingKeepsInv(s, e);
    case RollBackOne => RollingBackKeepsInv(s, e);
    case RollBackDone => RollingBackKeepsInv(s, e);
    case Publish => PublishingKeepsInv(s, e);
    case KeepCurrent => PublishingKeepsInv(s, e);
    case Reclaim(_) => ReclaimKeepsInv(s, e);
    case DisposeOne => DisposingKeepsInv(s, e);
    case ReclaimDone => DisposingKeepsInv(s, e);
  }

  // ---- What holds in every run

  ghost predicate Follows(states: seq<System>, steps: seq<Step>, k: nat)
    requires k < |steps| && |states| == |steps| + 1
  {
    Enabled(states[k], steps[k]) && states[k + 1] == Next(states[k], steps[k])
  }

  ghost predicate IsRun(states: seq<System>, steps: seq<Step>) {
    && |states| == |steps| + 1
    && (exists limit :: states[0] == Initial(limit))
    && forall k {:trigger Follows(states, steps, k)} :: 0 <= k < |steps| ==> Follows(states, steps, k)
  }

  lemma {:induction false} InvThroughout(states: seq<System>, steps: seq<Step>, k: nat)
    requires IsRun(states, steps) && k < |states|
    ensures Inv(states[k])
  {
    hide Inv, Next, Enabled;
    if k == 0 {
      var limit :| states[0] == Initial(limit);
      InitialInv(limit);
    } else {
      InvThroughout(states, steps, k - 1);
      assert Follows(states, steps, k - 1);
      NextKeepsInv(states[k - 1], steps[k - 1]);
    }
  }

  /** No instance of a generation with an outstanding lease is anything but active, and no step
      disposes one. */
  lemma LeasedStaysActive(states: seq<System>, steps: seq<Step>, k: nat, g: nat)
    requires IsRun(states, steps) && k < |states|
    requires g < |states[k].m.gens| && states[k].m.gens[g].Leased()
    ensures states[k].m.gens[g].instances <= states[k].active
    ensures k < |steps| ==> Disposed(states[k], steps[k]) !! states[k].m.gens[g].instances
  {
    InvThroughout(states, steps, k);
    var s := states[k];
    assert s.m.gens[g].Leased() && g in s.m.Live();
    assert s.m.gens[g].instances <= s.m.Reachable();
    if k < |steps| {
      assert Follows(states, steps, k);
      NothingReachableIsDisposed(s, steps[k]);
    }
  }

  /** Disposed is what a step takes out of the active and the failed instances, and nothing else goes. */
  lemma DisposedMeans(s: System, e: Step)
    requires Inv(s) && Enabled(s, e)
    ensures Disposed(s, e) == (s.active + s.failed) - (Next(s, e).active + Next(s, e).failed)
  {
    hide Manager.Reachable, Manager.Sane, Manager.Swept, Manager.Built, Manager.Published, Counted;
  }

  lemma NothingReachableIsDisposed(s: System, e: Step)
    requires Inv(s) && Enabled(s, e)
    ensures Disposed(s, e) !! s.m.Reachable()
    ensures forall i :: i in Disposed(s, e) && i in s.refs ==> s.refs[i] == 0
  {
    hide Manager.Sane, Manager.Reachable;
  }

  /** The registry's own gate, the reference count, never has to refuse a disposal. */
  lemma DisposalIsNeverRefused(states: seq<System>, steps: seq<Step>, k: nat, i: Id)
    requires IsRun(states, steps) && k < |steps| && i in Disposed(states[k], steps[k])
    ensures i in states[k].refs ==> states[k].refs[i] == 0
  {
    InvThroughout(states, steps, k);
    assert Follows(states, steps, k);
    NothingReachableIsDisposed(states[k], steps[k]);
  }

  /** When a reclaim finishes, active is exactly what some live generation reaches. */
  lemma ReclaimIsExact(states: seq<System>, steps: seq<Step>, k: nat)
    requires IsRun(states, steps) && k < |steps| && steps[k].ReclaimDone?
    ensures states[k + 1].active == states[k + 1].m.Reachable()
  {
    InvThroughout(states, steps, k + 1);
    assert Follows(states, steps, k);
  }

  // ---- A failed reconciliation

  /** The lock holder is between starting to mount and having rolled back. */
  predicate Attempting(s: System) {
    s.pc.Mounting? || s.pc.RollingBack?
  }

  lemma {:induction false} AttemptKeepsGenerations(states: seq<System>, steps: seq<Step>, i: nat, j: nat)
    requires IsRun(states, steps) && i <= j < |states|
    requires forall k :: i <= k <= j ==> Attempting(states[k])
    ensures states[j].m.current == states[i].m.current && states[j].m.Reachable() == states[i].m.Reachable()
  {
    hide Inv, Manager.Sane, Manager.Reachable, Enabled, Next, Attempting;
    if i < j {
      AttemptKeepsGenerations(states, steps, i, j - 1);
      InvThroughout(states, steps, j - 1);
      assert Follows(states, steps, j - 1);
      AttemptStep(states[j - 1], steps[j - 1]);
    }
  }

  lemma AttemptStep(s: System, e: Step)
    requires Inv(s) && Enabled(s, e) && Attempting(s) && Attempting(Next(s, e))
    ensures Next(s, e).m.current == s.m.current && Next(s, e).m.Reachable() == s.m.Reachable()
  {
    hide Inv, Manager.Sane, Manager.Reachable;
    if e.Acquire? || e.Release? {
      LeasingKeepsInv(s, e);
    }
  }

  /** A reconciliation that fails leaves the current generation and the active set as they were,
      whatever runs acquired and released meanwhile. */
  lemma FailedReconcileChangesNothing(states: seq<System>, steps: seq<Step>, i: nat, j: nat)
    requires IsRun(states, steps) && i < j < |steps|
    requires steps[i].Begin? && steps[j].RollBackDone? && forall k :: i < k <= j ==> Attempting(states[k])
    ensures states[j + 1].m.current == states[i].m.current
    ensures states[j + 1].active == states[i].active
  {
    InvThroughout(states, steps, i);
    InvThroughout(states, steps, j);
    assert Follows(states, steps, i) && Follows(states, steps, j);
    AttemptKeepsGenerations(states, steps, i + 1, j);
    hide Manager.Sane, Manager.Reachable;
    assert Elements(states[j].pc.rest) == {};
  }

  // ---- A held lease

  /** A lease is outstanding from its acquisition until it is released. */
  lemma {:induction false} LeaseIsHeld(states: seq<System>, steps: seq<Step>, i: nat, j: nat, g: nat, l: nat)
    requires IsRun(states, steps) && i < j < |states|
    requires steps[i].Acquire? && states[i].m.current == Some(g) && g < |states[i].m.gens| && l == states[i].m.gens[g].next
    requires forall k :: i < k < j ==> steps[k] != Release(g, l)
    ensures g < |states[j].m.gens| && l in states[j].m.gens[g].starts
    ensures states[j].m.gens[g].instances == states[i].m.gens[g].instances
  {
    assert Follows(states, steps, j - 1);
    if i < j - 1 {
      LeaseIsHeld(states, steps, i, j - 1, g, l);
      InvThroughout(states, steps, j - 1);
      StepKeepsLease(states[j - 1], steps[j - 1], g, l);
    }
  }

  /** The lease is outstanding, of a generation that holds these instances. */
  ghost predicate Outstanding(m: Manager, g: nat, l: nat, instances: set<Id>) {
    g < |m.gens| && l in m.gens[g].starts && m.gens[g].instances == instances
  }

  lemma StepKeepsLease(s: System, e: Step, g: nat, l: nat)
    requires Inv(s) && Enabled(s, e) && e != Release(g, l)
    requires g < |s.m.gens| && l in s.m.gens[g].starts
    ensures g < |Next(s, e).m.gens| && l in Next(s, e).m.gens[g].starts
    ensures Next(s, e).m.gens[g].instances == s.m.gens[g].instances
  {
    var instances := s.m.gens[g].instances;
    assert Outstanding(s.m, g, l, instances);
    hide Manager.Sane, Manager.Reachable, Manager.Swept, Manager.Published, Manager.Built, InHand, Manager.Acquired, Manager.Released, Outstanding;
    match e
    case Acquire(now) => AcquiredKeeps(s.m, now, g, l, instances);
    case Release(h, k) => ReleasedKeeps(s.m, h, k, g, l, instances);
    case Publish => PublishedKeeps(s.m, Elements(s.pc.ordered), g, l, instances);
    case Reclaim(_) => SweptKeeps(s.m, g, l, instances);
    case _ =>
    OutstandingMeans(Next(s, e).m, g, l, instances);
  }

  lemma OutstandingMeans(m: Manager, g: nat, l: nat, instances: set<Id>)
    requires Outstanding(m, g, l, instances)
    ensures g < |m.gens| && l in m.gens[g].starts && m.gens[g].instances == instances
  {
  }

  lemma AcquiredKeeps(m: Manager, now: real, g: nat, l: nat, instances: set<Id>)
    requires Outstanding(m, g, l, instances) && m.current.Some? && m.current.value < |m.gens|
    ensures Outstanding(m.Acquired(now), g, l, instances)
  {
  }

  lemma ReleasedKeeps(m: Manager, h: nat, k: nat, g: nat, l: nat, instances: set<Id>)
    requires Outstanding(m, g, l, instances) && h < |m.gens| && (h, k) != (g, l)
    ensures Outstanding(m.Released(h, k), g, l, instances)
  {
  }

  lemma PublishedKeeps(m: Manager, ordered: set<Id>, g: nat, l: nat, instances: set<Id>)
    requires Outstanding(m, g, l, instances) && (m.current.Some? ==> m.current.value < |m.gens|)
    ensures Outstanding(m.Built(ordered).Published(|m.gens|), g, l, instances)
  {
  }

  lemma SweptKeeps(m: Manager, g: nat, l: nat, instances: set<Id>)
    requires m.Sane() && Outstanding(m, g, l, instances)
    ensures Outstanding(m.Swept(m.draining), g, l, instances)
  {
    SweptIsSane(m, m.draining);
    hide Manager.Sane, Manager.Swept;
    assert m.Swept(m.draining).gens[g].starts == m.gens[g].starts;
  }

  /** So a run keeps every instance of the generation it acquired, for as long as it runs. */
  lemma RunKeepsItsInstances(states: seq<System>, steps: seq<Step>, i: nat, j: nat, g: nat, l: nat)
    requires IsRun(states, steps) && i < j < |states|
    requires steps[i].Acquire? && states[i].m.current == Some(g) && g < |states[i].m.gens| && l == states[i].m.gens[g].next
    requires forall k :: i < k < j ==> steps[k] != Release(g, l)
    ensures states[i].m.gens[g].instances <= states[j].active
  {
    LeaseIsHeld(states, steps, i, j, g, l);
    LeasedStaysActive(states, steps, j, g);
  }

  /** Runs may begin exactly while a generation is current, and end whichever lease they hold. */
  lemma RunsMayLease(s: System, now: real, g: nat, l: nat)
    requires Inv(s)
    ensures Enabled(s, Acquire(now)) <==> s.m.current.Some?
    ensures Enabled(s, Release(g, l)) <==> g < |s.m.gens| && l in s.m.gens[g].starts
  {
    hide Manager.Reachable, InHand, Manager.BufferOk;
  }

  lemma MayReclaim(s: System)
    requires Inv(s) && (s.pc.Idle? || s.pc.Published?)
    ensures exists order :: Enabled(s, Reclaim(order))
  {
    hide Manager.Reachable, Manager.Swept, InHand, Manager.BufferOk;
    var kept := s.m.Swept(s.m.draining).Reachable();
    var order := Sorted(s.active - kept);
    assert Elements(order) == s.active - kept;
    assert Enabled(s, Reclaim(order));
  }

  /** The lock holder can always go on, whatever it was doing. */
  lemma NeverStuck(s: System)
    requires Inv(s)
    ensures s.pc.Idle? <==> Enabled(s, Begin)
    ensures s.pc.Mounting? <==> Enabled(s, Abort)
    ensures s.pc.RollingBack? ==> Enabled(s, RollBackOne) || Enabled(s, RollBackDone)
    ensures s.pc.Reclaiming? ==> Enabled(s, DisposeOne) || Enabled(s, ReclaimDone)
  {
    hide Manager.Reachable, Manager.Swept, InHand, Manager.Sane;
  }

  lemma MayMount(s: System, i: Id)
    requires Inv(s) && s.pc.Mounting?
    ensures Enabled(s, Publish)
    ensures i in s.active ==> Enabled(s, Keep(i))
    ensures i in s.failed ==> Enabled(s, Retry(i))
    ensures i !in s.seen ==> Enabled(s, Mount(i)) && Enabled(s, SetupFails(i))
  {
    hide Manager.Reachable, Manager.Swept, InHand, Manager.BufferOk;
  }

  /** What the lock holder still has to do before it is idle again, once it has left the mounting. */
  function Left(pc: Counter): nat {
    match pc
    case RollingBack(rest) => |rest| + 1
    case Reclaiming(doomed) => |doomed| + 1
    case _ => 0
  }

  /** Rolling back and reclaiming come to an end: every step of the lock holder is one fewer. */
  lemma HolderFinishes(s: System, e: Step)
    requires Enabled(s, e) && (s.pc.RollingBack? || s.pc.Reclaiming?)
    ensures if e.Acquire? || e.Release? then Next(s, e).pc == s.pc else Left(Next(s, e).pc) + 1 == Left(s.pc)
  {
  }
}
