/** Whole reconciliations: materialization on the registry, rollback when a setup fails, and
    what any sequence of them publishes. */
module Reconcile {
  import opened Wrappers
  import opened Ordering
  import opened Keys
  import opened Resolver
  import opened Identity
  import opened Registry
  import opened Reuse

  // ---- The active instances

  function ActiveSet(t: Tables): set<Instance> {
    set id | id in t.instances && t.instances[id].state == Active :: t.instances[id]
  }

  lemma ClearedKeepsActive(t: Tables, e: Id)
    requires Consistent(t)
    ensures ActiveSet(Cleared(t, t.InstanceFor(e))) == ActiveSet(t)
  {
    var existing := t.InstanceFor(e);
    if existing.Some? && existing.value.state == Failed {
      InstanceForFacts(t, e);
      ForgottenStaysConsistent(t, existing.value.id);
      hide Consistent, InstanceOk, Tables.Forgotten;
      var u := t.Forgotten(existing.value.id);
      forall x | x in ActiveSet(t) ensures x in ActiveSet(u) {
        var id :| id in t.instances && t.instances[id] == x && x.state == Active;
        assert u.instances[id] == x;
      }
    }
  }

  lemma AddedToActive(t: Tables, i: Instance, offers: set<(Key, Version)>)
    requires Consistent(t) && i.id !in t.issued
    ensures ActiveSet(t.Added(i, offers)) == ActiveSet(t) + (if i.state == Active then {i} else {})
  {
    assert i.id in t.instances ==> InstanceOk(t, i.id);
    hide Consistent, InstanceOk;
    var u := t.Added(i, offers);
    assert u.instances[i.id] == i;
    forall x | x in ActiveSet(t) ensures x in ActiveSet(u) {
      var id :| id in t.instances && t.instances[id] == x;
      assert u.instances[id] == x;
    }
  }

  /** A step whose setup fails leaves consistent tables with one more failed instance. */
  lemma StepFails(t: Tables, outcomes: map<Id, Outcome>, entry: Entry, ss: seq<Selection>, p: Progress, done: seq<Id>)
    requires Ready(t, outcomes, entry, ss, p, done) && Step(entry, ss, outcomes[entry.id], p).failed
    ensures var q := Step(entry, ss, outcomes[entry.id], p);
      Consistent(q.tables) && t.issued <= q.tables.issued && ActiveSet(q.tables) == ActiveSet(p.tables) && q.mounted == p.mounted
  {
    var e := entry.id;
    var cleared := Cleared(p.tables, p.tables.InstanceFor(e));
    var i := Instance(outcomes[e].id, e, entry.revision, Failed, None, Captured(cleared, ss));
    StillFresh(t, outcomes, p, done, e);
    ClearedFacts(p.tables, e);
    ClearedKeepsActive(p.tables, e);
    hide Captured, BindingClosed, Handled, InstanceOk, EntryOk;
    AddedStaysConsistent(cleared, i, {});
    AddedToActive(cleared, i, {});
  }

  lemma StepActive(t: Tables, outcomes: map<Id, Outcome>, entry: Entry, ss: seq<Selection>, p: Progress, done: seq<Id>)
    requires Ready(t, outcomes, entry, ss, p, done) && !Step(entry, ss, outcomes[entry.id], p).failed
    requires ActiveSet(p.tables) == ActiveSet(t) + Elements(p.mounted)
    ensures var q := Step(entry, ss, outcomes[entry.id], p);
      ActiveSet(q.tables) == ActiveSet(t) + Elements(q.mounted)
  {
    var e := entry.id;
    if !Reusable(p.tables.InstanceFor(e), entry.revision, Identified(entry, ss, p)) {
      var cleared := Cleared(p.tables, p.tables.InstanceFor(e));
      var i := Instance(outcomes[e].id, e, entry.revision, Active, Some(Identified(entry, ss, p)), Captured(cleared, ss));
      StillFresh(t, outcomes, p, done, e);
      ClearedFacts(p.tables, e);
      ClearedKeepsActive(p.tables, e);
      hide Captured, BindingClosed, Handled, InstanceOk, EntryOk;
      AddedToActive(cleared, i, outcomes[e].offers);
    }
  }

  /** Whether it fails or not, materialization only adds the new instances to the active ones. */
  ghost predicate OnlyMounts(t: Tables, p: Progress) {
    && Consistent(p.tables) && t.issued <= p.tables.issued
    && ActiveSet(p.tables) == ActiveSet(t) + Elements(p.mounted)
    && forall i :: i in p.mounted ==> i.id !in t.issued && i.state == Active
  }

  lemma SoundIsMounts(t: Tables, outcomes: map<Id, Outcome>, p: Progress, done: seq<Id>)
    requires Sound(t, outcomes, p, done) && Fresh(outcomes, t.issued)
    requires ActiveSet(p.tables) == ActiveSet(t) + Elements(p.mounted)
    ensures OnlyMounts(t, p)
  {
    forall i | i in p.mounted ensures i.state == Active {
      assert i in Elements(p.mounted) && i in ActiveSet(p.tables);
    }
  }

  lemma StepOnlyMounts(t: Tables, outcomes: map<Id, Outcome>, entry: Entry, ss: seq<Selection>, p: Progress, done: seq<Id>)
    requires Ready(t, outcomes, entry, ss, p, done) && OnlyMounts(t, p)
    ensures OnlyMounts(t, Step(entry, ss, outcomes[entry.id], p))
  {
    hide Step, Consistent, Sound, ActiveSet, BindingClosed, Fresh;
    if Step(entry, ss, outcomes[entry.id], p).failed {
      StepFails(t, outcomes, entry, ss, p, done);
    } else {
      StepActive(t, outcomes, entry, ss, p, done);
      StepSound(t, outcomes, entry, ss, p, done);
      SoundIsMounts(t, outcomes, Step(entry, ss, outcomes[entry.id], p), done + [entry.id]);
    }
  }

  lemma NothingMountedYet(t: Tables)
    requires Consistent(t)
    ensures OnlyMounts(t, Progress(t, map[], [], [], false))
  {
  }

  lemma {:induction false} OnlyMountsAfter(plan: Agenda, entries: map<Id, Entry>, outcomes: map<Id, Outcome>, t: Tables, k: nat)
    requires Legal(plan, entries, outcomes, t) && k <= |plan.order|
    ensures OnlyMounts(t, After(plan, entries, outcomes, t, k))
  {
    hide Step, Consistent, OnlyMounts, ProvidersFirst, Installed, Sound, Decided, Fresh;
    if k == 0 {
      NothingMountedYet(t);
    } else {
      OnlyMountsAfter(plan, entries, outcomes, t, k - 1);
      var p, done, e := After(plan, entries, outcomes, t, k - 1), plan.order[..k - 1], plan.order[k - 1];
      if !p.failed {
        Progressed(plan, entries, outcomes, t, k - 1);
        LegalAt(plan, entries, outcomes, t, k);
        StepOnlyMounts(t, outcomes, entries[e], plan.SelectionsOf(e), p, done);
      }
    }
  }

  // ---- Rollback

  /** Dispose what was mounted, newest first. */
  function RolledBack(t: Tables, mounted: seq<Instance>): Tables
    decreases |mounted|
  {
    if mounted == [] then t
    else RolledBack(t.Forgotten(mounted[|mounted| - 1].id), mounted[..|mounted| - 1])
  }

  lemma ForgottenActive(t: Tables, id: Id)
    requires Consistent(t)
    ensures Consistent(t.Forgotten(id)) && t.Forgotten(id).issued == t.issued
    ensures ActiveSet(t.Forgotten(id)) == set i | i in ActiveSet(t) && i.id != id
  {
    ForgottenStaysConsistent(t, id);
    var u := t.Forgotten(id);
    forall i | i in ActiveSet(t) && i.id != id ensures i in ActiveSet(u) {
      var x :| x in t.instances && t.instances[x] == i;
      assert InstanceOk(t, x);
      assert u.instances[x] == i;
    }
    forall i | i in ActiveSet(u) ensures i in ActiveSet(t) && i.id != id {
      var x :| x in u.instances && u.instances[x] == i;
      assert InstanceOk(t, x);
    }
  }

  lemma {:induction false} RolledBackActive(t: Tables, mounted: seq<Instance>)
    requires Consistent(t)
    ensures Consistent(RolledBack(t, mounted)) && RolledBack(t, mounted).issued == t.issued
    ensures ActiveSet(RolledBack(t, mounted)) == set i | i in ActiveSet(t) && forall m :: m in mounted ==> m.id != i.id
    decreases |mounted|
  {
    hide Consistent, ActiveSet;
    if mounted != [] {
      var n := |mounted| - 1;
      ForgottenActive(t, mounted[n].id);
      RolledBackActive(t.Forgotten(mounted[n].id), mounted[..n]);
      assert forall m :: m in mounted <==> m in mounted[..n] || m == mounted[n];
    }
  }

  /** A reconcile that fails in a setup leaves exactly the active instances it found. */
  lemma FailureRestoresActive(plan: Agenda, entries: map<Id, Entry>, outcomes: map<Id, Outcome>, t: Tables)
    requires Legal(plan, entries, outcomes, t)
    ensures var p := After(plan, entries, outcomes, t, |plan.order|);
      Consistent(RolledBack(p.tables, p.mounted)) && ActiveSet(RolledBack(p.tables, p.mounted)) == ActiveSet(t)
  {
    hide After;
    var p := After(plan, entries, outcomes, t, |plan.order|);
    OnlyMountsAfter(plan, entries, outcomes, t, |plan.order|);
    RolledBackActive(p.tables, p.mounted);
    forall i | i in ActiveSet(t) ensures i.id in t.issued {
      var x :| x in t.instances && t.instances[x] == i;
      assert InstanceOk(t, x);
    }
    forall i | i in p.mounted ensures i in Elements(p.mounted) {}
  }

  // ---- The imperative loops

  /** Only active instances are counted as reachable. */
  ghost predicate RefsOk(registry: PluginRegistry)
    reads registry
  {
    forall id :: id in registry.refs ==>
      id in registry.issued &&
      (registry.refs[id] > 0 && id in registry.instances ==> registry.instances[id].state == Active)
  }

  /** Make room for a new instance of the entry. */
  method Clear(registry: PluginRegistry, existing: Option<Instance>)
    requires Consistent(registry.View()) && RefsOk(registry)
    requires existing.Some? ==> existing.value.id in registry.instances && registry.instances[existing.value.id] == existing.value
    modifies registry
    ensures registry.refs == old(registry.refs)
    ensures registry.View() == Cleared(old(registry.View()), existing)
    ensures Consistent(registry.View()) && RefsOk(registry)
  {
    if existing.Some? && existing.value.state == Failed {
      ForgottenStaysConsistent(registry.View(), existing.value.id);
      var ok := registry.Dispose(existing.value.id);
    }
  }

  /** Mount an instance and give it its identity. */
  method MountAs(registry: PluginRegistry, entry: Entry, identity: SemanticIdentity, resolved: map<Id, Id>,
                 supersede: bool, o: Outcome) returns (mounted: Option<Instance>)
    requires Consistent(registry.View()) && RefsOk(registry) && o.id !in registry.issued
    requires !supersede ==> registry.InstanceOf(entry.id).None?
    modifies registry
    ensures registry.refs == old(registry.refs) && RefsOk(registry)
    ensures var i := Instance(o.id, entry.id, entry.revision, if o.ok then Active else Failed,
                              if o.ok then Some(identity) else None, resolved);
      && registry.View() == old(registry.View()).Added(i, if o.ok then o.offers else {})
      && mounted == if o.ok then Some(i) else None
  {
    hide Consistent;
    var r := registry.Mount(entry.id, entry.revision, resolved, supersede, o);
    match r
    case Mounted(i) =>
      registry.Identify(i.id, identity);
      mounted := Some(registry.instances[i.id]);
      assert registry.instances == old(registry.instances)[o.id := mounted.value];
    case SetupFailed =>
      mounted := None;
  }

  /** The body of the materialization loop. */
  method HandleEntry(registry: PluginRegistry, entry: Entry, ss: seq<Selection>, o: Outcome,
                     identities: map<Id, SemanticIdentity>, ordered: seq<Instance>, mounted: seq<Instance>)
    returns (newIdentities: map<Id, SemanticIdentity>, newOrdered: seq<Instance>, newMounted: seq<Instance>, failed: bool)
    requires Consistent(registry.View()) && RefsOk(registry) && o.id !in registry.View().issued
    modifies registry
    ensures registry.refs == old(registry.refs) && RefsOk(registry)
    ensures Progress(registry.View(), newIdentities, newOrdered, newMounted, failed)
         == Step(entry, ss, o, Progress(old(registry.View()), identities, ordered, mounted, false))
  {
    newIdentities, newOrdered, newMounted, failed := identities, ordered, mounted, false;
    ghost var t := registry.View();
    var existing := registry.InstanceOf(entry.id);
    if existing.Some? { InstanceForFacts(t, entry.id); }
    hide Consistent, InstanceOk, Captured, IdentityOf, Tables.Added, Tables.Forgotten, RefsOk, Serving, LastServed, FiledById;
    var identity := IdentityIn(registry, entry, ss, identities);
    if Reusable(existing, entry.revision, identity) {
      newOrdered := ordered + [existing.value];
      newIdentities := identities[entry.id := identity];
      return;
    }
    Clear(registry, existing);
    ConsistentIsFiled(registry.View());
    var resolved := CapturedIn(registry, ss);
    var instance := MountAs(registry, entry, identity, resolved, existing.Some?, o);
    if instance.None? {
      failed := true;
    } else {
      newIdentities := identities[entry.id := identity];
      newOrdered := ordered + [instance.value];
      newMounted := mounted + [instance.value];
    }
  }

  /** Ask the registry about every provider, then build the identity. */
  method IdentityIn(registry: PluginRegistry, entry: Entry, ss: seq<Selection>, identities: map<Id, SemanticIdentity>)
    returns (identity: SemanticIdentity)
    ensures identity == IdentityOf(entry, ss, Answers(registry.View(), identities, ss))
  {
    ghost var t := registry.View();
    var answers: map<Id, Answer> := map[];
    assert Answers(t, identities, ss[..0]) == map[];
    hide *;
    for k := 0 to |ss|
      invariant answers == Answers(t, identities, ss[..k])
    {
      AnswersNext(t, identities, ss, k);
      if ss[k].provider.Some? {
        var a := AnswerNow(registry, ss[k].provider.value, identities);
        answers := answers[ss[k].provider.value := a];
      }
    }
    assert ss[..|ss|] == ss;
    identity := BuildSemanticIdentity(entry, ss, answers);
  }

  method AnswerNow(registry: PluginRegistry, p: Id, identities: map<Id, SemanticIdentity>) returns (a: Answer)
    ensures a == AnswerFor(registry.View(), identities, p)
  {
    var i := registry.InstanceOf(p);
    var digest :=
      if p in identities then Some(identities[p].IdentityDigest())
      else if i.Some? && i.value.identity.Some? then Some(i.value.identity.value.IdentityDigest())
      else None;
    a := Answer(if i.Some? then Some(i.value.id) else None, digest);
  }

  lemma AnswersNext(t: Tables, identities: map<Id, SemanticIdentity>, ss: seq<Selection>, k: nat)
    requires k < |ss|
    ensures Answers(t, identities, ss[..k + 1]) ==
      if ss[k].provider.None? then Answers(t, identities, ss[..k])
      else Answers(t, identities, ss[..k])[ss[k].provider.value := AnswerFor(t, identities, ss[k].provider.value)]
  {
    ProvidersOfNext(ss, k);
    hide ProvidersOf, AnswerFor;
  }

  /** For each satisfied selection look up the newest instance of its provider and take one of its
      registrations that the requirement accepts. */
  method CapturedIn(registry: PluginRegistry, ss: seq<Selection>) returns (resolved: map<Id, Id>)
    requires FiledById(registry.View())
    ensures resolved == Captured(registry.View(), ss)
    ensures forall k, id :: 0 <= k < |ss| && Serving(registry.View(), ss[k], id) ==> ss[k].requirement.name in resolved
    ensures forall k, id :: 0 <= k < |ss| && Serving(registry.View(), ss[k], id) && LastServed(registry.View(), ss, k) ==>
      resolved[ss[k].requirement.name] == id
    ensures forall c :: c in resolved ==> exists k ::
      0 <= k < |ss| && ss[k].requirement.name == c && LastServed(registry.View(), ss, k) && Serving(registry.View(), ss[k], resolved[c])
  {
    hide Serving, LastServed;
    resolved := map[];
    for k := 0 to |ss|
      invariant resolved == Captured(registry.View(), ss[..k])
    {
      assert ss[..k + 1][..k] == ss[..k];
      var s := ss[k];
      if s.status == Status.Resolved && s.provider.Some? {
        var i := registry.InstanceOf(s.provider.value);
        if i.Some? {
          var matching := set l | l in registry.live && l.provider == i.value.id && Accepts(s.requirement, l.key, l.version);
          assert i == registry.View().InstanceFor(s.provider.value);
          if l :| l in matching {
            assert l in registry.View().live;
            resolved := resolved[s.requirement.name := i.value.id];
          } else {
            assert forall l :: l in registry.live && l.provider == i.value.id && Accepts(s.requirement, l.key, l.version) ==> l in matching;
          }
        }
      }
    }
    assert ss[..|ss|] == ss;
    CapturedMeans(registry.View(), ss);
  }

  lemma AtStart(plan: Agenda, entries: map<Id, Entry>, outcomes: map<Id, Outcome>, t: Tables)
    requires forall e :: e in plan.order ==> e in outcomes
    ensures After(plan, entries, outcomes, t, 0) == Progress(t, map[], [], [], false)
  {
  }

  lemma LegalCovers(plan: Agenda, entries: map<Id, Entry>, outcomes: map<Id, Outcome>, t: Tables)
    requires Legal(plan, entries, outcomes, t)
    ensures Consistent(t) && forall e :: e in plan.order ==> e in outcomes && e in entries
  {
  }

  /** What the loop may rely on when it reaches an entry. */
  lemma BeforeEntry(plan: Agenda, entries: map<Id, Entry>, outcomes: map<Id, Outcome>, t: Tables, k: nat)
    requires Legal(plan, entries, outcomes, t) && k < |plan.order|
    requires !After(plan, entries, outcomes, t, k).failed
    ensures var p, e := After(plan, entries, outcomes, t, k), plan.order[k];
      && Consistent(p.tables) && e in outcomes && outcomes[e].id !in p.tables.issued && e in entries
      && After(plan, entries, outcomes, t, k + 1) == Step(entries[e], plan.SelectionsOf(e), outcomes[e], p)
  {
    hide Step, ProvidersFirst, Fresh, Invariant, Consistent, Installed;
    Progressed(plan, entries, outcomes, t, k);
    LegalAt(plan, entries, outcomes, t, k + 1);
    InvariantUse(plan, entries, outcomes, t, After(plan, entries, outcomes, t, k), plan.order[..k], plan.order[k]);
  }

  lemma InvariantUse(plan: Agenda, entries: map<Id, Entry>, outcomes: map<Id, Outcome>, t: Tables, p: Progress, done: seq<Id>, e: Id)
    requires Invariant(plan, entries, outcomes, t, p, done) && Fresh(outcomes, t.issued) && e !in done && e in outcomes
    ensures Consistent(p.tables) && outcomes[e].id !in p.tables.issued
  {
    hide Decided, Consistent;
    StillFresh(t, outcomes, p, done, e);
  }

  lemma {:induction false} FailureLasts(plan: Agenda, entries: map<Id, Entry>, outcomes: map<Id, Outcome>, t: Tables, j: nat, k: nat)
    requires forall e :: e in plan.order ==> e in outcomes
    requires j <= k <= |plan.order| && After(plan, entries, outcomes, t, j).failed
    ensures After(plan, entries, outcomes, t, k) == After(plan, entries, outcomes, t, j)
  {
    if j < k {
      FailureLasts(plan, entries, outcomes, t, j, k - 1);
    }
  }

  /** Mount or reuse one instance per entry, in activation order, up to the first failed setup. */
  method Materialize(registry: PluginRegistry, plan: Agenda, entries: map<Id, Entry>, outcomes: map<Id, Outcome>)
    returns (ordered: seq<Instance>, mounted: seq<Instance>, failed: bool)
    requires Legal(plan, entries, outcomes, registry.View()) && RefsOk(registry)
    modifies registry
    ensures registry.refs == old(registry.refs)
    ensures var p := After(plan, entries, outcomes, old(registry.View()), |plan.order|);
      registry.View() == p.tables && ordered == p.ordered && mounted == p.mounted && failed == p.failed
    ensures !failed ==> forall i :: i in mounted ==> CapturesServed(registry.View(), plan.SelectionsOf(i.entry), i)
  {
    hide *;
    ghost var t := registry.View();
    var identities: map<Id, SemanticIdentity> := map[];
    ordered, mounted, failed := [], [], false;
    LegalCovers(plan, entries, outcomes, t);
    AtStart(plan, entries, outcomes, t);
    for k := 0 to |plan.order|
      invariant !failed && registry.refs == old(registry.refs) && RefsOk(registry)
      invariant Progress(registry.View(), identities, ordered, mounted, false) == After(plan, entries, outcomes, t, k)
    {
      var e := plan.order[k];
      if e !in entries { continue; }
      BeforeEntry(plan, entries, outcomes, t, k);
      identities, ordered, mounted, failed := HandleEntry(registry, entries[e], plan.SelectionsOf(e), outcomes[e], identities, ordered, mounted);
      if failed {
        FailureLasts(plan, entries, outcomes, t, k + 1, |plan.order|);
        return;
      }
    }
    MountsCaptureServed(plan, entries, outcomes, t, |plan.order|);
  }

  /** Newest first, and the entries in the order they were rolled back. */
  method RollBack(registry: PluginRegistry, mounted: seq<Instance>) returns (rolledBack: seq<Id>)
    requires forall i :: i in mounted ==> registry.Refs(i.id) == 0
    requires forall id :: id in registry.instances ==> registry.instances[id].state == Active || registry.instances[id].state == Failed
    modifies registry
    ensures registry.refs == old(registry.refs)
    ensures registry.View() == RolledBack(old(registry.View()), mounted)
    ensures |rolledBack| == |mounted| && forall k :: 0 <= k < |mounted| ==> rolledBack[k] == mounted[|mounted| - 1 - k].entry
  {
    ghost var t := registry.View();
    rolledBack := [];
    var n := |mounted|;
    assert mounted[..n] == mounted;
    while n > 0
      invariant 0 <= n <= |mounted|
      invariant registry.refs == old(registry.refs)
      invariant forall id :: id in registry.instances ==> registry.instances[id].state == Active || registry.instances[id].state == Failed
      invariant RolledBack(registry.View(), mounted[..n]) == RolledBack(t, mounted)
      invariant |rolledBack| == |mounted| - n && forall k :: 0 <= k < |rolledBack| ==> rolledBack[k] == mounted[|mounted| - 1 - k].entry
    {
      n := n - 1;
      assert mounted[..n + 1][..n] == mounted[..n];
      var ok := registry.Dispose(mounted[n].id);
      rolledBack := rolledBack + [mounted[n].entry];
    }
  }

  /** A reconciliation up to the candidate: either every entry of the plan is backed by an
      instance whose captured providers are in the candidate, or the active instances are the
      ones from before. */
  method Attempt(registry: PluginRegistry, plan: Agenda, entries: map<Id, Entry>, outcomes: map<Id, Outcome>)
    returns (candidate: Option<seq<Instance>>)
    requires Legal(plan, entries, outcomes, registry.View()) && RefsOk(registry)
    modifies registry
    ensures Consistent(registry.View())
    ensures candidate.Some? <==> !After(plan, entries, outcomes, old(registry.View()), |plan.order|).failed
    ensures candidate.None? ==> ActiveSet(registry.View()) == ActiveSet(old(registry.View()))
    ensures candidate.Some? ==> BindingClosed(candidate.value)
    ensures candidate.Some? ==> forall e :: e in plan.order ==>
      registry.View().InstanceFor(e).Some? && registry.View().InstanceFor(e).value in candidate.value
  {
    ghost var t := registry.View();
    ghost var p := After(plan, entries, outcomes, t, |plan.order|);
    var ordered, mounted, failed := Materialize(registry, plan, entries, outcomes);
    OnlyMountsAfter(plan, entries, outcomes, t, |plan.order|);
    if failed {
      FailureRestoresActive(plan, entries, outcomes, t);
      hide After, ActiveSet, BindingClosed;
      assert forall i :: i in mounted ==> i.id !in registry.refs;
      assert forall id :: id in registry.instances ==> InstanceOk(registry.View(), id);
      var rolledBack := RollBack(registry, mounted);
      candidate := None;
    } else {
      PublishedIsClosed(plan, entries, outcomes, t);
      candidate := Some(ordered);
    }
  }

  /** What a successful materialization hands to publication. */
  lemma PublishedIsClosed(plan: Agenda, entries: map<Id, Entry>, outcomes: map<Id, Outcome>, t: Tables)
    requires Legal(plan, entries, outcomes, t)
    requires !After(plan, entries, outcomes, t, |plan.order|).failed
    ensures var p := After(plan, entries, outcomes, t, |plan.order|);
      && BindingClosed(p.ordered) && Consistent(p.tables)
      && forall e :: e in plan.order ==> p.tables.InstanceFor(e).Some? && p.tables.InstanceFor(e).value in p.ordered
  {
    hide After, Consistent, BindingClosed, Decided, ProvidersFirst, Fresh;
    var p := After(plan, entries, outcomes, t, |plan.order|);
    Progressed(plan, entries, outcomes, t, |plan.order|);
    assert plan.order[..|plan.order|] == plan.order;
    assert forall e :: e in plan.order ==> Handled(t, outcomes, p, e);
  }

  // ---- Every sequence of reconciliations

  /** What can happen to the registry: a reconciliation, or the disposal of some instance. */
  datatype Event =
    | Reconciled(plan: Agenda, entries: map<Id, Entry>, outcomes: map<Id, Outcome>)
    | Disposed(id: Id)

  datatype World = World(tables: Tables, published: seq<seq<Instance>>)

  ghost predicate Enabled(w: World, e: Event) {
    e.Reconciled? ==> Possible(e.plan, e.entries, e.outcomes, w.tables)
  }

  ghost function Next(w: World, e: Event): World
    requires Enabled(w, e)
  {
    match e
    case Disposed(id) => w.(tables := w.tables.Forgotten(id))
    case Reconciled(plan, entries, outcomes) =>
      var p := After(plan, entries, outcomes, w.tables, |plan.order|);
      if p.failed then w.(tables := RolledBack(p.tables, p.mounted))
      else World(p.tables, w.published + [p.ordered])
  }

  const NO_WORLD := World(Tables(map[], map[], {}, {}), [])

  ghost predicate IsRun(worlds: seq<World>, events: seq<Event>) {
    && |worlds| == |events| + 1
    && worlds[0] == NO_WORLD
    && forall i {:trigger Follows(worlds, events, i)} :: 0 <= i < |events| ==> Follows(worlds, events, i)
  }

  ghost predicate Follows(worlds: seq<World>, events: seq<Event>, i: nat)
    requires i < |events| && |worlds| == |events| + 1
  {
    Enabled(worlds[i], events[i]) && worlds[i + 1] == Next(worlds[i], events[i])
  }

  /** Its plan, if it has one, puts providers before consumers. */
  ghost predicate Ordered(e: Event) {
    e.Reconciled? ==> ProvidersFirst(e.plan)
  }

  lemma NextKeepsClosure(w: World, e: Event)
    requires Enabled(w, e) && Ordered(e) && Consistent(w.tables) && forall g :: g in w.published ==> BindingClosed(g)
    ensures Consistent(Next(w, e).tables) && forall g :: g in Next(w, e).published ==> BindingClosed(g)
  {
    hide Consistent, After, BindingClosed, ProvidersFirst;
    match e
    case Disposed(id) =>
      ForgottenStaysConsistent(w.tables, id);
    case Reconciled(plan, entries, outcomes) =>
      if After(plan, entries, outcomes, w.tables, |plan.order|).failed {
        FailureRestoresActive(plan, entries, outcomes, w.tables);
      } else {
        PublishedIsClosed(plan, entries, outcomes, w.tables);
      }
  }

  /** Every generation any run publishes is closed under captured providers, reused instances
      included, as long as every plan puts providers before consumers. */
  lemma {:induction false} EveryGenerationIsClosed(worlds: seq<World>, events: seq<Event>, k: nat)
    requires IsRun(worlds, events) && k < |worlds| && forall e :: e in events ==> Ordered(e)
    ensures Consistent(worlds[k].tables) && forall g :: g in worlds[k].published ==> BindingClosed(g)
  {
    hide Enabled, Next, BindingClosed, Consistent, Ordered;
    if k == 0 {
      EmptyIsConsistent();
    } else {
      EveryGenerationIsClosed(worlds, events, k - 1);
      assert Follows(worlds, events, k - 1);
      NextKeepsClosure(worlds[k - 1], events[k - 1]);
    }
  }

  /** A successful reconciliation of two entries, and a run of two of them. */
  lemma RoundOf(w: World, e: Event, p: Progress)
    requires e.Reconciled? && Possible(e.plan, e.entries, e.outcomes, w.tables) && |e.plan.order| == 2
    requires e.plan.order[0] in e.outcomes && e.plan.order[1] in e.outcomes
    requires p == After(e.plan, e.entries, e.outcomes, w.tables, 2) && !p.failed
    ensures Enabled(w, e) && Next(w, e) == World(p.tables, w.published + [p.ordered])
  {
    hide After, Fresh, Distinct, Installed;
  }

  lemma TwoRounds(w: World, v: World, first: Event, second: Event)
    requires Enabled(NO_WORLD, first) && w == Next(NO_WORLD, first)
    requires Enabled(w, second) && v == Next(w, second)
    ensures IsRun([NO_WORLD, w, v], [first, second])
  {
    hide Enabled, Next;
    var worlds, events := [NO_WORLD, w, v], [first, second];
    assert Follows(worlds, events, 0) && Follows(worlds, events, 1);
  }
}
