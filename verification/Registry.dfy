/** Plugin instances and the registry that tracks them: lifecycle transitions, mounting,
    failed setup, disposal. Instances are known by id; a generation holds ids. */
module Registry {
  import opened Wrappers
  import opened Ordering
  import opened Keys
  import opened Identity

  datatype PluginState = Pending | Loading | Active | Unloading | Disposed | Failed

  predicate Allowed(from: PluginState, to: PluginState) {
    match from
    case Pending => to == Loading || to == Disposed
    case Loading => to == Active || to == Failed
    case Active => to == Unloading || to == Failed
    case Unloading => to == Disposed
    case Failed => to == Loading || to == Disposed
    case Disposed => false
  }

  /** The moves there are: setup is entered from pending or failed only, becoming active only from
      setup, and nobody active is disposed of without unloading or failing first. */
  lemma AllowedMeans(from: PluginState, to: PluginState)
    ensures Allowed(from, to) <==> (from, to) in {
      (Pending, Loading), (Pending, Disposed), (Loading, Active), (Loading, Failed), (Active, Unloading), (Active, Failed),
      (Unloading, Disposed), (Failed, Loading), (Failed, Disposed)}
  {
  }

  /** `resolved` maps a capability to the provider instance captured for it. */
  datatype Instance = Instance(
    id: Id,
    entry: Id,
    revision: nat,
    state: PluginState,
    identity: Option<SemanticIdentity>,
    resolved: map<Id, Id>)

  /** A live capability registration. */
  datatype Live = Live(provider: Id, key: Key, version: Version)

  /** What the world answers when an entry is mounted: the new id, whether setup succeeds, and
      what setup registers. */
  datatype Outcome = Outcome(id: Id, ok: bool, offers: set<(Key, Version)>)

  /** Ids of instances, as the registry makes them. */
  predicate IsInstanceId(id: Id) {
    "plugin_" <= id
  }

  /** The registry's tables; `issued` are all instance ids ever made. */
  datatype Tables = Tables(
    instances: map<Id, Instance>,
    byEntry: map<Id, seq<Id>>,
    live: set<Live>,
    issued: set<Id>)
  {
    /** The newest instance mounted for an entry. */
    function InstanceFor(entry: Id): Option<Instance> {
      if entry !in byEntry || byEntry[entry] == [] then None
      else
        var id := byEntry[entry][|byEntry[entry]| - 1];
        if id in instances then Some(instances[id]) else None
    }

    function Added(i: Instance, offers: set<(Key, Version)>): Tables {
      Tables(instances[i.id := i],
             byEntry[i.entry := (if i.entry in byEntry then byEntry[i.entry] else []) + [i.id]],
             live + (set o | o in offers :: Live(i.id, o.0, o.1)),
             issued + {i.id})
    }

    /** Drop an instance; its scope's cleanup has withdrawn its registrations. */
    function Forgotten(id: Id): Tables {
      if id !in instances then this
      else
        var entry := instances[id].entry;
        var rest := Without(if entry in byEntry then byEntry[entry] else [], id);
        Tables(instances - {id},
               if rest == [] then byEntry - {entry} else byEntry[entry := rest],
               (set l | l in live && l.provider != id),
               issued)
    }
  }

  // ---- Consistency of the tables

  /** What an instance captured is what its identity records. */
  ghost predicate CapturedAsBound(i: Instance) {
    i.identity.Some? &&
    forall c :: c in i.resolved ==>
      exists k :: 0 <= k < |i.identity.value.bindings| &&
        i.identity.value.bindings[k].capability == c &&
        i.identity.value.bindings[k].provider.Some? &&
        i.identity.value.bindings[k].providerInstance == Some(i.resolved[c])
  }

  ghost predicate BindsIssued(i: SemanticIdentity, issued: set<Id>) {
    forall b :: b in i.bindings && b.providerInstance.Some? ==> b.providerInstance.value in issued
  }

  ghost predicate InstanceOk(t: Tables, id: Id)
    requires id in t.instances
  {
    var i := t.instances[id];
    && i.id == id && id in t.issued
    && i.entry in t.byEntry && id in t.byEntry[i.entry]
    && (i.state == Active || i.state == Failed)
    && (i.state == Active ==> CapturedAsBound(i))
    && (i.identity.Some? ==> WellFormed(i.identity.value) && BindsIssued(i.identity.value, t.issued))
  }

  ghost predicate EntryOk(t: Tables, e: Id)
    requires e in t.byEntry
  {
    && t.byEntry[e] != [] && Distinct(t.byEntry[e])
    && forall id :: id in t.byEntry[e] ==> id in t.instances && t.instances[id].entry == e
  }

  ghost predicate Consistent(t: Tables) {
    && (forall id {:trigger InstanceOk(t, id)} :: id in t.instances ==> InstanceOk(t, id))
    && (forall e {:trigger EntryOk(t, e)} :: e in t.byEntry ==> EntryOk(t, e))
    && (forall id :: id in t.issued ==> IsInstanceId(id))
    && (forall l :: l in t.live ==> l.provider in t.issued)
  }

  lemma EmptyIsConsistent()
    ensures Consistent(Tables(map[], map[], {}, {}))
  {
  }

  /** The newest instance of an entry is one of the tables' instances, filed under that entry. */
  lemma InstanceForFacts(t: Tables, e: Id)
    requires Consistent(t) && t.InstanceFor(e).Some?
    ensures var i := t.InstanceFor(e).value; i.id in t.instances && t.instances[i.id] == i && i.entry == e
    ensures InstanceOk(t, t.InstanceFor(e).value.id)
  {
    var id := t.byEntry[e][|t.byEntry[e]| - 1];
    assert EntryOk(t, e);
    assert id in t.byEntry[e];
    assert InstanceOk(t, id);
  }

  lemma AddedStaysConsistent(t: Tables, i: Instance, offers: set<(Key, Version)>)
    requires Consistent(t) && i.id !in t.issued && IsInstanceId(i.id)
    requires i.state == Active || i.state == Failed
    requires i.state == Active ==> CapturedAsBound(i)
    requires i.identity.Some? ==> WellFormed(i.identity.value) && BindsIssued(i.identity.value, t.issued)
    ensures Consistent(t.Added(i, offers))
    ensures t.Added(i, offers).InstanceFor(i.entry) == Some(i)
    ensures forall e :: e != i.entry ==> t.Added(i, offers).InstanceFor(e) == t.InstanceFor(e)
  {
    hide CapturedAsBound, WellFormed;
    var u := t.Added(i, offers);
    assert i.id in t.instances ==> InstanceOk(t, i.id);
    var before := if i.entry in t.byEntry then t.byEntry[i.entry] else [];
    assert i.entry in t.byEntry ==> EntryOk(t, i.entry);
    forall id | id in u.instances ensures InstanceOk(u, id) {
      if id != i.id {
        assert InstanceOk(t, id);
      }
    }
    forall e | e in u.byEntry ensures EntryOk(u, e) {
      if e == i.entry {
        DistinctConcat(before, [i.id]);
      } else {
        assert EntryOk(t, e);
      }
    }
    forall e | e != i.entry ensures u.InstanceFor(e) == t.InstanceFor(e) {
      if e in t.byEntry {
        assert EntryOk(t, e);
      }
    }
  }

  lemma ForgottenStaysConsistent(t: Tables, id: Id)
    requires Consistent(t)
    ensures Consistent(t.Forgotten(id))
    ensures t.Forgotten(id).issued == t.issued
    ensures t.Forgotten(id).instances == t.instances - {id}
  {
    if id in t.instances {
      hide CapturedAsBound, WellFormed, BindsIssued;
      var u := t.Forgotten(id);
      var entry := t.instances[id].entry;
      assert InstanceOk(t, id) && EntryOk(t, entry);
      forall x | x in u.instances ensures InstanceOk(u, x) {
        assert InstanceOk(t, x);
      }
      forall e | e in u.byEntry ensures EntryOk(u, e) {
        assert EntryOk(t, e);
      }
    }
  }

  /** Forgetting an instance leaves the newest instance of every other entry, and of its own
      entry when it is not that newest one. */
  lemma ForgottenKeepsOthers(t: Tables, id: Id, e: Id)
    requires Consistent(t)
    requires t.InstanceFor(e).Some? ==> t.InstanceFor(e).value.id != id
    ensures t.Forgotten(id).InstanceFor(e) == t.InstanceFor(e)
  {
    if id in t.instances {
      assert InstanceOk(t, id);
      assert e in t.byEntry ==> EntryOk(t, e);
      if e in t.byEntry && t.byEntry[e][|t.byEntry[e]| - 1] != id {
        WithoutKeepsLast(t.byEntry[e], id);
      }
    }
  }

  /** What a forgotten instance registered goes with it, and what others registered stays. */
  lemma ForgottenWithdraws(t: Tables, id: Id, l: Live)
    requires Consistent(t) && id in t.instances
    ensures l in t.Forgotten(id).live <==> l in t.live && l.provider != id
    ensures forall e :: e in t.Forgotten(id).byEntry ==> id !in t.Forgotten(id).byEntry[e]
  {
    assert InstanceOk(t, id);
    forall e | e in t.Forgotten(id).byEntry ensures id !in t.Forgotten(id).byEntry[e] {
      assert e in t.byEntry && EntryOk(t, e);
    }
  }

  /** Withdrawing what a new instance registered restores the registrations. */
  lemma WithdrawnAgain(t: Tables, o: Outcome)
    requires Consistent(t) && o.id !in t.issued
    ensures (set l | l in t.live + (set f | f in o.offers :: Live(o.id, f.0, f.1)) && l.provider != o.id) == t.live
  {
  }

  // ---- The registry itself

  datatype MountResult = AlreadyMounted | Mounted(instance: Instance) | SetupFailed

  class PluginRegistry {
    var instances: map<Id, Instance>
    var byEntry: map<Id, seq<Id>>
    var live: set<Live>
    /** How many live generations reach an instance, as last counted; absent is zero. */
    var refs: map<Id, nat>
    ghost var issued: set<Id>

    constructor ()
      ensures View() == Tables(map[], map[], {}, {}) && refs == map[]
    {
      instances, byEntry, live, refs, issued := map[], map[], {}, map[], {};
    }

    ghost function View(): Tables
      reads this
    {
      Tables(instances, byEntry, live, issued)
    }

    function Refs(id: Id): nat
      reads this
    {
      if id in refs then refs[id] else 0
    }

    function InstanceOf(entry: Id): (r: Option<Instance>)
      reads this
      ensures r == View().InstanceFor(entry)
    {
      if entry !in byEntry || byEntry[entry] == [] then None
      else
        var id := byEntry[entry][|byEntry[entry]| - 1];
        if id in instances then Some(instances[id]) else None
    }

    /** Refuses what the table does not allow, and then changes nothing. */
    method Transition(id: Id, to: PluginState) returns (ok: bool)
      requires id in instances
      modifies `instances
      ensures ok <==> to == old(instances[id].state) || Allowed(old(instances[id].state), to)
      ensures instances == if ok then old(instances)[id := old(instances[id]).(state := to)] else old(instances)
    {
      var i := instances[id];
      ok := true;
      if to == i.state { return; }
      if !Allowed(i.state, to) { return false; }
      instances := instances[id := i.(state := to)];
    }

    /** One setup. A failing one leaves a failed instance without registrations behind. */
    method Mount(entry: Id, revision: nat, resolved: map<Id, Id>, supersede: bool, o: Outcome) returns (r: MountResult)
      requires Consistent(View()) && o.id !in issued
      modifies this
      ensures refs == old(refs)
      ensures var current := old(InstanceOf(entry));
        r == AlreadyMounted <==>
          !supersede && current.Some? && current.value.state != Disposed && current.value.revision == revision
      ensures r == AlreadyMounted ==> View() == old(View())
      ensures r != AlreadyMounted ==>
        var i := Instance(o.id, entry, revision, if o.ok then Active else Failed, None, resolved);
        && View() == old(View()).Added(i, if o.ok then o.offers else {})
        && r == if o.ok then MountResult.Mounted(i) else SetupFailed
    {
      var current := InstanceOf(entry);
      if !supersede && current.Some? && current.value.state != Disposed && current.value.revision == revision {
        return AlreadyMounted;
      }
      WithdrawnAgain(View(), o);
      var i := Instance(o.id, entry, revision, Pending, None, resolved);
      instances := instances[o.id := i];
      byEntry := byEntry[entry := (if entry in byEntry then byEntry[entry] else []) + [o.id]];
      issued := issued + {o.id};
      SetUp(o);
      r := if o.ok then MountResult.Mounted(instances[o.id]) else SetupFailed;
      hide Consistent;
      assert instances == old(instances)[o.id := instances[o.id]];
      assert live == old(live) + (set f | f in (if o.ok then o.offers else {}) :: Live(o.id, f.0, f.1));
    }

    /** Run the setup of a pending instance; on failure its cleanup withdraws what it registered. */
    method SetUp(o: Outcome)
      requires o.id in instances && instances[o.id].state == Pending
      modifies `instances, `live
      ensures instances == old(instances)[o.id := old(instances[o.id]).(state := if o.ok then Active else Failed)]
      ensures var offered := old(live) + (set f | f in o.offers :: Live(o.id, f.0, f.1));
        live == if o.ok then offered else set l | l in offered && l.provider != o.id
    {
      var ok := Transition(o.id, Loading);
      live := live + (set f | f in o.offers :: Live(o.id, f.0, f.1));
      if o.ok {
        ok := Transition(o.id, Active);
      } else {
        live := set l | l in live && l.provider != o.id;
        ok := Transition(o.id, Failed);
      }
    }

    method Identify(id: Id, identity: SemanticIdentity)
      requires id in instances
      modifies `instances
      ensures instances == old(instances)[id := old(instances[id]).(identity := Some(identity))]
    {
      instances := instances[id := instances[id].(identity := Some(identity))];
    }

    /** Refuses an instance some live generation reaches, and one that is still loading. */
    method Dispose(id: Id) returns (ok: bool)
      modifies this
      ensures refs == old(refs)
      ensures ok <==> old(id !in instances || instances[id].state == Disposed
                          || (Refs(id) == 0 && instances[id].state != Loading))
      ensures old(id in refs && refs[id] > 0 && id in instances && instances[id].state != Disposed) ==> !ok
      ensures View() == if ok && old(id in instances && instances[id].state != Disposed)
                        then old(View()).Forgotten(id) else old(View())
    {
      if id !in instances || instances[id].state == Disposed { return true; }
      if Refs(id) > 0 { return false; }
      ghost var before := View();
      var entry := instances[id].entry;
      if instances[id].state == Active {
        ok := Transition(id, Unloading);
      }
      if instances[id].state == Loading { return false; }
      live := set l | l in live && l.provider != id;
      ok := Transition(id, Disposed);
      Forget(id);
      assert instances == before.instances - {id};
      ok := true;
    }

    method Forget(id: Id)
      requires id in instances
      modifies `instances, `byEntry
      ensures instances == old(instances) - {id}
      ensures var entry := old(instances[id].entry);
        var rest := Without(if entry in old(byEntry) then old(byEntry)[entry] else [], id);
        byEntry == if rest == [] then old(byEntry) - {entry} else old(byEntry)[entry := rest]
    {
      var entry := instances[id].entry;
      instances := instances - {id};
      var ids := if entry in byEntry then byEntry[entry] else [];
      var rest := Without(ids, id);
      if rest == [] { byEntry := byEntry - {entry}; } else { byEntry := byEntry[entry := rest]; }
    }
  }
}
