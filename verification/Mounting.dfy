/** What materializing one entry does, in the cases the examples of this project go through. */
module Mounting {
  import opened Wrappers
  import opened Ordering
  import opened Keys
  import opened Resolver
  import opened Identity
  import opened Registry
  import opened Reuse

  /** The identity's one binding is to that instance. */
  ghost predicate OnlyBoundTo(i: Instance, provider: Option<Id>) {
    i.identity.Some? && |i.identity.value.bindings| == 1 && i.identity.value.bindings[0].providerInstance == provider
  }

  function IdOf(i: Option<Instance>): Option<Id> {
    if i.Some? then Some(i.value.id) else None
  }

  /** Nothing to keep: no instance, or one bound to another than the provider's newest. */
  ghost predicate Remounts(entry: Entry, s: Selection, t: Tables) {
    && s.status == Status.Resolved && s.provider.Some? && s.provider.value != entry.id
    && var existing := t.InstanceFor(entry.id);
       existing.None? || (existing.value.state == Active && exists p :: OnlyBoundTo(existing.value, p) && p != IdOf(t.InstanceFor(s.provider.value)))
  }

  /** Such an entry is mounted: its provider's newest instance is captured, and recorded. */
  lemma MountsAnew(entry: Entry, s: Selection, o: Outcome, p: Progress) returns (i: Instance)
    requires o.ok && Remounts(entry, s, p.tables)
    ensures var q := Step(entry, [s], o, p);
      && !q.failed && q.ordered == p.ordered + [i] && q.tables == p.tables.Added(i, o.offers)
      && i.id == o.id && i.entry == entry.id && i.state == Active
      && OnlyBoundTo(i, IdOf(p.tables.InstanceFor(s.provider.value)))
      && i.resolved == if Captures(p.tables, s) then map[s.requirement.name := p.tables.InstanceFor(s.provider.value).value.id] else map[]
  {
    var answers := Answers(p.tables, p.identities, [s]);
    OneBinding(entry, s, answers);
    assert s in [s] && s.provider.value in ProvidersOf([s]);
    CapturedOne(p.tables, s);
    hide IdentityOf, Captured, Captures, SortSelections;
    var identity := IdentityOf(entry, [s], answers);
    i := Instance(o.id, entry.id, entry.revision, Active, Some(identity), Captured(p.tables, [s]));
  }

  lemma OneBinding(e: Entry, s: Selection, answers: map<Id, Answer>)
    requires Answered([s], answers)
    ensures IdentityOf(e, [s], answers).bindings == [Bind(e.id, s, answers)]
  {
    assert s in [s] && [s][..0] == [];
    assert SortSelections([s]) == [s];
  }

  lemma CapturedOne(t: Tables, s: Selection)
    ensures Captured(t, [s]) ==
      if Captures(t, s) then map[s.requirement.name := t.InstanceFor(s.provider.value).value.id] else map[]
  {
    assert [s][..0] == [];
    hide Captures;
  }

  /** The registry answers for the entry with that instance, which has registered the offer. */
  ghost predicate Serves(t: Tables, e: Id, i: Instance, offer: (Key, Version)) {
    && t.InstanceFor(e) == Some(i) && i.state == Active && i.entry == e && i.id in t.issued
    && i.id in t.instances && t.instances[i.id] == i && Live(i.id, offer.0, offer.1) in t.live
  }

  lemma ServedIsCaptured(t: Tables, s: Selection, i: Instance, offer: (Key, Version))
    requires s.status == Status.Resolved && s.provider.Some? && Serves(t, s.provider.value, i, offer)
    requires Accepts(s.requirement, offer.0, offer.1)
    ensures Captures(t, s) && IdOf(t.InstanceFor(s.provider.value)) == Some(i.id)
  {
  }

  lemma AddedServes(t: Tables, i: Instance, own: (Key, Version), e: Id)
    requires i.id !in t.issued && i.state == Active
    ensures i.id !in t.instances ==> Serves(t.Added(i, {own}), i.entry, i, own)
    ensures e != i.entry && e !in t.byEntry ==> e !in t.Added(i, {own}).byEntry && t.Added(i, {own}).InstanceFor(e) == None
    ensures forall j, theirs :: e != i.entry && Serves(t, e, j, theirs) && i.id !in t.instances ==> Serves(t.Added(i, {own}), e, j, theirs)
  {
    assert own in {own};
  }

  /** Mounting an entry that finds its provider. */
  lemma MountsBound(entry: Entry, s: Selection, o: Outcome, p: Progress, i: Instance, theirs: (Key, Version), own: (Key, Version))
    returns (j: Instance)
    requires o.ok && Remounts(entry, s, p.tables) && o.offers == {own} && o.id !in p.tables.issued && p.tables.instances.Keys <= p.tables.issued
    requires Serves(p.tables, s.provider.value, i, theirs) && Accepts(s.requirement, theirs.0, theirs.1)
    ensures var q := Step(entry, [s], o, p);
      && !q.failed && q.ordered == p.ordered + [j]
      && j.id == o.id && j.resolved == map[s.requirement.name := i.id] && OnlyBoundTo(j, Some(i.id))
      && Serves(q.tables, entry.id, j, own) && Serves(q.tables, s.provider.value, i, theirs)
      && q.tables.issued == p.tables.issued + {o.id} && q.tables.instances.Keys <= q.tables.issued
  {
    hide Step, Accepts, Captures, Serves, OnlyBoundTo;
    j := MountsAnew(entry, s, o, p);
    ServedIsCaptured(p.tables, s, i, theirs);
    AddedServes(p.tables, j, own, s.provider.value);
  }

  /** Mounting an entry whose provider is not there yet. */
  lemma MountsUnbound(entry: Entry, s: Selection, o: Outcome, p: Progress, own: (Key, Version)) returns (j: Instance)
    requires o.ok && Remounts(entry, s, p.tables) && o.offers == {own} && o.id !in p.tables.issued && p.tables.instances.Keys <= p.tables.issued
    requires s.provider.value !in p.tables.byEntry
    ensures var q := Step(entry, [s], o, p);
      && !q.failed && q.ordered == p.ordered + [j]
      && j.id == o.id && j.resolved == map[] && OnlyBoundTo(j, None)
      && Serves(q.tables, entry.id, j, own) && q.tables.InstanceFor(s.provider.value) == None
      && q.tables.issued == p.tables.issued + {o.id} && q.tables.instances.Keys <= q.tables.issued
  {
    hide Step, Accepts, Serves, OnlyBoundTo;
    j := MountsAnew(entry, s, o, p);
    AddedServes(p.tables, j, own, s.provider.value);
  }

  lemma ServedId(t: Tables, e: Id, i: Instance, offer: (Key, Version))
    requires Serves(t, e, i, offer)
    ensures i.entry == e && i.id in t.issued && t.InstanceFor(e) == Some(i) && i.state == Active
    ensures i.id in t.instances && t.instances[i.id] == i && Live(i.id, offer.0, offer.1) in t.live
  {
  }

  lemma RemountsWhenBoundElsewhere(entry: Entry, s: Selection, t: Tables, own: Instance, mine: (Key, Version),
                                   i: Instance, theirs: (Key, Version), was: Option<Id>)
    requires s.status == Status.Resolved && s.provider.Some? && s.provider.value != entry.id
    requires Serves(t, entry.id, own, mine) && OnlyBoundTo(own, was) && Serves(t, s.provider.value, i, theirs) && was != Some(i.id)
    ensures Remounts(entry, s, t)
  {
  }

  lemma NothingMounted(entry: Entry, s: Selection, t: Tables)
    requires s.status == Status.Resolved && s.provider.Some? && s.provider.value != entry.id && t.InstanceFor(entry.id).None?
    ensures Remounts(entry, s, t)
  {
  }

  /** An entry that selects nothing, with nothing to keep or with another revision than its own. */
  lemma MountsPlain(entry: Entry, o: Outcome, p: Progress, own: (Key, Version)) returns (i: Instance)
    requires o.ok && o.offers == {own} && o.id !in p.tables.issued && p.tables.instances.Keys <= p.tables.issued
    requires var existing := p.tables.InstanceFor(entry.id);
      existing.None? || (existing.value.state == Active && existing.value.revision != entry.revision)
    ensures var q := Step(entry, [], o, p);
      && !q.failed && q.ordered == p.ordered + [i] && q.tables == p.tables.Added(i, {own})
      && i.id == o.id && i.revision == entry.revision && i.identity == Some(IdentityOf(entry, [], map[]))
      && Serves(q.tables, entry.id, i, own) && q.tables.instances.Keys <= q.tables.issued
  {
    assert Answers(p.tables, p.identities, []) == map[];
    hide IdentityOf, Captured;
    i := Instance(o.id, entry.id, entry.revision, Active, Some(IdentityOf(entry, [], map[])), Captured(p.tables, []));
    assert own in {own};
  }

  /** Filing one more instance leaves everything else where it is. */
  lemma OthersStay(t: Tables, i: Instance, own: (Key, Version), e: Id)
    requires i.id !in t.issued && t.instances.Keys <= t.issued && e != i.entry
    ensures var u := t.Added(i, {own});
      && u.instances.Keys <= u.issued && u.issued == t.issued + {i.id} && t.live <= u.live
      && (e in u.byEntry <==> e in t.byEntry) && (e !in t.byEntry ==> u.InstanceFor(e) == None)
      && (t.InstanceFor(e).Some? ==> u.InstanceFor(e) == t.InstanceFor(e))
      && (forall id :: id in t.instances ==> id in u.instances && u.instances[id] == t.instances[id])
  {
  }
}
