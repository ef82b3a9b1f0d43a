/** An instance can outlive a replacement of its provider: it is kept active for a leased
    generation while its entry is pending, and rebuilt later although nothing about it changed. */
module Outlived {
  import opened Wrappers
  import opened Ordering
  import opened Keys
  import opened Resolver
  import opened Identity
  import opened Registry
  import opened Reuse
  import opened Reconcile
  import opened Mounting

  /** A provider before and after it is replaced, a rival that offers the same, and a consumer,
      which selects the provider as long as the rival is not there. */
  datatype Rivalry = Rivalry(was: Entry, now: Entry, rival: Entry, consumer: Entry, s: Selection,
                             x: (Key, Version), z: (Key, Version), w: (Key, Version))
  {
    ghost predicate Valid() {
      && was.id == now.id && was.revision != now.revision
      && now.id != rival.id && now.id != consumer.id && rival.id != consumer.id
      && s.provider == Some(now.id) && s.status == Status.Resolved && Accepts(s.requirement, x.0, x.1)
    }

    /** Provider and consumer, as long as there is one choice. */
    function Together(): Agenda { Agenda([now.id, consumer.id], map[now.id := [], consumer.id := [s]]) }

    /** With the rival installed the consumer is ambiguous, hence pending. */
    function Contested(): Agenda { Agenda([now.id, rival.id], map[now.id := [], rival.id := []]) }

    function AtFirst(): map<Id, Entry> { map[was.id := was, consumer.id := consumer] }
    function Meanwhile(): map<Id, Entry> { map[now.id := now, rival.id := rival, consumer.id := consumer] }
    function AtLast(): map<Id, Entry> { map[now.id := now, consumer.id := consumer] }

    ghost predicate Setups(outcomes: map<Id, Outcome>, other: Id, offer: (Key, Version)) {
      && outcomes.Keys == {now.id, other}
      && outcomes[now.id].ok && outcomes[now.id].offers == {x} && outcomes[other].ok && outcomes[other].offers == {offer}
    }
  }

  lemma TogetherSteps(v: Rivalry, entries: map<Id, Entry>, outcomes: map<Id, Outcome>, t: Tables)
    requires v.Valid() && v.Setups(outcomes, v.consumer.id, v.w) && v.now.id in entries && v.consumer.id in entries
    ensures |v.Together().order| == 2 && v.Together().order[0] in outcomes && v.Together().order[1] in outcomes
    ensures var one := Step(entries[v.now.id], [], outcomes[v.now.id], Progress(t, map[], [], [], false));
      After(v.Together(), entries, outcomes, t, 2)
        == if one.failed then one else Step(entries[v.consumer.id], [v.s], outcomes[v.consumer.id], one)
  {
    hide Step, Accepts;
    var start := After(v.Together(), entries, outcomes, t, 0);
    var one := After(v.Together(), entries, outcomes, t, 1);
    assert v.Together().SelectionsOf(v.now.id) == [] && v.Together().SelectionsOf(v.consumer.id) == [v.s];
  }

  lemma ContestedSteps(v: Rivalry, outcomes: map<Id, Outcome>, t: Tables)
    requires v.Valid() && v.Setups(outcomes, v.rival.id, v.z)
    ensures |v.Contested().order| == 2 && v.Contested().order[0] in outcomes && v.Contested().order[1] in outcomes
    ensures var one := Step(v.now, [], outcomes[v.now.id], Progress(t, map[], [], [], false));
      After(v.Contested(), v.Meanwhile(), outcomes, t, 2)
        == if one.failed then one else Step(v.rival, [], outcomes[v.rival.id], one)
  {
    hide Step, Accepts;
    var start := After(v.Contested(), v.Meanwhile(), outcomes, t, 0);
    var one := After(v.Contested(), v.Meanwhile(), outcomes, t, 1);
    assert v.Contested().SelectionsOf(v.now.id) == [] && v.Contested().SelectionsOf(v.rival.id) == [];
  }

  lemma FreshMeans(v: Rivalry, outcomes: map<Id, Outcome>, other: Id, offer: (Key, Version), issued: set<Id>)
    requires v.Valid() && v.Setups(outcomes, other, offer) && other != v.now.id && Fresh(outcomes, issued)
    ensures outcomes[v.now.id].id != outcomes[other].id && outcomes[v.now.id].id !in issued && outcomes[other].id !in issued
  {
    hide Accepts;
  }

  /** The consumer's newest instance, active and with nothing of its own changed, bound to `p`. */
  ghost predicate Consumes(v: Rivalry, t: Tables, c: Instance, p: Id) {
    && t.InstanceFor(v.consumer.id) == Some(c) && c.state == Active && c.revision == v.consumer.revision
    && c.resolved == map[v.s.requirement.name := p]
    && exists answers: map<Id, Answer> :: RecordsAnswers(v, c, answers) && answers[v.now.id].instance == Some(p)
  }

  ghost predicate RecordsAnswers(v: Rivalry, c: Instance, answers: map<Id, Answer>) {
    Answered([v.s], answers) && v.now.id in answers && c.identity == Some(IdentityOf(v.consumer, [v.s], answers))
  }

  ghost predicate Filed(t: Tables) {
    t.instances.Keys <= t.issued
  }

  /** First the provider is mounted, then the consumer, which captures it. */
  lemma FirstRound(v: Rivalry, outcomes: map<Id, Outcome>) returns (p: Instance, c: Instance)
    requires v.Valid() && v.Setups(outcomes, v.consumer.id, v.w) && Fresh(outcomes, {})
    ensures var q := After(v.Together(), v.AtFirst(), outcomes, NO_WORLD.tables, 2);
      && !q.failed && q.ordered == [p, c] && Filed(q.tables) && v.rival.id !in q.tables.byEntry
      && q.tables.issued == {outcomes[v.now.id].id, outcomes[v.consumer.id].id}
      && Serves(q.tables, v.now.id, p, v.x) && p.revision == v.was.revision && Consumes(v, q.tables, c, p.id)
  {
    hide *;
    var start := Progress(NO_WORLD.tables, map[], [], [], false);
    NothingYet(v);
    TogetherSteps(v, v.AtFirst(), outcomes, NO_WORLD.tables);
    FreshMeans(v, outcomes, v.consumer.id, v.w, {});
    SetupsMean(v, outcomes, v.consumer.id, v.w);
    p := MountsPlain(v.was, outcomes[v.now.id], start, v.x);
    var one := Step(v.was, [], outcomes[v.now.id], start);
    ServedId(one.tables, v.was.id, p, v.x);
    RivalryMeans(v);
    OthersStay(NO_WORLD.tables, p, v.x, v.consumer.id);
    OthersStay(NO_WORLD.tables, p, v.x, v.rival.id);
    FiledIff(one.tables);
    c := ConsumerMounts(v, outcomes[v.consumer.id], one, p);
    assert start.ordered + [p] == [p];
  }

  lemma NothingYet(v: Rivalry)
    ensures NO_WORLD.tables.issued == {} && NO_WORLD.tables.instances.Keys == {}
    ensures forall e :: e !in NO_WORLD.tables.byEntry && NO_WORLD.tables.InstanceFor(e) == None
    ensures v.was.id in v.AtFirst() && v.consumer.id in v.AtFirst() && v.AtFirst()[v.consumer.id] == v.consumer
    ensures v.Valid() ==> v.AtFirst()[v.now.id] == v.was && v.now.id != v.consumer.id && v.rival.id != v.now.id && v.was.id == v.now.id
  {
  }

  lemma SetupsMean(v: Rivalry, outcomes: map<Id, Outcome>, other: Id, offer: (Key, Version))
    requires v.Setups(outcomes, other, offer)
    ensures v.now.id in outcomes && outcomes[v.now.id].ok && outcomes[v.now.id].offers == {v.x}
    ensures other in outcomes && outcomes[other].ok && outcomes[other].offers == {offer}
  {
  }

  lemma FiledIff(t: Tables)
    ensures Filed(t) <==> t.instances.Keys <= t.issued
  {
  }

  lemma ConsumerMounts(v: Rivalry, o: Outcome, q: Progress, p: Instance) returns (c: Instance)
    requires v.Valid() && o.ok && o.offers == {v.w} && o.id !in q.tables.issued && Filed(q.tables)
    requires Serves(q.tables, v.now.id, p, v.x) && v.consumer.id !in q.tables.byEntry && v.rival.id !in q.tables.byEntry
    ensures var r := Step(v.consumer, [v.s], o, q);
      && !r.failed && r.ordered == q.ordered + [c] && Filed(r.tables) && v.rival.id !in r.tables.byEntry
      && r.tables.issued == q.tables.issued + {o.id}
      && Serves(r.tables, v.now.id, p, v.x) && Consumes(v, r.tables, c, p.id)
  {
    var answers := Answers(q.tables, q.identities, [v.s]);
    NothingMounted(v.consumer, v.s, q.tables);
    ServedIsCaptured(q.tables, v.s, p, v.x);
    CapturedOne(q.tables, v.s);
    assert v.s in [v.s] && v.now.id in ProvidersOf([v.s]);
    assert answers[v.now.id].instance == Some(p.id);
    hide IdentityOf, Captured, Captures, Accepts, Serves;
    c := Instance(o.id, v.consumer.id, v.consumer.revision, Active, Some(IdentityOf(v.consumer, [v.s], answers)), Captured(q.tables, [v.s]));
    assert RecordsAnswers(v, c, answers);
    AddedServes(q.tables, c, v.w, v.now.id);
  }

  /** Then the provider is replaced, the rival mounted, and the consumer left as it is. */
  lemma SecondRound(v: Rivalry, t: Tables, outcomes: map<Id, Outcome>, p: Instance, c: Instance) returns (q: Instance, r: Instance)
    requires v.Valid() && v.Setups(outcomes, v.rival.id, v.z) && Fresh(outcomes, t.issued) && Filed(t)
    requires Serves(t, v.now.id, p, v.x) && p.revision == v.was.revision && Consumes(v, t, c, p.id) && v.rival.id !in t.byEntry
    ensures var u := After(v.Contested(), v.Meanwhile(), outcomes, t, 2);
      && !u.failed && u.ordered == [q, r] && Filed(u.tables)
      && u.tables.issued == t.issued + {outcomes[v.now.id].id, outcomes[v.rival.id].id}
      && Serves(u.tables, v.now.id, q, v.x) && q.revision == v.now.revision && q.identity == Some(IdentityOf(v.now, [], map[]))
      && Consumes(v, u.tables, c, p.id) && q.id != p.id
      && p.id in u.tables.instances && u.tables.instances[p.id] == p && p.state == Active && Live(p.id, v.x.0, v.x.1) in u.tables.live
  {
    hide *;
    var start := Progress(t, map[], [], [], false);
    RivalryMeans(v);
    ContestedSteps(v, outcomes, t);
    FreshMeans(v, outcomes, v.rival.id, v.z, t.issued);
    SetupsMean(v, outcomes, v.rival.id, v.z);
    ServedId(t, v.now.id, p, v.x);
    FiledIff(t);
    q := MountsPlain(v.now, outcomes[v.now.id], start, v.x);
    var one := Step(v.now, [], outcomes[v.now.id], start);
    ServedId(one.tables, v.now.id, q, v.x);
    OthersStay(t, q, v.x, v.rival.id);
    OthersStay(t, q, v.x, v.consumer.id);
    ConsumesStill(v, t, one.tables, c, p.id);
    r := MountsPlain(v.rival, outcomes[v.rival.id], one, v.z);
    var two := Step(v.rival, [], outcomes[v.rival.id], one);
    ServedId(two.tables, v.rival.id, r, v.z);
    OthersStay(one.tables, r, v.z, v.consumer.id);
    ConsumesStill(v, one.tables, two.tables, c, p.id);
    AddedServes(one.tables, r, v.z, v.now.id);
    FiledIff(two.tables);
    assert start.ordered + [q] == [q];
  }

  lemma RivalryMeans(v: Rivalry)
    requires v.Valid()
    ensures v.was.revision != v.now.revision && v.now.id != v.rival.id && v.now.id != v.consumer.id && v.rival.id != v.consumer.id
  {
  }

  lemma ConsumesStill(v: Rivalry, t: Tables, u: Tables, c: Instance, p: Id)
    requires Consumes(v, t, c, p) && (t.InstanceFor(v.consumer.id).Some? ==> u.InstanceFor(v.consumer.id) == t.InstanceFor(v.consumer.id))
    ensures Consumes(v, u, c, p)
  {
    hide RecordsAnswers, Tables.InstanceFor;
  }

  // ---- The third reconciliation, the rival being gone again

  /** What the second reconciliation leaves. */
  ghost predicate LeftBehind(v: Rivalry, t: Tables, q: Instance, c: Instance, p: Instance) {
    && Serves(t, v.now.id, q, v.x) && q.revision == v.now.revision && q.identity == Some(IdentityOf(v.now, [], map[]))
    && Consumes(v, t, c, p.id) && q.id != p.id
    && p.id in t.instances && t.instances[p.id] == p && p.state == Active && Live(p.id, v.x.0, v.x.1) in t.live
  }

  lemma ProviderIsUnchanged(v: Rivalry, t: Tables, q: Instance, c: Instance, p: Instance)
    requires v.Valid() && LeftBehind(v, t, q, c, p)
    ensures !Changed(t, v.now, []) && !OutOfDate(t, v.now, [])
  {
    hide Consumes, Accepts;
    assert Answers(t, map[], []) == map[];
    IdentityEquality(v.now, [], map[], IdentityOf(v.now, [], map[]));
  }

  lemma ConsumerIsUnchanged(v: Rivalry, t: Tables, q: Instance, c: Instance, p: Instance)
    requires v.Valid() && LeftBehind(v, t, q, c, p)
    ensures !Changed(t, v.consumer, [v.s])
  {
    var answers: map<Id, Answer> :| RecordsAnswers(v, c, answers) && answers[v.now.id].instance == Some(p.id);
    hide Accepts, Serves, IdentityOf;
    RecordedIsWellFormed(v.consumer, [v.s], answers);
    IdentityEquality(v.consumer, [v.s], answers, IdentityOf(v.consumer, [v.s], answers));
  }

  lemma RecordedIsWellFormed(e: Entry, ss: seq<Selection>, answers: map<Id, Answer>)
    requires Answered(ss, answers)
    ensures WellFormed(IdentityOf(e, ss, answers))
  {
  }

  lemma ConsumerIsOutOfDate(v: Rivalry, t: Tables, q: Instance, c: Instance, p: Instance)
    requires v.Valid() && LeftBehind(v, t, q, c, p)
    ensures OutOfDate(t, v.consumer, [v.s])
  {
    var answers: map<Id, Answer> :| RecordsAnswers(v, c, answers) && answers[v.now.id].instance == Some(p.id);
    OneBinding(v.consumer, v.s, answers);
    ServedId(t, v.now.id, q, v.x);
    assert v.s in [v.s] && v.now.id in ProvidersOf([v.s]);
    hide Accepts, Serves, IdentityOf;
    var i := c.identity.value;
    assert i.bindings[0].provider == Some(v.now.id) && i.bindings[0].providerInstance == Some(p.id);
    assert Answers(t, map[], [v.s])[v.now.id].instance == Some(q.id);
  }

  lemma OnlyOutOfDate(v: Rivalry, t: Tables, q: Instance, c: Instance, p: Instance)
    requires v.Valid() && LeftBehind(v, t, q, c, p)
    ensures ChangedEntries(v.Together(), v.AtLast(), t) == {}
    ensures OutOfDateEntries(v.Together(), v.AtLast(), t) == {v.consumer.id}
  {
    hide *;
    ProviderIsUnchanged(v, t, q, c, p);
    ConsumerIsUnchanged(v, t, q, c, p);
    ConsumerIsOutOfDate(v, t, q, c, p);
    OfTogether(v, t);
  }

  lemma OfTogether(v: Rivalry, t: Tables)
    requires v.Valid() && !Changed(t, v.now, []) && !Changed(t, v.consumer, [v.s])
    requires !OutOfDate(t, v.now, []) && OutOfDate(t, v.consumer, [v.s])
    ensures ChangedEntries(v.Together(), v.AtLast(), t) == {}
    ensures OutOfDateEntries(v.Together(), v.AtLast(), t) == {v.consumer.id}
  {
    hide Changed, OutOfDate, Accepts;
    var plan := v.Together();
    assert plan.SelectionsOf(v.now.id) == [] && plan.SelectionsOf(v.consumer.id) == [v.s];
    assert v.consumer.id in plan.order;
  }

  lemma OnlyTheConsumer(v: Rivalry)
    requires v.Valid()
    ensures AllSpread(v.Together(), {} + {v.consumer.id}) == {v.consumer.id}
  {
    var plan, base := v.Together(), {} + {v.consumer.id};
    hide Accepts;
    assert plan.SelectionsOf(v.now.id) == [];
    assert Spread(plan, base, 0) == {};
    assert Spread(plan, base, 1) == {};
    assert Spread(plan, base, 2) == {v.consumer.id};
  }

  lemma TogetherIsOrdered(v: Rivalry)
    requires v.Valid()
    ensures ProvidersFirst(v.Together())
  {
    var plan := v.Together();
    hide Accepts;
    assert plan.SelectionsOf(v.now.id) == [] && plan.SelectionsOf(v.consumer.id) == [v.s];
    assert plan.order[..1] == [v.now.id];
  }

  lemma ContestedIsOrdered(v: Rivalry)
    requires v.Valid()
    ensures ProvidersFirst(v.Contested())
  {
    var plan := v.Contested();
    hide Accepts;
    assert plan.SelectionsOf(v.now.id) == [] && plan.SelectionsOf(v.rival.id) == [];
  }

  // ---- The run

  function Ids(outcomes: map<Id, Outcome>): set<Id> {
    set e | e in outcomes :: outcomes[e].id
  }

  /** The outcomes of the three setups, with ids that are all new. */
  ghost predicate Outcomes(v: Rivalry, first: map<Id, Outcome>, second: map<Id, Outcome>, third: map<Id, Outcome>) {
    && v.Setups(first, v.consumer.id, v.w) && v.Setups(second, v.rival.id, v.z) && v.Setups(third, v.consumer.id, v.w)
    && Fresh(first, {}) && Fresh(second, Ids(first)) && Fresh(third, Ids(first) + Ids(second))
  }

  lemma IdsOf(v: Rivalry, outcomes: map<Id, Outcome>, other: Id, offer: (Key, Version))
    requires v.Setups(outcomes, other, offer)
    ensures Ids(outcomes) == {outcomes[v.now.id].id, outcomes[other].id}
  {
  }

  lemma RoundsArePossible(v: Rivalry, outcomes: map<Id, Outcome>, t: Tables)
    requires v.Valid() && Fresh(outcomes, t.issued)
    ensures v.Setups(outcomes, v.consumer.id, v.w) ==> Possible(v.Together(), v.AtFirst(), outcomes, t)
    ensures v.Setups(outcomes, v.consumer.id, v.w) ==> Possible(v.Together(), v.AtLast(), outcomes, t)
    ensures v.Setups(outcomes, v.rival.id, v.z) ==> Possible(v.Contested(), v.Meanwhile(), outcomes, t)
  {
    hide Accepts, Fresh;
  }

  /** The first two reconciliations; the first generation staying leased, nothing is disposed. */
  lemma TwoGenerations(v: Rivalry, first: map<Id, Outcome>, second: map<Id, Outcome>, third: map<Id, Outcome>)
    returns (worlds: seq<World>, events: seq<Event>, p: Instance, c: Instance, q: Instance)
    requires v.Valid() && Outcomes(v, first, second, third)
    ensures Reconcile.IsRun(worlds, events) && |worlds| == 3
    ensures events == [Reconciled(v.Together(), v.AtFirst(), first), Reconciled(v.Contested(), v.Meanwhile(), second)]
    ensures |worlds[1].published| == 1 && worlds[1].published[0] == [p, c]
    ensures LeftBehind(v, worlds[2].tables, q, c, p) && Fresh(third, worlds[2].tables.issued)
  {
    hide *;
    OutcomesMean(v, first, second, third);
    var e, f := Reconciled(v.Together(), v.AtFirst(), first), Reconciled(v.Contested(), v.Meanwhile(), second);
    p, c := FirstRound(v, first);
    TogetherIn(v, first);
    NothingYet(v);
    RoundsArePossible(v, first, NO_WORLD.tables);
    var t := After(v.Together(), v.AtFirst(), first, NO_WORLD.tables, 2);
    RoundOf(NO_WORLD, e, t);
    IdsOf(v, first, v.consumer.id, v.w);
    var w := World(t.tables, NO_WORLD.published + [t.ordered]);
    var r;
    q, r := SecondRound(v, t.tables, second, p, c);
    ContestedIn(v, second);
    RoundsArePossible(v, second, t.tables);
    var u := After(v.Contested(), v.Meanwhile(), second, t.tables, 2);
    RoundOf(w, f, u);
    IdsOf(v, second, v.rival.id, v.z);
    LeftBehindIf(v, u.tables, q, c, p);
    worlds, events := [NO_WORLD, w, World(u.tables, w.published + [u.ordered])], [e, f];
    TwoRounds(w, worlds[2], e, f);
  }

  lemma OutcomesMean(v: Rivalry, first: map<Id, Outcome>, second: map<Id, Outcome>, third: map<Id, Outcome>)
    requires Outcomes(v, first, second, third)
    ensures v.Setups(first, v.consumer.id, v.w) && v.Setups(second, v.rival.id, v.z) && v.Setups(third, v.consumer.id, v.w)
    ensures Fresh(first, {}) && Fresh(second, Ids(first)) && Fresh(third, Ids(first) + Ids(second))
  {
  }

  lemma TogetherIn(v: Rivalry, outcomes: map<Id, Outcome>)
    requires v.Setups(outcomes, v.consumer.id, v.w)
    ensures |v.Together().order| == 2 && v.Together().order[0] in outcomes && v.Together().order[1] in outcomes
    ensures NO_WORLD.published == []
  {
  }

  lemma ContestedIn(v: Rivalry, outcomes: map<Id, Outcome>)
    requires v.Setups(outcomes, v.rival.id, v.z)
    ensures |v.Contested().order| == 2 && v.Contested().order[0] in outcomes && v.Contested().order[1] in outcomes
  {
  }

  lemma LeftBehindIf(v: Rivalry, t: Tables, q: Instance, c: Instance, p: Instance)
    requires Serves(t, v.now.id, q, v.x) && q.revision == v.now.revision && q.identity == Some(IdentityOf(v.now, [], map[]))
    requires Consumes(v, t, c, p.id) && q.id != p.id
    requires p.id in t.instances && t.instances[p.id] == p && p.state == Active && Live(p.id, v.x.0, v.x.1) in t.live
    ensures LeftBehind(v, t, q, c, p)
  {
  }

  /** When the rival is gone again nothing about any entry has changed since its instance was
      mounted, and yet the consumer is rebuilt: it is bound to the instance from before. */
  lemma OutOfDateIsNotChanged(v: Rivalry, first: map<Id, Outcome>, second: map<Id, Outcome>, third: map<Id, Outcome>)
    returns (worlds: seq<World>, events: seq<Event>)
    requires v.Valid() && Outcomes(v, first, second, third)
    ensures Reconcile.IsRun(worlds, events) && |worlds| == 3 && forall e :: e in events ==> e.Reconciled? && Ordered(e)
    ensures var t := worlds[2].tables;
      && Legal(v.Together(), v.AtLast(), third, t)
      && ChangedEntries(v.Together(), v.AtLast(), t) == {}
      && Rebuilt(After(v.Together(), v.AtLast(), third, t, |v.Together().order|)) == {v.consumer.id}
  {
    hide *;
    var p, c, q;
    worlds, events, p, c, q := TwoGenerations(v, first, second, third);
    EventsAreOrdered(v, events, first, second);
    EveryGenerationIsClosed(worlds, events, 2);
    var t := worlds[2].tables;
    OutcomesMean(v, first, second, third);
    LastIsLegal(v, third, t);
    OnlyOutOfDate(v, t, q, c, p);
    LastSucceeds(v, third, t);
    ReuseIsExact(v.Together(), v.AtLast(), third, t);
    OnlyTheConsumer(v);
  }

  lemma EventsAreOrdered(v: Rivalry, events: seq<Event>, first: map<Id, Outcome>, second: map<Id, Outcome>)
    requires v.Valid()
    requires events == [Reconciled(v.Together(), v.AtFirst(), first), Reconciled(v.Contested(), v.Meanwhile(), second)]
    ensures forall e :: e in events ==> e.Reconciled? && Ordered(e)
  {
    TogetherIsOrdered(v);
    ContestedIsOrdered(v);
    hide ProvidersFirst;
  }

  lemma LastIsLegal(v: Rivalry, third: map<Id, Outcome>, t: Tables)
    requires v.Valid() && v.Setups(third, v.consumer.id, v.w) && Fresh(third, t.issued) && Consistent(t)
    ensures Legal(v.Together(), v.AtLast(), third, t)
  {
    TogetherIsOrdered(v);
    RoundsArePossible(v, third, t);
    hide ProvidersFirst, Fresh, Consistent, Installed;
  }

  lemma LastSucceeds(v: Rivalry, third: map<Id, Outcome>, t: Tables)
    requires v.Setups(third, v.consumer.id, v.w)
    ensures (forall e :: e in v.Together().order ==> e in third) && !After(v.Together(), v.AtLast(), third, t, |v.Together().order|).failed
  {
    hide After;
    AllSetupsSucceed(v.Together(), v.AtLast(), third, t, |v.Together().order|);
  }
}
