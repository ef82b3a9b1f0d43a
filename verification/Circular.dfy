/** Two entries that each optionally require what the other provides: no cycle is reported, no
    order can put both first, and what gets published reaches outside itself. */
module Circular {
  import opened Wrappers
  import opened Ordering
  import opened Graphs
  import opened Keys
  import opened Scopes
  import opened Resolver
  import opened Activation
  import opened Planning
  import opened Identity
  import opened Registry
  import opened Reuse
  import opened Reconcile
  import opened Agendas
  import opened Flat
  import opened Mounting

  const WANTS_X: Requirement := Requirement("x", None, [], true)
  const WANTS_Y: Requirement := Requirement("y", None, [], true)

  /** `a` provides `x` and would like `y`, `b` the other way round; active or not. */
  ghost predicate IsPair(ctx: Context, x: ProviderOption, y: ProviderOption) {
    && IsFlat(ctx) && |ctx.candidates| == 2
    && (var a, b := ctx.candidates[0], ctx.candidates[1];
        && a.entry == "a" && a.required == [] && a.optional == [WANTS_Y] && OptionsOf(a) == [x]
        && b.entry == "b" && b.required == [] && b.optional == [WANTS_X] && OptionsOf(b) == [y])
    && x.key.name == "x" && y.key.name == "y" && Accepts(WANTS_X, x.key, x.version) && Accepts(WANTS_Y, y.key, y.version)
  }

  const BOTH: set<Id> := {"a", "b"}

  lemma PairIsValid(ctx: Context, x: ProviderOption, y: ProviderOption)
    requires IsPair(ctx, x, y)
    ensures ctx.Valid() && ctx.Entries() == BOTH
  {
    var a, b := ctx.candidates[0], ctx.candidates[1];
    hide ScopeIndex.Valid, Accepts, OptionsOf, Context.Valid, Context.Entries, IsFlat;
    assert forall c :: c in ctx.candidates ==> c == a || c == b;
    TwoAreValid(ctx);
  }

  lemma PairEntries(ctx: Context, x: ProviderOption, y: ProviderOption)
    requires IsPair(ctx, x, y)
    ensures x.entry == "a" && y.entry == "b" && ctx.candidates[0].scope == ctx.candidates[1].scope == ROOT
  {
    var a, b := ctx.candidates[0], ctx.candidates[1];
    assert a in ctx.candidates && b in ctx.candidates;
    assert x in OptionsOf(a) && y in OptionsOf(b);
    hide Accepts, OptionsOf;
    OptionsCarryTheirCandidate(a, x);
    OptionsCarryTheirCandidate(b, y);
  }

  lemma PairOffers(ctx: Context, x: ProviderOption, y: ProviderOption)
    requires IsPair(ctx, x, y)
    ensures ScopeOptions(ctx.candidates, ROOT, "x") == [x] && ScopeOptions(ctx.candidates, ROOT, "y") == [y]
  {
    PairEntries(ctx, x, y);
    var a, b := ctx.candidates[0], ctx.candidates[1];
    assert ctx.candidates == [a, b];
    hide OptionsOf, Offered, ScopeOptions, Accepts;
    OffersOfTwo(a, b, "x");
    OffersOfTwo(a, b, "y");
    OfferedOnce(a, x, "x");
    OfferedOnce(a, x, "y");
    OfferedOnce(b, y, "x");
    OfferedOnce(b, y, "y");
  }

  /** Each finds the other. */
  lemma PairResolves(ctx: Context, x: ProviderOption, y: ProviderOption)
    requires IsPair(ctx, x, y)
    ensures ROOT in ctx.index.lineages && ROOT in ctx.index.allowed
    ensures ctx.candidates[0].scope == ctx.candidates[1].scope == ROOT
    ensures ResolveRequirements(ctx, BOTH, ctx.candidates[0]) == [Resolution(WANTS_Y, Status.Resolved, Some(y))]
    ensures ResolveRequirements(ctx, BOTH, ctx.candidates[1]) == [Resolution(WANTS_X, Status.Resolved, Some(x))]
  {
    hide ResolveOne, OptionsOf, Offered, Context.Valid, ScopeOptions, Accepts, ResolveRequirements;
    PairEntries(ctx, x, y);
    PairOffers(ctx, x, y);
    var a, b := ctx.candidates[0], ctx.candidates[1];
    OnlyChoice(ctx, BOTH, a, WANTS_Y, y);
    OnlyChoice(ctx, BOTH, b, WANTS_X, x);
    assert a.required + a.optional == [WANTS_Y] && b.required + b.optional == [WANTS_X];
    OneRequired(ctx, BOTH, a, WANTS_Y);
    OneRequired(ctx, BOTH, b, WANTS_X);
  }

  /** Nothing blocks an entry that requires nothing. */
  lemma PairIsEligible(ctx: Context, x: ProviderOption, y: ProviderOption)
    requires IsPair(ctx, x, y)
    ensures ctx.Valid() && Settled(ctx, ctx.Entries()) == BOTH
  {
    hide ResolveRequirements, Context.Valid, Context.Entries, Accepts, OptionsOf, IsFlat, Settled, Blocked;
    PairIsValid(ctx, x, y);
    PairResolves(ctx, x, y);
    ResolvedIsNotBlocked(WANTS_Y, y);
    ResolvedIsNotBlocked(WANTS_X, x);
    BothSurvive(ctx, BOTH);
  }

  lemma PairDeclaresNothing(ctx: Context, x: ProviderOption, y: ProviderOption, declared: Graph)
    requires IsPair(ctx, x, y) && ctx.Valid() && IsDeclaredGraph(ctx, declared)
    ensures Acyclic(declared)
  {
    forall p, c ensures !DeclaredEdge(ctx, p, c) {
      NoneDeclared(ctx, x, y, p, c);
    }
    hide IsPair, Context.Valid, DeclaredEdge, OnCycle;
    forall n ensures !OnCycle(declared, n) {
      if OnCycle(declared, n) {
        CycleHasAnEdge(declared, n);
      }
    }
  }

  lemma NoneDeclared(ctx: Context, x: ProviderOption, y: ProviderOption, p: Id, c: Id)
    requires IsPair(ctx, x, y) && ctx.Valid()
    ensures !DeclaredEdge(ctx, p, c)
  {
    hide Accepts, OptionsOf, DeclaredOptions, ScopeIndex.Valid, ScopeIndex.CanSee;
    assert forall c :: c in ctx.candidates ==> c.required == [];
  }

  const PAIR_EDGES: Edges := {("a", "b"), ("b", "a")}

  /** Whatever id comes first, its provider does not come before it. */
  lemma PairHasNoOrder(order: seq<Id>, m: nat)
    requires IsPermutationOf(order, BOTH) && FollowsKahn(BOTH, PAIR_EDGES, order, m)
    ensures order == ["a", "b"] && !Topological(BOTH, PAIR_EDGES, order)
  {
    hide ReadySet, Providers, Sorted, Distinct, FollowsKahn, IsPermutationOf;
    NobodyFirst(order[..0]);
    StuckAtOnce(BOTH, PAIR_EDGES, order, m);
    SortedPair("a", "b");
    assert order[..0] == [] && Elements(order[..0]) == {} && "b" in Providers(BOTH, PAIR_EDGES, order[0]);
  }

  lemma StuckAtOnce(nodes: set<Id>, edges: Edges, order: seq<Id>, m: nat)
    requires FollowsKahn(nodes, edges, order, m) && ReadySet(nodes, edges, order[..0]) == {}
    ensures m == 0 && order == Sorted(nodes)
  {
    hide ReadySet, Sorted;
    assert order == order[0..] && Elements(order[..0]) == {} && nodes - {} == nodes;
  }

  lemma NobodyFirst(none: seq<Id>)
    requires none == []
    ensures Providers(BOTH, PAIR_EDGES, "a") == {"b"} && ReadySet(BOTH, PAIR_EDGES, none) == {}
  {
    assert Providers(BOTH, PAIR_EDGES, "a") == {"b"} && Providers(BOTH, PAIR_EDGES, "b") == {"a"};
    assert Elements(none) == {};
  }

  /** The plan that comes out: no cycle reported, both eligible, edges both ways, and an order
      that is not topological. */
  method ResolvePair(ctx: Context, x: ProviderOption, y: ProviderOption) returns (plan: Plan)
    requires IsPair(ctx, x, y)
    ensures plan.cycles == [] && plan.eligible == BOTH && plan.edges == PAIR_EDGES
    ensures plan.order == ["a", "b"] && !Topological(plan.eligible, plan.edges, plan.order)
    ensures AgendaOf(plan) == PAIR_AGENDA
  {
    PairIsEligible(ctx, x, y);
    ghost var declared;
    plan, declared := Resolve(ctx);
    PairDeclaresNothing(ctx, x, y, declared);
    hide *;
    PairPlan(ctx, x, y, plan);
  }

  const PAIR_AGENDA: Agenda := Agenda(["a", "b"],
    map["a" := [Selection(WANTS_Y, Some("b"), Status.Resolved)], "b" := [Selection(WANTS_X, Some("a"), Status.Resolved)]])

  lemma PairPlan(ctx: Context, x: ProviderOption, y: ProviderOption, plan: Plan)
    requires IsPair(ctx, x, y) && ctx.Valid() && plan.eligible == BOTH && plan.cycles == []
    requires StoredResolutions(ctx, plan.eligible, plan.resolutions) && plan.resolutions.Keys == plan.eligible
    requires forall p, c :: (p, c) in plan.edges <==> c in plan.eligible && p != c && BindsTo(plan.resolutions[c], p)
    requires IsPermutationOf(plan.order, plan.eligible - Members(plan.cycles))
    requires exists m :: FollowsKahn(plan.eligible - Members(plan.cycles), plan.edges, plan.order, m)
    ensures plan.edges == PAIR_EDGES && plan.order == ["a", "b"] && !Topological(plan.eligible, plan.edges, plan.order)
    ensures AgendaOf(plan) == PAIR_AGENDA
  {
    hide *;
    PairBindings(ctx, x, y, plan);
    PairEdges(plan);
    NoMembers();
    var m :| FollowsKahn(BOTH, plan.edges, plan.order, m);
    PairHasNoOrder(plan.order, m);
    PairAgenda(plan, x, y);
  }

  lemma NoMembers()
    ensures Members([]) == {} && BOTH - {} == BOTH
  {
  }

  lemma PairEdges(plan: Plan)
    requires plan.eligible == plan.resolutions.Keys == BOTH
    requires forall p :: BindsTo(plan.resolutions["a"], p) <==> p == "b"
    requires forall p :: BindsTo(plan.resolutions["b"], p) <==> p == "a"
    requires forall p, c :: (p, c) in plan.edges <==> c in plan.eligible && p != c && BindsTo(plan.resolutions[c], p)
    ensures plan.edges == PAIR_EDGES
  {
    hide BindsTo;
    forall e: (Id, Id) ensures e in plan.edges <==> e in PAIR_EDGES {
      assert e == (e.0, e.1) && (e.1 in plan.eligible ==> e.1 == "a" || e.1 == "b");
    }
  }

  lemma PairBindings(ctx: Context, x: ProviderOption, y: ProviderOption, plan: Plan)
    requires IsPair(ctx, x, y) && ctx.Valid() && plan.eligible == BOTH
    requires StoredResolutions(ctx, plan.eligible, plan.resolutions) && plan.resolutions.Keys == plan.eligible
    ensures x.entry == "a" && y.entry == "b"
    ensures plan.resolutions["a"] == [Resolution(WANTS_Y, Status.Resolved, Some(y))]
    ensures plan.resolutions["b"] == [Resolution(WANTS_X, Status.Resolved, Some(x))]
    ensures forall p :: BindsTo(plan.resolutions["a"], p) <==> p == "b"
    ensures forall p :: BindsTo(plan.resolutions["b"], p) <==> p == "a"
  {
    hide ResolveRequirements, Context.Valid, Accepts, OptionsOf, BindsTo, IsFlat;
    PairEntries(ctx, x, y);
    PairResolves(ctx, x, y);
    assert ctx.candidates[0].entry in plan.eligible && ctx.candidates[1].entry in plan.eligible;
    BindsToOne(WANTS_Y, y);
    BindsToOne(WANTS_X, x);
  }

  lemma PairAgenda(plan: Plan, x: ProviderOption, y: ProviderOption)
    requires plan.order == ["a", "b"] && plan.resolutions.Keys == BOTH && x.entry == "a" && y.entry == "b"
    requires plan.resolutions["a"] == [Resolution(WANTS_Y, Status.Resolved, Some(y))]
    requires plan.resolutions["b"] == [Resolution(WANTS_X, Status.Resolved, Some(x))]
    ensures AgendaOf(plan) == PAIR_AGENDA
  {
    assert SelectionsFrom(plan.resolutions["a"]) == PAIR_AGENDA.selections["a"];
    assert SelectionsFrom(plan.resolutions["b"]) == PAIR_AGENDA.selections["b"];
  }

  // ---- What is published for it

  /** Any two entries whose plan selects each for the other, and what their setups register. */
  datatype Mutual = Mutual(e: Entry, f: Entry, s: Selection, u: Selection, x: (Key, Version), y: (Key, Version))
  {
    ghost predicate Valid() {
      && e.id != f.id && s.provider == Some(f.id) && u.provider == Some(e.id)
      && s.status == Status.Resolved && u.status == Status.Resolved
      && Accepts(s.requirement, y.0, y.1) && Accepts(u.requirement, x.0, x.1)
    }

    function Plan(): Agenda { Agenda([e.id, f.id], map[e.id := [s], f.id := [u]]) }

    function Entries(): map<Id, Entry> { map[e.id := e, f.id := f] }

    /** Both setups succeed, and register what is accepted. */
    ghost predicate Setups(outcomes: map<Id, Outcome>) {
      && outcomes.Keys == {e.id, f.id}
      && outcomes[e.id].ok && outcomes[e.id].offers == {x} && outcomes[f.id].ok && outcomes[f.id].offers == {y}
    }
  }

  lemma PairIsMutual() returns (m: Mutual)
    ensures m.Valid() && m.Plan() == PAIR_AGENDA && m.e.id == "a" && m.f.id == "b"
  {
    var x, y := (FromVersion("x", ONE), ONE), (FromVersion("y", ONE), ONE);
    m := Mutual(Entry("a", 1, ROOT, "", "", "", ""), Entry("b", 1, ROOT, "", "", "", ""),
                Selection(WANTS_Y, Some("b"), Status.Resolved), Selection(WANTS_X, Some("a"), Status.Resolved), x, y);
  }

  lemma MutualSteps(m: Mutual, outcomes: map<Id, Outcome>, t: Tables)
    requires m.Valid() && outcomes.Keys == {m.e.id, m.f.id}
    ensures |m.Plan().order| == 2
    ensures var start := Progress(t, map[], [], [], false);
      var one := Step(m.e, [m.s], outcomes[m.e.id], start);
      After(m.Plan(), m.Entries(), outcomes, t, 2) == if one.failed then one else Step(m.f, [m.u], outcomes[m.f.id], one)
  {
    hide Step, Accepts;
    var start := After(m.Plan(), m.Entries(), outcomes, t, 0);
    var one := After(m.Plan(), m.Entries(), outcomes, t, 1);
    assert m.Plan().SelectionsOf(m.e.id) == [m.s] && m.Plan().SelectionsOf(m.f.id) == [m.u];
  }

  /** What every such reconciliation leaves: the second bound to the first, the first to nothing
      current. */
  ghost predicate Askew(m: Mutual, t: Tables, i: Instance, j: Instance) {
    && m.Valid() && t.instances.Keys <= t.issued
    && Serves(t, m.e.id, i, m.x) && (exists was :: OnlyBoundTo(i, was) && was != Some(j.id))
    && Serves(t, m.f.id, j, m.y) && OnlyBoundTo(j, Some(i.id))
  }

  /** From nothing the first is mounted before there is a second, and captures nothing. */
  lemma FirstRound(m: Mutual, outcomes: map<Id, Outcome>) returns (i: Instance, j: Instance)
    requires m.Valid() && m.Setups(outcomes) && Fresh(outcomes, {})
    ensures var p := After(m.Plan(), m.Entries(), outcomes, NO_WORLD.tables, 2);
      && !p.failed && p.ordered == [i, j] && Askew(m, p.tables, i, j)
      && p.tables.issued == {outcomes[m.e.id].id, outcomes[m.f.id].id}
  {
    hide After, Step, Accepts, Serves, OnlyBoundTo, Remounts, Askew, Fresh;
    var start := Progress(NO_WORLD.tables, map[], [], [], false);
    MutualSteps(m, outcomes, NO_WORLD.tables);
    FreshMeans(m, outcomes, {});
    NothingMounted(m.e, m.s, NO_WORLD.tables);
    i := MountsUnbound(m.e, m.s, outcomes[m.e.id], start, m.x);
    var one := Step(m.e, [m.s], outcomes[m.e.id], start);
    ServedId(one.tables, m.e.id, i, m.x);
    NothingMounted(m.f, m.u, one.tables);
    j := MountsBound(m.f, m.u, outcomes[m.f.id], one, i, m.x, m.y);
    assert start.ordered + [i] == [i];
    AskewAgain(m, Step(m.f, [m.u], outcomes[m.f.id], one).tables, i, j, None);
  }

  lemma FreshMeans(m: Mutual, outcomes: map<Id, Outcome>, issued: set<Id>)
    requires m.Valid() && m.Setups(outcomes) && Fresh(outcomes, issued)
    ensures outcomes[m.e.id].id != outcomes[m.f.id].id && outcomes[m.e.id].id !in issued && outcomes[m.f.id].id !in issued
  {
    hide Accepts;
  }

  lemma AskewAgain(m: Mutual, t: Tables, i: Instance, j: Instance, was: Option<Id>)
    requires m.Valid() && t.instances.Keys <= t.issued && Serves(t, m.e.id, i, m.x) && Serves(t, m.f.id, j, m.y)
    requires OnlyBoundTo(i, was) && was != Some(j.id) && OnlyBoundTo(j, Some(i.id))
    ensures Askew(m, t, i, j)
  {
    hide Serves, OnlyBoundTo, Mutual.Valid;
  }

  lemma AskewMeans(m: Mutual, t: Tables, i: Instance, j: Instance) returns (was: Option<Id>)
    requires Askew(m, t, i, j)
    ensures m.Valid() && t.instances.Keys <= t.issued && Serves(t, m.e.id, i, m.x) && Serves(t, m.f.id, j, m.y)
    ensures OnlyBoundTo(i, was) && was != Some(j.id) && OnlyBoundTo(j, Some(i.id)) && i.id in t.issued && j.id in t.issued
  {
    was :| OnlyBoundTo(i, was) && was != Some(j.id);
    hide OnlyBoundTo, Mutual.Valid;
  }

  /** The next time the first finds another second and is mounted again, and then so is that. */
  lemma NextRound(m: Mutual, t: Tables, outcomes: map<Id, Outcome>, i: Instance, j: Instance) returns (k: Instance, l: Instance)
    requires Askew(m, t, i, j) && m.Setups(outcomes) && Fresh(outcomes, t.issued)
    ensures var q := After(m.Plan(), m.Entries(), outcomes, t, 2);
      !q.failed && q.ordered == [k, l] && Askew(m, q.tables, k, l)
    ensures k.resolved == map[m.s.requirement.name := j.id] && j.id != k.id && j.id != l.id
  {
    hide After, Step, Accepts, Serves, OnlyBoundTo, Remounts, Askew, Fresh;
    var start := Progress(t, map[], [], [], false);
    var was := AskewMeans(m, t, i, j);
    MutualSteps(m, outcomes, t);
    FreshMeans(m, outcomes, t.issued);
    RemountsWhenBoundElsewhere(m.e, m.s, t, i, m.x, j, m.y, was);
    k := MountsBound(m.e, m.s, outcomes[m.e.id], start, j, m.y, m.x);
    var one := Step(m.e, [m.s], outcomes[m.e.id], start);
    RemountsWhenBoundElsewhere(m.f, m.u, one.tables, j, m.y, k, m.x, Some(i.id));
    l := MountsBound(m.f, m.u, outcomes[m.f.id], one, k, m.x, m.y);
    assert start.ordered + [k] == [k];
    AskewAgain(m, Step(m.f, [m.u], outcomes[m.f.id], one).tables, k, l, Some(j.id));
  }

  lemma ReachesOutside(j: Instance, k: Instance, l: Instance, y: Id)
    requires k.resolved == map[y := j.id] && j.id != k.id && j.id != l.id
    ensures !BindingClosed([k, l])
  {
    assert y in k.resolved && k in [k, l];
  }

  /** Reconciling the same plan again and again, nothing changing in between. */
  ghost predicate SamePlan(m: Mutual, events: seq<Event>) {
    forall e :: e in events ==> e.Reconciled? && e.plan == m.Plan() && e.entries == m.Entries() && m.Setups(e.outcomes)
  }

  lemma RoundOf(m: Mutual, w: World, e: Event)
    requires m.Valid() && e.Reconciled? && e.plan == m.Plan() && e.entries == m.Entries() && m.Setups(e.outcomes)
    requires Reconcile.Enabled(w, e)
    ensures |m.Plan().order| == 2 && (forall d :: d in m.Plan().order ==> d in e.outcomes) && Fresh(e.outcomes, w.tables.issued)
    ensures var p := After(m.Plan(), m.Entries(), e.outcomes, w.tables, 2);
      !p.failed ==> Reconcile.Next(w, e) == World(p.tables, w.published + [p.ordered])
  {
    hide After, Step, Accepts, Fresh;
  }

  /** It never settles: each time both are rebuilt, and from the second generation on each holds
      an instance that captured one of the generation before, outside itself. */
  lemma {:induction false} NeverSettles(m: Mutual, worlds: seq<World>, events: seq<Event>, k: nat) returns (i: Instance, j: Instance)
    requires m.Valid() && Reconcile.IsRun(worlds, events) && SamePlan(m, events) && 0 < k < |worlds|
    ensures |worlds[k].published| == k && worlds[k].published[k - 1] == [i, j] && Askew(m, worlds[k].tables, i, j)
    ensures k > 1 ==> !BindingClosed(worlds[k].published[k - 1])
    decreases k
  {
    hide *;
    RoundAt(m, worlds, events, k);
    NothingPublished();
    var w, e := worlds[k - 1], events[k - 1];
    RoundOf(m, w, e);
    if k == 1 {
      i, j := FirstRound(m, e.outcomes);
    } else {
      var before, after := NeverSettles(m, worlds, events, k - 1);
      i, j := NextRound(m, w.tables, e.outcomes, before, after);
      ReachesOutside(after, i, j, m.s.requirement.name);
    }
  }

  lemma RoundAt(m: Mutual, worlds: seq<World>, events: seq<Event>, k: nat)
    requires Reconcile.IsRun(worlds, events) && SamePlan(m, events) && 0 < k < |worlds|
    ensures k - 1 < |events| && (k == 1 ==> worlds[0] == NO_WORLD)
    ensures Reconcile.Enabled(worlds[k - 1], events[k - 1]) && worlds[k] == Reconcile.Next(worlds[k - 1], events[k - 1])
    ensures var e := events[k - 1]; e.Reconciled? && e.plan == m.Plan() && e.entries == m.Entries() && m.Setups(e.outcomes)
  {
    assert Reconcile.Follows(worlds, events, k - 1) && events[k - 1] in events;
    hide Reconcile.Enabled, Reconcile.Next, Mutual.Plan, Mutual.Setups, Mutual.Entries;
  }

  lemma NothingPublished()
    ensures NO_WORLD.published == [] && NO_WORLD.tables.issued == {}
  {
  }

  /** The pair above is such a case, so its second generation is not closed, whatever new ids
      its instances get. */
  lemma PairReachesOutside(a1: Id, b1: Id, a2: Id, b2: Id) returns (worlds: seq<World>, events: seq<Event>)
    requires |{a1, b1, a2, b2}| == 4 && forall id :: id in {a1, b1, a2, b2} ==> IsInstanceId(id)
    ensures Reconcile.IsRun(worlds, events) && |events| == 2
    ensures forall e :: e in events ==> e.Reconciled? && e.plan == PAIR_AGENDA
    ensures |worlds[2].published| == 2 && !BindingClosed(worlds[2].published[1])
  {
    hide *;
    var m := PairIsMutual();
    worlds, events := RunTwice(m, a1, b1, a2, b2);
    SamePlanMeans(m, events);
    var i, j := NeverSettles(m, worlds, events, 2);
  }

  lemma SamePlanMeans(m: Mutual, events: seq<Event>)
    requires SamePlan(m, events)
    ensures forall e :: e in events ==> e.Reconciled? && e.plan == m.Plan()
  {
    hide Mutual.Setups, Mutual.Plan;
  }

  lemma RunTwice(m: Mutual, a1: Id, b1: Id, a2: Id, b2: Id) returns (worlds: seq<World>, events: seq<Event>)
    requires m.Valid() && |{a1, b1, a2, b2}| == 4 && forall id :: id in {a1, b1, a2, b2} ==> IsInstanceId(id)
    ensures |events| == 2 && |worlds| == 3 && Reconcile.IsRun(worlds, events) && SamePlan(m, events)
  {
    assert NO_WORLD.tables.issued == {};
    hide *;
    FourIds(a1, b1, a2, b2);
    var first := Reconciled(m.Plan(), m.Entries(), PairOutcomes(m, a1, b1));
    var second := Reconciled(m.Plan(), m.Entries(), PairOutcomes(m, a2, b2));
    PairMayRun(m, a1, b1, NO_WORLD);
    var w := Reconcile.Next(NO_WORLD, first);
    FirstIssues(m, a1, b1);
    PairMayRun(m, a2, b2, w);
    worlds, events := [NO_WORLD, w, Reconcile.Next(w, second)], [first, second];
    TwoRounds(w, Reconcile.Next(w, second), first, second);
    SameTwice(m, first, second);
  }

  lemma FirstIssues(m: Mutual, a: Id, b: Id)
    requires m.Valid() && Reconcile.Enabled(NO_WORLD, Reconciled(m.Plan(), m.Entries(), PairOutcomes(m, a, b)))
    requires m.Setups(PairOutcomes(m, a, b))
    ensures Reconcile.Next(NO_WORLD, Reconciled(m.Plan(), m.Entries(), PairOutcomes(m, a, b))).tables.issued == {a, b}
  {
    hide Reconcile.Enabled, Reconcile.Next, After, Fresh, Askew, Mutual.Setups;
    RoundOf(m, NO_WORLD, Reconciled(m.Plan(), m.Entries(), PairOutcomes(m, a, b)));
    var i, j := FirstRound(m, PairOutcomes(m, a, b));
  }

  function PairOutcomes(m: Mutual, a: Id, b: Id): map<Id, Outcome> {
    map[m.e.id := Outcome(a, true, {m.x}), m.f.id := Outcome(b, true, {m.y})]
  }

  lemma FourIds(a1: Id, b1: Id, a2: Id, b2: Id)
    requires |{a1, b1, a2, b2}| == 4
    ensures a1 != b1 && a1 != a2 && a1 != b2 && b1 != a2 && b1 != b2 && a2 != b2
  {
    var ids := {a1, b1, a2, b2};
    assert a1 == b1 ==> ids == {a1, a2, b2};
    assert a1 == a2 ==> ids == {a1, b1, b2};
    assert a1 == b2 ==> ids == {a1, b1, a2};
    assert b1 == a2 ==> ids == {a1, b1, b2};
    assert b1 == b2 ==> ids == {a1, b1, a2};
    assert a2 == b2 ==> ids == {a1, b1, a2};
  }

  lemma PairMayRun(m: Mutual, a: Id, b: Id, w: World)
    requires m.Valid() && a != b && IsInstanceId(a) && IsInstanceId(b) && a !in w.tables.issued && b !in w.tables.issued
    ensures m.Setups(PairOutcomes(m, a, b)) && Fresh(PairOutcomes(m, a, b), w.tables.issued)
    ensures Reconcile.Enabled(w, Reconciled(m.Plan(), m.Entries(), PairOutcomes(m, a, b)))
  {
    hide Accepts, IsInstanceId;
  }

  lemma SameTwice(m: Mutual, first: Event, second: Event)
    requires first.Reconciled? && first.plan == m.Plan() && first.entries == m.Entries() && m.Setups(first.outcomes)
    requires second.Reconciled? && second.plan == m.Plan() && second.entries == m.Entries() && m.Setups(second.outcomes)
    ensures SamePlan(m, [first, second])
  {
    hide Mutual.Setups;
  }
}
