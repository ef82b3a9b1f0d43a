/** The plans of the outlived consumer: alone with its provider, and with a rival of that. */
module Rivals {
  import opened Wrappers
  import opened Ordering
  import opened Graphs
  import opened Keys
  import opened Scopes
  import opened Resolver
  import opened Activation
  import opened Planning
  import opened Agendas
  import opened Flat
  import opened Registry
  import opened Reuse
  import opened Reconcile
  import opened Outlived
  import Identity

  const OFFER: (Key, Version) := (FromVersion("x", ONE), ONE)

  function EntryOf(id: Id, revision: nat): Identity.Entry {
    Identity.Entry(id, revision, ROOT, "", "", "", "")
  }

  const RIVALRY: Rivalry := Rivalry(EntryOf("a", 1), EntryOf("a", 2), EntryOf("b", 1), EntryOf("c", 1),
    Identity.Selection(NEEDS_X, Some("a"), Status.Resolved), OFFER, OFFER, (FromVersion("w", ONE), ONE))

  lemma RivalryIsValid()
    ensures RIVALRY.Valid()
  {
  }

  function Setup(a: Id, other: Id, o: Id, offer: (Key, Version)): map<Id, Outcome> {
    map["a" := Outcome(a, true, {OFFER}), other := Outcome(o, true, {offer})]
  }

  lemma SetupMeans(a: Id, other: Id, o: Id, offer: (Key, Version), issued: set<Id>)
    requires other != "a" && a != o && IsInstanceId(a) && IsInstanceId(o) && a !in issued && o !in issued
    ensures RIVALRY.Setups(Setup(a, other, o, offer), other, offer) && Fresh(Setup(a, other, o, offer), issued)
    ensures Outlived.Ids(Setup(a, other, o, offer)) == {a, o}
  {
    hide IsInstanceId;
    var outcomes := Setup(a, other, o, offer);
    assert "a" in outcomes && other in outcomes;
  }

  /** Any six new instance ids make it happen. */
  lemma ConsumerIsRebuilt(ids: seq<Id>) returns (worlds: seq<World>, events: seq<Event>, third: map<Id, Outcome>)
    requires |ids| == 6 && Distinct(ids) && forall k :: 0 <= k < 6 ==> IsInstanceId(ids[k])
    ensures Reconcile.IsRun(worlds, events) && |worlds| == 3
    ensures var t := worlds[2].tables;
      && Legal(RIVALRY.Together(), RIVALRY.AtLast(), third, t)
      && ChangedEntries(RIVALRY.Together(), RIVALRY.AtLast(), t) == {}
      && Rebuilt(After(RIVALRY.Together(), RIVALRY.AtLast(), third, t, |RIVALRY.Together().order|)) == {"c"}
  {
    var first, second := Setup(ids[0], "c", ids[1], RIVALRY.w), Setup(ids[2], "b", ids[3], RIVALRY.z);
    third := Setup(ids[4], "c", ids[5], RIVALRY.w);
    assert RIVALRY.consumer.id == "c" && RIVALRY.rival.id == "b";
    hide *;
    SetupMeans(ids[0], "c", ids[1], RIVALRY.w, {});
    SetupMeans(ids[2], "b", ids[3], RIVALRY.z, {ids[0], ids[1]});
    SetupMeans(ids[4], "c", ids[5], RIVALRY.w, {ids[0], ids[1]} + {ids[2], ids[3]});
    SetupsMakeOutcomes(first, second, third);
    RivalryIsValid();
    worlds, events := OutOfDateIsNotChanged(RIVALRY, first, second, third);
  }

  lemma SetupsMakeOutcomes(first: map<Id, Outcome>, second: map<Id, Outcome>, third: map<Id, Outcome>)
    requires RIVALRY.Setups(first, "c", RIVALRY.w) && RIVALRY.Setups(second, "b", RIVALRY.z) && RIVALRY.Setups(third, "c", RIVALRY.w)
    requires Fresh(first, {}) && Fresh(second, Outlived.Ids(first)) && Fresh(third, Outlived.Ids(first) + Outlived.Ids(second))
    ensures Outcomes(RIVALRY, first, second, third)
  {
    hide Fresh;
  }

  ghost predicate IsProvider(c: Candidate, entry: Id, o: ProviderOption) {
    && c.entry == entry && c.required == [] && c.optional == [] && OptionsOf(c) == [o]
    && o.key.name == "x" && Accepts(NEEDS_X, o.key, o.version)
  }

  ghost predicate IsConsumer(c: Candidate) {
    c.entry == "c" && c.required == [NEEDS_X] && c.optional == [] && Offered(c, "x") == []
  }

  /** `a` provides what `c` needs. */
  ghost predicate IsTogether(ctx: Context, o: ProviderOption) {
    IsFlat(ctx) && |ctx.candidates| == 2 && IsProvider(ctx.candidates[0], "a", o) && IsConsumer(ctx.candidates[1])
  }

  /** And so does `b`. */
  ghost predicate IsContested(ctx: Context, o: ProviderOption, p: ProviderOption) {
    && IsFlat(ctx) && |ctx.candidates| == 3
    && IsProvider(ctx.candidates[0], "a", o) && IsProvider(ctx.candidates[1], "b", p) && IsConsumer(ctx.candidates[2])
  }

  lemma CarriesEntry(c: Candidate, entry: Id, o: ProviderOption)
    requires IsProvider(c, entry, o)
    ensures o.entry == entry && Offered(c, "x") == [o]
  {
    assert o in OptionsOf(c);
    hide Accepts, Offered;
    OptionsCarryTheirCandidate(c, o);
    OfferedOnce(c, o, "x");
  }

  // ---- Together

  const TWO: set<Id> := {"a", "c"}

  lemma TogetherIsValid(ctx: Context, o: ProviderOption)
    requires IsTogether(ctx, o)
    ensures ctx.Valid() && ctx.Entries() == TWO && ctx.candidates[0].scope == ctx.candidates[1].scope == ROOT
  {
    var a, c := ctx.candidates[0], ctx.candidates[1];
    assert a in ctx.candidates && c in ctx.candidates && forall x :: x in ctx.candidates ==> x == a || x == c;
    hide ScopeIndex.Valid, Accepts, OptionsOf, Offered, Context.Valid, Context.Entries;
    TwoAreValid(ctx);
  }

  lemma TogetherResolves(ctx: Context, o: ProviderOption)
    requires IsTogether(ctx, o)
    ensures ROOT in ctx.index.lineages && ROOT in ctx.index.allowed && ctx.candidates[0].scope == ctx.candidates[1].scope == ROOT
    ensures o.entry == "a" && ResolveRequirements(ctx, TWO, ctx.candidates[0]) == []
    ensures ResolveRequirements(ctx, TWO, ctx.candidates[1]) == [Resolution(NEEDS_X, Status.Resolved, Some(o))]
  {
    hide ResolveOne, OptionsOf, Offered, Context.Valid, ScopeOptions, Accepts, ResolveRequirements;
    TogetherIsValid(ctx, o);
    var a, c := ctx.candidates[0], ctx.candidates[1];
    CarriesEntry(a, "a", o);
    OffersOfTwo(a, c, "x");
    assert ctx.candidates == [a, c] && [o] + [] == [o];
    OnlyChoice(ctx, TWO, c, NEEDS_X, o);
    assert c.required + c.optional == [NEEDS_X];
    OneRequired(ctx, TWO, c, NEEDS_X);
    NothingRequired(ctx, TWO, a);
  }

  lemma TogetherIsEligible(ctx: Context, o: ProviderOption)
    requires IsTogether(ctx, o)
    ensures ctx.Valid() && Settled(ctx, ctx.Entries()) == TWO
  {
    hide ResolveRequirements, Context.Valid, Context.Entries, Accepts, OptionsOf, Offered, IsFlat, Settled, Blocked;
    TogetherIsValid(ctx, o);
    TogetherResolves(ctx, o);
    ResolvedIsNotBlocked(NEEDS_X, o);
    BothSurvive(ctx, TWO);
  }

  /** Only the consumer requires anything, so nothing is declared back. */
  lemma OneConsumerNoCycle(ctx: Context, declared: Graph)
    requires ctx.Valid() && IsDeclaredGraph(ctx, declared)
    requires forall c :: c in ctx.candidates && c.entry != "c" ==> c.required == []
    ensures Acyclic(declared)
  {
    forall a, b | b in Succ(declared, a) ensures b == "c" && a != "c" {
      assert DeclaredEdge(ctx, a, b);
    }
    hide Context.Valid, DeclaredEdge, OnCycle, IsDeclaredGraph;
    forall n ensures !OnCycle(declared, n) {
      if OnCycle(declared, n) {
        CycleStepsTwice(declared, n);
      }
    }
  }

  /** On a cycle some edge's end is another's start. */
  lemma CycleStepsTwice(g: Graph, n: Id)
    requires OnCycle(g, n)
    ensures exists a, b :: b in Succ(g, a) && Succ(g, b) != {}
  {
    var p :| Joins(g, p, n, n) && |p| > 1;
    var last := |p| - 1;
    assert p[last] in Succ(g, p[last - 1]) && p[1] in Succ(g, p[0]);
  }

  /** The plan while there is one choice. */
  method ResolveTogether(ctx: Context, o: ProviderOption) returns (plan: Plan)
    requires IsTogether(ctx, o)
    ensures plan.cycles == [] && plan.eligible == TWO && AgendaOf(plan) == RIVALRY.Together()
  {
    TogetherIsEligible(ctx, o);
    ghost var declared;
    plan, declared := Resolve(ctx);
    TogetherRequires(ctx, o);
    OneConsumerNoCycle(ctx, declared);
    hide *;
    NoMembers(plan.eligible);
    TogetherPlan(ctx, o, plan);
  }

  lemma TogetherRequires(ctx: Context, o: ProviderOption)
    requires IsTogether(ctx, o)
    ensures forall c :: c in ctx.candidates && c.entry != "c" ==> c.required == []
  {
    hide Accepts, OptionsOf, Offered;
  }

  lemma NoMembers(eligible: set<Id>)
    ensures Members([]) == {} && eligible - {} == eligible
  {
  }

  lemma TogetherPlan(ctx: Context, o: ProviderOption, plan: Plan)
    requires IsTogether(ctx, o) && ctx.Valid() && plan.eligible == TWO
    requires StoredResolutions(ctx, plan.eligible, plan.resolutions) && plan.resolutions.Keys == plan.eligible
    requires forall p, c :: (p, c) in plan.edges <==> c in plan.eligible && p != c && BindsTo(plan.resolutions[c], p)
    requires IsPermutationOf(plan.order, plan.eligible) && exists m :: FollowsKahn(plan.eligible, plan.edges, plan.order, m)
    ensures AgendaOf(plan) == RIVALRY.Together()
  {
    hide *;
    TogetherBindings(ctx, o, plan);
    TogetherEdges(plan);
    var m :| FollowsKahn(plan.eligible, plan.edges, plan.order, m);
    TogetherOrder(plan.order, m);
    TogetherAgenda(plan, o);
  }

  lemma TogetherBindings(ctx: Context, o: ProviderOption, plan: Plan)
    requires IsTogether(ctx, o) && ctx.Valid() && plan.eligible == TWO
    requires StoredResolutions(ctx, plan.eligible, plan.resolutions) && plan.resolutions.Keys == plan.eligible
    ensures o.entry == "a" && plan.resolutions["a"] == []
    ensures plan.resolutions["c"] == [Resolution(NEEDS_X, Status.Resolved, Some(o))]
    ensures forall p :: !BindsTo(plan.resolutions["a"], p)
    ensures forall p :: BindsTo(plan.resolutions["c"], p) <==> p == "a"
  {
    hide ResolveRequirements, Context.Valid, Accepts, OptionsOf, Offered, BindsTo, IsFlat;
    TogetherResolves(ctx, o);
    assert ctx.candidates[0].entry in plan.eligible && ctx.candidates[1].entry in plan.eligible;
    BindsToOne(NEEDS_X, o);
    BindsToNone();
  }

  lemma BindsToNone()
    ensures forall p :: !BindsTo([], p)
  {
  }

  const LONE_EDGE: Edges := {("a", "c")}

  lemma TogetherEdges(plan: Plan)
    requires plan.eligible == plan.resolutions.Keys == TWO
    requires forall p :: !BindsTo(plan.resolutions["a"], p)
    requires forall p :: BindsTo(plan.resolutions["c"], p) <==> p == "a"
    requires forall p, c :: (p, c) in plan.edges <==> c in plan.eligible && p != c && BindsTo(plan.resolutions[c], p)
    ensures plan.edges == LONE_EDGE
  {
    hide BindsTo;
    forall e: (Id, Id) ensures e in plan.edges <==> e in LONE_EDGE {
      assert e == (e.0, e.1) && (e.1 in plan.eligible ==> e.1 == "a" || e.1 == "c");
    }
  }

  /** The first is the least of those with nothing to wait for. */
  lemma FirstIsLeast(nodes: set<Id>, edges: Edges, order: seq<Id>, m: nat)
    requires FollowsKahn(nodes, edges, order, m) && ReadySet(nodes, edges, []) != {}
    ensures order != [] && IsLeast(order[0], ReadySet(nodes, edges, []))
  {
    hide ReadySet, Sorted, IsLeast;
    assert order[..0] == [];
    assert m > 0;
  }

  lemma TogetherOrder(order: seq<Id>, m: nat)
    requires IsPermutationOf(order, TWO) && FollowsKahn(TWO, LONE_EDGE, order, m)
    ensures order == ["a", "c"]
  {
    TogetherReady();
    hide ReadySet, FollowsKahn;
    FirstIsLeast(TWO, LONE_EDGE, order, m);
    PairOrders(order, "a", "c");
  }

  lemma TogetherReady()
    ensures ReadySet(TWO, LONE_EDGE, []) == {"a"}
  {
    assert Providers(TWO, LONE_EDGE, "a") == {} && Providers(TWO, LONE_EDGE, "c") == {"a"};
    assert Elements<Id>([]) == {};
  }

  lemma TogetherAgenda(plan: Plan, o: ProviderOption)
    requires plan.order == ["a", "c"] && plan.resolutions.Keys == TWO && o.entry == "a"
    requires plan.resolutions["a"] == [] && plan.resolutions["c"] == [Resolution(NEEDS_X, Status.Resolved, Some(o))]
    ensures AgendaOf(plan) == RIVALRY.Together()
  {
    assert SelectionsFrom(plan.resolutions["a"]) == [];
    assert SelectionsFrom(plan.resolutions["c"]) == [RIVALRY.s];
  }

  // ---- Contested

  const ALL: set<Id> := {"a", "b", "c"}
  const PROVIDERS: set<Id> := {"a", "b"}

  lemma ContestedIsValid(ctx: Context, o: ProviderOption, p: ProviderOption)
    requires IsContested(ctx, o, p)
    ensures ctx.Valid() && ctx.Entries() == ALL && forall c :: c in ctx.candidates ==> c.scope == ROOT
  {
    var a, b, c := ctx.candidates[0], ctx.candidates[1], ctx.candidates[2];
    assert a in ctx.candidates && b in ctx.candidates && c in ctx.candidates;
    assert forall x :: x in ctx.candidates ==> x == a || x == b || x == c;
    hide ScopeIndex.Valid, Accepts, OptionsOf, Offered, Context.Valid, Context.Entries;
    ThreeAreValid(ctx);
  }

  lemma ContestedResolves(ctx: Context, o: ProviderOption, p: ProviderOption)
    requires IsContested(ctx, o, p)
    ensures ROOT in ctx.index.lineages && ROOT in ctx.index.allowed && forall k :: 0 <= k < 3 ==> ctx.candidates[k].scope == ROOT
    ensures forall eligible :: ResolveRequirements(ctx, eligible, ctx.candidates[0]) == []
    ensures forall eligible :: ResolveRequirements(ctx, eligible, ctx.candidates[1]) == []
    ensures ResolveRequirements(ctx, ALL, ctx.candidates[2]) == [Resolution(NEEDS_X, Ambiguous, None)]
  {
    hide ResolveOne, OptionsOf, Offered, Context.Valid, ScopeOptions, Accepts, ResolveRequirements;
    ContestedIsValid(ctx, o, p);
    var a, b, c := ctx.candidates[0], ctx.candidates[1], ctx.candidates[2];
    assert a in ctx.candidates && b in ctx.candidates && c in ctx.candidates && ctx.candidates == [a, b, c];
    CarriesEntry(a, "a", o);
    CarriesEntry(b, "b", p);
    OffersOfThree(a, b, c, "x");
    assert [o] + [p] + [] == [o, p];
    NoChoice(ctx, ALL, c, NEEDS_X, [o, p]);
    assert c.required + c.optional == [NEEDS_X];
    OneRequired(ctx, ALL, c, NEEDS_X);
    forall eligible
      ensures ResolveRequirements(ctx, eligible, a) == [] && ResolveRequirements(ctx, eligible, b) == []
    {
      NothingRequired(ctx, eligible, a);
      NothingRequired(ctx, eligible, b);
    }
  }

  lemma ContestedSupport(ctx: Context, o: ProviderOption, p: ProviderOption)
    requires IsContested(ctx, o, p)
    ensures ROOT in ctx.index.lineages && ROOT in ctx.index.allowed && forall k :: 0 <= k < 3 ==> ctx.candidates[k].scope == ROOT
    ensures forall eligible :: Supported(ctx, eligible, ctx.candidates[0]) && Supported(ctx, eligible, ctx.candidates[1])
    ensures !Supported(ctx, ALL, ctx.candidates[2])
  {
    ContestedResolves(ctx, o, p);
    hide ResolveRequirements, IsContested, Accepts;
    var rc := ResolveRequirements(ctx, ALL, ctx.candidates[2]);
    assert rc[0] in rc && !rc[0].requirement.optional;
  }

  lemma ContestedIsEligible(ctx: Context, o: ProviderOption, p: ProviderOption)
    requires IsContested(ctx, o, p)
    ensures ctx.Valid() && Settled(ctx, ctx.Entries()) == PROVIDERS
  {
    hide Supported, Context.Valid, Context.Entries, Accepts, OptionsOf, Offered, IsFlat;
    ContestedIsValid(ctx, o, p);
    ContestedSupport(ctx, o, p);
    assert Survivors(ctx, ALL) == PROVIDERS;
    assert Survivors(ctx, PROVIDERS) == PROVIDERS;
  }

  /** The plan while the consumer has two to choose from: it is left out. */
  method ResolveContested(ctx: Context, o: ProviderOption, p: ProviderOption) returns (plan: Plan)
    requires IsContested(ctx, o, p)
    ensures plan.cycles == [] && plan.eligible == PROVIDERS && AgendaOf(plan) == RIVALRY.Contested()
  {
    ContestedIsEligible(ctx, o, p);
    ghost var declared;
    plan, declared := Resolve(ctx);
    ContestedRequires(ctx, o, p);
    OneConsumerNoCycle(ctx, declared);
    hide *;
    NoMembers(plan.eligible);
    ContestedPlan(ctx, o, p, plan);
  }

  lemma ContestedRequires(ctx: Context, o: ProviderOption, p: ProviderOption)
    requires IsContested(ctx, o, p)
    ensures forall c :: c in ctx.candidates && c.entry != "c" ==> c.required == []
  {
    hide Accepts, OptionsOf, Offered;
  }

  lemma ContestedPlan(ctx: Context, o: ProviderOption, p: ProviderOption, plan: Plan)
    requires IsContested(ctx, o, p) && ctx.Valid() && plan.eligible == PROVIDERS
    requires StoredResolutions(ctx, plan.eligible, plan.resolutions) && plan.resolutions.Keys == plan.eligible
    requires forall p, c :: (p, c) in plan.edges <==> c in plan.eligible && p != c && BindsTo(plan.resolutions[c], p)
    requires IsPermutationOf(plan.order, plan.eligible) && exists m :: FollowsKahn(plan.eligible, plan.edges, plan.order, m)
    ensures AgendaOf(plan) == RIVALRY.Contested()
  {
    hide *;
    ContestedBindings(ctx, o, p, plan);
    ContestedEdges(plan);
    var m :| FollowsKahn(plan.eligible, plan.edges, plan.order, m);
    ContestedOrder(plan.order, m);
    ContestedAgenda(plan);
  }

  lemma ContestedBindings(ctx: Context, o: ProviderOption, p: ProviderOption, plan: Plan)
    requires IsContested(ctx, o, p) && ctx.Valid() && plan.eligible == PROVIDERS
    requires StoredResolutions(ctx, plan.eligible, plan.resolutions) && plan.resolutions.Keys == plan.eligible
    ensures plan.resolutions["a"] == [] && plan.resolutions["b"] == []
  {
    ContestedResolves(ctx, o, p);
    assert ctx.candidates[0].entry in plan.eligible && ctx.candidates[1].entry in plan.eligible;
    hide ResolveRequirements, Context.Valid, Accepts, OptionsOf, Offered;
  }

  lemma ContestedEdges(plan: Plan)
    requires plan.eligible == plan.resolutions.Keys == PROVIDERS && plan.resolutions["a"] == [] && plan.resolutions["b"] == []
    requires forall p, c :: (p, c) in plan.edges <==> c in plan.eligible && p != c && BindsTo(plan.resolutions[c], p)
    ensures plan.edges == {}
  {
    forall e: (Id, Id) ensures e !in plan.edges {
      assert e == (e.0, e.1) && (e.1 in plan.eligible ==> e.1 == "a" || e.1 == "b");
    }
  }

  lemma ContestedOrder(order: seq<Id>, m: nat)
    requires IsPermutationOf(order, PROVIDERS) && FollowsKahn(PROVIDERS, {}, order, m)
    ensures order == ["a", "b"]
  {
    ContestedReady();
    hide ReadySet, FollowsKahn;
    FirstIsLeast(PROVIDERS, {}, order, m);
    PairOrders(order, "a", "b");
  }

  lemma ContestedReady()
    ensures ReadySet(PROVIDERS, {}, []) == PROVIDERS
  {
    assert Providers(PROVIDERS, {}, "a") == {} && Providers(PROVIDERS, {}, "b") == {};
  }

  lemma ContestedAgenda(plan: Plan)
    requires plan.order == ["a", "b"] && plan.resolutions.Keys == PROVIDERS
    requires plan.resolutions["a"] == [] && plan.resolutions["b"] == []
    ensures AgendaOf(plan) == RIVALRY.Contested()
  {
    assert SelectionsFrom(plan.resolutions["a"]) == [] && SelectionsFrom(plan.resolutions["b"]) == [];
  }
}
