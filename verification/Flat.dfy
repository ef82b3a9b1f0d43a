/** Resolution where there is one scope and no preference, as the examples of this project use it. */
module Flat {
  import opened Wrappers
  import opened Ordering
  import opened Keys
  import opened Scopes
  import opened Resolver

  ghost predicate IsFlat(ctx: Context) {
    && ctx.index == FLAT && ctx.preferences == map[]
    && forall c :: c in ctx.candidates ==> c.scope == ROOT
  }

  function Offered(c: Candidate, name: Id): seq<ProviderOption> {
    Keep(OptionsOf(c), (o: ProviderOption) => o.key.name == name)
  }

  lemma OfferedOnce(c: Candidate, o: ProviderOption, name: Id)
    requires OptionsOf(c) == [o]
    ensures Offered(c, name) == if o.key.name == name then [o] else []
  {
    assert [o][1..] == [];
  }

  lemma ScopeOptionsNext(c: Candidate, rest: seq<Candidate>, name: Id)
    requires c.scope == ROOT
    ensures ScopeOptions([c] + rest, ROOT, name) == Offered(c, name) + ScopeOptions(rest, ROOT, name)
  {
    assert ([c] + rest)[1..] == rest;
  }

  lemma OffersOfTwo(a: Candidate, b: Candidate, name: Id)
    requires a.scope == b.scope == ROOT
    ensures ScopeOptions([a, b], ROOT, name) == Offered(a, name) + Offered(b, name)
  {
    hide Offered;
    ScopeOptionsNext(b, [], name);
    ScopeOptionsNext(a, [b], name);
    assert [a] + [b] == [a, b] && [b] + [] == [b];
  }

  lemma OffersOfThree(a: Candidate, b: Candidate, c: Candidate, name: Id)
    requires a.scope == b.scope == c.scope == ROOT
    ensures ScopeOptions([a, b, c], ROOT, name) == Offered(a, name) + Offered(b, name) + Offered(c, name)
  {
    hide Offered, ScopeOptions;
    OffersOfTwo(b, c, name);
    ScopeOptionsNext(a, [b, c], name);
    assert [a] + [b, c] == [a, b, c];
  }

  lemma SeesEverything(ctx: Context, name: Id)
    requires IsFlat(ctx)
    ensures ctx.index.Valid() && ROOT in ctx.index.specs && ROOT in ctx.index.lineages && ROOT in ctx.index.allowed
    ensures VisibleOptions(ctx, ROOT, name) == SortOptions(ScopeOptions(ctx.candidates, ROOT, name))
  {
    FlatIsValid();
    hide SortOptions, ScopeOptions, ScopeIndex.Valid;
    var lineage := ctx.index.lineages[ROOT];
    assert lineage == [ROOT] && lineage[1..] == [];
    var here := ScopeOptions(ctx.candidates, ROOT, name);
    assert LineageOptions(ctx.candidates, lineage, name) == here + LineageOptions(ctx.candidates, lineage[1..], name);
    assert here + [] == here;
  }

  lemma TwoAreValid(ctx: Context)
    requires IsFlat(ctx) && |ctx.candidates| == 2 && ctx.candidates[0].entry != ctx.candidates[1].entry
    requires forall c, r :: c in ctx.candidates && r in c.required ==> !r.optional
    requires forall c, r :: c in ctx.candidates && r in c.optional ==> r.optional
    ensures ctx.Valid() && ctx.Entries() == {ctx.candidates[0].entry, ctx.candidates[1].entry}
  {
    FlatIsValid();
    hide ScopeIndex.Valid;
    var cs := ctx.candidates;
    assert cs[0] in cs && cs[1] in cs && forall c :: c in cs ==> c == cs[0] || c == cs[1];
  }

  lemma ThreeAreValid(ctx: Context)
    requires IsFlat(ctx) && |ctx.candidates| == 3
    requires var cs := ctx.candidates; cs[0].entry != cs[1].entry && cs[0].entry != cs[2].entry && cs[1].entry != cs[2].entry
    requires forall c, r :: c in ctx.candidates && r in c.required ==> !r.optional
    requires forall c, r :: c in ctx.candidates && r in c.optional ==> r.optional
    ensures ctx.Valid() && ctx.Entries() == {ctx.candidates[0].entry, ctx.candidates[1].entry, ctx.candidates[2].entry}
  {
    FlatIsValid();
    hide ScopeIndex.Valid;
    var cs := ctx.candidates;
    assert cs[0] in cs && cs[1] in cs && cs[2] in cs && forall c :: c in cs ==> c == cs[0] || c == cs[1] || c == cs[2];
  }

  lemma OneSorted(o: ProviderOption)
    ensures SortOptions([o]) == [o]
  {
    assert [o][..0] == [];
  }

  /** The only option there is gets selected. */
  lemma OnlyChoice(ctx: Context, eligible: set<Id>, c: Candidate, r: Requirement, o: ProviderOption)
    requires IsFlat(ctx) && c.scope == ROOT && ScopeOptions(ctx.candidates, ROOT, r.name) == [o]
    requires o.entry != c.entry && o.entry in eligible && Accepts(r, o.key, o.version)
    ensures ROOT in ctx.index.lineages && ROOT in ctx.index.allowed
    ensures ResolveOne(ctx, eligible, c, r) == Resolution(r, Status.Resolved, Some(o))
  {
    SeesEverything(ctx, r.name);
    OneSorted(o);
    hide VisibleOptions, SortOptions, Accepts;
    assert VisibleOptions(ctx, ROOT, r.name) == [o];
    KeepAll([o], (x: ProviderOption) => x.entry != c.entry);
    assert VisibleTo(ctx, c, r) == [o];
    KeepAll([o], (x: ProviderOption) => x.entry in eligible && Accepts(r, x.key, x.version));
    assert Matching(ctx, eligible, c, r) == [o];
  }

  /** Of several options none is, without a preference. */
  lemma NoChoice(ctx: Context, eligible: set<Id>, c: Candidate, r: Requirement, os: seq<ProviderOption>)
    requires IsFlat(ctx) && c.scope == ROOT && ScopeOptions(ctx.candidates, ROOT, r.name) == os && |os| > 1
    requires forall o :: o in os ==> o.entry != c.entry && o.entry in eligible && Accepts(r, o.key, o.version)
    ensures ROOT in ctx.index.lineages && ROOT in ctx.index.allowed
    ensures ResolveOne(ctx, eligible, c, r) == Resolution(r, Ambiguous, None)
  {
    SeesEverything(ctx, r.name);
    hide VisibleOptions, SortOptions, Accepts;
    var sorted := SortOptions(os);
    assert forall o :: o in sorted ==> o in os;
    KeepAll(sorted, (x: ProviderOption) => x.entry != c.entry);
    assert VisibleTo(ctx, c, r) == sorted;
    KeepAll(sorted, (x: ProviderOption) => x.entry in eligible && Accepts(r, x.key, x.version));
    assert Matching(ctx, eligible, c, r) == sorted;
  }

  lemma NothingRequired(ctx: Context, eligible: set<Id>, c: Candidate)
    requires IsFlat(ctx) && c.scope == ROOT && c.required == [] && c.optional == []
    ensures ROOT in ctx.index.lineages && ROOT in ctx.index.allowed
    ensures ResolveRequirements(ctx, eligible, c) == []
  {
    SeesEverything(ctx, "");
    assert c.required + c.optional == [];
  }

  lemma OneRequired(ctx: Context, eligible: set<Id>, c: Candidate, r: Requirement)
    requires IsFlat(ctx) && c.scope == ROOT && c.required + c.optional == [r]
    ensures ROOT in ctx.index.lineages && ROOT in ctx.index.allowed
    ensures ResolveRequirements(ctx, eligible, c) == [ResolveOne(ctx, eligible, c, r)]
  {
    SeesEverything(ctx, "");
    hide ResolveOne;
    assert [r][1..] == [];
  }

  // ---- Two entries in id order

  lemma SortedPair(a: Id, b: Id)
    requires Before(a, b)
    ensures Sorted({a, b}) == [a, b]
  {
    var xs := Sorted({a, b});
    BeforeIsIrreflexive(a);
    BeforeIsAsymmetric(a, b);
    assert |{a, b}| == 2;
    assert xs[0] in {a, b} && xs[1] in {a, b} && Before(xs[0], xs[1]);
  }

  lemma PairOrders(order: seq<Id>, a: Id, b: Id)
    requires a != b && Distinct(order) && Elements(order) == {a, b}
    ensures order == [a, b] || order == [b, a]
  {
    ElementsOfDistinct(order);
    assert |{a, b}| == 2;
    assert order[0] in Elements(order) && order[1] in Elements(order);
  }

  /** Two that both have what they need stay. */
  lemma BothSurvive(ctx: Context, s: set<Id>)
    requires ctx.Valid() && |ctx.candidates| == 2 && s == {ctx.candidates[0].entry, ctx.candidates[1].entry}
    requires ROOT in ctx.index.lineages && ROOT in ctx.index.allowed && ctx.candidates[0].scope == ctx.candidates[1].scope == ROOT
    requires !Blocked(ResolveRequirements(ctx, s, ctx.candidates[0])) && !Blocked(ResolveRequirements(ctx, s, ctx.candidates[1]))
    ensures Settled(ctx, s) == s
  {
    hide ResolveRequirements, Context.Valid, Blocked;
    assert Supported(ctx, s, ctx.candidates[0]) && Supported(ctx, s, ctx.candidates[1]);
    assert Survivors(ctx, s) == s;
  }

  lemma ResolvedIsNotBlocked(r: Requirement, o: ProviderOption)
    ensures !Blocked([Resolution(r, Status.Resolved, Some(o))]) && !Blocked([])
  {
  }
}
