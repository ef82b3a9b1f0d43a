/** From a resolved plan to what materialization follows. */
module Agendas {
  import opened Wrappers
  import opened Ordering
  import opened Scopes
  import opened Resolver
  import opened Activation
  import opened Planning
  import Identity
  import Reuse

  function SelectionOf(r: Resolution): Identity.Selection {
    Identity.Selection(r.requirement, if r.provider.Some? then Some(r.provider.value.entry) else None, r.status)
  }

  function SelectionsFrom(rs: seq<Resolution>): (ss: seq<Identity.Selection>)
    ensures |ss| == |rs| && forall i :: 0 <= i < |ss| ==> ss[i] == SelectionOf(rs[i])
  {
    seq(|rs|, i requires 0 <= i < |rs| => SelectionOf(rs[i]))
  }

  function AgendaOf(plan: Plan): Reuse.Agenda {
    Reuse.Agenda(plan.order, map e | e in plan.resolutions :: SelectionsFrom(plan.resolutions[e]))
  }

  /** The agenda says of each requirement what the plan does: the requirement itself, its status,
      and the entry of the provider chosen for it. */
  lemma AgendaCarries(plan: Plan, e: Id, i: nat)
    requires e in plan.resolutions && i < |plan.resolutions[e]|
    ensures AgendaOf(plan).order == plan.order && |AgendaOf(plan).SelectionsOf(e)| == |plan.resolutions[e]|
    ensures var (s, r) := (AgendaOf(plan).SelectionsOf(e)[i], plan.resolutions[e][i]);
      && s.requirement == r.requirement && s.status == r.status && (s.provider.Some? <==> r.provider.Some?)
      && (r.provider.Some? ==> s.provider.value == r.provider.value.entry)
  {
  }

  /** A selected provider is an eligible entry other than the consumer. */
  lemma SelectedIsEligible(ctx: Context, plan: Plan, e: Id, p: Id)
    requires ctx.Valid() && StoredResolutions(ctx, plan.eligible, plan.resolutions)
    requires plan.eligible <= ctx.Entries() && plan.resolutions.Keys == plan.eligible
    requires p in Reuse.ProvidersOf(AgendaOf(plan).SelectionsOf(e))
    ensures e in plan.eligible && p in plan.eligible && p != e && BindsTo(plan.resolutions[e], p)
  {
    hide Context.Valid, StoredResolutions, Context.Entries;
    var rs := plan.resolutions[e];
    var ss := SelectionsFrom(rs);
    var s :| s in ss && s.provider == Some(p);
    var k :| 0 <= k < |ss| && ss[k] == s;
    assert rs[k] in rs;
    StoredOne(ctx, plan, e, k);
  }

  lemma StoredOne(ctx: Context, plan: Plan, e: Id, k: nat)
    requires ctx.Valid() && StoredResolutions(ctx, plan.eligible, plan.resolutions)
    requires plan.eligible <= ctx.Entries() && plan.resolutions.Keys == plan.eligible
    requires e in plan.eligible && k < |plan.resolutions[e]| && plan.resolutions[e][k].provider.Some?
    ensures plan.resolutions[e][k].provider.value.entry != e && plan.resolutions[e][k].provider.value.entry in plan.eligible
  {
    hide ResolveOne, ScopeIndex.Computed;
    var c :| c in ctx.candidates && c.entry == e;
    var i :| 0 <= i < |ctx.candidates| && ctx.candidates[i] == c;
    assert plan.resolutions[e] == ResolveRequirements(ctx, plan.eligible, ctx.candidates[i]);
    hide StoredResolutions;
    var r := (c.required + c.optional)[k];
    assert plan.resolutions[e][k] == ResolveOne(ctx, plan.eligible, c, r);
    SatisfiedMeans(ctx, plan.eligible, c, r);
  }

  /** A plan in topological order puts every selected provider before its consumer. */
  lemma TopologicalPutsProvidersFirst(ctx: Context, plan: Plan)
    requires ctx.Valid() && StoredResolutions(ctx, plan.eligible, plan.resolutions)
    requires plan.eligible <= ctx.Entries() && plan.resolutions.Keys == plan.eligible
    requires forall p, c :: (p, c) in plan.edges <==> c in plan.eligible && p != c && BindsTo(plan.resolutions[c], p)
    requires IsPermutationOf(plan.order, plan.eligible) && Topological(plan.eligible, plan.edges, plan.order)
    ensures Reuse.ProvidersFirst(AgendaOf(plan))
  {
    var agenda := AgendaOf(plan);
    forall k | 0 <= k < |plan.order|
      ensures Reuse.ProvidersOf(agenda.SelectionsOf(plan.order[k])) <= Elements(plan.order[..k])
    {
      var e := plan.order[k];
      forall p | p in Reuse.ProvidersOf(agenda.SelectionsOf(e)) ensures p in Elements(plan.order[..k]) {
        SelectedIsEligible(ctx, plan, e, p);
        assert p in Providers(plan.eligible, plan.edges, e);
      }
    }
  }
}
