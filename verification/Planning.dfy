/** A whole resolution: cycles of the declared graph, the eligible set, the dependency edges
    and the activation order - and what having no cycle is worth for that order. */
module Planning {
  import opened Wrappers
  import opened Ordering
  import opened Graphs
  import opened Keys
  import opened Scopes
  import opened Resolver
  import opened Tarjan
  import opened Activation

  // ---- The declared graph

  /** `c` hard-requires something that `p` declares, `c` can see and accepts. */
  predicate Declares(ctx: Context, p: Candidate, c: Candidate)
    requires c.scope in ctx.index.lineages && c.scope in ctx.index.allowed
  {
    p.entry != c.entry &&
    exists r | r in c.required :: exists o | o in DeclaredOptions(p) ::
      o.key.name == r.name && ctx.index.CanSee(c.scope, p.scope, r.name) && Accepts(r, o.key, o.version)
  }

  /** Edges from provider to consumer between desired entries. */
  ghost predicate DeclaredEdge(ctx: Context, a: Id, b: Id)
    requires ctx.Valid()
  {
    exists i, j :: 0 <= i < |ctx.candidates| && 0 <= j < |ctx.candidates|
      && ctx.candidates[i].entry == a && ctx.candidates[j].entry == b && Declares(ctx, ctx.candidates[i], ctx.candidates[j])
  }

  ghost predicate IsDeclaredGraph(ctx: Context, g: Graph)
    requires ctx.Valid()
  {
    g.Keys == ctx.Entries() && forall a, b :: b in Succ(g, a) <==> DeclaredEdge(ctx, a, b)
  }

  method DeclaredGraph(ctx: Context) returns (g: Graph)
    requires ctx.Valid()
    ensures IsDeclaredGraph(ctx, g)
  {
    hide Declares, EdgeBefore, DeclaredEdge, Context.Valid, IsDeclaredGraph;
    g := map e | e in ctx.Entries() :: {};
    forall a, b ensures b in Succ(g, a) <==> EdgeBefore(ctx, a, b, 0, 0) {
      EdgeBeforeNone(ctx, a, b);
    }
    for j := 0 to |ctx.candidates|
      invariant g.Keys == ctx.Entries()
      invariant forall a, b :: b in Succ(g, a) <==> EdgeBefore(ctx, a, b, j, 0)
    {
      g := DeclaredRow(ctx, g, j);
    }
    GraphIsComplete(ctx, g);
  }

  lemma GraphIsComplete(ctx: Context, g: Graph)
    requires ctx.Valid() && g.Keys == ctx.Entries()
    requires forall a, b :: b in Succ(g, a) <==> EdgeBefore(ctx, a, b, |ctx.candidates|, 0)
    ensures IsDeclaredGraph(ctx, g)
  {
    hide EdgeBefore, DeclaredEdge, ScopeIndex.Computed;
    forall a, b ensures b in Succ(g, a) <==> DeclaredEdge(ctx, a, b) {
      EdgeBeforeAll(ctx, a, b);
    }
  }

  /** The edges into one consumer. */
  method DeclaredRow(ctx: Context, g0: Graph, j: nat) returns (g: Graph)
    requires ctx.Valid() && j < |ctx.candidates| && g0.Keys == ctx.Entries()
    requires forall a, b :: b in Succ(g0, a) <==> EdgeBefore(ctx, a, b, j, 0)
    ensures g.Keys == ctx.Entries()
    ensures forall a, b :: b in Succ(g, a) <==> EdgeBefore(ctx, a, b, j + 1, 0)
  {
    hide Declares, EdgeBefore, ScopeIndex.Computed;
    var cs := ctx.candidates;
    g := g0;
    for i := 0 to |cs|
      invariant g.Keys == ctx.Entries()
      invariant forall a, b :: b in Succ(g, a) <==> EdgeBefore(ctx, a, b, j, i)
    {
      assert cs[i] in cs;
      var before := g;
      if Declares(ctx, cs[i], cs[j]) {
        g := g[cs[i].entry := g[cs[i].entry] + {cs[j].entry}];
      }
      forall a, b ensures b in Succ(g, a) <==> EdgeBefore(ctx, a, b, j, i + 1) {
        EdgeBeforeStep(ctx, a, b, j, i);
      }
    }
    forall a, b ensures EdgeBefore(ctx, a, b, j, |cs|) <==> EdgeBefore(ctx, a, b, j + 1, 0) {
      EdgeBeforeRow(ctx, a, b, j);
    }
  }

  lemma EdgeBeforeNone(ctx: Context, a: Id, b: Id)
    requires ctx.Valid()
    ensures !EdgeBefore(ctx, a, b, 0, 0)
  {
  }

  /** An edge found once the rows before `j`, and row `j` up to `i`, have been looked at. */
  ghost predicate EdgeBefore(ctx: Context, a: Id, b: Id, j: nat, i: nat)
    requires ctx.Valid() && j <= |ctx.candidates|
  {
    exists y, x :: 0 <= y < |ctx.candidates| && 0 <= x < |ctx.candidates| && (y < j || (y == j && x < i))
      && ctx.candidates[x].entry == a && ctx.candidates[y].entry == b && Declares(ctx, ctx.candidates[x], ctx.candidates[y])
  }

  lemma EdgeBeforeStep(ctx: Context, a: Id, b: Id, j: nat, i: nat)
    requires ctx.Valid() && j < |ctx.candidates| && i < |ctx.candidates|
    ensures EdgeBefore(ctx, a, b, j, i + 1) <==> (
      || EdgeBefore(ctx, a, b, j, i)
      || (ctx.candidates[i].entry == a && ctx.candidates[j].entry == b && Declares(ctx, ctx.candidates[i], ctx.candidates[j])))
  {
    hide Declares, ScopeIndex.Computed;
  }

  lemma EdgeBeforeRow(ctx: Context, a: Id, b: Id, j: nat)
    requires ctx.Valid() && j < |ctx.candidates|
    ensures EdgeBefore(ctx, a, b, j, |ctx.candidates|) <==> EdgeBefore(ctx, a, b, j + 1, 0)
  {
    hide Declares, ScopeIndex.Computed;
  }

  lemma EdgeBeforeAll(ctx: Context, a: Id, b: Id)
    requires ctx.Valid()
    ensures EdgeBefore(ctx, a, b, |ctx.candidates|, 0) <==> DeclaredEdge(ctx, a, b)
  {
    hide Declares, ScopeIndex.Computed;
  }

  lemma DeclaredGraphIsSelfLoopFree(ctx: Context, g: Graph)
    requires ctx.Valid() && IsDeclaredGraph(ctx, g)
    ensures SelfLoopFree(g)
  {
    forall n ensures n !in Succ(g, n) {
      assert !DeclaredEdge(ctx, n, n);
    }
  }

  /** An edge, in the terms of the composition: another entry's scope is on the consumer's lineage,
      every view along it admits the capability, and a contract of it meets a hard requirement. */
  lemma EdgeMeans(ctx: Context, g: Graph, a: Id, b: Id)
    requires ctx.Valid() && IsDeclaredGraph(ctx, g)
    ensures forall j :: 0 <= j < |ctx.candidates| ==> ctx.candidates[j].scope in ctx.index.lineages
    ensures forall j, q :: 0 <= j < |ctx.candidates| && q in ctx.index.lineages[ctx.candidates[j].scope] ==> q in ctx.index.specs
    ensures b in Succ(g, a) <==>
      exists i, j, k, m ::
        && 0 <= i < |ctx.candidates| && 0 <= j < |ctx.candidates|
        && 0 <= k < |ctx.candidates[i].contracts| && 0 <= m < |ctx.candidates[j].required|
        && var (p, c, contract, r) :=
             (ctx.candidates[i], ctx.candidates[j], ctx.candidates[i].contracts[k], ctx.candidates[j].required[m]);
           && p.entry == a && c.entry == b && a != b
           && p.scope in ctx.index.lineages[c.scope]
           && (forall q :: q in ctx.index.lineages[c.scope] ==>
                 ctx.index.specs[q].capabilities.None? || r.name in ctx.index.specs[q].capabilities.value)
           && contract.0 == r.name && (r.generation.None? || contract.1.Major() == r.generation.value)
           && InSet(r.specifier, contract.1)
  {
    hide ScopeIndex.Computed, InSet, Succ, ScopeIndex.CanSee;
    assert b in Succ(g, a) <==> DeclaredEdge(ctx, a, b);
    forall j, q | 0 <= j < |ctx.candidates| && q in ctx.index.lineages[ctx.candidates[j].scope] ensures q in ctx.index.specs {
      AllowedMeans(ctx.index, ctx.candidates[j].scope, "");
    }
    if DeclaredEdge(ctx, a, b) {
      var i, j :| 0 <= i < |ctx.candidates| && 0 <= j < |ctx.candidates|
        && ctx.candidates[i].entry == a && ctx.candidates[j].entry == b && Declares(ctx, ctx.candidates[i], ctx.candidates[j]);
      var k, m := DeclaresAt(ctx, i, j);
      CanSeeMeans(ctx.index, ctx.candidates[j].scope, ctx.candidates[i].scope, ctx.candidates[j].required[m].name);
      assert ctx.candidates[i].contracts[k].0 == ctx.candidates[j].required[m].name;
    }
    if i, j, k, m :|
      && 0 <= i < |ctx.candidates| && 0 <= j < |ctx.candidates|
      && 0 <= k < |ctx.candidates[i].contracts| && 0 <= m < |ctx.candidates[j].required|
      && var (p, c, contract, r) :=
           (ctx.candidates[i], ctx.candidates[j], ctx.candidates[i].contracts[k], ctx.candidates[j].required[m]);
         && p.entry == a && c.entry == b && a != b
         && p.scope in ctx.index.lineages[c.scope]
         && (forall q :: q in ctx.index.lineages[c.scope] ==>
               ctx.index.specs[q].capabilities.None? || r.name in ctx.index.specs[q].capabilities.value)
         && contract.0 == r.name && (r.generation.None? || contract.1.Major() == r.generation.value)
         && InSet(r.specifier, contract.1)
    {
      CanSeeMeans(ctx.index, ctx.candidates[j].scope, ctx.candidates[i].scope, ctx.candidates[j].required[m].name);
      DeclaredAt(ctx, i, j, k, m);
    }
  }

  lemma DeclaresAt(ctx: Context, i: nat, j: nat) returns (k: nat, m: nat)
    requires ctx.Valid() && i < |ctx.candidates| && j < |ctx.candidates| && Declares(ctx, ctx.candidates[i], ctx.candidates[j])
    ensures k < |ctx.candidates[i].contracts| && m < |ctx.candidates[j].required|
    ensures var r, contract := ctx.candidates[j].required[m], ctx.candidates[i].contracts[k];
      && ctx.index.CanSee(ctx.candidates[j].scope, ctx.candidates[i].scope, r.name)
      && contract.0 == r.name && (r.generation.None? || contract.1.Major() == r.generation.value) && InSet(r.specifier, contract.1)
  {
    hide ScopeIndex.CanSee, ScopeIndex.Computed, InSet;
    var p, c := ctx.candidates[i], ctx.candidates[j];
    var r :| r in c.required && exists o | o in DeclaredOptions(p) ::
      o.key.name == r.name && ctx.index.CanSee(c.scope, p.scope, r.name) && Accepts(r, o.key, o.version);
    var o :| o in DeclaredOptions(p) && o.key.name == r.name && ctx.index.CanSee(c.scope, p.scope, r.name) && Accepts(r, o.key, o.version);
    k :| 0 <= k < |p.contracts| && DeclaredOptions(p)[k] == o;
    m :| 0 <= m < |c.required| && c.required[m] == r;
  }

  lemma DeclaredAt(ctx: Context, i: nat, j: nat, k: nat, m: nat)
    requires ctx.Valid() && i < |ctx.candidates| && j < |ctx.candidates|
    requires k < |ctx.candidates[i].contracts| && m < |ctx.candidates[j].required| && ctx.candidates[i].entry != ctx.candidates[j].entry
    requires var r, contract := ctx.candidates[j].required[m], ctx.candidates[i].contracts[k];
      && ctx.index.CanSee(ctx.candidates[j].scope, ctx.candidates[i].scope, r.name)
      && contract.0 == r.name && (r.generation.None? || contract.1.Major() == r.generation.value) && InSet(r.specifier, contract.1)
    ensures DeclaredEdge(ctx, ctx.candidates[i].entry, ctx.candidates[j].entry)
  {
    hide ScopeIndex.CanSee, ScopeIndex.Computed, InSet;
    var p, c := ctx.candidates[i], ctx.candidates[j];
    var o := DeclaredOptions(p)[k];
    assert o in DeclaredOptions(p) && c.required[m] in c.required;
    assert Declares(ctx, p, c);
  }

  // ---- Edges lead down, so a cycle stays in one scope

  lemma EdgeLeadsDown(ctx: Context, g: Graph, a: Id, b: Id) returns (i: nat, j: nat)
    requires ctx.Valid() && IsDeclaredGraph(ctx, g) && b in Succ(g, a)
    ensures i < |ctx.candidates| && j < |ctx.candidates| && ctx.candidates[i].entry == a && ctx.candidates[j].entry == b
    ensures ctx.candidates[j].scope in ctx.index.lineages
    ensures ctx.candidates[i].scope in ctx.index.lineages[ctx.candidates[j].scope]
  {
    hide InSet, Succ;
    EdgeMeans(ctx, g, a, b);
    var x, y, k, m :|
      && 0 <= x < |ctx.candidates| && 0 <= y < |ctx.candidates|
      && 0 <= k < |ctx.candidates[x].contracts| && 0 <= m < |ctx.candidates[y].required|
      && ctx.candidates[x].contracts[k].0 == ctx.candidates[y].required[m].name
      && ctx.candidates[x].entry == a && ctx.candidates[y].entry == b
      && ctx.candidates[x].scope in ctx.index.lineages[ctx.candidates[y].scope];
    i, j := x, y;
  }

  lemma {:induction false} PathLeadsDown(ctx: Context, g: Graph, p: seq<Id>, i: nat) returns (j: nat)
    requires ctx.Valid() && IsDeclaredGraph(ctx, g) && IsPath(g, p) && i < |ctx.candidates| && ctx.candidates[i].entry == p[0]
    ensures j < |ctx.candidates| && ctx.candidates[j].entry == p[|p| - 1] && ctx.candidates[j].scope in ctx.index.specs
    ensures ctx.candidates[j].scope in ctx.index.lineages
    ensures ctx.candidates[i].scope in ctx.index.lineages[ctx.candidates[j].scope]
    decreases |p|
  {
    hide IsDeclaredGraph;
    if |p| == 1 {
      j := i;
      LineageIsChain(ctx.index, ctx.candidates[i].scope);
    } else {
      var n := |p| - 1;
      assert p[n] in Succ(g, p[n - 1]);
      var x := PathLeadsDown(ctx, g, p[..n], i);
      var y;
      y, j := EdgeLeadsDown(ctx, g, p[n - 1], p[n]);
      assert y == x;
      AncestryIsOrder(ctx.index, ctx.candidates[i].scope, ctx.candidates[x].scope, ctx.candidates[j].scope);
    }
  }

  /** Whoever lies on one cycle lives in one scope: no cycle is reported across scopes, be they
      siblings or one above the other. */
  lemma CyclesStayInOneScope(ctx: Context, g: Graph, i: nat, j: nat)
    requires ctx.Valid() && IsDeclaredGraph(ctx, g) && i < |ctx.candidates| && j < |ctx.candidates|
    requires Mutual(g, ctx.candidates[i].entry, ctx.candidates[j].entry)
    ensures ctx.candidates[i].scope == ctx.candidates[j].scope
  {
    hide IsDeclaredGraph;
    var a, b := ctx.candidates[i].entry, ctx.candidates[j].entry;
    var p :| Joins(g, p, a, b);
    var q :| Joins(g, q, b, a);
    var x := PathLeadsDown(ctx, g, p, i);
    var y := PathLeadsDown(ctx, g, q, j);
    assert x == j && y == i;
    AncestryIsOrder(ctx.index, ctx.candidates[i].scope, ctx.candidates[j].scope, ctx.candidates[j].scope);
  }

  /** No edge joins entries of two siblings. */
  lemma SiblingsShareNoEdge(ctx: Context, g: Graph, i: nat, j: nat)
    requires ctx.Valid() && IsDeclaredGraph(ctx, g) && i < |ctx.candidates| && j < |ctx.candidates|
    requires ctx.candidates[i].scope != ctx.candidates[j].scope
    requires ctx.candidates[i].scope in ctx.index.specs && ctx.candidates[j].scope in ctx.index.specs
    requires ctx.index.specs[ctx.candidates[i].scope].parent == ctx.index.specs[ctx.candidates[j].scope].parent
    ensures ctx.candidates[j].entry !in Succ(g, ctx.candidates[i].entry)
  {
    hide IsDeclaredGraph, Succ;
    if ctx.candidates[j].entry in Succ(g, ctx.candidates[i].entry) {
      var x, y := EdgeLeadsDown(ctx, g, ctx.candidates[i].entry, ctx.candidates[j].entry);
      assert x == i && y == j;
      AncestorsArePrefix(ctx.index, ctx.candidates[i].scope, ctx.candidates[j].scope);
      LineagesOfSiblings(ctx.index, ctx.candidates[i].scope, ctx.candidates[j].scope);
    }
  }

  // ---- Cycles

  ghost predicate Listed(cycles: seq<seq<Id>>, e: Id) {
    exists k :: 0 <= k < |cycles| && e in cycles[k]
  }

  /** Report the components of more than one entry: exactly the entries on a directed cycle. */
  method DetectCycles(ctx: Context) returns (cycles: seq<seq<Id>>, ghost g: Graph)
    requires ctx.Valid()
    ensures IsDeclaredGraph(ctx, g)
    ensures forall e :: Listed(cycles, e) <==> OnCycle(g, e)
    ensures forall k :: 0 <= k < |cycles| ==> IsComponent(g, cycles[k]) && |cycles[k]| > 1
    ensures PairwiseDisjoint(cycles) && HeadsAscend(cycles)
    ensures forall k :: 0 <= k < |cycles| ==> cycles[k] == Sorted(Elements(cycles[k]))
    ensures cycles == [] <==> Acyclic(g)
    ensures forall k, i, j {:trigger cycles[k], ctx.candidates[i], ctx.candidates[j]} ::
      0 <= k < |cycles| && 0 <= i < |ctx.candidates| && 0 <= j < |ctx.candidates|
      && ctx.candidates[i].entry in cycles[k] && ctx.candidates[j].entry in cycles[k]
      ==> ctx.candidates[i].scope == ctx.candidates[j].scope
  {
    var adjacency := DeclaredGraph(ctx);
    g := adjacency;
    DeclaredGraphIsSelfLoopFree(ctx, g);
    var nodes := ctx.Entries();
    var components := StronglyConnectedComponents(nodes, adjacency);
    var large := LargerThanOne(components);
    cycles := SortCycles(large);
    CyclesAreListed(g, nodes, components, cycles);
    forall k | 0 <= k < |cycles| ensures cycles[k] == Sorted(Elements(cycles[k])) {
      assert cycles[k] in cycles && cycles[k] in components;
    }
    forall k, i, j {:trigger cycles[k], ctx.candidates[i], ctx.candidates[j]} |
      0 <= k < |cycles| && 0 <= i < |ctx.candidates| && 0 <= j < |ctx.candidates|
      && ctx.candidates[i].entry in cycles[k] && ctx.candidates[j].entry in cycles[k]
      ensures ctx.candidates[i].scope == ctx.candidates[j].scope
    {
      ComponentInOneScope(ctx, g, cycles[k], i, j);
    }
  }

  lemma ComponentInOneScope(ctx: Context, g: Graph, c: seq<Id>, i: nat, j: nat)
    requires ctx.Valid() && IsDeclaredGraph(ctx, g) && IsComponent(g, c)
    requires i < |ctx.candidates| && j < |ctx.candidates| && ctx.candidates[i].entry in c && ctx.candidates[j].entry in c
    ensures ctx.candidates[i].scope == ctx.candidates[j].scope
  {
    hide IsDeclaredGraph, Context.Valid;
    CyclesStayInOneScope(ctx, g, i, j);
  }

  /** In the order of their first, that is their least, members. */
  ghost predicate HeadsAscend(cs: seq<seq<Id>>) {
    && (forall i :: 0 <= i < |cs| ==> cs[i] != [])
    && forall i, j :: 0 <= i < j < |cs| ==> Before(cs[i][0], cs[j][0])
  }

  function InsertCycle(c: seq<Id>, sorted: seq<seq<Id>>): (r: seq<seq<Id>>)
    ensures forall x :: x in r <==> x == c || x in sorted
  {
    if sorted == [] || KeyBefore(c, sorted[0]) then [c] + sorted else [sorted[0]] + InsertCycle(c, sorted[1..])
  }

  lemma {:induction false} InsertedAscend(c: seq<Id>, sorted: seq<seq<Id>>)
    requires HeadsAscend(sorted) && c != [] && forall x :: x in sorted ==> x[0] != c[0]
    ensures HeadsAscend(InsertCycle(c, sorted))
    decreases |sorted|
  {
    if sorted != [] {
      var first, rest := sorted[0], sorted[1..];
      assert first in sorted && forall x :: x in rest ==> x in sorted;
      forall x | x in rest ensures x != [] && Before(first[0], x[0]) {
        var k :| 0 <= k < |rest| && rest[k] == x;
        assert sorted[k + 1] == x;
      }
      BeforeIsTotal(c[0], first[0]);
      HeadDecides(c, first);
      if KeyBefore(c, first) {
        forall x | x in rest ensures Before(c[0], x[0]) {
          BeforeIsTransitive(c[0], first[0], x[0]);
        }
        PutFirst(c, sorted);
      } else {
        InsertedAscend(c, rest);
        PutFirst(first, InsertCycle(c, rest));
      }
    }
  }

  lemma HeadDecides(a: seq<Id>, b: seq<Id>)
    requires a != [] && b != [] && a[0] != b[0]
    ensures KeyBefore(a, b) <==> Before(a[0], b[0])
  {
  }

  lemma PutFirst(c: seq<Id>, cs: seq<seq<Id>>)
    requires HeadsAscend(cs) && c != [] && forall x :: x in cs ==> x != [] && Before(c[0], x[0])
    ensures HeadsAscend([c] + cs)
  {
    hide Before;
  }

  /** `sorted`, on disjoint components. */
  method SortCycles(cs: seq<seq<Id>>) returns (r: seq<seq<Id>>)
    requires PairwiseDisjoint(cs) && forall c :: c in cs ==> c != []
    ensures forall c :: c in r <==> c in cs
    ensures HeadsAscend(r) && PairwiseDisjoint(r)
  {
    r := [];
    hide Before, KeyBefore;
    for k := 0 to |cs|
      invariant (forall c :: c in r <==> c in cs[..k]) && HeadsAscend(r)
    {
      assert cs[..k + 1] == cs[..k] + [cs[k]] && cs[k] in cs;
      forall x | x in r ensures x[0] != cs[k][0] {
        var j :| 0 <= j < k && cs[j] == x;
        assert cs[j] in cs && x[0] in cs[j];
      }
      InsertedAscend(cs[k], r);
      r := InsertCycle(cs[k], r);
    }
    assert cs[..|cs|] == cs;
    forall i, j, v | 0 <= i < j < |r| && v in r[i] ensures v !in r[j] {
      BeforeIsIrreflexive(r[i][0]);
      assert r[i] in cs && r[j] in cs && r[i] != r[j];
    }
  }

  method LargerThanOne(components: seq<seq<Id>>) returns (cycles: seq<seq<Id>>)
    requires PairwiseDisjoint(components)
    ensures forall c :: c in cycles <==> c in components && |c| > 1
    ensures PairwiseDisjoint(cycles)
  {
    cycles := [];
    for i := 0 to |components|
      invariant forall c :: c in cycles <==> c in components[..i] && |c| > 1
      invariant PairwiseDisjoint(cycles)
    {
      assert components[..i + 1] == components[..i] + [components[i]];
      if |components[i]| > 1 {
        forall a, v | 0 <= a < |cycles| && v in cycles[a] ensures v !in components[i] {
          assert cycles[a] in cycles;
          var k :| 0 <= k < i && components[k] == cycles[a];
        }
        cycles := cycles + [components[i]];
      }
    }
    assert components[..|components|] == components;
  }

  lemma CyclesAreListed(g: Graph, nodes: set<Id>, components: seq<seq<Id>>, cycles: seq<seq<Id>>)
    requires SelfLoopFree(g) && g.Keys == nodes && IsPartitionIntoComponents(g, nodes, components)
    requires forall c :: c in cycles <==> c in components && |c| > 1
    ensures forall e :: Listed(cycles, e) <==> OnCycle(g, e)
    ensures forall k :: 0 <= k < |cycles| ==> IsComponent(g, cycles[k]) && |cycles[k]| > 1
    ensures cycles == [] <==> Acyclic(g)
  {
    forall c | c in cycles ensures IsComponent(g, c) && |c| > 1 {
      var k :| 0 <= k < |components| && components[k] == c;
    }
    forall e ensures Listed(cycles, e) <==> OnCycle(g, e) {
      OnCycleIffMutual(g, e);
      if Listed(cycles, e) {
        var k :| 0 <= k < |cycles| && e in cycles[k];
        assert cycles[k] in cycles;
        OtherMember(g, cycles[k], e);
      }
      if OnCycle(g, e) {
        var m :| m != e && Mutual(g, e, m);
        CycleNodeIsKnown(g, nodes, e);
        assert FromRoots(g, nodes, e);
        var k :| 0 <= k < |components| && e in components[k];
        assert m in components[k];
        TwoMembers(components[k], e, m);
        assert components[k] in cycles;
        var q :| 0 <= q < |cycles| && cycles[q] == components[k];
      }
    }
    if cycles != [] {
      assert cycles[0] in cycles && cycles[0][0] in cycles[0];
      assert Listed(cycles, cycles[0][0]);
    }
  }

  lemma OtherMember(g: Graph, c: seq<Id>, e: Id)
    requires IsComponent(g, c) && |c| > 1 && e in c
    ensures exists m :: m != e && Mutual(g, e, m)
  {
    var m := if c[0] == e then c[1] else c[0];
    assert m != e && m in c;
    assert Mutual(g, e, m);
  }

  lemma TwoMembers(c: seq<Id>, a: Id, b: Id)
    requires a in c && b in c && a != b
    ensures |c| > 1
  {
  }

  lemma CycleNodeIsKnown(g: Graph, nodes: set<Id>, e: Id)
    requires OnCycle(g, e) && g.Keys == nodes
    ensures FromRoots(g, nodes, e)
  {
    var p :| Joins(g, p, e, e) && |p| > 1;
    assert p[1] in Succ(g, p[0]);
    ReachSelf(g, e);
  }

  // ---- Dependency edges

  ghost predicate BindsTo(resolutions: seq<Resolution>, p: Id) {
    exists s :: s in resolutions && s.provider.Some? && s.provider.value.entry == p
  }

  lemma BindsToOne(r: Requirement, o: ProviderOption)
    ensures forall p :: BindsTo([Resolution(r, Status.Resolved, Some(o))], p) <==> p == o.entry
  {
    var rs := [Resolution(r, Status.Resolved, Some(o))];
    assert rs[0] in rs;
  }

  method DependencyEdges(eligible: set<Id>, resolutions: map<Id, seq<Resolution>>) returns (edges: Edges)
    requires forall e :: e in eligible ==> e in resolutions
    ensures forall p, c :: (p, c) in edges <==> c in eligible && p != c && BindsTo(resolutions[c], p)
  {
    edges := {};
    var entries := Sorted(eligible);
    for i := 0 to |entries|
      invariant forall p, c :: (p, c) in edges <==> c in entries[..i] && p != c && BindsTo(resolutions[c], p)
    {
      var entry, rs := entries[i], resolutions[entries[i]];
      assert entries[..i + 1] == entries[..i] + [entry];
      var found: set<Id> := {};
      for k := 0 to |rs|
        invariant forall p :: p in found <==> p != entry && BindsTo(rs[..k], p)
      {
        assert rs[..k + 1] == rs[..k] + [rs[k]];
        if rs[k].provider.Some? && rs[k].provider.value.entry != entry {
          found := found + {rs[k].provider.value.entry};
        }
      }
      assert rs[..|rs|] == rs;
      ghost var before := edges;
      edges := edges + set p | p in found :: (p, entry);
      forall p, c ensures (p, c) in edges <==> c in entries[..i + 1] && p != c && BindsTo(resolutions[c], p) {
        assert (p, c) in edges <==> (p, c) in before || (c == entry && p in found);
      }
    }
    assert entries[..|entries|] == entries;
  }

  // ---- The plan

  datatype Plan = Plan(
    eligible: set<Id>,
    resolutions: map<Id, seq<Resolution>>,
    edges: Edges,
    order: seq<Id>,
    cycles: seq<seq<Id>>)

  function Members(cycles: seq<seq<Id>>): set<Id> {
    set k, e | 0 <= k < |cycles| && e in cycles[k] :: e
  }

  /** Every live registration is one of the contracts its manifest declares. */
  ghost predicate RegistrationsDeclared(ctx: Context) {
    forall c, r :: c in ctx.candidates && c.active && r in c.registrations ==>
      r.key == FromVersion(r.key.name, r.version) && (r.key.name, r.version) in c.contracts
  }

  ghost predicate NothingOptional(ctx: Context) {
    forall c :: c in ctx.candidates ==> c.optional == []
  }

  ghost predicate StoredResolutions(ctx: Context, eligible: set<Id>, resolutions: map<Id, seq<Resolution>>)
    requires ctx.Valid()
  {
    forall i :: 0 <= i < |ctx.candidates| && ctx.candidates[i].entry in eligible ==>
      ctx.candidates[i].entry in resolutions &&
      resolutions[ctx.candidates[i].entry] == ResolveRequirements(ctx, eligible, ctx.candidates[i])
  }

  /** An edge of a plan, requirement by requirement: hard or optional, it is satisfied by that
      provider for that eligible consumer. */
  lemma PlanEdgeMeans(ctx: Context, plan: Plan, p: Id, c: Id)
    requires ctx.Valid() && plan.eligible <= ctx.Entries() && plan.resolutions.Keys == plan.eligible
    requires StoredResolutions(ctx, plan.eligible, plan.resolutions)
    requires forall p, c :: (p, c) in plan.edges <==> c in plan.eligible && p != c && BindsTo(plan.resolutions[c], p)
    ensures forall j :: 0 <= j < |ctx.candidates| ==>
      ctx.candidates[j].scope in ctx.index.lineages && ctx.candidates[j].scope in ctx.index.allowed
    ensures (p, c) in plan.edges <==>
      exists j, r :: 0 <= j < |ctx.candidates| && (r in ctx.candidates[j].required || r in ctx.candidates[j].optional)
        && ctx.candidates[j].entry == c && c in plan.eligible
        && var s := ResolveOne(ctx, plan.eligible, ctx.candidates[j], r);
           s.status == Status.Resolved && s.provider.Some? && s.provider.value.entry == p
  {
    hide ResolveOne, ScopeIndex.Computed, BindsTo;
    EntriesMean(ctx);
    if c in plan.eligible {
      var j :| 0 <= j < |ctx.candidates| && ctx.candidates[j].entry == c;
      BindsMeans(ctx, plan.eligible, j, p);
      assert forall k :: 0 <= k < |ctx.candidates| && ctx.candidates[k].entry == c ==> k == j;
    }
  }

  lemma BindsMeans(ctx: Context, eligible: set<Id>, j: nat, p: Id)
    requires ctx.Valid() && j < |ctx.candidates|
    ensures ctx.candidates[j].scope in ctx.index.lineages && ctx.candidates[j].scope in ctx.index.allowed
    ensures BindsTo(ResolveRequirements(ctx, eligible, ctx.candidates[j]), p) <==>
      exists r :: (r in ctx.candidates[j].required || r in ctx.candidates[j].optional)
        && var s := ResolveOne(ctx, eligible, ctx.candidates[j], r);
           s.status == Status.Resolved && s.provider.Some? && s.provider.value.entry == p
    ensures BindsTo(ResolveRequirements(ctx, eligible, ctx.candidates[j]), p) ==> p != ctx.candidates[j].entry
  {
    hide ScopeIndex.Computed, Matching, VisibleTo, Accepts, Pool, OfferedElsewhere, SomeAccepted, PreferenceFor;
    var c := ctx.candidates[j];
    var all, rs := c.required + c.optional, ResolveRequirements(ctx, eligible, c);
    hide ResolveOne;
    if BindsTo(rs, p) {
      var s :| s in rs && s.provider.Some? && s.provider.value.entry == p;
      var k :| 0 <= k < |rs| && rs[k] == s;
      assert s == ResolveOne(ctx, eligible, c, all[k]) && all[k] in all;
      SatisfiedMeans(ctx, eligible, c, all[k]);
    }
    if r :| (r in c.required || r in c.optional) && ResolveOne(ctx, eligible, c, r).provider.Some?
            && ResolveOne(ctx, eligible, c, r).provider.value.entry == p {
      assert r in all;
      var k :| 0 <= k < |all| && all[k] == r;
      assert rs[k] in rs;
    }
  }

  method Resolve(ctx: Context) returns (plan: Plan, ghost declared: Graph)
    requires ctx.Valid()
    ensures plan.eligible == Settled(ctx, ctx.Entries()) && SelfSupporting(ctx, plan.eligible)
    ensures StoredResolutions(ctx, plan.eligible, plan.resolutions)
    ensures plan.resolutions.Keys == plan.eligible
    ensures forall p, c :: (p, c) in plan.edges <==>
      c in plan.eligible && p != c && BindsTo(plan.resolutions[c], p)
    ensures IsDeclaredGraph(ctx, declared) && forall e :: Listed(plan.cycles, e) <==> OnCycle(declared, e)
    ensures plan.cycles == [] <==> Acyclic(declared)
    ensures IsPermutationOf(plan.order, plan.eligible - Members(plan.cycles))
    ensures exists m :: FollowsKahn(plan.eligible - Members(plan.cycles), plan.edges, plan.order, m)
    ensures Topological(plan.eligible - Members(plan.cycles), plan.edges, plan.order)
       <==> Acyclic(EdgeGraph(plan.eligible - Members(plan.cycles), plan.edges))
    ensures plan.cycles == [] && NothingOptional(ctx) && RegistrationsDeclared(ctx) ==>
      Topological(plan.eligible, plan.edges, plan.order)
  {
    hide SelfSupporting, StoredResolutions, IsDeclaredGraph, IsPermutationOf, FollowsKahn, Topological, Acyclic;
    hide EdgeGraph, BindsTo, Listed, OnCycle, IsComponent, PairwiseDisjoint, Settled, ScopeIndex.Valid, Context.Valid;
    hide NothingOptional, RegistrationsDeclared;
    var cycles;
    cycles, declared := DetectCycles(ctx);
    var eligible, all := Eligible(ctx);
    StoredAsPredicate(ctx, eligible, all);
    EligibleAreStored(ctx, eligible, all);
    var resolutions := map e | e in eligible :: all[e];
    StoredRestricted(ctx, eligible, all, resolutions);
    var edges := DependencyEdges(eligible, resolutions);
    var order := ActivationOrder(eligible, edges, Members(cycles));
    plan := Plan(eligible, resolutions, edges, order, cycles);
    if cycles == [] && NothingOptional(ctx) && RegistrationsDeclared(ctx) {
      assert Members(cycles) == {} && eligible - {} == eligible;
      NoDeclaredCycleNoDependencyCycle(ctx, declared, plan);
    }
  }

  lemma StoredAsPredicate(ctx: Context, eligible: set<Id>, all: map<Id, seq<Resolution>>)
    requires ctx.Valid() && SelfSupporting(ctx, eligible)
    requires forall i :: 0 <= i < |ctx.candidates| && ctx.candidates[i].entry in eligible ==>
      ctx.candidates[i].entry in all &&
      all[ctx.candidates[i].entry] == ResolveRequirements(ctx, eligible, ctx.candidates[i])
    ensures StoredResolutions(ctx, eligible, all) && eligible <= ctx.Entries()
  {
    hide ResolveRequirements, ScopeIndex.Computed, Supported;
  }

  lemma StoredRestricted(ctx: Context, eligible: set<Id>, all: map<Id, seq<Resolution>>, some: map<Id, seq<Resolution>>)
    requires ctx.Valid() && StoredResolutions(ctx, eligible, all)
    requires forall e :: e in eligible && e in all ==> e in some && some[e] == all[e]
    ensures StoredResolutions(ctx, eligible, some)
  {
    hide ResolveRequirements, ScopeIndex.Computed;
  }

  lemma EligibleAreStored(ctx: Context, eligible: set<Id>, all: map<Id, seq<Resolution>>)
    requires ctx.Valid() && eligible <= ctx.Entries() && StoredResolutions(ctx, eligible, all)
    ensures forall e :: e in eligible ==> e in all
  {
    forall e | e in eligible ensures e in all {
      var c :| c in ctx.candidates && c.entry == e;
      var i :| 0 <= i < |ctx.candidates| && ctx.candidates[i] == c;
    }
  }

  /** A binding of a plan without optional requirements is an edge of the declared graph. */
  lemma BindingIsDeclared(ctx: Context, eligible: set<Id>, j: nat, p: Id)
    requires ctx.Valid() && NothingOptional(ctx) && RegistrationsDeclared(ctx)
    requires j < |ctx.candidates| && BindsTo(ResolveRequirements(ctx, eligible, ctx.candidates[j]), p)
    ensures DeclaredEdge(ctx, p, ctx.candidates[j].entry)
  {
    var c := ctx.candidates[j];
    assert c in ctx.candidates && c.optional == [] && c.required + c.optional == c.required;
    VisibleScope(ctx, j);
    hide *;
    var rs := ResolveRequirements(ctx, eligible, c);
    var k := BindingAt(ctx, eligible, c, p);
    ChoiceIsDeclared(ctx, eligible, j, c.required[k], p);
  }

  lemma BindingAt(ctx: Context, eligible: set<Id>, c: Candidate, p: Id) returns (k: nat)
    requires c.scope in ctx.index.lineages && c.scope in ctx.index.allowed && c.required + c.optional == c.required
    requires BindsTo(ResolveRequirements(ctx, eligible, c), p)
    ensures k < |c.required| && ResolveOne(ctx, eligible, c, c.required[k]).provider.Some?
    ensures ResolveOne(ctx, eligible, c, c.required[k]).provider.value.entry == p
  {
    hide ResolveOne, ResolveEach;
    var rs := ResolveRequirements(ctx, eligible, c);
    var s :| s in rs && s.provider.Some? && s.provider.value.entry == p;
    k :| 0 <= k < |rs| && rs[k] == s;
  }

  lemma VisibleScope(ctx: Context, j: nat)
    requires ctx.Valid() && j < |ctx.candidates|
    ensures ctx.candidates[j].scope in ctx.index.lineages && ctx.candidates[j].scope in ctx.index.allowed
  {
  }

  lemma ChoiceIsDeclared(ctx: Context, eligible: set<Id>, j: nat, r: Requirement, p: Id)
    requires ctx.Valid() && RegistrationsDeclared(ctx)
    requires j < |ctx.candidates| && r in ctx.candidates[j].required
    requires ResolveOne(ctx, eligible, ctx.candidates[j], r).provider.Some?
    requires ResolveOne(ctx, eligible, ctx.candidates[j], r).provider.value.entry == p
    ensures DeclaredEdge(ctx, p, ctx.candidates[j].entry)
  {
    var c := ctx.candidates[j];
    SatisfiedMeans(ctx, eligible, c, r);
    var o := ResolveOne(ctx, eligible, c, r).provider.value;
    var i :| 0 <= i < |ctx.candidates| && Offers(ctx.candidates[i], o) && ctx.candidates[i].entry == o.entry
      && ctx.index.CanSee(c.scope, ctx.candidates[i].scope, r.name);
    hide ResolveOne, ScopeIndex.Computed, Accepts;
    OfferIsDeclared(ctx, i, o);
    var d :| d in DeclaredOptions(ctx.candidates[i]) && d.key == o.key && d.version == o.version;
    assert Declares(ctx, ctx.candidates[i], c);
  }

  lemma OfferIsDeclared(ctx: Context, i: nat, o: ProviderOption)
    requires i < |ctx.candidates| && Offers(ctx.candidates[i], o) && RegistrationsDeclared(ctx)
    ensures exists d :: d in DeclaredOptions(ctx.candidates[i]) && d.key == o.key && d.version == o.version
  {
    var c := ctx.candidates[i];
    assert c in ctx.candidates;
    if c.active {
      var k :| 0 <= k < |c.registrations| && RegisteredOptions(c)[k] == o;
      var r := c.registrations[k];
      assert r in c.registrations;
      var m :| 0 <= m < |c.contracts| && c.contracts[m] == (r.key.name, r.version);
      assert DeclaredOptions(c)[m] in DeclaredOptions(c);
    } else {
      assert o in DeclaredOptions(c);
    }
  }

  lemma EdgeIsDeclared(ctx: Context, declared: Graph, plan: Plan, a: Id, b: Id)
    requires ctx.Valid() && NothingOptional(ctx) && RegistrationsDeclared(ctx) && IsDeclaredGraph(ctx, declared)
    requires plan.eligible <= ctx.Entries() && plan.resolutions.Keys == plan.eligible
    requires StoredResolutions(ctx, plan.eligible, plan.resolutions)
    requires b in plan.eligible && BindsTo(plan.resolutions[b], a)
    ensures b in Succ(declared, a)
  {
    hide NothingOptional, RegistrationsDeclared, BindsTo, DeclaredEdge, ResolveRequirements, ScopeIndex.Computed;
    var c :| c in ctx.candidates && c.entry == b;
    var j :| 0 <= j < |ctx.candidates| && ctx.candidates[j] == c;
    BindingIsDeclared(ctx, plan.eligible, j, a);
  }

  /** With no declared cycle, nothing optional and only declared registrations, the dependency
      edges are acyclic: every provider precedes its consumer. */
  lemma NoDeclaredCycleNoDependencyCycle(ctx: Context, declared: Graph, plan: Plan)
    requires ctx.Valid() && NothingOptional(ctx) && RegistrationsDeclared(ctx)
    requires IsDeclaredGraph(ctx, declared) && Acyclic(declared)
    requires plan.eligible <= ctx.Entries() && plan.resolutions.Keys == plan.eligible
    requires StoredResolutions(ctx, plan.eligible, plan.resolutions)
    requires forall p, c :: (p, c) in plan.edges <==>
      c in plan.eligible && p != c && BindsTo(plan.resolutions[c], p)
    ensures Acyclic(EdgeGraph(plan.eligible, plan.edges))
  {
    hide Context.Valid, NothingOptional, RegistrationsDeclared, StoredResolutions, IsDeclaredGraph, BindsTo, OnCycle;
    var g := EdgeGraph(plan.eligible, plan.edges);
    forall a, b | b in Succ(g, a) ensures b in Succ(declared, a) {
      EdgeIsDeclared(ctx, declared, plan, a, b);
    }
    forall n | OnCycle(g, n) ensures OnCycle(declared, n) {
      CycleInLargerGraph(g, declared, n);
    }
  }
}
