/** Composition scopes as the resolver sees them: lineages, capability views that only
    ever narrow, and who may see whom. */
module Scopes {
  import opened Wrappers
  import opened Ordering

  /** `capabilities` and `tools` are `None` where the scope declares no view of its own. */
  datatype ScopeSpec = ScopeSpec(path: Id, parent: Option<Id>, capabilities: Option<set<Id>>, tools: Option<set<Id>>)

  type SpecMap = map<Id, ScopeSpec>

  const ROOT: Id := "/"

  predicate ParentDeclared(specs: SpecMap, p: Id) {
    p in specs && specs[p].path == p && (specs[p].parent.Some? ==> specs[p].parent.value in specs)
  }

  /** Every parent is declared, and every spec filed under its own path. */
  ghost predicate Declared(specs: SpecMap) {
    forall p {:trigger ParentDeclared(specs, p)} :: p in specs ==> ParentDeclared(specs, p)
  }

  /** The scopes from the top down to `path`; `None` where the parents form a cycle. */
  function Lineage(specs: SpecMap, path: Id, seen: set<Id>): (r: Option<seq<Id>>)
    requires Declared(specs) && path in specs && seen <= specs.Keys
    ensures r.Some? ==> r.value != [] && r.value[|r.value| - 1] == path
    ensures r.Some? ==> forall p :: p in r.value ==> p in specs && p !in seen
    decreases specs.Keys - seen
  {
    if path in seen then None
    else
      assert ParentDeclared(specs, path);
      match specs[path].parent
      case None => Some([path])
      case Some(parent) =>
        var above := Lineage(specs, parent, seen + {path});
        if above.None? then None else Some(above.value + [path])
  }

  /** From each scope to its parent. */
  ghost predicate IsClimb(specs: SpecMap, p: seq<Id>) {
    && p != [] && (forall i :: 0 <= i < |p| ==> p[i] in specs)
    && forall i, j :: 0 <= i && j == i + 1 && j < |p| ==> specs[p[i]].parent == Some(p[j])
  }

  /** Climbing from `path` leads back to a scope met before, or to one of `seen`. */
  ghost predicate ParentsLoop(specs: SpecMap, path: Id, seen: set<Id>) {
    exists p :: IsClimb(specs, p) && p[0] == path && ComesBack(p, seen)
  }

  ghost predicate ComesBack(p: seq<Id>, seen: set<Id>) {
    p != [] && (p[|p| - 1] in seen || p[|p| - 1] in p[..|p| - 1])
  }

  /** A lineage is cut short exactly where the parents form a cycle. */
  lemma LoopsWhenCut(specs: SpecMap, path: Id, seen: set<Id>)
    requires Declared(specs) && path in specs && seen <= specs.Keys
    ensures Lineage(specs, path, seen).None? <==> ParentsLoop(specs, path, seen)
  {
    if Lineage(specs, path, seen).None? {
      var p := CutClimb(specs, path, seen);
    } else {
      forall p | IsClimb(specs, p) && p[0] == path ensures !ComesBack(p, seen) {
        UncutClimb(specs, path, seen, p);
      }
    }
  }

  lemma {:induction false} CutClimb(specs: SpecMap, path: Id, seen: set<Id>) returns (p: seq<Id>)
    requires Declared(specs) && path in specs && seen <= specs.Keys && Lineage(specs, path, seen).None?
    ensures IsClimb(specs, p) && p[0] == path && ComesBack(p, seen)
    decreases specs.Keys - seen
  {
    if path in seen {
      p := [path];
    } else {
      assert ParentDeclared(specs, path);
      var rest := CutClimb(specs, specs[path].parent.value, seen + {path});
      p := [path] + rest;
      assert p[..|p| - 1] == [path] + rest[..|rest| - 1];
    }
  }

  lemma {:induction false} UncutClimb(specs: SpecMap, path: Id, seen: set<Id>, p: seq<Id>)
    requires Declared(specs) && path in specs && seen <= specs.Keys && Lineage(specs, path, seen).Some?
    requires IsClimb(specs, p) && p[0] == path
    ensures !ComesBack(p, seen)
    decreases specs.Keys - seen
  {
    if |p| > 1 {
      assert ParentDeclared(specs, path) && specs[path].parent == Some(p[1]);
      assert IsClimb(specs, p[1..]);
      UncutClimb(specs, p[1], seen + {path}, p[1..]);
      assert p[..|p| - 1] == [path] + p[1..][..|p[1..]| - 1];
    }
  }

  /** `_ScopeIndex._lineage`: climb to the top, then reverse. */
  method ComputeLineage(specs: SpecMap, path: Id) returns (r: Option<seq<Id>>)
    requires Declared(specs) && path in specs
    ensures r == Lineage(specs, path, {})
    ensures r.None? <==> ParentsLoop(specs, path, {})
  {
    LoopsWhenCut(specs, path, {});
    var chain: seq<Id> := [];
    var seen: set<Id> := {};
    var current := Some(path);
    ExtendedByNothing(Lineage(specs, path, {}));
    while current.Some?
      invariant current.Some? ==> current.value in specs
      invariant seen <= specs.Keys
      invariant current.None? ==> Lineage(specs, path, {}) == Some(Reverse(chain))
      invariant current.Some? ==>
        Lineage(specs, path, {}) == Extended(Lineage(specs, current.value, seen), Reverse(chain))
      decreases specs.Keys - seen, current.Some?
    {
      if current.value in seen { return None; }
      ghost var before := chain;
      seen, chain := seen + {current.value}, chain + [current.value];
      assert chain[..|chain| - 1] == before;
      ReverseLast(before, current.value);
      assert ParentDeclared(specs, current.value);
      if specs[current.value].parent.Some? {
        ExtendedTwice(Lineage(specs, specs[current.value].parent.value, seen), [current.value], Reverse(before));
      }
      current := specs[current.value].parent;
    }
    r := Some(Reverse(chain));
  }

  function Extended(above: Option<seq<Id>>, below: seq<Id>): Option<seq<Id>> {
    if above.None? then None else Some(above.value + below)
  }

  lemma ExtendedByNothing(above: Option<seq<Id>>)
    ensures Extended(above, []) == above
  {
    assert above.Some? ==> above.value + [] == above.value;
  }

  lemma ExtendedTwice(above: Option<seq<Id>>, a: seq<Id>, b: seq<Id>)
    ensures Extended(Extended(above, a), b) == Extended(above, a + b)
  {
    assert above.Some? ==> above.value + a + b == above.value + (a + b);
  }

  function Reverse(xs: seq<Id>): seq<Id> {
    if xs == [] then [] else [xs[|xs| - 1]] + Reverse(xs[..|xs| - 1])
  }

  lemma ReverseLast(xs: seq<Id>, x: Id)
    ensures Reverse(xs + [x]) == [x] + Reverse(xs)
  {
    assert (xs + [x])[..|xs|] == xs;
  }

  /** Whether the lineage was cut short does not depend on what was already seen. */
  lemma {:induction false} LineageIgnoresSeen(specs: SpecMap, path: Id, s: set<Id>, t: set<Id>)
    requires Declared(specs) && path in specs && s <= t <= specs.Keys
    requires Lineage(specs, path, t).Some?
    ensures Lineage(specs, path, s) == Lineage(specs, path, t)
    decreases specs.Keys - t
  {
    assert ParentDeclared(specs, path);
    if specs[path].parent.Some? {
      LineageIgnoresSeen(specs, specs[path].parent.value, s + {path}, t + {path});
    }
  }

  // ---- The validated hierarchy

  /** One scope's own ceiling applied to what it inherits. */
  function Narrow(inherited: Option<set<Id>>, view: Option<set<Id>>): Option<set<Id>> {
    if view.None? then inherited
    else if inherited.None? then view
    else Some(inherited.value * view.value)
  }

  function ViewAlong(views: map<Id, Option<set<Id>>>, lineage: seq<Id>): Option<set<Id>>
    requires forall p :: p in lineage ==> p in views
  {
    if lineage == [] then None
    else
      var n := |lineage| - 1;
      Narrow(ViewAlong(views, lineage[..n]), views[lineage[n]])
  }

  function CapabilityViews(specs: SpecMap): map<Id, Option<set<Id>>> {
    map p | p in specs :: specs[p].capabilities
  }

  function ToolViews(specs: SpecMap): map<Id, Option<set<Id>>> {
    map p | p in specs :: specs[p].tools
  }

  datatype ScopeIndex = ScopeIndex(specs: SpecMap, lineages: map<Id, seq<Id>>, allowed: map<Id, Option<set<Id>>>)
  {
    ghost predicate Valid() {
      && Declared(specs) && ROOT in specs
      && lineages.Keys == specs.Keys == allowed.Keys
      && (forall p {:trigger Computed(p)} :: p in specs ==> Computed(p))
    }

    /** The lineage and the allowed set filed for `p` are the ones its specs determine. */
    ghost predicate Computed(p: Id)
      requires Declared(specs)
    {
      && p in specs && p in lineages && p in allowed
      && Lineage(specs, p, {}) == Some(lineages[p])
      && (forall q :: q in lineages[p] ==> q in CapabilityViews(specs))
      && allowed[p] == ViewAlong(CapabilityViews(specs), lineages[p])
    }

    predicate Allows(path: Id, capability: Id)
      requires path in allowed
    {
      allowed[path].None? || capability in allowed[path].value
    }

    predicate CanSee(consumer: Id, provider: Id, capability: Id)
      requires consumer in lineages && consumer in allowed
    {
      provider in lineages[consumer] && Allows(consumer, capability)
    }
  }

  /** Collect the specs by path; `None` on a duplicate. */
  function ByPath(specs: seq<ScopeSpec>): (r: Option<SpecMap>)
    ensures r.Some? ==> forall p :: p in r.value ==> r.value[p].path == p
  {
    if specs == [] then Some(map[])
    else
      var n := |specs| - 1;
      var front := ByPath(specs[..n]);
      if front.None? || specs[n].path in front.value then None
      else Some(front.value[specs[n].path := specs[n]])
  }

  /** The collection fails exactly on a duplicate path, and otherwise keeps every spec. */
  lemma {:induction false} ByPathKeepsAll(specs: seq<ScopeSpec>)
    ensures ByPath(specs).Some? <==> forall i, j :: 0 <= i < j < |specs| ==> specs[i].path != specs[j].path
    ensures ByPath(specs).Some? ==>
      ByPath(specs).value.Keys == set i | 0 <= i < |specs| :: specs[i].path
    ensures ByPath(specs).Some? ==>
      forall i :: 0 <= i < |specs| ==> specs[i].path in ByPath(specs).value && ByPath(specs).value[specs[i].path] == specs[i]
    decreases |specs|
  {
    hide ByPath;
    if specs == [] {
      ByPathEmpty();
    } else {
      var n := |specs| - 1;
      var front := specs[..n];
      ByPathKeepsAll(front);
      ByPathNext(specs);
      assert specs == front + [specs[n]];
      KeepsAllNext(front, specs[n], ByPath(front), ByPath(specs));
    }
  }

  lemma ByPathEmpty()
    ensures ByPath([]) == Some(map[])
  {
  }

  lemma KeepsAllNext(front: seq<ScopeSpec>, last: ScopeSpec, before: Option<SpecMap>, after: Option<SpecMap>)
    requires before.Some? <==> forall i, j :: 0 <= i < j < |front| ==> front[i].path != front[j].path
    requires before.Some? ==> before.value.Keys == set i | 0 <= i < |front| :: front[i].path
    requires before.Some? ==> forall i :: 0 <= i < |front| ==> front[i].path in before.value && before.value[front[i].path] == front[i]
    requires after == if before.None? || last.path in before.value then None else Some(before.value[last.path := last])
    ensures var all := front + [last];
      && (after.Some? <==> forall i, j :: 0 <= i < j < |all| ==> all[i].path != all[j].path)
      && (after.Some? ==> after.value.Keys == set i | 0 <= i < |all| :: all[i].path)
      && (after.Some? ==> forall i :: 0 <= i < |all| ==> all[i].path in after.value && after.value[all[i].path] == all[i])
  {
    var all := front + [last];
    assert forall i :: 0 <= i < |front| ==> all[i] == front[i];
    assert all[|front|] == last;
    if before.Some? && last.path in before.value {
      var i :| 0 <= i < |front| && front[i].path == last.path;
      assert all[i].path == all[|front|].path;
    }
    if before.None? {
      var i, j :| 0 <= i < j < |front| && front[i].path == front[j].path;
      assert all[i].path == all[j].path;
    }
  }

  lemma ByPathNext(specs: seq<ScopeSpec>)
    requires specs != []
    ensures var n := |specs| - 1; var front := ByPath(specs[..n]);
      ByPath(specs) == if front.None? || specs[n].path in front.value then None else Some(front.value[specs[n].path := specs[n]])
  {
  }

  /** What the index constructor accepts. */
  ghost predicate Acceptable(specs: seq<ScopeSpec>) {
    && ByPath(specs).Some?
    && var m := ByPath(specs).value;
       ROOT in m && Declared(m) && forall p {:trigger HasLineage(m, p)} :: p in m ==> HasLineage(m, p)
  }

  predicate HasLineage(m: SpecMap, p: Id)
    requires Declared(m) && p in m
  {
    Lineage(m, p, {}).Some?
  }

  /** The constructor wants a root, every parent declared, and no climb that meets a scope twice. */
  lemma AcceptableMeans(specs: seq<ScopeSpec>)
    ensures Acceptable(specs) <==>
      && (forall i, j :: 0 <= i < j < |specs| ==> specs[i].path != specs[j].path)
      && (exists i :: 0 <= i < |specs| && specs[i].path == "/")
      && (forall i :: 0 <= i < |specs| && specs[i].parent.Some? ==> HasPath(specs, specs[i].parent.value))
      && ByPath(specs).Some? && forall p :: IsClimb(ByPath(specs).value, p) ==> NoneTwice(p)
  {
    hide ByPath, IsClimb, NoneTwice, HasLineage;
    ByPathKeepsAll(specs);
    if ByPath(specs).Some? {
      var m := ByPath(specs).value;
      DeclaredMeans(specs, m);
      if Declared(m) {
        forall p | p in m ensures HasLineage(m, p) <==> forall q :: IsClimb(m, q) && StartsAt(q, p) ==> NoneTwice(q) {
          HasLineageMeans(m, p);
        }
        forall q | IsClimb(m, q) ensures q != [] && q[0] in m && StartsAt(q, q[0]) {
          ClimbStarts(m, q);
        }
      }
    }
  }

  predicate HasPath(specs: seq<ScopeSpec>, p: Id) {
    exists i :: 0 <= i < |specs| && specs[i].path == p
  }

  predicate NoneTwice(p: seq<Id>) {
    forall i, j :: 0 <= i < j < |p| ==> p[i] != p[j]
  }

  predicate StartsAt(p: seq<Id>, first: Id) {
    p != [] && p[0] == first
  }

  lemma ClimbStarts(m: SpecMap, p: seq<Id>)
    requires IsClimb(m, p)
    ensures p != [] && p[0] in m && StartsAt(p, p[0])
  {
  }

  lemma DeclaredMeans(specs: seq<ScopeSpec>, m: SpecMap)
    requires m.Keys == set i | 0 <= i < |specs| :: specs[i].path
    requires forall i :: 0 <= i < |specs| ==> specs[i].path in m && m[specs[i].path] == specs[i]
    ensures Declared(m) <==> forall i :: 0 <= i < |specs| && specs[i].parent.Some? ==> HasPath(specs, specs[i].parent.value)
  {
    forall p ensures p in m <==> HasPath(specs, p) {
    }
    if Declared(m) {
      forall i | 0 <= i < |specs| && specs[i].parent.Some? ensures HasPath(specs, specs[i].parent.value) {
        assert ParentDeclared(m, specs[i].path);
      }
    }
  }

  lemma HasLineageMeans(m: SpecMap, p: Id)
    requires Declared(m) && p in m
    ensures HasLineage(m, p) <==> forall q :: IsClimb(m, q) && StartsAt(q, p) ==> NoneTwice(q)
  {
    hide Lineage, IsClimb, NoneTwice;
    LoopsWhenCut(m, p, {});
    if q :| IsClimb(m, q) && StartsAt(q, p) && ComesBack(q, {}) {
      RepeatsWhereItComesBack(q);
    }
    if q :| IsClimb(m, q) && StartsAt(q, p) && !NoneTwice(q) {
      var back := ComesBackWhereItRepeats(m, q);
    }
  }

  lemma RepeatsWhereItComesBack(q: seq<Id>)
    requires ComesBack(q, {})
    ensures !NoneTwice(q) && StartsAt(q, q[0])
  {
    var n := |q| - 1;
    var i :| 0 <= i < n && q[..n][i] == q[n];
    assert q[i] == q[n];
  }

  lemma ComesBackWhereItRepeats(m: SpecMap, q: seq<Id>) returns (back: seq<Id>)
    requires IsClimb(m, q) && !NoneTwice(q)
    ensures IsClimb(m, back) && back[0] == q[0] && ComesBack(back, {})
  {
    var i, j :| 0 <= i < j < |q| && q[i] == q[j];
    back := q[..j + 1];
    assert back[..j][i] == back[j];
  }

  ghost predicate Filed(m: SpecMap, lineages: map<Id, seq<Id>>, p: Id)
    requires Declared(m) && p in m
  {
    p in lineages && Lineage(m, p, {}) == Some(lineages[p])
  }

  /** The first `i` paths have their lineages filed, and nothing else is. */
  ghost predicate FiledUpTo(m: SpecMap, lineages: map<Id, seq<Id>>, paths: seq<Id>, i: nat)
    requires Declared(m) && i <= |paths| && forall p :: p in paths ==> p in m
  {
    && (forall p :: p in lineages <==> p in paths[..i])
    && forall k {:trigger paths[k]} :: 0 <= k < i ==> Filed(m, lineages, paths[k])
  }

  lemma FileNext(m: SpecMap, lineages: map<Id, seq<Id>>, paths: seq<Id>, i: nat, lineage: seq<Id>)
    requires Declared(m) && i < |paths| && forall p :: p in paths ==> p in m
    requires FiledUpTo(m, lineages, paths, i) && Lineage(m, paths[i], {}) == Some(lineage) && Distinct(paths)
    ensures FiledUpTo(m, lineages[paths[i] := lineage], paths, i + 1)
  {
    assert paths[..i + 1] == paths[..i] + [paths[i]];
    var after := lineages[paths[i] := lineage];
    forall k {:trigger paths[k]} | 0 <= k < i + 1 ensures Filed(m, after, paths[k]) {
      assert k < i ==> Filed(m, lineages, paths[k]);
    }
  }

  lemma FiledAll(m: SpecMap, lineages: map<Id, seq<Id>>, paths: seq<Id>)
    requires Declared(m) && forall p :: p in paths <==> p in m
    requires FiledUpTo(m, lineages, paths, |paths|)
    ensures lineages.Keys == m.Keys
    ensures forall p {:trigger Filed(m, lineages, p)} :: p in m ==> Filed(m, lineages, p)
    ensures forall p {:trigger HasLineage(m, p)} :: p in m ==> HasLineage(m, p)
  {
    assert paths[..|paths|] == paths;
    forall p | p in m ensures Filed(m, lineages, p) {
      var k :| 0 <= k < |paths| && paths[k] == p;
    }
  }

  /** Every scope's lineage, or `None` at the first cycle. */
  lemma NothingFiled(m: SpecMap, paths: seq<Id>)
    requires Declared(m) && forall p :: p in paths ==> p in m
    ensures FiledUpTo(m, map[], paths, 0)
  {
  }

  method AllLineages(m: SpecMap) returns (r: Option<map<Id, seq<Id>>>)
    requires Declared(m)
    ensures r.Some? <==> forall p {:trigger HasLineage(m, p)} :: p in m ==> HasLineage(m, p)
    ensures r.Some? ==> r.value.Keys == m.Keys && forall p {:trigger Filed(m, r.value, p)} :: p in m ==> Filed(m, r.value, p)
  {
    hide FiledUpTo, Filed, Lineage, Declared, Sorted, Before;
    var lineages: map<Id, seq<Id>> := map[];
    var paths := Sorted(m.Keys);
    NothingFiled(m, paths);
    for i := 0 to |paths|
      invariant FiledUpTo(m, lineages, paths, i)
    {
      var lineage := ComputeLineage(m, paths[i]);
      if lineage.None? {
        assert !HasLineage(m, paths[i]);
        return None;
      }
      FileNext(m, lineages, paths, i, lineage.value);
      lineages := lineages[paths[i] := lineage.value];
    }
    FiledAll(m, lineages, paths);
    r := Some(lineages);
  }

  /** Build the hierarchy, refusing duplicates, a missing root, undeclared parents and cycles. */
  method BuildIndex(specs: seq<ScopeSpec>) returns (r: Option<ScopeIndex>)
    ensures r.Some? <==> Acceptable(specs)
    ensures r.Some? ==> r.value.Valid() && r.value.specs == ByPath(specs).value
  {
    var byPath := ByPath(specs);
    if byPath.None? || ROOT !in byPath.value || !IsDeclared(byPath.value) { return None; }
    var m := byPath.value;
    var lineages := AllLineages(m);
    if lineages.None? { return None; }
    var views := CapabilityViews(m);
    forall p | p in m ensures forall q :: q in lineages.value[p] ==> q in views {
      assert Filed(m, lineages.value, p);
    }
    var allowed := map p | p in m :: ViewAlong(views, lineages.value[p]);
    r := Some(ScopeIndex(m, lineages.value, allowed));
    forall p | p in m ensures r.value.Computed(p) {
      assert Filed(m, lineages.value, p);
    }
  }

  predicate IsDeclared(m: SpecMap)
    ensures IsDeclared(m) <==> Declared(m)
  {
    var ok := forall p | p in m :: ParentDeclared(m, p);
    assert ok <==> Declared(m);
    ok
  }

  // ---- Narrowing only narrows

  ghost predicate Within(inner: Option<set<Id>>, outer: Option<set<Id>>) {
    outer.None? || (inner.Some? && inner.value <= outer.value)
  }

  lemma LineageStep(index: ScopeIndex, path: Id)
    requires index.Valid() && path in index.specs && index.specs[path].parent.Some?
    ensures index.specs[path].parent.value in index.specs
    ensures index.lineages[path] == index.lineages[index.specs[path].parent.value] + [path]
  {
    var parent := index.specs[path].parent.value;
    assert ParentDeclared(index.specs, path) && index.Computed(path) && index.Computed(parent);
    assert {} + {path} == {path};
    LineageIgnoresSeen(index.specs, parent, {}, {path});
  }

  /** A scope's allowed set lies within its parent's and within its own view. */
  lemma NarrowingOnlyNarrows(index: ScopeIndex, path: Id)
    requires index.Valid() && path in index.specs && index.specs[path].parent.Some?
    ensures index.specs[path].parent.value in index.allowed
    ensures Within(index.allowed[path], index.allowed[index.specs[path].parent.value])
    ensures Within(index.allowed[path], index.specs[path].capabilities)
    ensures forall capability :: index.Allows(path, capability) ==>
      index.Allows(index.specs[path].parent.value, capability)
  {
    LineageStep(index, path);
    assert index.Computed(path) && index.Computed(index.specs[path].parent.value);
    var above := index.lineages[index.specs[path].parent.value];
    assert (above + [path])[..|above|] == above;
  }

  /** The loop that recomputes a view by climbing the parents, over any per-scope views. */
  method EffectiveView(specs: SpecMap, views: map<Id, Option<set<Id>>>, path: Id, ghost lineage: seq<Id>)
    returns (r: Option<set<Id>>)
    requires Declared(specs) && path in specs && views.Keys == specs.Keys
    requires Lineage(specs, path, {}) == Some(lineage)
    ensures r == ViewAlong(views, lineage)
  {
    r := None;
    var current := Some(path);
    ghost var rest := lineage;
    ghost var seen: set<Id> := {};
    while current.Some?
      invariant forall p :: p in rest ==> p in specs
      invariant seen <= specs.Keys
      invariant current.Some? ==> current.value in specs && Lineage(specs, current.value, seen) == Some(rest)
      invariant current.None? ==> rest == []
      invariant Narrow(ViewAlong(views, rest), r) == ViewAlong(views, lineage)
      decreases |rest|
    {
      var view := views[current.value];
      NarrowAssociates(ViewAlong(views, rest[..|rest| - 1]), view, r);
      r := Narrow(view, r);
      seen := seen + {current.value};
      assert ParentDeclared(specs, current.value);
      current := specs[current.value].parent;
      rest := rest[..|rest| - 1];
    }
  }

  lemma NarrowAssociates(a: Option<set<Id>>, b: Option<set<Id>>, c: Option<set<Id>>)
    ensures Narrow(Narrow(a, b), c) == Narrow(a, Narrow(b, c))
  {
    if a.Some? && b.Some? && c.Some? {
      assert a.value * b.value * c.value == a.value * (b.value * c.value);
    }
  }

  lemma NarrowAbsorbs(a: Option<set<Id>>, b: Option<set<Id>>)
    ensures Narrow(a, Narrow(a, b)) == Narrow(a, b)
  {
    if a.Some? && b.Some? {
      assert a.value * (a.value * b.value) == a.value * b.value;
    } else if a.Some? {
      assert a.value * a.value == a.value;
    }
  }

  /** Intersecting the already intersected views of a lineage changes nothing. */
  lemma {:induction false} ReintersectionIsIdentity(views: map<Id, Option<set<Id>>>,
                                                    allowed: map<Id, Option<set<Id>>>, lineage: seq<Id>)
    requires forall p :: p in lineage ==> p in views && p in allowed
    requires forall k {:trigger lineage[..k]} :: 0 < k <= |lineage| ==>
      allowed[lineage[k - 1]] == ViewAlong(views, lineage[..k])
    ensures ViewAlong(allowed, lineage) == ViewAlong(views, lineage)
    decreases |lineage|
  {
    if lineage != [] {
      var n := |lineage| - 1;
      var front := lineage[..n];
      forall k | 0 < k <= n ensures allowed[front[k - 1]] == ViewAlong(views, front[..k]) {
        assert front[..k] == lineage[..k];
      }
      ReintersectionIsIdentity(views, allowed, front);
      assert lineage[..n + 1] == lineage;
      NarrowAbsorbs(ViewAlong(views, front), views[lineage[n]]);
    }
  }

  /** Each scope on a lineage has the corresponding prefix as its own lineage. */
  lemma {:induction false} LineagePrefixes(index: ScopeIndex, path: Id)
    requires index.Valid() && path in index.specs
    ensures forall k :: 0 < k <= |index.lineages[path]| ==>
      index.lineages[path][k - 1] in index.lineages &&
      index.lineages[index.lineages[path][k - 1]] == index.lineages[path][..k]
    decreases |index.lineages[path]|
  {
    var l := index.lineages[path];
    assert index.Computed(path);
    if index.specs[path].parent.Some? {
      LineageStep(index, path);
      var parent := index.specs[path].parent.value;
      LineagePrefixes(index, parent);
      assert l == index.lineages[parent] + [path];
      forall k | 0 < k <= |l| ensures l[k - 1] in index.lineages && index.lineages[l[k - 1]] == l[..k] {
        if k < |l| {
          assert index.lineages[parent][..k] == l[..k];
        } else {
          assert l[..k] == l;
        }
      }
    } else {
      assert l == [path];
    }
  }

  /** What the published tree recomputes from the plan is exactly the resolver's `allowed`. */
  method RecomputeAllowed(index: ScopeIndex, path: Id) returns (r: Option<set<Id>>)
    requires index.Valid() && path in index.specs
    ensures r == index.allowed[path]
  {
    var lineage := index.lineages[path];
    assert index.Computed(path);
    LineagePrefixes(index, path);
    forall k {:trigger lineage[..k]} | 0 < k <= |lineage|
      ensures lineage[k - 1] in index.allowed
      ensures index.allowed[lineage[k - 1]] == ViewAlong(CapabilityViews(index.specs), lineage[..k])
    {
      assert index.Computed(lineage[k - 1]);
    }
    assert forall p :: p in lineage ==> p in index.specs;
    ReintersectionIsIdentity(CapabilityViews(index.specs), index.allowed, lineage);
    r := EffectiveView(index.specs, index.allowed, path, lineage);
  }

  // ---- What the index says of its specs

  lemma LineageHasNoRepeat(index: ScopeIndex, path: Id)
    requires index.Valid() && path in index.specs && index.specs[path].parent.Some?
    ensures index.specs[path].parent.value in index.lineages && path !in index.lineages[index.specs[path].parent.value]
  {
    var parent := index.specs[path].parent.value;
    assert ParentDeclared(index.specs, path) && index.Computed(path) && index.Computed(parent);
    assert {} + {path} == {path};
    LineageIgnoresSeen(index.specs, parent, {}, {path});
  }

  /** A lineage runs from a scope without a parent down to its own, each the parent of the next. */
  lemma {:induction false} LineageIsChain(index: ScopeIndex, path: Id)
    requires index.Valid() && path in index.specs
    ensures var l := index.lineages[path];
      && l != [] && l[|l| - 1] == path && Distinct(l) && (forall i :: 0 <= i < |l| ==> l[i] in index.specs)
      && index.specs[l[0]].parent == None
      && forall i, j :: 0 <= i && j == i + 1 && j < |l| ==> index.specs[l[j]].parent == Some(l[i])
    decreases |index.lineages[path]|
  {
    assert index.Computed(path);
    var l := index.lineages[path];
    if index.specs[path].parent.Some? {
      LineageStep(index, path);
      LineageHasNoRepeat(index, path);
      var above := index.lineages[index.specs[path].parent.value];
      LineageIsChain(index, index.specs[path].parent.value);
      assert forall i :: 0 <= i < |above| ==> l[i] == above[i];
      DistinctConcat(above, [path]);
    } else {
      assert l == [path];
    }
  }

  /** A name is in what is left of the views exactly when each of them admits it. */
  lemma {:induction false} ViewMeans(views: map<Id, Option<set<Id>>>, lineage: seq<Id>, name: Id)
    requires forall p :: p in lineage ==> p in views
    ensures ViewAlong(views, lineage).None? <==> forall p :: p in lineage ==> views[p].None?
    ensures (ViewAlong(views, lineage).None? || name in ViewAlong(views, lineage).value) <==>
      forall p :: p in lineage ==> views[p].None? || name in views[p].value
    decreases |lineage|
  {
    if lineage != [] {
      var n := |lineage| - 1;
      assert lineage == lineage[..n] + [lineage[n]];
      ViewMeans(views, lineage[..n], name);
    }
  }

  /** A scope is allowed exactly what no view on its lineage leaves out. */
  lemma AllowedMeans(index: ScopeIndex, path: Id, name: Id)
    requires index.Valid() && path in index.specs
    ensures path in index.lineages && path in index.allowed && forall q :: q in index.lineages[path] ==> q in index.specs
    ensures (index.allowed[path].None? || name in index.allowed[path].value) <==>
      forall q :: q in index.lineages[path] ==> index.specs[q].capabilities.None? || name in index.specs[q].capabilities.value
  {
    assert index.Computed(path);
    ViewMeans(CapabilityViews(index.specs), index.lineages[path], name);
  }

  /** What a scope sees, by its lineage and the views along it. */
  lemma CanSeeMeans(index: ScopeIndex, consumer: Id, provider: Id, name: Id)
    requires index.Valid() && consumer in index.specs
    ensures consumer in index.lineages && forall q :: q in index.lineages[consumer] ==> q in index.specs
    ensures index.CanSee(consumer, provider, name) <==>
      && provider in index.lineages[consumer]
      && forall q :: q in index.lineages[consumer] ==> index.specs[q].capabilities.None? || name in index.specs[q].capabilities.value
  {
    AllowedMeans(index, consumer, name);
  }

  /** A tool is exposed exactly where no tool view on the lineage leaves it out. */
  lemma ExposesMeans(index: ScopeIndex, path: Id, tool: Id)
    requires index.Valid() && path in index.specs
    ensures path in index.lineages && forall q :: q in index.lineages[path] ==> q in index.specs
    ensures Exposes(index, path, tool) <==>
      forall q :: q in index.lineages[path] ==> index.specs[q].tools.None? || tool in index.specs[q].tools.value
  {
    assert index.Computed(path);
    ViewMeans(ToolViews(index.specs), index.lineages[path], tool);
  }

  lemma AncestorsArePrefix(index: ScopeIndex, a: Id, b: Id)
    requires index.Valid() && b in index.specs && a in index.lineages[b]
    ensures a in index.specs && index.lineages[a] <= index.lineages[b] && index.lineages[a] != []
    ensures index.lineages[a][|index.lineages[a]| - 1] == a
  {
    LineageIsChain(index, b);
    LineagePrefixes(index, b);
    var l := index.lineages[b];
    var k :| 0 <= k < |l| && l[k] == a;
    assert index.lineages[l[k + 1 - 1]] == l[..k + 1];
    assert index.Computed(a);
  }

  /** Above or equal is a partial order of the scopes. */
  lemma AncestryIsOrder(index: ScopeIndex, a: Id, b: Id, c: Id)
    requires index.Valid() && b in index.specs && c in index.specs && a in index.lineages[b]
    ensures b in index.lineages[c] ==> a in index.lineages[c]
    ensures a in index.specs && (b in index.lineages[a] ==> a == b)
  {
    AncestorsArePrefix(index, a, b);
    if b in index.lineages[c] {
      AncestorsArePrefix(index, b, c);
      var k :| 0 <= k < |index.lineages[b]| && index.lineages[b][k] == a;
      assert index.lineages[c][k] == a;
    }
    if b in index.lineages[a] {
      AncestorsArePrefix(index, b, a);
    }
  }

  lemma LineagesOfSiblings(index: ScopeIndex, a: Id, b: Id)
    requires index.Valid() && a in index.specs && b in index.specs && a != b
    requires index.specs[a].parent == index.specs[b].parent
    ensures b in index.lineages && a !in index.lineages[b]
  {
    LineageIsChain(index, a);
    LineageIsChain(index, b);
    if index.specs[a].parent.Some? {
      LineageStep(index, a);
      LineageStep(index, b);
      LineageHasNoRepeat(index, a);
    } else {
      assert index.Computed(b) && index.lineages[b] == [b];
    }
  }

  // ---- The published tree

  /** An instance living in a scope that registers a capability (or contributes a tool). */
  datatype Offer = Offer(instance: Id, scope: Id, name: Id)

  datatype ResolvedScope = ResolvedScope(local: map<Id, set<Id>>, inherited: map<Id, set<Id>>)
  {
    function Visible(name: Id): set<Id> {
      (if name in local then local[name] else {}) + (if name in inherited then inherited[name] else {})
    }
  }

  function Names(offers: set<Offer>, scope: Id): set<Id> {
    set o | o in offers && o.scope == scope :: o.name
  }

  function LocalOffers(offers: set<Offer>, scope: Id): map<Id, set<Id>> {
    map n | n in Names(offers, scope) :: set o | o in offers && o.scope == scope && o.name == n :: o.instance
  }

  function Filtered(m: map<Id, set<Id>>, view: Option<set<Id>>): map<Id, set<Id>> {
    if view.None? then m else map n | n in m && n in view.value :: m[n]
  }

  function Merged(a: map<Id, set<Id>>, b: map<Id, set<Id>>): map<Id, set<Id>> {
    map n | n in a.Keys + b.Keys :: (if n in a then a[n] else {}) + (if n in b then b[n] else {})
  }

  /** `i` is offered under `n` by a scope of the lineage at position `from` or later, below the last. */
  ghost predicate OfferedAbove(offers: set<Offer>, l: seq<Id>, from: nat, n: Id, i: Id) {
    exists j :: from <= j < |l| - 1 && Offer(i, l[j], n) in offers
  }

  ghost predicate Holds(m: map<Id, set<Id>>, n: Id, i: Id) {
    n in m && i in m[n]
  }

  lemma GatherOne(offers: set<Offer>, l: seq<Id>, k: nat, before: map<Id, set<Id>>)
    requires 0 < k < |l|
    requires forall n, i :: Holds(before, n, i) <==> OfferedAbove(offers, l, k, n, i)
    ensures var after := Merged(before, LocalOffers(offers, l[k - 1]));
            forall n, i :: Holds(after, n, i) <==> OfferedAbove(offers, l, k - 1, n, i)
  {
    var after := Merged(before, LocalOffers(offers, l[k - 1]));
    forall n, i ensures Holds(after, n, i) <==> OfferedAbove(offers, l, k - 1, n, i) {
      LocalOffersMember(offers, l[k - 1], n, i);
      assert Holds(after, n, i) <==> Holds(before, n, i) || Offer(i, l[k - 1], n) in offers;
      if OfferedAbove(offers, l, k, n, i) {
        var j :| k <= j < |l| - 1 && Offer(i, l[j], n) in offers;
      }
      if OfferedAbove(offers, l, k - 1, n, i) {
        var j :| k - 1 <= j < |l| - 1 && Offer(i, l[j], n) in offers;
        assert j == k - 1 || OfferedAbove(offers, l, k, n, i);
      }
    }
  }

  /** Climb from `path` to the top, gathering what each ancestor offers. */
  method GatherInherited(index: ScopeIndex, offers: set<Offer>, path: Id) returns (inherited: map<Id, set<Id>>)
    requires index.Valid() && path in index.specs
    ensures forall n, i :: Holds(inherited, n, i) <==> OfferedAbove(offers, index.lineages[path], 0, n, i)
  {
    inherited := map[];
    ghost var l := index.lineages[path];
    assert index.Computed(path);
    ghost var k := |l| - 1;
    var current := Some(path);
    assert l[..k + 1] == l;
    while true
      invariant 0 <= k < |l|
      invariant current.Some? && current.value in index.specs && index.lineages[current.value] == l[..k + 1]
      invariant forall n, i :: Holds(inherited, n, i) <==> OfferedAbove(offers, l, k, n, i)
      decreases k
    {
      ghost var below := current.value;
      assert index.Computed(below);
      current := index.specs[current.value].parent;
      if current.None? {
        assert l[..k + 1] == [below];
        assert k == 0;
        break;
      }
      LineageStep(index, below);
      assert |index.lineages[current.value]| == k;
      assert index.Computed(current.value);
      assert index.lineages[current.value] == l[..k + 1][..k] == l[..k];
      assert l[k - 1] == current.value;
      GatherOne(offers, l, k, inherited);
      inherited := Merged(inherited, LocalOffers(offers, current.value));
      k := k - 1;
    }
  }

  /** One scope of the published tree: gather what its ancestors offer, then apply its view. */
  method ResolveScope(index: ScopeIndex, offers: set<Offer>, path: Id) returns (r: ResolvedScope)
    requires index.Valid() && path in index.specs
    ensures forall name, i :: i in r.Visible(name) <==>
      exists s :: Offer(i, s, name) in offers && index.CanSee(path, s, name)
    ensures forall name, i :: Holds(r.local, name, i) <==>
      Offer(i, path, name) in offers && index.Allows(path, name)
  {
    var view := RecomputeAllowed(index, path);
    var local := LocalOffers(offers, path);
    var inherited := GatherInherited(index, offers, path);
    r := ResolvedScope(Filtered(local, view), Filtered(inherited, view));
    forall name, i
      ensures i in r.Visible(name) <==> exists s :: Offer(i, s, name) in offers && index.CanSee(path, s, name)
      ensures Holds(r.local, name, i) <==> Offer(i, path, name) in offers && index.Allows(path, name)
    {
      LocalOffersMember(offers, path, name, i);
      assert i in r.Visible(name) <==>
        index.Allows(path, name) && (Holds(local, name, i) || Holds(inherited, name, i));
      SeenAlongLineage(index, offers, path, name, i);
    }
  }

  lemma SeenAlongLineage(index: ScopeIndex, offers: set<Offer>, path: Id, name: Id, i: Id)
    requires index.Valid() && path in index.specs
    ensures (exists s :: Offer(i, s, name) in offers && index.CanSee(path, s, name)) <==>
      index.Allows(path, name) &&
      (Offer(i, path, name) in offers || OfferedAbove(offers, index.lineages[path], 0, name, i))
  {
    var l := index.lineages[path];
    assert index.Computed(path);
    assert l[|l| - 1] == path;
    if s :| Offer(i, s, name) in offers && index.CanSee(path, s, name) {
      var j :| 0 <= j < |l| && l[j] == s;
      if j < |l| - 1 {
        assert Offer(i, l[j], name) in offers;
      }
    }
    if index.Allows(path, name) && OfferedAbove(offers, l, 0, name, i) {
      var j :| 0 <= j < |l| - 1 && Offer(i, l[j], name) in offers;
      assert index.CanSee(path, l[j], name);
    }
  }

  lemma LocalOffersMember(offers: set<Offer>, scope: Id, n: Id, i: Id)
    ensures n in LocalOffers(offers, scope) && i in LocalOffers(offers, scope)[n] <==> Offer(i, scope, n) in offers
  {
    if Offer(i, scope, n) in offers {
      assert n in LocalOffers(offers, scope);
    }
  }

  /** A child sees only its own offers and what its parent sees; scopes off its lineage never appear. */
  lemma VisibleOnlyThroughTheParent(index: ScopeIndex, offers: set<Offer>, path: Id, o: Offer)
    requires index.Valid() && path in index.specs && index.specs[path].parent.Some?
    requires o in offers && index.CanSee(path, o.scope, o.name)
    ensures index.specs[path].parent.value in index.specs
    ensures o.scope == path || index.CanSee(index.specs[path].parent.value, o.scope, o.name)
  {
    LineageStep(index, path);
    NarrowingOnlyNarrows(index, path);
  }

  /** Siblings never see each other's offers. */
  lemma SiblingsAreIsolated(index: ScopeIndex, a: Id, b: Id, capability: Id)
    requires index.Valid() && a in index.specs && b in index.specs && a != b
    requires index.specs[a].parent == index.specs[b].parent
    ensures !index.CanSee(a, b, capability)
  {
    assert index.Computed(a) && index.Computed(b) && ParentDeclared(index.specs, a);
    if index.specs[a].parent.Some? {
      var parent := index.specs[a].parent.value;
      LineageStep(index, a);
      assert {} + {b} == {b};
      LineageIgnoresSeen(index.specs, parent, {}, {b});
      assert index.Computed(parent);
      assert b !in index.lineages[parent];
    } else {
      assert index.lineages[a] == [a];
    }
  }

  // ---- Tools

  /** A tool every view along the lineage selects. */
  ghost predicate Exposes(index: ScopeIndex, path: Id, tool: Id)
    requires index.Valid() && path in index.specs
  {
    assert index.Computed(path);
    var view := ViewAlong(ToolViews(index.specs), index.lineages[path]);
    view.None? || tool in view.value
  }

  /** The tools a scope contributes itself, and those of its ancestors, under its tool view. */
  method ResolveTools(index: ScopeIndex, offers: set<Offer>, path: Id) returns (owned: set<Id>, inherited: set<Id>)
    requires index.Valid() && path in index.specs
    ensures forall t :: t in owned <==> Exposes(index, path, t) && exists i :: Offer(i, path, t) in offers
    ensures forall t :: t in owned + inherited <==> SeesTool(index, offers, path, t)
  {
    assert index.Computed(path);
    var lineage := index.lineages[path];
    var view := EffectiveView(index.specs, ToolViews(index.specs), path, lineage);
    var local := LocalOffers(offers, path);
    var above := GatherInherited(index, offers, path);
    owned := set t | t in Filtered(local, view) && local[t] != {};
    inherited := set t | t in Filtered(above, view) && above[t] != {};
    forall t ensures t in owned <==> Exposes(index, path, t) && exists i :: Offer(i, path, t) in offers {
      HeldBySome(local, t);
      forall i { LocalOffersMember(offers, path, t, i); }
    }
    forall t ensures t in owned + inherited <==> SeesTool(index, offers, path, t) {
      HeldBySome(above, t);
      ToolOnLineage(index, offers, path, t);
    }
  }

  lemma ToolOnLineage(index: ScopeIndex, offers: set<Offer>, path: Id, t: Id)
    requires index.Valid() && path in index.specs
    ensures (exists s, i :: s in index.lineages[path] && Offer(i, s, t) in offers) <==>
      || (exists i :: Offer(i, path, t) in offers)
      || exists i :: OfferedAbove(offers, index.lineages[path], 0, t, i)
  {
    var l := index.lineages[path];
    assert index.Computed(path);
    assert l[|l| - 1] == path;
    if s, i :| s in l && Offer(i, s, t) in offers {
      var j :| 0 <= j < |l| && l[j] == s;
      assert j < |l| - 1 ==> OfferedAbove(offers, l, 0, t, i);
    }
    if i :| OfferedAbove(offers, l, 0, t, i) {
      var j :| 0 <= j < |l| - 1 && Offer(i, l[j], t) in offers;
    }
  }

  lemma HeldBySome(m: map<Id, set<Id>>, t: Id)
    ensures t in m && m[t] != {} <==> exists i :: Holds(m, t, i)
  {
    if t in m && m[t] != {} {
      var i :| i in m[t];
      assert Holds(m, t, i);
    }
  }

  ghost predicate SeesTool(index: ScopeIndex, offers: set<Offer>, path: Id, tool: Id)
    requires index.Valid() && path in index.specs
  {
    Exposes(index, path, tool) && exists s, i :: s in index.lineages[path] && Offer(i, s, tool) in offers
  }

  /** A child's tools are its own contributions and what its parent sees, never more. */
  lemma ToolsOnlyNarrow(index: ScopeIndex, offers: set<Offer>, path: Id, tool: Id)
    requires index.Valid() && path in index.specs && index.specs[path].parent.Some?
    requires SeesTool(index, offers, path, tool)
    ensures index.specs[path].parent.value in index.specs && Exposes(index, index.specs[path].parent.value, tool)
    ensures (exists i :: Offer(i, path, tool) in offers) || SeesTool(index, offers, index.specs[path].parent.value, tool)
  {
    LineageStep(index, path);
    var above := index.lineages[index.specs[path].parent.value];
    assert index.Computed(path) && index.Computed(index.specs[path].parent.value);
    assert (above + [path])[..|above|] == above;
    var s, i :| s in index.lineages[path] && Offer(i, s, tool) in offers;
    assert s in above || s == path;
  }
}
