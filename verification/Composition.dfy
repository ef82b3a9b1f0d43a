/** The tree of composition scopes and the index of their paths, kept in step. */
module Composition {
  import opened Ordering
  import opened Paths

  class CompositionScope {
    const tree: CompositionTree
    const name: string
    const parent: CompositionScope?
    var children: seq<CompositionScope>
    ghost const segments: seq<string>

    constructor Root(tree: CompositionTree)
      ensures this.tree == tree && parent == null && segments == [] && children == []
    {
      this.tree, name, parent, segments := tree, "root", null, [];
      children := [];
    }

    constructor Under(parent: CompositionScope, name: string)
      ensures tree == parent.tree && this.parent == parent && this.name == name
      ensures segments == parent.segments + [name] && children == []
    {
      tree, this.name, this.parent, segments := parent.tree, name, parent, parent.segments + [name];
      children := [];
    }

    /** The names along the parent pointers. */
    ghost predicate Chained()
      decreases |segments|
    {
      if parent == null then segments == []
      else segments == parent.segments + [name] && |parent.segments| < |segments| && IsSegment(name) && parent.Chained()
    }

    function Path(): (p: string)
      requires Chained()
      decreases |segments|
      ensures p == PathOf(segments) && AllSegments(segments)
    {
      if parent == null then ROOT_PATH
      else
        assert segments[..|segments| - 1] == parent.segments;
        Join(parent.Path(), name)
    }
  }

  datatype Removal = RootKept | NotCanonical | Withdrawn(entries: seq<Id>)

  datatype Created = BadName | ForeignParent | Duplicate | Scope(scope: CompositionScope)

  class CompositionTree {
    var scopes: map<string, CompositionScope>
    var root: CompositionScope?
    /** Desired entries by the path that declares them, as their owner keeps them. */
    var entries: map<Id, string>
    var dirty: bool

    constructor ()
      ensures InStep() && fresh(root) && scopes == map[ROOT_PATH := root] && entries == map[]
    {
      scopes, root, entries, dirty := map[], null, map[], false;
      new;
      root := new CompositionScope.Root(this);
      scopes := map[ROOT_PATH := root];
    }

    /** A handle the index still knows. */
    ghost predicate Live(s: CompositionScope)
      reads this
    {
      LiveIn(scopes, s)
    }

    /** The tree below the root and the index hold the same scopes. */
    ghost predicate InStep()
      reads this, scopes.Values
    {
      && Indexed(scopes, this, root) && ParentsLive(scopes)
      && (forall p {:trigger scopes[p]} :: p in scopes ==> ChildrenOk(scopes, scopes[p], scopes[p].children))
    }

    /** Create a scope under a handle. Success keeps tree and index in step exactly when that
        handle is still live: a removed scope's child is indexed where the root cannot reach it. */
    method Child(parent: CompositionScope, name: string) returns (r: Created)
      requires InStep() && parent.Chained()
      modifies `scopes, `dirty, parent`children
      ensures r == BadName <==> !IsSegment(name)
      ensures r == ForeignParent <==> IsSegment(name) && parent.tree != this
      ensures r == Duplicate <==> IsSegment(name) && parent.tree == this && Join(parent.Path(), name) in old(scopes)
      ensures !r.Scope? ==> scopes == old(scopes) && parent.children == old(parent.children) && InStep()
      ensures r.Scope? ==>
        && fresh(r.scope) && r.scope.Chained() && r.scope.Path() == Join(parent.Path(), name) && r.scope.parent == parent
        && scopes == old(scopes)[r.scope.Path() := r.scope]
        && parent.children == old(parent.children) + [r.scope]
        && Live(r.scope) && (InStep() <==> old(Live(parent)))
    {
      hide Indexed, ParentsLive, ChildrenOk, LiveIn, CompositionScope.Chained, IsSegment, Join;
      if !IsSegment(name) { return BadName; }
      if parent.tree != this { return ForeignParent; }
      if Join(parent.Path(), name) in scopes { return Duplicate; }
      var c := new CompositionScope.Under(parent, name);
      ChildPath(parent, name, c);
      ghost var before := scopes;
      parent.children := parent.children + [c];
      scopes := scopes[c.Path() := c];
      dirty := true;
      r := Scope(c);
      AddedIsLive(before, c);
      AddedIsIndexed(before, this, root, parent, c);
      if LiveIn(before, parent) {
        forall p | p in scopes ensures ChildrenOk(scopes, scopes[p], scopes[p].children) {
          if scopes[p] == c {
            NewChildless(before, c);
          } else if scopes[p] == parent {
            AddedToChildren(before, parent, c, old(parent.children));
          } else {
            OtherChildren(before, scopes[p], c, scopes[p].children);
          }
        }
      }
    }

    /** Absent is `None`; a path that is not canonical is refused by the caller's check. */
    method Get(path: string) returns (canonical: bool, s: CompositionScope?)
      ensures canonical <==> Canonical(path)
      ensures s == if canonical && path in scopes then scopes[path] else null
      ensures InStep() && s != null ==> Live(s) && s.Chained() && s.Path() == path
    {
      if !Canonical(path) { return false, null; }
      canonical, s := true, if path in scopes then scopes[path] else null;
      if InStep() && s != null {
        IndexedIsLive(scopes, this, root, path);
        StepFacts(s);
      }
    }

    /** The scope at a canonical path, created with every missing ancestor. */
    method Ensure(path: string) returns (s: CompositionScope?)
      requires InStep()
      modifies this`scopes, this`dirty, scopes.Values
      ensures InStep() && root == old(root) && entries == old(entries)
      ensures s == null <==> !Canonical(path)
      ensures s == null ==> scopes == old(scopes)
      ensures s != null ==> Live(s) && s.Path() == path && scopes.Keys == old(scopes.Keys) + Ancestry(path)
      ensures forall p :: p in old(scopes) ==> p in scopes && scopes[p] == old(scopes[p])
      ensures forall p :: p in scopes && p !in old(scopes) ==> fresh(scopes[p])
      decreases |path|
    {
      hide Canonical, RPartition, IsSegment, Ancestry, Join, Indexed, ParentsLive, ChildrenOk, LiveIn, CompositionScope.Chained;
      if !Canonical(path) { return null; }
      if path in scopes {
        AncestryIsIndexed(scopes, this, root, path);
        IndexedIsLive(scopes, this, root, path);
        assert scopes.Keys == scopes.Keys + Ancestry(path);
        s := scopes[path];
        return;
      }
      RootIsIndexed(scopes, this, root);
      ParentOfPath(path);
      var (before, name) := RPartition(path);
      var parentPath := if before == "" then ROOT_PATH else before;
      var parent := Ensure(parentPath);
      LiveMeans(scopes, this, root, parent);
      assert parentPath in old(scopes) ==> old(scopes)[parentPath] in old(scopes).Values && parent == old(scopes)[parentPath];
      var created := Child(parent, name);
      s := created.scope;
      assert scopes.Keys == old(scopes.Keys) + Ancestry(path);
    }

    /** The scope and everything below it, parents first, siblings by name. */
    method Walk(s: CompositionScope) returns (found: seq<CompositionScope>)
      requires InStep() && Live(s)
      ensures forall i :: 0 <= i < |found| ==> Live(found[i])
      ensures PathsIn(scopes, found) == Below(scopes, s)
      ensures Ascending(found) && AllUnder(found, s.segments)
      decreases Below(scopes, s)
    {
      hide PathsIn, Below, Indexed, ParentsLive, ChildrenOk, LiveIn, CompositionScope.Chained, IsWithin, BelowNamed, Join, Sorted, Named, InStep;
      hide Ascending, AllUnder, UpTo, InOrder;
      StepFacts(s);
      var names := ChildNames(s);
      StartsAt(s, names);
      StartsInOrder(s);
      found := [s];
      for k := 0 to |names|
        invariant forall i :: 0 <= i < |found| ==> Live(found[i])
        invariant PathsIn(scopes, found) == {s.Path()} + BelowNamed(scopes, s, names[..k])
        invariant Ascending(found) && UpTo(found, s, names[..k])
      {
        ChildIsIndexed(s, names[k]);
        var below := Walk(scopes[Join(s.Path(), names[k])]);
        MoreFound(scopes, found, below);
        OneMoreNamed(scopes, this, root, s, names, k);
        BelowInOrder(found, below, s, names, k);
        found := found + below;
      }
      EndsUnder(found, s, names[..|names|]);
      assert names[..|names|] == names;
    }

    lemma StepFacts(s: CompositionScope)
      requires InStep() && Live(s)
      ensures Indexed(scopes, this, root) && s.Chained()
    {
    }

    lemma StartsAt(s: CompositionScope, names: seq<string>)
      requires InStep() && Live(s) && s.Chained()
      requires forall i :: 0 <= i < |names| ==> Named(s.children, names[i])
      requires forall i :: 0 <= i < |s.children| ==> s.children[i].name in names
      ensures PathsIn(scopes, [s]) == {s.Path()} + BelowNamed(scopes, s, names[..0])
      ensures Below(scopes, s) == {s.Path()} + BelowNamed(scopes, s, names)
    {
      assert scopes[s.Path()] == s && ChildrenOk(scopes, scopes[s.Path()], s.children);
      OneFound(scopes, s);
      assert names[..0] == [];
      hide LiveIn, ChildrenOk;
      BelowIsUnion(scopes, this, root, s, s.children, names);
    }

    method ChildNames(s: CompositionScope) returns (names: seq<string>)
      ensures forall i :: 0 <= i < |names| ==> Named(s.children, names[i])
      ensures forall i :: 0 <= i < |s.children| ==> s.children[i].name in names
      ensures InOrder(names)
    {
      names := Sorted(set i | 0 <= i < |s.children| :: s.children[i].name);
      forall i | 0 <= i < |names| ensures Named(s.children, names[i]) {
        assert names[i] in names;
      }
    }

    lemma ChildIsIndexed(s: CompositionScope, name: string)
      requires InStep() && Live(s) && Named(s.children, name)
      ensures s.Chained() && Join(s.Path(), name) in scopes && Live(scopes[Join(s.Path(), name)])
      ensures scopes[Join(s.Path(), name)].Path() == Join(s.Path(), name)
      ensures scopes[Join(s.Path(), name)].segments == s.segments + [name]
      ensures Below(scopes, scopes[Join(s.Path(), name)]) < Below(scopes, s)
    {
      assert scopes[s.Path()] == s;
      assert ChildrenOk(scopes, scopes[s.Path()], s.children);
      ChildrenAreIndexed(scopes, this, root, s, s.children, name);
    }

    // ---- Removal

    /** Remove a scope and everything below it, withdrawing the entries they declare. */
    method Remove(path: string) returns (r: Removal)
      requires InStep()
      modifies this`scopes, this`entries, this`dirty, scopes.Values
      ensures InStep() && root == old(root)
      ensures r == RootKept <==> path == ROOT_PATH
      ensures r == NotCanonical <==> path != ROOT_PATH && !Canonical(path)
      ensures r.Withdrawn? && path in old(scopes) ==>
        && scopes == Pruned(old(scopes), path)
        && entries == Kept(old(entries), old(scopes), path)
        && SubtreeGone(old(scopes), path, scopes) && EntriesFollow(old(entries), old(scopes), scopes, entries)
        && r.entries == Sorted(old(entries).Keys - entries.Keys)
      ensures !r.Withdrawn? || path !in old(scopes) ==>
        scopes == old(scopes) && entries == old(entries) && (r.Withdrawn? ==> r.entries == [])
    {
      hide InStep, Indexed, ParentsLive, ChildrenOk, LiveIn, IsWithin, Pruned, Kept, Sorted, Canonical, PathsIn, Within;
      if path == ROOT_PATH { return RootKept; }
      if !Canonical(path) { return NotCanonical; }
      if path !in scopes { return Withdrawn([]); }
      InStepMeans();
      var s := scopes[path];
      ghost var before := scopes;
      RemovalMeans(before, this, root, path, entries);
      hide SubtreeGone, EntriesFollow;
      var doomed := Doomed(path);
      var withdrawn := WithdrawAll(doomed, path);
      ParentIsIndexed(before, this, root, path);
      Detach(s, before, path);
      r := Withdrawn(Sorted(withdrawn));
    }

    lemma InStepMeans()
      requires InStep()
      ensures Indexed(scopes, this, root) && ParentsLive(scopes)
      ensures forall p {:trigger scopes[p]} :: p in scopes ==> ChildrenOk(scopes, scopes[p], scopes[p].children)
    {
    }

    /** The walk's scopes that lie within the path. */
    method Doomed(path: string) returns (doomed: seq<CompositionScope>)
      requires InStep()
      ensures forall i :: 0 <= i < |doomed| ==> LiveIn(scopes, doomed[i])
      ensures PathsIn(scopes, doomed) == Within(scopes, path)
    {
      hide InStep, Indexed, ParentsLive, ChildrenOk, LiveIn, IsWithin, PathsIn, Within, Below, CompositionScope.Chained;
      InStepMeans();
      RootIsLive();
      var ordered := Walk(root);
      doomed := [];
      NoPaths(scopes);
      assert ordered[..0] == [] && ordered[..|ordered|] == ordered;
      for k := 0 to |ordered|
        invariant forall i :: 0 <= i < |doomed| ==> LiveIn(scopes, doomed[i])
        invariant PathsIn(scopes, doomed) == PathsIn(scopes, ordered[..k]) * Within(scopes, path)
      {
        var d := ordered[k];
        PathOfLive(scopes, this, root, d, path);
        assert ordered[..k + 1] == ordered[..k] + [d];
        MoreFound(scopes, ordered[..k], [d]);
        MoreFound(scopes, doomed, [d]);
        if IsWithin(d.Path(), path) {
          doomed := doomed + [d];
        }
      }
      EverythingBelowRoot(scopes, this, root, path);
    }

    lemma RootIsLive()
      requires InStep()
      ensures root != null && Live(root)
    {
      assert scopes[ROOT_PATH] == root;
    }

    /** Withdraw the entries of each doomed scope, and the scope from the index. */
    method WithdrawAll(doomed: seq<CompositionScope>, path: string) returns (withdrawn: set<Id>)
      requires Indexed(scopes, this, root) && forall i :: 0 <= i < |doomed| ==> LiveIn(scopes, doomed[i])
      requires PathsIn(scopes, doomed) == Within(scopes, path)
      modifies this`scopes, this`entries, this`dirty
      ensures scopes == Pruned(old(scopes), path) && entries == Kept(old(entries), old(scopes), path)
      ensures withdrawn == old(entries).Keys - entries.Keys
    {
      hide IsWithin, PathsIn, LiveIn, CompositionScope.Chained, Indexed, Left, Kept, Pruned, Within;
      ghost var before, declared := scopes, entries;
      withdrawn := {};
      assert doomed[..0] == [] && doomed[..|doomed|] == doomed;
      NoPaths(before);
      NothingLeft(before, declared, path);
      for k := 0 to |doomed|
        invariant scopes == before - PathsIn(before, doomed[..k])
        invariant entries == Left(declared, PathsIn(before, doomed[..k]))
        invariant withdrawn == declared.Keys - entries.Keys
      {
        var d := doomed[k];
        PathOfLive(before, this, root, d, path);
        assert doomed[..k + 1] == doomed[..k] + [d];
        MoreFound(before, doomed[..k], [d]);
        var p := d.Path();
        var mine := set e | e in entries && entries[e] == p;
        LeftStep(declared, PathsIn(before, doomed[..k]), p);
        entries := entries - mine;
        withdrawn := withdrawn + mine;
        scopes := scopes - {p};
        dirty := true;
      }
    }

    /** Forget the removed top among its parent's children. */
    method Detach(s: CompositionScope, ghost before: Index, path: string)
      requires Canonical(path) && path != ROOT_PATH && path in before && before[path] == s && scopes == Pruned(before, path)
      requires Indexed(before, this, root) && ParentsLive(before)
      requires forall p {:trigger before[p]} :: p in before ==> ChildrenOk(before, before[p], before[p].children)
      modifies if s.parent == null then {} else {s.parent}
      ensures InStep()
    {
      hide Indexed, ParentsLive, ChildrenOk, LiveIn, IsWithin, Canonical, CompositionScope.Chained;
      PrunedIsIndexed(before, this, root, path);
      var parent := s.parent;
      if parent != null {
        parent.children := WithoutScope(parent.children, s);
      }
      forall p | p in scopes ensures ChildrenOk(scopes, scopes[p], scopes[p].children) {
        assert p in before && scopes[p] == before[p] && !IsWithin(p, path);
        assert ChildrenOk(before, before[p], old(before[p].children));
        PrunedChildren(before, this, root, path, p, old(before[p].children));
      }
    }
  }

  type Index = map<string, CompositionScope>

  /** A handle the index still knows. */
  ghost predicate LiveIn(scopes: Index, s: CompositionScope) {
    s.Chained() && s.Path() in scopes && scopes[s.Path()] == s
  }

  /** Every key of the index is its scope's own path. */
  ghost predicate Indexed(scopes: Index, tree: CompositionTree, root: CompositionScope?) {
    && root != null && root.parent == null && ROOT_PATH in scopes && scopes[ROOT_PATH] == root
    && forall p {:trigger scopes[p]} :: p in scopes ==>
         && scopes[p].tree == tree && scopes[p].Chained() && scopes[p].Path() == p
         && (scopes[p].parent == null ==> scopes[p] == root)
  }

  ghost predicate ParentsLive(scopes: Index) {
    forall p {:trigger scopes[p]} :: p in scopes && scopes[p].parent != null ==> LiveIn(scopes, scopes[p].parent)
  }

  ghost predicate Once(children: seq<CompositionScope>) {
    forall i, j :: 0 <= i < j < |children| ==> children[i] != children[j]
  }

  /** A scope's children are the indexed scopes that name it as their parent, once each. */
  ghost predicate ChildrenOk(scopes: Index, s: CompositionScope, children: seq<CompositionScope>) {
    && (forall i :: 0 <= i < |children| ==> LiveIn(scopes, children[i]) && children[i].parent == s)
    && Once(children)
    && (forall q {:trigger scopes[q]} :: q in scopes && scopes[q].parent == s ==> scopes[q] in children)
  }

  /** Where a child of that name goes: a path of its own, longer than its parent's. */
  lemma ChildPath(parent: CompositionScope, name: string, c: CompositionScope)
    requires parent.Chained() && IsSegment(name)
    requires c.parent == parent && c.name == name && c.segments == parent.segments + [name]
    ensures c.Chained() && c.Path() == Join(parent.Path(), name) && c.Path() != parent.Path()
  {
    assert c.Chained();
    var p, q := parent.Path(), c.Path();
    assert AllSegments(parent.segments) && AllSegments(c.segments);
    PathDecidesWhenEqual(parent.segments, c.segments);
  }

  /** Indexing a child keeps the index's keys right; it is reachable when its parent is. */
  lemma AddedIsIndexed(scopes: Index, tree: CompositionTree, root: CompositionScope?, parent: CompositionScope, c: CompositionScope)
    requires Indexed(scopes, tree, root) && ParentsLive(scopes) && c.tree == tree && c.Chained() && c.Path() !in scopes
    requires c.parent == parent && parent.Chained() && c.Path() != parent.Path()
    ensures Indexed(scopes[c.Path() := c], tree, root)
    ensures LiveIn(scopes[c.Path() := c], parent) <==> LiveIn(scopes, parent)
    ensures ParentsLive(scopes[c.Path() := c]) <==> LiveIn(scopes, parent)
  {
    hide CompositionScope.Chained, IsSegment;
    var after := scopes[c.Path() := c];
    assert after[c.Path()] == c;
  }

  lemma LiveStays(scopes: Index, s: CompositionScope, c: CompositionScope)
    requires LiveIn(scopes, s) && c.Chained() && c.Path() !in scopes
    ensures LiveIn(scopes[c.Path() := c], s)
  {
  }

  lemma AddedIsLive(scopes: Index, c: CompositionScope)
    requires c.Chained()
    ensures LiveIn(scopes[c.Path() := c], c)
  {
  }

  lemma NewChildless(scopes: Index, c: CompositionScope)
    requires c.Chained() && c.Path() !in scopes && ParentsLive(scopes) && c.parent != c
    ensures ChildrenOk(scopes[c.Path() := c], c, [])
  {
    hide CompositionScope.Chained, IsSegment;
  }

  lemma OtherChildren(scopes: Index, s: CompositionScope, c: CompositionScope, children: seq<CompositionScope>)
    requires ChildrenOk(scopes, s, children) && c.Chained() && c.Path() !in scopes && c.parent != s
    ensures ChildrenOk(scopes[c.Path() := c], s, children)
  {
    hide CompositionScope.Chained, IsSegment;
    forall i | 0 <= i < |children| ensures LiveIn(scopes[c.Path() := c], children[i]) {
      LiveStays(scopes, children[i], c);
    }
  }

  lemma AddedToChildren(scopes: Index, s: CompositionScope, c: CompositionScope, children: seq<CompositionScope>)
    requires ChildrenOk(scopes, s, children) && c.Chained() && c.Path() !in scopes && c.parent == s
    ensures ChildrenOk(scopes[c.Path() := c], s, children + [c])
  {
    hide CompositionScope.Chained, IsSegment;
    forall i | 0 <= i < |children| ensures LiveIn(scopes[c.Path() := c], children[i]) {
      LiveStays(scopes, children[i], c);
    }
    assert forall x :: x in children ==> x in children + [c];
  }

  lemma PathDecidesWhenEqual(s: seq<string>, t: seq<string>)
    requires AllSegments(s) && AllSegments(t)
    ensures PathOf(s) == PathOf(t) <==> s == t
  {
    if PathOf(s) == PathOf(t) {
      PathDecides(s, t);
    }
  }

  function PathsTo(segments: seq<string>): set<string> {
    set k | 0 <= k <= |segments| :: PathOf(segments[..k])
  }

  /** The paths of the lineage of a canonical path. */
  function Ancestry(path: string): set<string>
    requires Canonical(path)
  {
    PathsTo(Segments(path))
  }

  lemma RootIsIndexed(scopes: Index, tree: CompositionTree, root: CompositionScope?)
    requires Indexed(scopes, tree, root)
    ensures ROOT_PATH in scopes
  {
  }

  lemma IndexedIsLive(scopes: Index, tree: CompositionTree, root: CompositionScope?, path: string)
    requires Indexed(scopes, tree, root) && path in scopes
    ensures LiveIn(scopes, scopes[path]) && scopes[path].Path() == path
  {
  }

  lemma LiveMeans(scopes: Index, tree: CompositionTree, root: CompositionScope?, s: CompositionScope)
    requires Indexed(scopes, tree, root) && LiveIn(scopes, s)
    ensures s.Chained() && s.tree == tree && s.Path() in scopes && scopes[s.Path()] == s
  {
    assert scopes[s.Path()] == s;
  }

  /** A canonical path other than the root's splits into its parent's and a name of its own. */
  lemma ParentOfPath(path: string)
    requires Canonical(path) && path != ROOT_PATH
    ensures '/' in path
    ensures var (before, name) := RPartition(path);
      var parent := if before == "" then ROOT_PATH else before;
      && Canonical(parent) && |parent| < |path| && IsSegment(name) && Join(parent, name) == path
      && path !in Ancestry(parent) && Ancestry(path) == Ancestry(parent) + {path}
  {
    CanonicalIff(path);
    var segments := Segments(path);
    var n := |segments| - 1;
    PartitionOfPath(segments);
    var front := segments[..n];
    assert segments[n] in segments && forall x :: x in front ==> x in segments;
    PathIsCanonical(front);
    AncestryNext(path, PathOf(front));
    PathIsJoined(front);
  }

  lemma AncestryNext(path: string, parent: string)
    requires Canonical(path) && path != ROOT_PATH && Canonical(parent)
    requires Segments(path) != [] && Segments(parent) == Segments(path)[..|Segments(path)| - 1]
    requires PathOf(Segments(path)) == path && AllSegments(Segments(path))
    ensures path !in Ancestry(parent) && Ancestry(path) == Ancestry(parent) + {path}
  {
    hide PathsTo, Canonical, PathOf, AllSegments, Segments;
    PathsToNext(Segments(path));
  }

  lemma PathsToNext(t: seq<string>)
    requires t != [] && AllSegments(t)
    ensures var front := t[..|t| - 1]; PathOf(t) !in PathsTo(front) && PathsTo(t) == PathsTo(front) + {PathOf(t)}
  {
    hide PathOf, AllSegments;
    var n := |t| - 1;
    assert t[..n + 1] == t;
    forall k | 0 <= k <= n ensures t[..n][..k] == t[..k] && PathOf(t[..k]) != PathOf(t) {
      PrefixesAreSegments(t, k);
      PathDecidesWhenEqual(t[..k], t);
    }
  }

  lemma PrefixesAreSegments(t: seq<string>, k: nat)
    requires AllSegments(t) && k <= |t|
    ensures AllSegments(t[..k])
  {
    assert forall x :: x in t[..k] ==> x in t;
  }

  /** Every scope of the index has its whole lineage in it. */
  lemma {:induction false} LineageIsIndexed(scopes: Index, tree: CompositionTree, root: CompositionScope?, s: CompositionScope, k: nat)
    returns (a: CompositionScope)
    requires Indexed(scopes, tree, root) && ParentsLive(scopes) && LiveIn(scopes, s) && k <= |s.segments|
    ensures LiveIn(scopes, a) && a.segments == s.segments[..k]
    decreases |s.segments|
  {
    if k == |s.segments| {
      a := s;
      assert s.segments[..k] == s.segments;
    } else {
      assert scopes[s.Path()] == s;
      a := LineageIsIndexed(scopes, tree, root, s.parent, k);
      assert s.segments[..k] == s.parent.segments[..k];
    }
  }

  lemma AncestryIsIndexed(scopes: Index, tree: CompositionTree, root: CompositionScope?, path: string)
    requires Indexed(scopes, tree, root) && ParentsLive(scopes) && path in scopes && Canonical(path)
    ensures Ancestry(path) <= scopes.Keys
  {
    var s := scopes[path];
    var p := s.Path();
    assert LiveIn(scopes, s);
    PathIsCanonical(s.segments);
    forall q | q in Ancestry(path) ensures q in scopes {
      var k :| 0 <= k <= |Segments(path)| && q == PathOf(Segments(path)[..k]);
      var a := LineageIsIndexed(scopes, tree, root, s, k);
      assert a.Path() == q;
    }
  }

  // ---- Below a scope

  function Below(scopes: Index, s: CompositionScope): set<string>
    requires s.Chained()
  {
    set p | p in scopes && IsWithin(p, s.Path())
  }

  predicate Named(children: seq<CompositionScope>, name: string) {
    exists i :: 0 <= i < |children| && children[i].name == name
  }

  // ---- The order of a walk

  ghost predicate Ascending(found: seq<CompositionScope>) {
    forall i, j :: 0 <= i < j < |found| ==> KeyBefore(found[i].segments, found[j].segments)
  }

  ghost predicate AllUnder(found: seq<CompositionScope>, prefix: seq<string>) {
    forall i :: 0 <= i < |found| ==> prefix <= found[i].segments
  }

  /** The scope first, then what lies below the named children. */
  ghost predicate UpTo(found: seq<CompositionScope>, s: CompositionScope, names: seq<string>) {
    forall i :: 0 <= i < |found| ==>
      found[i] == s || exists m :: 0 <= m < |names| && s.segments + [names[m]] <= found[i].segments
  }

  predicate InOrder(names: seq<string>) {
    forall i, j :: 0 <= i < j < |names| ==> Before(names[i], names[j])
  }

  lemma StartsInOrder(s: CompositionScope)
    ensures Ascending([s]) && UpTo([s], s, [])
  {
  }

  lemma EndsUnder(found: seq<CompositionScope>, s: CompositionScope, names: seq<string>)
    requires UpTo(found, s, names)
    ensures AllUnder(found, s.segments)
  {
    forall i | 0 <= i < |found| ensures s.segments <= found[i].segments {
      if found[i] != s {
        var m :| 0 <= m < |names| && s.segments + [names[m]] <= found[i].segments;
        assert s.segments <= s.segments + [names[m]];
      }
    }
  }

  lemma FoundBefore(f: CompositionScope, b: CompositionScope, s: CompositionScope, names: seq<string>, k: nat)
    requires k < |names| && InOrder(names) && s.segments + [names[k]] <= b.segments
    requires f == s || exists m :: 0 <= m < k && s.segments + [names[m]] <= f.segments
    ensures KeyBefore(f.segments, b.segments)
  {
    hide KeyBefore, Before;
    if f == s {
      assert s.segments <= s.segments + [names[k]] && |b.segments| > |s.segments|;
      PrefixIsBefore(s.segments, b.segments);
    } else {
      var m :| 0 <= m < k && s.segments + [names[m]] <= f.segments;
      PartingIsBefore(s.segments, names[m], names[k], f.segments, b.segments);
    }
  }

  lemma BelowInOrder(found: seq<CompositionScope>, below: seq<CompositionScope>, s: CompositionScope, names: seq<string>, k: nat)
    requires k < |names| && InOrder(names) && Ascending(found) && UpTo(found, s, names[..k])
    requires Ascending(below) && AllUnder(below, s.segments + [names[k]])
    ensures Ascending(found + below) && UpTo(found + below, s, names[..k + 1])
  {
    hide KeyBefore, InOrder;
    var all, more := found + below, names[..k + 1];
    forall i | 0 <= i < |all|
      ensures all[i] == s || exists m :: 0 <= m < |more| && s.segments + [more[m]] <= all[i].segments
    {
      if i < |found| && all[i] != s {
        var m :| 0 <= m < k && s.segments + [names[..k][m]] <= all[i].segments;
        assert more[m] == names[..k][m];
      } else if |found| <= i {
        assert more[k] == names[k] && all[i] == below[i - |found|];
      }
    }
    forall i, j | 0 <= i < j < |all| ensures KeyBefore(all[i].segments, all[j].segments) {
      if i < |found| <= j {
        assert all[j] == below[j - |found|];
        if all[i] != s {
          var m :| 0 <= m < k && s.segments + [names[..k][m]] <= all[i].segments;
          assert names[..k][m] == names[m];
        }
        FoundBefore(all[i], all[j], s, names, k);
      } else if |found| <= i {
        assert all[i] == below[i - |found|] && all[j] == below[j - |found|];
      }
    }
  }

  ghost function PathsIn(scopes: Index, found: seq<CompositionScope>): set<string> {
    set p | p in scopes && scopes[p] in found
  }

  /** Everything below the children of these names. */
  ghost function BelowNamed(scopes: Index, s: CompositionScope, names: seq<string>): set<string>
    requires s.Chained()
  {
    set p, n | p in scopes && n in names && IsWithin(p, Join(s.Path(), n)) :: p
  }

  lemma OneFound(scopes: Index, s: CompositionScope)
    requires LiveIn(scopes, s) && forall p :: p in scopes ==> scopes[p].Chained() && scopes[p].Path() == p
    ensures PathsIn(scopes, [s]) == {s.Path()} + BelowNamed(scopes, s, [])
  {
  }

  lemma MoreFound(scopes: Index, found: seq<CompositionScope>, more: seq<CompositionScope>)
    ensures PathsIn(scopes, found + more) == PathsIn(scopes, found) + PathsIn(scopes, more)
  {
  }

  lemma OneMoreNamed(scopes: Index, tree: CompositionTree, root: CompositionScope?, s: CompositionScope, names: seq<string>, k: nat)
    requires s.Chained() && k < |names| && Join(s.Path(), names[k]) in scopes
    requires scopes[Join(s.Path(), names[k])].Chained() && scopes[Join(s.Path(), names[k])].Path() == Join(s.Path(), names[k])
    ensures BelowNamed(scopes, s, names[..k + 1]) == BelowNamed(scopes, s, names[..k]) + Below(scopes, scopes[Join(s.Path(), names[k])])
  {
    assert names[..k + 1] == names[..k] + [names[k]];
    hide IsWithin, Join;
    var c := scopes[Join(s.Path(), names[k])];
    forall p ensures p in BelowNamed(scopes, s, names[..k + 1]) <==> p in BelowNamed(scopes, s, names[..k]) || p in Below(scopes, c) {
      if p in Below(scopes, c) {
        assert names[k] in names[..k + 1] && IsWithin(p, Join(s.Path(), names[k]));
      }
      if p in BelowNamed(scopes, s, names[..k]) {
        var n :| n in names[..k] && IsWithin(p, Join(s.Path(), n));
        assert n in names[..k + 1];
      }
    }
  }

  lemma ChildrenAreIndexed(scopes: Index, tree: CompositionTree, root: CompositionScope?, s: CompositionScope, children: seq<CompositionScope>, name: string)
    requires Indexed(scopes, tree, root) && LiveIn(scopes, s) && ChildrenOk(scopes, s, children) && Named(children, name)
    ensures Join(s.Path(), name) in scopes && scopes[Join(s.Path(), name)].parent == s
    ensures LiveIn(scopes, scopes[Join(s.Path(), name)]) && scopes[Join(s.Path(), name)].Path() == Join(s.Path(), name)
    ensures scopes[Join(s.Path(), name)].segments == s.segments + [name]
    ensures Below(scopes, scopes[Join(s.Path(), name)]) < Below(scopes, s)
  {
    var i :| 0 <= i < |children| && children[i].name == name;
    var c := children[i];
    assert c.Path() == Join(s.Path(), name);
    assert c.segments == s.segments + [name];
    BelowAChild(scopes, tree, root, s, c);
  }

  lemma BelowAChild(scopes: Index, tree: CompositionTree, root: CompositionScope?, s: CompositionScope, c: CompositionScope)
    requires Indexed(scopes, tree, root) && LiveIn(scopes, s) && LiveIn(scopes, c) && c.segments == s.segments + [c.name]
    ensures Below(scopes, c) < Below(scopes, s)
  {
    var sp, cp := s.Path(), c.Path();
    forall p | p in Below(scopes, c) ensures p in Below(scopes, s) {
      var q := scopes[p].Path();
      WithinIffPrefix(scopes[p].segments, c.segments);
      WithinIffPrefix(scopes[p].segments, s.segments);
    }
    WithinIffPrefix(s.segments, c.segments);
    WithinIffPrefix(s.segments, s.segments);
    assert s.Path() in Below(scopes, s) && s.Path() !in Below(scopes, c);
  }

  /** What lies strictly below a scope lies below one of its children. */
  lemma BelowSomeChild(scopes: Index, tree: CompositionTree, root: CompositionScope?, s: CompositionScope, children: seq<CompositionScope>, p: string)
    requires Indexed(scopes, tree, root) && ParentsLive(scopes) && LiveIn(scopes, s) && ChildrenOk(scopes, s, children)
    requires p in scopes && p != s.Path() && IsWithin(p, s.Path())
    ensures exists y :: y in children && IsWithin(p, Join(s.Path(), y.name))
  {
    var x := scopes[p];
    var q, r, n := x.Path(), s.Path(), |s.segments|;
    WithinIffPrefix(x.segments, s.segments);
    assert s.segments <= x.segments && s.segments != x.segments;
    var y := LineageIsIndexed(scopes, tree, root, x, n + 1);
    SegmentPrefix(x.segments, s.segments);
    ParentAtSegments(scopes, tree, root, s, y);
    hide IsWithin, Join;
    assert y in children;
    WithinIffPrefix(x.segments, y.segments);
    assert y.Path() == Join(s.Path(), y.name);
  }

  lemma SegmentPrefix(x: seq<string>, s: seq<string>)
    requires s <= x && s != x
    ensures |s| < |x| && x[..|s| + 1] == s + [x[|s|]]
  {
  }

  lemma ParentAtSegments(scopes: Index, tree: CompositionTree, root: CompositionScope?, s: CompositionScope, y: CompositionScope)
    requires Indexed(scopes, tree, root) && ParentsLive(scopes) && LiveIn(scopes, s) && LiveIn(scopes, y)
    requires |y.segments| == |s.segments| + 1 && s.segments <= y.segments
    ensures y.parent == s && scopes[y.Path()] == y && y.Path() == Join(s.Path(), y.name)
  {
    assert scopes[y.Path()] == y && y.parent != null;
    assert y.parent.segments == y.segments[..|s.segments|] == s.segments;
    assert y.parent.Path() == s.Path();
  }

  lemma BelowIsUnion(scopes: Index, tree: CompositionTree, root: CompositionScope?, s: CompositionScope, children: seq<CompositionScope>, names: seq<string>)
    requires Indexed(scopes, tree, root) && ParentsLive(scopes) && LiveIn(scopes, s) && ChildrenOk(scopes, s, children)
    requires forall i :: 0 <= i < |names| ==> Named(children, names[i])
    requires forall i :: 0 <= i < |children| ==> children[i].name in names
    ensures Below(scopes, s) == {s.Path()} + BelowNamed(scopes, s, names)
  {
    hide IsWithin, Join, Indexed, ParentsLive, ChildrenOk, LiveIn;
    assert s.Chained() by { LiveMeans(scopes, tree, root, s); }
    forall p | p in Below(scopes, s) && p != s.Path() ensures p in BelowNamed(scopes, s, names) {
      BelowSomeChild(scopes, tree, root, s, children, p);
      var y :| y in children && IsWithin(p, Join(s.Path(), y.name));
      assert y.name in names;
    }
    forall p | p in BelowNamed(scopes, s, names) ensures p in Below(scopes, s) {
      var n :| n in names && IsWithin(p, Join(s.Path(), n));
      ChildrenAreIndexed(scopes, tree, root, s, children, n);
      LiveMeans(scopes, tree, root, scopes[Join(s.Path(), n)]);
      assert p in Below(scopes, scopes[Join(s.Path(), n)]);
    }
    LiveMeans(scopes, tree, root, s);
    assert s.Path() in Below(scopes, s) by { WithinItself(s); }
  }

  lemma WithinItself(s: CompositionScope)
    requires s.Chained()
    ensures IsWithin(s.Path(), s.Path())
  {
  }

  // ---- What is left after a removal

  function Pruned(scopes: Index, path: string): Index {
    map p | p in scopes && !IsWithin(p, path) :: scopes[p]
  }

  /** Entries whose declaring scope was not removed. */
  function Kept(entries: map<Id, string>, scopes: Index, path: string): map<Id, string> {
    map e | e in entries && !(entries[e] in scopes && IsWithin(entries[e], path)) :: entries[e]
  }

  /** What is gone is the scope at the path and all whose segments continue its own. */
  ghost predicate SubtreeGone(before: Index, path: string, after: Index) {
    path in before
    && (forall p :: p in after <==> p in before && !(before[path].segments <= before[p].segments))
    && forall p :: p in after ==> p in before && after[p] == before[p]
  }

  /** An entry goes exactly when the scope that declares it does. */
  ghost predicate EntriesFollow(declared: map<Id, string>, before: Index, after: Index, left: map<Id, string>) {
    && (forall e :: e in left <==> e in declared && (declared[e] in before ==> declared[e] in after))
    && forall e :: e in left ==> e in declared && left[e] == declared[e]
  }

  lemma RemovalMeans(before: Index, tree: CompositionTree, root: CompositionScope?, path: string, declared: map<Id, string>)
    requires Indexed(before, tree, root) && path in before
    ensures SubtreeGone(before, path, Pruned(before, path))
    ensures EntriesFollow(declared, before, Pruned(before, path), Kept(declared, before, path))
  {
    hide IsWithin, CompositionScope.Chained;
    forall p | p in before ensures IsWithin(p, path) <==> before[path].segments <= before[p].segments {
      IndexedIsLive(before, tree, root, p);
      IndexedIsLive(before, tree, root, path);
      SegmentsOfLive(before[p], p);
      SegmentsOfLive(before[path], path);
      WithinIffPrefix(before[p].segments, before[path].segments);
    }
  }

  lemma SegmentsOfLive(s: CompositionScope, path: string)
    requires s.Chained() && s.Path() == path
    ensures AllSegments(s.segments) && PathOf(s.segments) == path
  {
  }

  function WithoutScope(children: seq<CompositionScope>, s: CompositionScope): (r: seq<CompositionScope>)
    ensures forall i :: 0 <= i < |r| ==> r[i] in children && r[i] != s
    ensures forall i :: 0 <= i < |children| && children[i] != s ==> children[i] in r
  {
    if children == [] then []
    else
      var n := |children| - 1;
      assert children == children[..n] + [children[n]];
      var front := WithoutScope(children[..n], s);
      if children[n] == s then front else front + [children[n]]
  }

  lemma {:induction false} WithoutScopeIsDistinct(children: seq<CompositionScope>, s: CompositionScope)
    requires Once(children)
    ensures Once(WithoutScope(children, s))
    decreases |children|
  {
    if children != [] {
      var n := |children| - 1;
      var front := WithoutScope(children[..n], s);
      WithoutScopeIsDistinct(children[..n], s);
      assert forall i :: 0 <= i < n ==> children[i] != children[n];
      forall i | 0 <= i < |front| ensures front[i] != children[n] {
        assert front[i] in children[..n];
      }
      assert Once(front + [children[n]]);
    }
  }

  /** The rest of the index is whole: nothing outside the subtree hangs on it. */
  lemma PrunedIsIndexed(scopes: Index, tree: CompositionTree, root: CompositionScope?, path: string)
    requires Indexed(scopes, tree, root) && ParentsLive(scopes) && Canonical(path) && path != ROOT_PATH && path in scopes
    ensures Indexed(Pruned(scopes, path), tree, root) && ParentsLive(Pruned(scopes, path))
  {
    var after, s := Pruned(scopes, path), scopes[path];
    var sp := s.Path();
    var rp := root.Path();
    assert LiveIn(scopes, s);
    assert !IsWithin(ROOT_PATH, path) by {
      WithinIffPrefix([], s.segments);
      assert s.segments != [];
    }
    forall p | p in after && after[p].parent != null ensures LiveIn(after, after[p].parent) {
      var x := scopes[p];
      var xp := x.Path();
      var y := x.parent;
      assert LiveIn(scopes, y);
      var yp := y.Path();
      WithinIffPrefix(x.segments, s.segments);
      WithinIffPrefix(y.segments, s.segments);
    }
  }

  /** A child of a scope outside a subtree is inside it only as the subtree's own top. */
  lemma ChildOutside(x: CompositionScope, c: CompositionScope, s: CompositionScope)
    requires x.Chained() && c.Chained() && s.Chained() && c.segments == x.segments + [c.name]
    requires !IsWithin(x.Path(), s.Path()) && c.Path() != s.Path()
    ensures !IsWithin(c.Path(), s.Path())
  {
    var xp, cp, sp := x.Path(), c.Path(), s.Path();
    WithinIffPrefix(x.segments, s.segments);
    WithinIffPrefix(c.segments, s.segments);
    PathDecidesWhenEqual(c.segments, s.segments);
    PrefixOfExtension(x.segments, c.name, s.segments);
  }

  lemma PrefixOfExtension(x: seq<string>, last: string, s: seq<string>)
    ensures s <= x + [last] ==> s <= x || s == x + [last]
  {
  }

  lemma PrunedChild(scopes: Index, tree: CompositionTree, root: CompositionScope?, path: string, x: CompositionScope, c: CompositionScope)
    requires Indexed(scopes, tree, root) && path in scopes && LiveIn(scopes, x) && LiveIn(scopes, c)
    requires !IsWithin(x.Path(), path) && c.parent == x && c != scopes[path]
    ensures LiveIn(Pruned(scopes, path), c)
  {
    assert scopes[c.Path()] == c && c.segments == x.segments + [c.name];
    hide IsWithin;
    ChildOutside(x, c, scopes[path]);
  }

  lemma PrunedChildren(scopes: Index, tree: CompositionTree, root: CompositionScope?, path: string, p: string, children: seq<CompositionScope>)
    requires Indexed(scopes, tree, root) && path in scopes && p in scopes && !IsWithin(p, path)
    requires ChildrenOk(scopes, scopes[p], children)
    ensures ChildrenOk(Pruned(scopes, path), scopes[p], AfterRemoval(scopes, path, scopes[p], children))
  {
    hide IsWithin, Indexed, LiveIn, CompositionScope.Chained, Pruned;
    var s, x, after := scopes[path], scopes[p], Pruned(scopes, path);
    IndexedIsLive(scopes, tree, root, p);
    var left := AfterRemoval(scopes, path, x, children);
    forall i | 0 <= i < |left| ensures LiveIn(after, left[i]) && left[i].parent == x {
      assert left[i] in children;
      PrunedChild(scopes, tree, root, path, x, left[i]);
    }
    WithoutScopeIsDistinct(children, s);
    forall q | q in after && after[q].parent == x ensures after[q] in left {
      PrunedHasNot(scopes, tree, root, path, q);
      assert scopes[q] in children;
    }
  }

  lemma PrunedHasNot(scopes: Index, tree: CompositionTree, root: CompositionScope?, path: string, q: string)
    requires Indexed(scopes, tree, root) && path in scopes && q in Pruned(scopes, path)
    ensures q in scopes && Pruned(scopes, path)[q] == scopes[q] && scopes[q] != scopes[path]
  {
    assert scopes[path].Path() == path;
    WithinItself(scopes[path]);
  }

  function AfterRemoval(scopes: Index, path: string, x: CompositionScope, children: seq<CompositionScope>): seq<CompositionScope>
    requires path in scopes
  {
    if scopes[path].parent == x then WithoutScope(children, scopes[path]) else children
  }

  function Within(scopes: Index, path: string): set<string> {
    set p | p in scopes && IsWithin(p, path)
  }

  /** The entries no removed path declares. */
  function Left(entries: map<Id, string>, gone: set<string>): map<Id, string> {
    map e | e in entries && entries[e] !in gone :: entries[e]
  }

  lemma LeftStep(entries: map<Id, string>, gone: set<string>, p: string)
    ensures Left(entries, gone).Keys <= entries.Keys
    ensures Left(entries, gone + {p}) == Left(entries, gone) - set e | e in Left(entries, gone) && Left(entries, gone)[e] == p
  {
  }

  lemma PathOfLive(scopes: Index, tree: CompositionTree, root: CompositionScope?, d: CompositionScope, path: string)
    requires Indexed(scopes, tree, root) && LiveIn(scopes, d)
    ensures d.Chained() && PathsIn(scopes, [d]) == {d.Path()}
    ensures d.Path() in Within(scopes, path) <==> IsWithin(d.Path(), path)
  {
  }

  lemma NoPaths(scopes: Index)
    ensures PathsIn(scopes, []) == {}
  {
  }

  lemma EverythingBelowRoot(scopes: Index, tree: CompositionTree, root: CompositionScope?, path: string)
    requires Indexed(scopes, tree, root)
    ensures root.Chained() && Below(scopes, root) == scopes.Keys && scopes.Keys * Within(scopes, path) == Within(scopes, path)
  {
    assert scopes[ROOT_PATH] == root;
  }

  lemma NothingLeft(scopes: Index, entries: map<Id, string>, path: string)
    ensures Left(entries, {}) == entries
    ensures scopes - Within(scopes, path) == Pruned(scopes, path) && Left(entries, Within(scopes, path)) == Kept(entries, scopes, path)
  {
    hide IsWithin;
  }

  lemma ParentIsIndexed(scopes: Index, tree: CompositionTree, root: CompositionScope?, path: string)
    requires Indexed(scopes, tree, root) && ParentsLive(scopes) && path in scopes
    ensures scopes[path].parent != null ==> scopes[path].parent in scopes.Values
  {
    if scopes[path].parent != null {
      var p := scopes[path].parent;
      assert LiveIn(scopes, p) && scopes[p.Path()] == p;
    }
  }
}
