/** Semantic identities: what makes a running instance safe to carry into the next generation.
    `stable_hash` is modelled as a free constructor, that is, as an injective function. */
module Identity {
  import opened Wrappers
  import opened Ordering
  import opened Keys
  import opened Resolver

  datatype Digest =
    | Behaviour(kind: Id, implementation: Id, contracts: Id, config: Id, scope: Id, dependencies: Digest)
    | DependencyDigest(keys: seq<SemanticKey>)

  datatype SemanticKey = SemanticKey(capability: Id, provider: Option<Id>, identity: Option<Digest>, status: Status)

  /** How one requirement resolved: the provider as an entry, as an instance and as a behaviour. */
  datatype Binding = Binding(
    capability: Id,
    consumer: Id,
    provider: Option<Id>,
    providerInstance: Option<Id>,
    providerIdentity: Option<Digest>,
    status: Status)
  {
    function Key(): SemanticKey {
      SemanticKey(capability, provider, providerIdentity, status)
    }
  }

  /** The equality of this datatype is the reuse test, display fingerprint included. */
  datatype SemanticIdentity = SemanticIdentity(
    entry: Id,
    kind: Id,
    scope: Id,
    implementation: Id,
    contracts: Id,
    config: Id,
    configDisplay: Id,
    dependencies: Digest,
    bindings: seq<Binding>)
  {
    function IdentityDigest(): Digest {
      Behaviour(kind, implementation, contracts, config, scope, dependencies)
    }
  }

  /** The identity inputs an entry owns, its fingerprints already taken. */
  datatype Entry = Entry(
    id: Id,
    revision: nat,
    scope: Id,
    implementation: Id,
    contracts: Id,
    config: Id,
    configDisplay: Id)

  /** What the plan says about one requirement of an entry. */
  datatype Selection = Selection(requirement: Requirement, provider: Option<Id>, status: Status)

  /** How the control plane currently answers for a provider entry. */
  datatype Answer = Answer(instance: Option<Id>, identity: Option<Digest>)

  function Bind(consumer: Id, s: Selection, answers: map<Id, Answer>): Binding
    requires s.provider.Some? ==> s.provider.value in answers
  {
    if s.provider.None?
    then Binding(s.requirement.name, consumer, None, None, None, s.status)
    else
      var a := answers[s.provider.value];
      Binding(s.requirement.name, consumer, s.provider, a.instance, a.identity, s.status)
  }

  predicate Answered(selections: seq<Selection>, answers: map<Id, Answer>) {
    forall s :: s in selections && s.provider.Some? ==> s.provider.value in answers
  }

  function BindAll(consumer: Id, selections: seq<Selection>, answers: map<Id, Answer>): (r: seq<Binding>)
    requires Answered(selections, answers)
    ensures |r| == |selections|
    ensures forall i :: 0 <= i < |r| ==> r[i] == Bind(consumer, selections[i], answers)
  {
    seq(|selections|, i requires 0 <= i < |selections| => Bind(consumer, selections[i], answers))
  }

  // ---- Ordering by capability

  function InsertBinding(b: Binding, sorted: seq<Binding>): (r: seq<Binding>)
    ensures forall x :: x in r <==> x == b || x in sorted
  {
    if sorted == [] || Before(b.capability, sorted[0].capability) then [b] + sorted
    else [sorted[0]] + InsertBinding(b, sorted[1..])
  }

  /** `bindings.sort(key=capability)`, stable. */
  function SortBindings(bs: seq<Binding>): (r: seq<Binding>)
    ensures forall x :: x in r <==> x in bs
  {
    if bs == [] then []
    else
      var n := |bs| - 1;
      assert bs == bs[..n] + [bs[n]];
      InsertBinding(bs[n], SortBindings(bs[..n]))
  }

  function InsertSelection(s: Selection, sorted: seq<Selection>): (r: seq<Selection>)
    ensures forall x :: x in r <==> x == s || x in sorted
  {
    if sorted == [] || Before(s.requirement.name, sorted[0].requirement.name) then [s] + sorted
    else [sorted[0]] + InsertSelection(s, sorted[1..])
  }

  function SortSelections(ss: seq<Selection>): (r: seq<Selection>)
    ensures forall x :: x in r <==> x in ss
  {
    if ss == [] then []
    else
      var n := |ss| - 1;
      assert ss == ss[..n] + [ss[n]];
      InsertSelection(ss[n], SortSelections(ss[..n]))
  }

  lemma BindCons(consumer: Id, s: Selection, rest: seq<Selection>, answers: map<Id, Answer>)
    requires Answered([s] + rest, answers)
    ensures Answered(rest, answers) && (s.provider.Some? ==> s.provider.value in answers)
    ensures BindAll(consumer, [s] + rest, answers) == [Bind(consumer, s, answers)] + BindAll(consumer, rest, answers)
  {
    assert forall x :: x in rest ==> x in [s] + rest;
    assert s in [s] + rest;
  }

  lemma {:induction false} InsertCommutes(consumer: Id, s: Selection, sorted: seq<Selection>, answers: map<Id, Answer>)
    requires Answered(sorted, answers) && (s.provider.Some? ==> s.provider.value in answers)
    ensures Answered(InsertSelection(s, sorted), answers)
    ensures BindAll(consumer, InsertSelection(s, sorted), answers)
         == InsertBinding(Bind(consumer, s, answers), BindAll(consumer, sorted, answers))
    decreases |sorted|
  {
    if sorted == [] || Before(s.requirement.name, sorted[0].requirement.name) {
      BindCons(consumer, s, sorted, answers);
    } else {
      var head, tail := sorted[0], sorted[1..];
      assert sorted == [head] + tail;
      BindCons(consumer, head, tail, answers);
      InsertCommutes(consumer, s, tail, answers);
      var inserted := InsertSelection(s, tail);
      assert Answered([head] + inserted, answers);
      BindCons(consumer, head, inserted, answers);
      InsertBindingCons(Bind(consumer, s, answers), Bind(consumer, head, answers), BindAll(consumer, tail, answers));
    }
  }

  lemma InsertBindingCons(b: Binding, head: Binding, tail: seq<Binding>)
    requires !Before(b.capability, head.capability)
    ensures InsertBinding(b, [head] + tail) == [head] + InsertBinding(b, tail)
  {
    assert ([head] + tail)[1..] == tail;
  }

  /** Sorting the bindings is binding the sorted selections: the key is untouched by binding. */
  lemma {:induction false} SortCommutes(consumer: Id, selections: seq<Selection>, answers: map<Id, Answer>)
    requires Answered(selections, answers)
    ensures SortBindings(BindAll(consumer, selections, answers)) == BindAll(consumer, SortSelections(selections), answers)
    decreases |selections|
  {
    hide SortBindings, SortSelections, BindAll, InsertBinding, InsertSelection;
    if selections == [] {
      NothingToSort(consumer, answers);
    } else {
      var n := |selections| - 1;
      var front, bound := selections[..n], BindAll(consumer, selections, answers);
      assert selections[n] in selections && forall x :: x in front ==> x in selections;
      SortCommutes(consumer, front, answers);
      assert bound[..n] == BindAll(consumer, front, answers);
      SortLast(bound, selections);
      InsertCommutes(consumer, selections[n], SortSelections(front), answers);
    }
  }

  lemma NothingToSort(consumer: Id, answers: map<Id, Answer>)
    ensures SortBindings(BindAll(consumer, [], answers)) == BindAll(consumer, SortSelections([]), answers)
  {
  }

  lemma SortLast(bs: seq<Binding>, ss: seq<Selection>)
    requires bs != [] && ss != []
    ensures SortBindings(bs) == InsertBinding(bs[|bs| - 1], SortBindings(bs[..|bs| - 1]))
    ensures SortSelections(ss) == InsertSelection(ss[|ss| - 1], SortSelections(ss[..|ss| - 1]))
  {
  }

  // ---- What sorting does

  predicate NamesInOrder(ss: seq<Selection>) {
    forall i, j :: 0 <= i < j < |ss| ==> !Before(ss[j].requirement.name, ss[i].requirement.name)
  }

  /** The selections of one name, in their order. */
  function Named(ss: seq<Selection>, name: Id): seq<Selection> {
    if ss == [] then [] else (if ss[0].requirement.name == name then [ss[0]] else []) + Named(ss[1..], name)
  }

  lemma NamedFirst(first: Selection, rest: seq<Selection>, name: Id)
    ensures Named([first] + rest, name) == (if first.requirement.name == name then [first] else []) + Named(rest, name)
  {
    assert ([first] + rest)[1..] == rest;
  }

  lemma NamedNothing(name: Id)
    ensures Named([], name) == []
  {
  }

  lemma {:induction false} NamedConcat(a: seq<Selection>, b: seq<Selection>, name: Id)
    ensures Named(a + b, name) == Named(a, name) + Named(b, name)
    decreases |a|
  {
    hide Named;
    if a == [] {
      NamedNothing(name);
      assert a + b == b;
    } else {
      var first, rest := a[0], a[1..];
      NamedConcat(rest, b, name);
      NamedFirst(first, rest, name);
      NamedFirst(first, rest + b, name);
      assert a == [first] + rest && a + b == [first] + (rest + b);
    }
  }

  lemma NotBefore(a: Id, b: Id, c: Id)
    requires !Before(b, a) && !Before(c, b)
    ensures !Before(c, a)
  {
    if Before(c, a) {
      BeforeIsTotal(a, b);
      if a != b {
        BeforeIsTransitive(c, a, b);
      }
    }
  }

  lemma {:induction false} InsertedInOrder(s: Selection, sorted: seq<Selection>)
    requires NamesInOrder(sorted)
    ensures NamesInOrder(InsertSelection(s, sorted))
    decreases |sorted|
  {
    hide Before;
    if sorted != [] {
      var first, rest := sorted[0], sorted[1..];
      if Before(s.requirement.name, first.requirement.name) {
        BeforeIsAsymmetric(s.requirement.name, first.requirement.name);
        BeforeIsIrreflexive(first.requirement.name);
        forall x | x in sorted ensures !Before(x.requirement.name, s.requirement.name) {
          var k :| 0 <= k < |sorted| && sorted[k] == x;
          NotBefore(s.requirement.name, first.requirement.name, x.requirement.name);
        }
        PutInFront(s, sorted);
      } else {
        InsertedInOrder(s, rest);
        forall x | x in InsertSelection(s, rest) ensures !Before(x.requirement.name, first.requirement.name) {
          if x != s {
            var k :| 0 <= k < |rest| && rest[k] == x;
            assert sorted[k + 1] == x;
          }
        }
        PutInFront(first, InsertSelection(s, rest));
      }
    }
  }

  lemma PutInFront(s: Selection, rest: seq<Selection>)
    requires NamesInOrder(rest) && forall x :: x in rest ==> !Before(x.requirement.name, s.requirement.name)
    ensures NamesInOrder([s] + rest)
  {
    hide Before;
  }

  lemma {:induction false} InsertedLast(s: Selection, sorted: seq<Selection>, name: Id)
    requires NamesInOrder(sorted)
    ensures Named(InsertSelection(s, sorted), name) == Named(sorted, name) + if s.requirement.name == name then [s] else []
    decreases |sorted|
  {
    hide Before, NamesInOrder, Named;
    if sorted == [] {
      NamedNothing(name);
      NamedFirst(s, [], name);
    } else {
      var first, rest := sorted[0], sorted[1..];
      if Before(s.requirement.name, first.requirement.name) {
        NamedFirst(s, sorted, name);
        NoneNamed(s, sorted);
      } else {
        RestInOrder(sorted);
        InsertedLast(s, rest, name);
        NamedFirst(first, rest, name);
        NamedFirst(first, InsertSelection(s, rest), name);
        assert sorted == [first] + rest;
      }
    }
  }

  lemma RestInOrder(sorted: seq<Selection>)
    requires NamesInOrder(sorted) && sorted != []
    ensures NamesInOrder(sorted[1..])
  {
    hide Before;
  }

  lemma NoneNamed(s: Selection, sorted: seq<Selection>)
    requires NamesInOrder(sorted) && sorted != [] && Before(s.requirement.name, sorted[0].requirement.name)
    ensures Named(sorted, s.requirement.name) == []
  {
    hide Before;
    forall x | x in sorted ensures x.requirement.name != s.requirement.name {
      var k :| 0 <= k < |sorted| && sorted[k] == x;
      assert k > 0 ==> !Before(sorted[k].requirement.name, sorted[0].requirement.name);
      BeforeIsIrreflexive(s.requirement.name);
    }
    NobodyNamed(sorted, s.requirement.name);
  }

  lemma {:induction false} NobodyNamed(ss: seq<Selection>, name: Id)
    requires forall x :: x in ss ==> x.requirement.name != name
    ensures Named(ss, name) == []
    decreases |ss|
  {
    if ss != [] {
      assert ss[0] in ss && forall x :: x in ss[1..] ==> x in ss;
      NobodyNamed(ss[1..], name);
    }
  }

  /** Sorting puts the names in order, and keeps the selections of one name as they were. */
  lemma {:induction false} SelectionsAreSorted(ss: seq<Selection>, name: Id)
    ensures NamesInOrder(SortSelections(ss)) && Named(SortSelections(ss), name) == Named(ss, name)
    decreases |ss|
  {
    hide InsertSelection, NamesInOrder;
    if ss == [] {
      NothingInOrder();
    } else {
      var n := |ss| - 1;
      SelectionsAreSorted(ss[..n], name);
      InsertedInOrder(ss[n], SortSelections(ss[..n]));
      InsertedLast(ss[n], SortSelections(ss[..n]), name);
      assert ss == ss[..n] + [ss[n]];
      NamedConcat(ss[..n], [ss[n]], name);
      assert [ss[n]][1..] == [];
    }
  }

  lemma NothingInOrder()
    ensures NamesInOrder([])
  {
  }

  // ---- Building an identity

  const PLUGIN: Id := "plugin"

  function KeysOf(bs: seq<Binding>): (r: seq<SemanticKey>)
    ensures |r| == |bs| && forall i :: 0 <= i < |r| ==> r[i] == bs[i].Key()
  {
    seq(|bs|, i requires 0 <= i < |bs| => bs[i].Key())
  }

  function IdentityFrom(e: Entry, bindings: seq<Binding>): SemanticIdentity {
    SemanticIdentity(e.id, PLUGIN, e.scope, e.implementation, e.contracts, e.config, e.configDisplay,
                     DependencyDigest(KeysOf(bindings)), bindings)
  }

  function IdentityOf(e: Entry, selections: seq<Selection>, answers: map<Id, Answer>): SemanticIdentity
    requires Answered(selections, answers)
  {
    IdentityFrom(e, BindAll(e.id, SortSelections(selections), answers))
  }

  /** `build_semantic_identity`: bind each resolution in turn, sort, fingerprint. */
  method BuildSemanticIdentity(e: Entry, selections: seq<Selection>, answers: map<Id, Answer>)
    returns (identity: SemanticIdentity)
    requires Answered(selections, answers)
    ensures identity == IdentityOf(e, selections, answers)
    ensures forall i, j :: 0 <= i < j < |identity.bindings| ==> !Before(identity.bindings[j].capability, identity.bindings[i].capability)
  {
    var bindings: seq<Binding> := [];
    for i := 0 to |selections|
      invariant |bindings| == i
      invariant forall k :: 0 <= k < i ==> selections[k].provider.Some? ==> selections[k].provider.value in answers
      invariant forall k :: 0 <= k < i ==> bindings[k] == Bind(e.id, selections[k], answers)
    {
      assert selections[i] in selections;
      bindings := bindings + [Bind(e.id, selections[i], answers)];
    }
    assert bindings == BindAll(e.id, selections, answers);
    SortCommutes(e.id, selections, answers);
    identity := IdentityFrom(e, SortBindings(bindings));
    SelectionsAreSorted(selections, "");
    var sorted := SortSelections(selections);
    hide SortSelections, SortBindings, Before;
    assert forall i :: 0 <= i < |sorted| ==> identity.bindings[i].capability == sorted[i].requirement.name;
  }

  /** The digest does not see which instances are behind the providers. */
  lemma DigestIgnoresInstances(e: Entry, selections: seq<Selection>, a: map<Id, Answer>, b: map<Id, Answer>)
    requires Answered(selections, a) && Answered(selections, b)
    requires forall s :: s in selections && s.provider.Some? ==> a[s.provider.value].identity == b[s.provider.value].identity
    ensures IdentityOf(e, selections, a).IdentityDigest() == IdentityOf(e, selections, b).IdentityDigest()
  {
    var ss := SortSelections(selections);
    var x, y := BindAll(e.id, ss, a), BindAll(e.id, ss, b);
    forall i | 0 <= i < |ss| ensures x[i].Key() == y[i].Key() {
      assert ss[i] in ss;
    }
    assert KeysOf(x) == KeysOf(y);
  }

  /** The same requirement resolved to the same provider entry, behaving the same. */
  predicate SameBehaviour(s: Selection, t: Selection, a: map<Id, Answer>, b: map<Id, Answer>) {
    && s.requirement.name == t.requirement.name && s.provider == t.provider && s.status == t.status
    && (s.provider.Some? ==> s.provider.value in a && s.provider.value in b && a[s.provider.value].identity == b[s.provider.value].identity)
  }

  predicate BehaveAlike(ss: seq<Selection>, ts: seq<Selection>, a: map<Id, Answer>, b: map<Id, Answer>) {
    |ss| == |ts| && forall k :: 0 <= k < |ss| ==> SameBehaviour(ss[k], ts[k], a, b)
  }

  lemma KeysAgree(consumer: Id, other: Id, ss: seq<Selection>, ts: seq<Selection>, a: map<Id, Answer>, b: map<Id, Answer>)
    requires Answered(ss, a) && Answered(ts, b)
    ensures KeysOf(BindAll(consumer, ss, a)) == KeysOf(BindAll(other, ts, b)) <==> BehaveAlike(ss, ts, a, b)
  {
    hide KeysOf, BindAll;
    var x, y := KeysOf(BindAll(consumer, ss, a)), KeysOf(BindAll(other, ts, b));
    forall k | 0 <= k < |ss| && k < |ts| ensures x[k] == y[k] <==> SameBehaviour(ss[k], ts[k], a, b) {
      assert ss[k] in ss && ts[k] in ts;
    }
    assert x == y <==> |x| == |y| && forall k :: 0 <= k < |x| ==> x[k] == y[k];
  }

  /** Digests agree exactly when the behavioural fields and, one by one, the resolved providers'
      own digests do: a change anywhere upstream shows. */
  lemma DigestMeans(e: Entry, f: Entry, selections: seq<Selection>, others: seq<Selection>, a: map<Id, Answer>, b: map<Id, Answer>)
    requires Answered(selections, a) && Answered(others, b)
    ensures IdentityOf(e, selections, a).IdentityDigest() == IdentityOf(f, others, b).IdentityDigest() <==>
      && e.scope == f.scope && e.implementation == f.implementation && e.contracts == f.contracts && e.config == f.config
      && BehaveAlike(SortSelections(selections), SortSelections(others), a, b)
  {
    hide SortSelections, BindAll, KeysOf, BehaveAlike;
    KeysAgree(e.id, f.id, SortSelections(selections), SortSelections(others), a, b);
  }

  /** What an entry owns of its identity. */
  predicate SameOwnFields(e: Entry, i: SemanticIdentity) {
    && i.entry == e.id && i.kind == PLUGIN && i.scope == e.scope && i.implementation == e.implementation
    && i.contracts == e.contracts && i.config == e.config && i.configDisplay == e.configDisplay
  }

  /** The recorded bindings choose as the sorted selections do: same requirements, same
      providers, same statuses. */
  predicate SameSelection(e: Entry, selections: seq<Selection>, i: SemanticIdentity) {
    var ss := SortSelections(selections);
    && |i.bindings| == |ss|
    && forall k :: 0 <= k < |ss| ==>
         i.bindings[k].consumer == e.id && i.bindings[k].capability == ss[k].requirement.name &&
         i.bindings[k].provider == ss[k].provider && i.bindings[k].status == ss[k].status
  }

  /** Some recorded provider instance or behaviour is not what `answers` gives now. */
  predicate Stale(selections: seq<Selection>, i: SemanticIdentity, answers: map<Id, Answer>) {
    exists k :: 0 <= k < |i.bindings| &&
      if i.bindings[k].provider.None?
      then i.bindings[k].providerInstance.Some? || i.bindings[k].providerIdentity.Some?
      else i.bindings[k].provider.value !in answers ||
           Answer(i.bindings[k].providerInstance, i.bindings[k].providerIdentity) != answers[i.bindings[k].provider.value]
  }

  /** The dependency fingerprint is the one its own bindings give. */
  predicate WellFormed(i: SemanticIdentity) {
    i.dependencies == DependencyDigest(KeysOf(i.bindings))
  }

  /** Equality of identities taken apart: own fields, selection, and the providers' answers. */
  lemma IdentityEquality(e: Entry, selections: seq<Selection>, answers: map<Id, Answer>, i: SemanticIdentity)
    requires Answered(selections, answers) && WellFormed(i)
    ensures i == IdentityOf(e, selections, answers) <==>
      SameOwnFields(e, i) && SameSelection(e, selections, i) && !Stale(selections, i, answers)
  {
    var ss := SortSelections(selections);
    var n := IdentityOf(e, selections, answers);
    if SameOwnFields(e, i) && SameSelection(e, selections, i) && !Stale(selections, i, answers) {
      forall k | 0 <= k < |ss| ensures i.bindings[k] == n.bindings[k] {
        assert ss[k] in ss;
      }
      assert i.bindings == n.bindings;
    }
    if i == n {
      forall k | 0 <= k < |ss| ensures ss[k] in ss {}
    }
  }
}
