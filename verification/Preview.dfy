/** The dry run: predict which entries the next reconciliation keeps, mounting nothing. */
module Preview {
  import opened Wrappers
  import opened Ordering
  import opened Identity
  import opened Registry
  import opened Reuse

  /** The stand-in for the instance a provider is going to get. */
  function PendingId(entry: Id): Id {
    "pending:" + entry
  }

  datatype Prediction = Prediction(identities: map<Id, SemanticIdentity>, reused: map<Id, bool>)

  /** How the dry run answers for a provider: the registry never changes under it. */
  function PredictedAnswer(t: Tables, p: Prediction, q: Id): Answer {
    var live := AnswerFor(t, p.identities, q);
    if q in p.reused && !p.reused[q] then live.(instance := Some(PendingId(q))) else live
  }

  function PredictedAnswers(t: Tables, p: Prediction, ss: seq<Selection>): (r: map<Id, Answer>)
    ensures Answered(ss, r)
  {
    map q | q in ProvidersOf(ss) :: PredictedAnswer(t, p, q)
  }

  function Predict(t: Tables, entry: Entry, ss: seq<Selection>, p: Prediction): Prediction {
    var identity := IdentityOf(entry, ss, PredictedAnswers(t, p, ss));
    Prediction(p.identities[entry.id := identity],
               p.reused[entry.id := Reusable(t.InstanceFor(entry.id), entry.revision, identity)])
  }

  function Predicted(plan: Agenda, entries: map<Id, Entry>, t: Tables, k: nat): Prediction
    requires k <= |plan.order|
  {
    if k == 0 then Prediction(map[], map[])
    else
      var p, e := Predicted(plan, entries, t, k - 1), plan.order[k - 1];
      if e in entries then Predict(t, entries[e], plan.SelectionsOf(e), p) else p
  }

  /** The dry run's own loop. */
  method DryRun(registry: PluginRegistry, plan: Agenda, entries: map<Id, Entry>) returns (reused: map<Id, bool>)
    ensures reused == Predicted(plan, entries, registry.View(), |plan.order|).reused
  {
    var identities: map<Id, SemanticIdentity> := map[];
    reused := map[];
    for k := 0 to |plan.order|
      invariant Prediction(identities, reused) == Predicted(plan, entries, registry.View(), k)
    {
      var e := plan.order[k];
      if e !in entries { continue; }
      var ss := plan.SelectionsOf(e);
      var identity := PredictedIdentity(registry, entries[e], ss, identities, reused);
      var existing := registry.InstanceOf(entries[e].id);
      reused := reused[entries[e].id := Reusable(existing, entries[e].revision, identity)];
      identities := identities[entries[e].id := identity];
    }
  }

  method PredictedIdentity(registry: PluginRegistry, entry: Entry, ss: seq<Selection>,
                           identities: map<Id, SemanticIdentity>, reused: map<Id, bool>) returns (identity: SemanticIdentity)
    ensures identity == IdentityOf(entry, ss, PredictedAnswers(registry.View(), Prediction(identities, reused), ss))
  {
    ghost var t, p := registry.View(), Prediction(identities, reused);
    var answers: map<Id, Answer> := map[];
    assert PredictedAnswers(t, p, ss[..0]) == map[];
    hide *;
    for k := 0 to |ss|
      invariant answers == PredictedAnswers(t, p, ss[..k])
    {
      PredictedAnswersNext(t, p, ss, k);
      if ss[k].provider.Some? {
        var a := AnswerNow(registry, ss[k].provider.value, identities, reused);
        answers := answers[ss[k].provider.value := a];
      }
    }
    assert ss[..|ss|] == ss;
    identity := BuildSemanticIdentity(entry, ss, answers);
  }

  method AnswerNow(registry: PluginRegistry, q: Id, identities: map<Id, SemanticIdentity>, reused: map<Id, bool>)
    returns (a: Answer)
    ensures a == PredictedAnswer(registry.View(), Prediction(identities, reused), q)
  {
    var i := registry.InstanceOf(q);
    var digest :=
      if q in identities then Some(identities[q].IdentityDigest())
      else if i.Some? && i.value.identity.Some? then Some(i.value.identity.value.IdentityDigest())
      else None;
    var instance :=
      if q in reused && !reused[q] then Some(PendingId(q))
      else if i.Some? then Some(i.value.id) else None;
    a := Answer(instance, digest);
  }

  lemma PredictedAnswersNext(t: Tables, p: Prediction, ss: seq<Selection>, k: nat)
    requires k < |ss|
    ensures PredictedAnswers(t, p, ss[..k + 1]) ==
      if ss[k].provider.None? then PredictedAnswers(t, p, ss[..k])
      else PredictedAnswers(t, p, ss[..k])[ss[k].provider.value := PredictedAnswer(t, p, ss[k].provider.value)]
  {
    ProvidersOfNext(ss, k);
    hide ProvidersOf, PredictedAnswer;
  }

  // ---- The simulation

  /** The actual answer and the predicted one: equal, or a new instance standing where the dry
      run has its stand-in, with the same behaviour. */
  predicate Alike(t: Tables, actual: Answer, predicted: Answer) {
    || actual == predicted
    || (actual.identity == predicted.identity && actual.instance.Some? && predicted.instance.Some?
        && actual.instance.value !in t.issued && predicted.instance.value !in t.issued)
  }

  lemma PendingIsNotIssued(t: Tables, q: Id)
    requires Consistent(t)
    ensures PendingId(q) !in t.issued
  {
    assert PendingId(q)[1] == 'e' && "plugin_"[1] == 'l';
    assert !IsInstanceId(PendingId(q));
  }

  /** Against such answers an identity recorded earlier compares the same way. */
  lemma SameVerdict(t: Tables, entry: Entry, ss: seq<Selection>, actual: map<Id, Answer>, predicted: map<Id, Answer>, i: SemanticIdentity)
    requires Answered(ss, actual) && Answered(ss, predicted)
    requires forall q :: q in ProvidersOf(ss) ==> q in actual && q in predicted && Alike(t, actual[q], predicted[q])
    requires BindsIssued(i, t.issued)
    ensures i == IdentityOf(entry, ss, actual) <==> i == IdentityOf(entry, ss, predicted)
  {
    var sorted := SortSelections(ss);
    var x, y := IdentityOf(entry, ss, actual), IdentityOf(entry, ss, predicted);
    forall k | 0 <= k < |sorted| ensures x.bindings[k].Key() == y.bindings[k].Key() {
      assert sorted[k] in sorted;
      assert sorted[k].provider.Some? ==> sorted[k].provider.value in ProvidersOf(ss);
    }
    assert KeysOf(x.bindings) == KeysOf(y.bindings);
    if i == x || i == y {
      forall k | 0 <= k < |sorted| ensures x.bindings[k] == y.bindings[k] {
        assert sorted[k] in sorted && i.bindings[k] in i.bindings;
        assert sorted[k].provider.Some? ==> sorted[k].provider.value in ProvidersOf(ss);
      }
      assert x.bindings == y.bindings;
    }
  }

  lemma SameDigest(t: Tables, entry: Entry, ss: seq<Selection>, actual: map<Id, Answer>, predicted: map<Id, Answer>)
    requires Answered(ss, actual) && Answered(ss, predicted)
    requires forall q :: q in ProvidersOf(ss) ==> q in actual && q in predicted && Alike(t, actual[q], predicted[q])
    ensures IdentityOf(entry, ss, actual).IdentityDigest() == IdentityOf(entry, ss, predicted).IdentityDigest()
  {
    forall s | s in ss && s.provider.Some? ensures actual[s.provider.value].identity == predicted[s.provider.value].identity {
      assert s.provider.value in ProvidersOf(ss);
    }
    DigestIgnoresInstances(entry, ss, actual, predicted);
  }

  /** The loop and the dry run, side by side. */
  ghost predicate InStep(t: Tables, outcomes: map<Id, Outcome>, p: Progress, d: Prediction, done: set<Id>) {
    && Consistent(t) && Consistent(p.tables) && t.issued <= p.tables.issued
    && p.identities.Keys == d.identities.Keys == d.reused.Keys == done
    && (forall e :: e in done ==> Matched(t, outcomes, p, d, e))
    && (forall e :: e !in done ==> p.tables.InstanceFor(e) == t.InstanceFor(e))
    && (forall i :: i in p.mounted ==> i.entry in done && i.entry in outcomes && i.id == outcomes[i.entry].id)
    && (forall id :: id in p.tables.issued - t.issued ==> exists i :: i in p.mounted && i.id == id)
  }

  ghost predicate Matched(t: Tables, outcomes: map<Id, Outcome>, p: Progress, d: Prediction, e: Id)
  {
    && e in p.identities && e in d.identities && e in d.reused
    && p.identities[e].IdentityDigest() == d.identities[e].IdentityDigest()
    && (d.reused[e] <==> !p.Mounted(e))
    && (p.Mounted(e) ==> e in outcomes && p.tables.InstanceFor(e).Some? && p.tables.InstanceFor(e).value.id == outcomes[e].id)
    && (!p.Mounted(e) ==> p.tables.InstanceFor(e) == t.InstanceFor(e))
  }

  lemma AnswersAlike(t: Tables, outcomes: map<Id, Outcome>, p: Progress, d: Prediction, done: set<Id>, q: Id)
    requires InStep(t, outcomes, p, d, done) && Fresh(outcomes, t.issued)
    ensures Alike(t, AnswerFor(p.tables, p.identities, q), PredictedAnswer(t, d, q))
  {
    PendingIsNotIssued(t, q);
    hide Consistent, Tables.InstanceFor, Progress.Mounted;
    assert q in done ==> Matched(t, outcomes, p, d, q);
  }

  /** At each entry the dry run decides as the loop does, and gets an identity of the same digest. */
  lemma SameDecision(t: Tables, outcomes: map<Id, Outcome>, entry: Entry, ss: seq<Selection>, p: Progress, d: Prediction, done: set<Id>)
    requires InStep(t, outcomes, p, d, done) && Fresh(outcomes, t.issued) && entry.id !in done
    ensures Identified(entry, ss, p).IdentityDigest() == IdentityOf(entry, ss, PredictedAnswers(t, d, ss)).IdentityDigest()
    ensures Reusable(p.tables.InstanceFor(entry.id), entry.revision, Identified(entry, ss, p))
       <==> Reusable(t.InstanceFor(entry.id), entry.revision, IdentityOf(entry, ss, PredictedAnswers(t, d, ss)))
  {
    var actual, predicted := Answers(p.tables, p.identities, ss), PredictedAnswers(t, d, ss);
    forall q | q in ProvidersOf(ss) ensures q in actual && q in predicted && Alike(t, actual[q], predicted[q]) {
      AnswersAlike(t, outcomes, p, d, done, q);
    }
    SameDigest(t, entry, ss, actual, predicted);
    var existing := t.InstanceFor(entry.id);
    assert p.tables.InstanceFor(entry.id) == existing;
    if existing.Some? && existing.value.identity.Some? {
      InstanceForFacts(t, entry.id);
      hide Consistent, InStep, Alike, Answers, PredictedAnswers, Fresh;
      SameVerdict(t, entry, ss, actual, predicted, existing.value.identity.value);
    }
  }

  lemma CaptureIsRecorded(t: Tables, entry: Entry, ss: seq<Selection>, identities: map<Id, SemanticIdentity>, s: Selection)
    requires s in ss && s.provider.Some? && t.InstanceFor(s.provider.value).Some?
    ensures RecordsSome(IdentityOf(entry, ss, Answers(t, identities, ss)), s.requirement.name, t.InstanceFor(s.provider.value).value.id)
  {
    AnswerOf(t, identities, ss, entry, s);
    hide IdentityOf, Answers, Tables.InstanceFor, Bind;
    BoundTo(entry, ss, Answers(t, identities, ss), s);
  }

  predicate RecordsSome(i: SemanticIdentity, capability: Id, instance: Id) {
    exists k :: 0 <= k < |i.bindings| && i.bindings[k].capability == capability
                && i.bindings[k].provider.Some? && i.bindings[k].providerInstance == Some(instance)
  }

  lemma CapturedSelection(t: Tables, ss: seq<Selection>, c: Id) returns (s: Selection)
    requires c in Captured(t, ss)
    ensures s in ss && s.requirement.name == c && s.provider.Some? && s.provider.value in ProvidersOf(ss)
    ensures t.InstanceFor(s.provider.value).Some? && Captured(t, ss)[c] == t.InstanceFor(s.provider.value).value.id
  {
    CapturedFrom(t, ss, c);
    s :| s in ss && s.requirement.name == c && Captures(t, s) && Captured(t, ss)[c] == t.InstanceFor(s.provider.value).value.id;
  }

  /** With no entry providing for itself, a mount captures what its identity records. */
  lemma CapturedIsBound(t: Tables, entry: Entry, ss: seq<Selection>, identities: map<Id, SemanticIdentity>, i: Instance)
    requires Consistent(t) && entry.id !in ProvidersOf(ss)
    requires i.identity == Some(IdentityOf(entry, ss, Answers(t, identities, ss)))
    requires i.resolved == Captured(Cleared(t, t.InstanceFor(entry.id)), ss)
    ensures CapturedAsBound(i)
  {
    hide *;
    var cleared := Cleared(t, t.InstanceFor(entry.id));
    ClearedFacts(t, entry.id);
    forall c | c in i.resolved ensures RecordsSome(i.identity.value, c, i.resolved[c]) {
      var s := CapturedSelection(cleared, ss, c);
      CaptureIsRecorded(t, entry, ss, identities, s);
    }
    RecordedIsBound(i);
  }

  lemma RecordedIsBound(i: Instance)
    requires i.identity.Some? && forall c :: c in i.resolved ==> RecordsSome(i.identity.value, c, i.resolved[c])
    ensures CapturedAsBound(i)
  {
  }

  /** Handling one more entry leaves the entries handled before as they were. */
  lemma MatchedStays(t: Tables, outcomes: map<Id, Outcome>, p: Progress, d: Prediction, q: Progress, f: Prediction, x: Id, e: Id)
    requires Matched(t, outcomes, p, d, x) && x != e
    requires forall i :: i in q.mounted <==> i in p.mounted || (i in q.mounted && i.entry == e)
    requires x in q.identities && q.identities[x] == p.identities[x]
    requires x in f.identities && f.identities[x] == d.identities[x]
    requires x in f.reused && f.reused[x] == d.reused[x]
    requires q.tables.InstanceFor(x) == p.tables.InstanceFor(x)
    ensures Matched(t, outcomes, q, f, x)
  {
    hide Tables.InstanceFor;
  }

  lemma StepInStep(t: Tables, outcomes: map<Id, Outcome>, entry: Entry, ss: seq<Selection>, p: Progress, d: Prediction, done: set<Id>)
    requires InStep(t, outcomes, p, d, done) && Fresh(outcomes, t.issued) && entry.id !in done && entry.id in outcomes
    requires entry.id !in ProvidersOf(ss) && !Step(entry, ss, outcomes[entry.id], p).failed && !p.failed
    ensures InStep(t, outcomes, Step(entry, ss, outcomes[entry.id], p), Predict(t, entry, ss, d), done + {entry.id})
    ensures Predict(t, entry, ss, d).reused[entry.id] <==> !Step(entry, ss, outcomes[entry.id], p).Mounted(entry.id)
  {
    var e := entry.id;
    SameDecision(t, outcomes, entry, ss, p, d, done);
    if Reusable(p.tables.InstanceFor(e), entry.revision, Identified(entry, ss, p)) {
      KeptInStep(t, outcomes, entry, ss, p, d, done);
    } else {
      MountedInStep(t, outcomes, entry, ss, p, d, done);
    }
  }

  lemma KeptInStep(t: Tables, outcomes: map<Id, Outcome>, entry: Entry, ss: seq<Selection>, p: Progress, d: Prediction, done: set<Id>)
    requires InStep(t, outcomes, p, d, done) && entry.id !in done
    requires Identified(entry, ss, p).IdentityDigest() == IdentityOf(entry, ss, PredictedAnswers(t, d, ss)).IdentityDigest()
    requires Reusable(p.tables.InstanceFor(entry.id), entry.revision, Identified(entry, ss, p))
    requires Reusable(t.InstanceFor(entry.id), entry.revision, IdentityOf(entry, ss, PredictedAnswers(t, d, ss)))
    ensures InStep(t, outcomes, Step(entry, ss, Outcome("", false, {}), p), Predict(t, entry, ss, d), done + {entry.id})
    ensures Predict(t, entry, ss, d).reused[entry.id] && !Step(entry, ss, Outcome("", false, {}), p).Mounted(entry.id)
  {
    var e := entry.id;
    var n := Identified(entry, ss, p);
    var q, f := Step(entry, ss, Outcome("", false, {}), p), Predict(t, entry, ss, d);
    assert q == p.(ordered := p.ordered + [p.tables.InstanceFor(e).value], identities := p.identities[e := n]);
    var m := IdentityOf(entry, ss, PredictedAnswers(t, d, ss));
    assert f == Prediction(d.identities[e := m], d.reused[e := true]);
    assert !q.Mounted(e);
    hide Reusable, Step, Predict, Tables.InstanceFor, IdentityOf, Identified, PredictedAnswers, Progress.Mounted;
    KeepInStep(t, outcomes, p, d, q, f, done, e, n, m);
  }

  lemma KeepInStep(t: Tables, outcomes: map<Id, Outcome>, p: Progress, d: Prediction, q: Progress, f: Prediction,
                   done: set<Id>, e: Id, n: SemanticIdentity, m: SemanticIdentity)
    requires InStep(t, outcomes, p, d, done) && e !in done && n.IdentityDigest() == m.IdentityDigest()
    requires q.tables == p.tables && q.mounted == p.mounted && q.identities == p.identities[e := n]
    requires f == Prediction(d.identities[e := m], d.reused[e := true]) && !q.Mounted(e)
    ensures InStep(t, outcomes, q, f, done + {e})
  {
    hide Consistent, Tables.InstanceFor, SemanticIdentity.IdentityDigest;
    var before, after := done, done + {e};
    assert Matched(t, outcomes, q, f, e);
    assert forall x :: x in before ==> Matched(t, outcomes, p, d, x);
    hide InStep;
    forall x | x in after ensures Matched(t, outcomes, q, f, x) {
      if x != e {
        MatchedStays(t, outcomes, p, d, q, f, x, e);
      }
    }
    KeptAssembled(t, outcomes, p, d, q, f, done, e);
  }

  lemma KeptAssembled(t: Tables, outcomes: map<Id, Outcome>, p: Progress, d: Prediction, q: Progress, f: Prediction,
                      done: set<Id>, e: Id)
    requires InStep(t, outcomes, p, d, done) && e !in done
    requires q.tables == p.tables && q.mounted == p.mounted
    requires q.identities.Keys == f.identities.Keys == f.reused.Keys == done + {e}
    requires forall x :: x in done + {e} ==> Matched(t, outcomes, q, f, x)
    ensures InStep(t, outcomes, q, f, done + {e})
  {
    hide Consistent, Tables.InstanceFor, Matched;
  }

  lemma MountedInStep(t: Tables, outcomes: map<Id, Outcome>, entry: Entry, ss: seq<Selection>, p: Progress, d: Prediction, done: set<Id>)
    requires InStep(t, outcomes, p, d, done) && Fresh(outcomes, t.issued) && entry.id !in done && entry.id in outcomes
    requires entry.id !in ProvidersOf(ss) && outcomes[entry.id].ok && !p.failed
    requires Identified(entry, ss, p).IdentityDigest() == IdentityOf(entry, ss, PredictedAnswers(t, d, ss)).IdentityDigest()
    requires !Reusable(p.tables.InstanceFor(entry.id), entry.revision, Identified(entry, ss, p))
    requires !Reusable(t.InstanceFor(entry.id), entry.revision, IdentityOf(entry, ss, PredictedAnswers(t, d, ss)))
    ensures InStep(t, outcomes, Step(entry, ss, outcomes[entry.id], p), Predict(t, entry, ss, d), done + {entry.id})
    ensures !Predict(t, entry, ss, d).reused[entry.id] && Step(entry, ss, outcomes[entry.id], p).Mounted(entry.id)
  {
    var e := entry.id;
    var q, f := Step(entry, ss, outcomes[e], p), Predict(t, entry, ss, d);
    var cleared := Cleared(p.tables, p.tables.InstanceFor(e));
    var i := Instance(outcomes[e].id, e, entry.revision, Active, Some(Identified(entry, ss, p)), Captured(cleared, ss));
    assert q == Progress(cleared.Added(i, outcomes[e].offers), p.identities[e := Identified(entry, ss, p)], p.ordered + [i], p.mounted + [i], false);
    assert i in q.mounted && q.Mounted(e);
    var m := IdentityOf(entry, ss, PredictedAnswers(t, d, ss));
    assert f == Prediction(d.identities[e := m], d.reused[e := false]);
    MountableInStep(t, outcomes, entry, ss, p, d, done, cleared, i);
    hide *;
    AddInStep(t, outcomes, p, d, q, f, done, i, m);
  }

  lemma MountableInStep(t: Tables, outcomes: map<Id, Outcome>, entry: Entry, ss: seq<Selection>, p: Progress, d: Prediction,
                        done: set<Id>, cleared: Tables, i: Instance)
    requires InStep(t, outcomes, p, d, done) && Fresh(outcomes, t.issued) && entry.id !in done && entry.id in outcomes
    requires entry.id !in ProvidersOf(ss) && cleared == Cleared(p.tables, p.tables.InstanceFor(entry.id))
    requires i == Instance(outcomes[entry.id].id, entry.id, entry.revision, Active, Some(Identified(entry, ss, p)), Captured(cleared, ss))
    ensures var u := cleared.Added(i, outcomes[entry.id].offers);
      && Consistent(u) && u.issued == p.tables.issued + {i.id} && u.InstanceFor(entry.id) == Some(i)
      && forall x :: x != entry.id ==> u.InstanceFor(x) == p.tables.InstanceFor(x)
  {
    assert outcomes[entry.id].id !in p.tables.issued by {
      assert forall x :: x in p.mounted ==> x.id != outcomes[entry.id].id;
      assert outcomes[entry.id].id !in p.tables.issued - t.issued;
    }
    hide InStep, Captured, Cleared, CapturedAsBound, Consistent, WellFormed, BindsIssued, Tables.InstanceFor, ProvidersOf;
    ClearedFacts(p.tables, entry.id);
    CapturedIsBound(p.tables, entry, ss, p.identities, i);
    AnswersAreIssued(p.tables, p.identities, ss, entry);
    AddedStaysConsistent(cleared, i, outcomes[entry.id].offers);
  }

  lemma AddInStep(t: Tables, outcomes: map<Id, Outcome>, p: Progress, d: Prediction, q: Progress, f: Prediction,
                  done: set<Id>, i: Instance, m: SemanticIdentity)
    requires InStep(t, outcomes, p, d, done) && i.entry !in done
    requires i.entry in outcomes && i.id == outcomes[i.entry].id && i.identity.Some?
    requires i.identity.value.IdentityDigest() == m.IdentityDigest()
    requires q.identities == p.identities[i.entry := i.identity.value] && q.mounted == p.mounted + [i]
    requires f == Prediction(d.identities[i.entry := m], d.reused[i.entry := false])
    requires Consistent(q.tables) && q.tables.issued == p.tables.issued + {i.id}
    requires q.tables.InstanceFor(i.entry) == Some(i)
    requires forall x :: x != i.entry ==> q.tables.InstanceFor(x) == p.tables.InstanceFor(x)
    ensures InStep(t, outcomes, q, f, done + {i.entry})
  {
    hide Consistent, Tables.InstanceFor, SemanticIdentity.IdentityDigest, Matched, Progress.Mounted;
    IssuedOneMore(t.issued, p.tables.issued, p.mounted, i);
    AllMatched(t, outcomes, p, d, q, f, done, i, m);
  }

  lemma AllMatched(t: Tables, outcomes: map<Id, Outcome>, p: Progress, d: Prediction, q: Progress, f: Prediction,
                   done: set<Id>, i: Instance, m: SemanticIdentity)
    requires i.entry !in done && forall x :: x in done ==> Matched(t, outcomes, p, d, x)
    requires i.entry in outcomes && i.id == outcomes[i.entry].id && i.identity.Some?
    requires i.identity.value.IdentityDigest() == m.IdentityDigest()
    requires q.identities == p.identities[i.entry := i.identity.value] && q.mounted == p.mounted + [i]
    requires f == Prediction(d.identities[i.entry := m], d.reused[i.entry := false])
    requires q.tables.InstanceFor(i.entry) == Some(i)
    requires forall x :: x != i.entry ==> q.tables.InstanceFor(x) == p.tables.InstanceFor(x)
    ensures forall x :: x in done + {i.entry} ==> Matched(t, outcomes, q, f, x)
  {
    hide Tables.InstanceFor, SemanticIdentity.IdentityDigest;
    assert i in q.mounted;
    assert Matched(t, outcomes, q, f, i.entry);
    forall x | x in done ensures Matched(t, outcomes, q, f, x) {
      assert Matched(t, outcomes, p, d, x);
      MatchedStays(t, outcomes, p, d, q, f, x, i.entry);
    }
  }

  // ---- The whole loop

  /** No order on providers is asked for; only that none provides for itself. */
  ghost predicate Previewable(plan: Agenda, entries: map<Id, Entry>, outcomes: map<Id, Outcome>, t: Tables) {
    && Distinct(plan.order) && Consistent(t) && Fresh(outcomes, t.issued)
    && (forall e :: e in plan.order ==> e in outcomes && e !in ProvidersOf(plan.SelectionsOf(e)))
    && (forall e :: e in plan.order && e in entries ==> entries[e].id == e)
  }

  function Done(plan: Agenda, entries: map<Id, Entry>, k: nat): set<Id>
    requires k <= |plan.order|
  {
    set e | e in plan.order[..k] && e in entries
  }

  lemma DoneNext(plan: Agenda, entries: map<Id, Entry>, k: nat)
    requires k < |plan.order| && Distinct(plan.order)
    ensures plan.order[k] in plan.order && plan.order[k] !in Done(plan, entries, k)
    ensures Done(plan, entries, k + 1) == Done(plan, entries, k) + if plan.order[k] in entries then {plan.order[k]} else {}
  {
    assert plan.order[..k + 1] == plan.order[..k] + [plan.order[k]];
  }

  lemma InStepAtStart(t: Tables, outcomes: map<Id, Outcome>)
    requires Consistent(t)
    ensures InStep(t, outcomes, Progress(t, map[], [], [], false), Prediction(map[], map[]), {})
  {
  }

  lemma {:induction false} InStepAfter(plan: Agenda, entries: map<Id, Entry>, outcomes: map<Id, Outcome>, t: Tables, k: nat)
    requires Previewable(plan, entries, outcomes, t) && k <= |plan.order|
    requires !After(plan, entries, outcomes, t, k).failed
    ensures InStep(t, outcomes, After(plan, entries, outcomes, t, k), Predicted(plan, entries, t, k), Done(plan, entries, k))
  {
    hide Step, Predict, InStep, Consistent, Fresh, Done, ProvidersOf;
    if k == 0 {
      InStepAtStart(t, outcomes);
      assert Done(plan, entries, 0) == {} by { NothingDone(plan, entries); }
    } else {
      var e := plan.order[k - 1];
      DoneNext(plan, entries, k - 1);
      assert !After(plan, entries, outcomes, t, k - 1).failed;
      InStepAfter(plan, entries, outcomes, t, k - 1);
      if e in entries {
        StepInStep(t, outcomes, entries[e], plan.SelectionsOf(e), After(plan, entries, outcomes, t, k - 1),
                   Predicted(plan, entries, t, k - 1), Done(plan, entries, k - 1));
      } else {
        assert Done(plan, entries, k) == Done(plan, entries, k - 1);
      }
    }
  }

  lemma NothingDone(plan: Agenda, entries: map<Id, Entry>)
    ensures Done(plan, entries, 0) == {}
  {
  }

  /** The dry run predicts reuse for an entry exactly when the run that follows mounts nothing
      for it, whatever the order of the plan. */
  lemma PredictionIsExact(plan: Agenda, entries: map<Id, Entry>, outcomes: map<Id, Outcome>, t: Tables)
    requires Previewable(plan, entries, outcomes, t)
    requires !After(plan, entries, outcomes, t, |plan.order|).failed
    ensures forall e :: e in plan.order && e in entries ==>
      e in Predicted(plan, entries, t, |plan.order|).reused &&
      (Predicted(plan, entries, t, |plan.order|).reused[e] <==> !After(plan, entries, outcomes, t, |plan.order|).Mounted(e))
  {
    hide After, Predicted, Consistent, Fresh, Tables.InstanceFor;
    InStepAfter(plan, entries, outcomes, t, |plan.order|);
    assert plan.order[..|plan.order|] == plan.order;
    var p, d := After(plan, entries, outcomes, t, |plan.order|), Predicted(plan, entries, t, |plan.order|);
    forall e | e in plan.order && e in entries ensures Matched(t, outcomes, p, d, e) {
      assert e in Done(plan, entries, |plan.order|);
    }
  }
}
