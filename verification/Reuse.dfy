/** Materialization: carry an instance into the next generation or mount a new one, entry by
    entry in activation order. */
module Reuse {
  import opened Wrappers
  import opened Ordering
  import opened Keys
  import opened Resolver
  import opened Identity
  import opened Registry

  /** What materialization reads of a resolution plan. */
  datatype Agenda = Agenda(order: seq<Id>, selections: map<Id, seq<Selection>>)
  {
    function SelectionsOf(e: Id): seq<Selection> {
      if e in selections then selections[e] else []
    }
  }

  function ProvidersOf(ss: seq<Selection>): set<Id> {
    set s | s in ss && s.provider.Some? :: s.provider.value
  }

  lemma ProvidersOfNext(ss: seq<Selection>, k: nat)
    requires k < |ss|
    ensures ss[..k + 1] == ss[..k] + [ss[k]]
    ensures ProvidersOf(ss[..k + 1]) == ProvidersOf(ss[..k]) + if ss[k].provider.Some? then {ss[k].provider.value} else {}
  {
    assert ss[..k + 1] == ss[..k] + [ss[k]];
  }

  // ---- What the control plane answers

  function AnswerFor(t: Tables, identities: map<Id, SemanticIdentity>, p: Id): Answer {
    var i := t.InstanceFor(p);
    Answer(if i.Some? then Some(i.value.id) else None,
           if p in identities then Some(identities[p].IdentityDigest())
           else if i.Some? && i.value.identity.Some? then Some(i.value.identity.value.IdentityDigest())
           else None)
  }

  function Answers(t: Tables, identities: map<Id, SemanticIdentity>, ss: seq<Selection>): (r: map<Id, Answer>)
    ensures Answered(ss, r)
  {
    map p | p in ProvidersOf(ss) :: AnswerFor(t, identities, p)
  }

  /** A satisfied requirement is captured when the instance now behind its provider has a live
      registration the requirement accepts. */
  predicate Captures(t: Tables, s: Selection) {
    && s.status == Status.Resolved && s.provider.Some?
    && var i := t.InstanceFor(s.provider.value);
       i.Some? && exists l :: l in t.live && l.provider == i.value.id && Accepts(s.requirement, l.key, l.version)
  }

  function Captured(t: Tables, ss: seq<Selection>): map<Id, Id> {
    if ss == [] then map[]
    else
      var n := |ss| - 1;
      var r := Captured(t, ss[..n]);
      if Captures(t, ss[n]) then r[ss[n].requirement.name := t.InstanceFor(ss[n].provider.value).value.id] else r
  }

  lemma {:induction false} CapturedFrom(t: Tables, ss: seq<Selection>, c: Id)
    requires c in Captured(t, ss)
    ensures exists s :: s in ss && s.requirement.name == c && Captures(t, s) &&
                        Captured(t, ss)[c] == t.InstanceFor(s.provider.value).value.id
    decreases |ss|
  {
    hide Captures, Tables.InstanceFor;
    var n := |ss| - 1;
    CapturedUnfolds(t, ss);
    if !(Captures(t, ss[n]) && ss[n].requirement.name == c) {
      CapturedFrom(t, ss[..n], c);
    } else {
      assert ss[n] in ss;
    }
  }

  /** `id` is the newest instance of the selected provider and has a live registration that the
      requirement accepts. */
  ghost predicate Serving(t: Tables, s: Selection, id: Id) {
    && s.status == Status.Resolved && s.provider.Some?
    && s.provider.value in t.byEntry && t.byEntry[s.provider.value] != []
    && t.byEntry[s.provider.value][|t.byEntry[s.provider.value]| - 1] == id
    && id in t.instances && t.instances[id].id == id
    && exists l :: l in t.live && l.provider == id && Accepts(s.requirement, l.key, l.version)
  }

  ghost predicate Served(t: Tables, s: Selection) {
    exists id :: Serving(t, s, id)
  }

  /** Of several selections for one name the last that is served counts. */
  ghost predicate LastServed(t: Tables, ss: seq<Selection>, k: nat)
    requires k < |ss|
  {
    Served(t, ss[k]) && forall j :: k < j < |ss| && Served(t, ss[j]) ==> ss[j].requirement.name != ss[k].requirement.name
  }

  ghost predicate FiledById(t: Tables) {
    forall id :: id in t.instances ==> t.instances[id].id == id
  }

  lemma ServedIffCaptured(t: Tables, s: Selection)
    requires FiledById(t)
    ensures Captures(t, s) <==> Served(t, s)
    ensures forall id :: Serving(t, s, id) ==>
      Captures(t, s) && s.provider.Some? && t.InstanceFor(s.provider.value).Some? && t.InstanceFor(s.provider.value).value.id == id
    ensures Captures(t, s) ==>
      s.provider.Some? && t.InstanceFor(s.provider.value).Some? && Serving(t, s, t.InstanceFor(s.provider.value).value.id)
  {
    hide Accepts;
    if Captures(t, s) {
      assert Serving(t, s, t.InstanceFor(s.provider.value).value.id);
    }
  }

  lemma CapturedUnfolds(t: Tables, ss: seq<Selection>)
    requires ss != []
    ensures var s, front := ss[|ss| - 1], Captured(t, ss[..|ss| - 1]);
      && (Captures(t, s) ==> s.provider.Some? && t.InstanceFor(s.provider.value).Some?)
      && Captured(t, ss) == if Captures(t, s) then front[s.requirement.name := t.InstanceFor(s.provider.value).value.id] else front
  {
  }

  /** Every selection that is served is captured, each name by the instance serving it last. */
  lemma {:induction false} ServedAreCaptured(t: Tables, ss: seq<Selection>, k: nat, id: Id)
    requires FiledById(t) && k < |ss| && Serving(t, ss[k], id)
    ensures ss[k].requirement.name in Captured(t, ss)
    ensures LastServed(t, ss, k) ==> Captured(t, ss)[ss[k].requirement.name] == id
    decreases |ss|
  {
    hide Serving, Captures, Served, FiledById, Captured, Tables.InstanceFor;
    var n, front := |ss| - 1, ss[..|ss| - 1];
    CapturedUnfolds(t, ss);
    ServedIffCaptured(t, ss[n]);
    if k < n {
      assert front[k] == ss[k];
      ServedAreCaptured(t, front, k, id);
      hide LastServed;
      LastInFront(t, ss, k);
    }
  }

  lemma LastInFront(t: Tables, ss: seq<Selection>, k: nat)
    requires k < |ss| - 1
    ensures ss[..|ss| - 1][k] == ss[k]
    ensures LastServed(t, ss, k) <==>
      LastServed(t, ss[..|ss| - 1], k) && (Served(t, ss[|ss| - 1]) ==> ss[|ss| - 1].requirement.name != ss[k].requirement.name)
  {
    hide Served;
    var front := ss[..|ss| - 1];
    assert forall j :: 0 <= j < |front| ==> front[j] == ss[j];
  }

  lemma LastAtEnd(t: Tables, ss: seq<Selection>)
    requires ss != [] && Served(t, ss[|ss| - 1])
    ensures LastServed(t, ss, |ss| - 1)
  {
    hide Served;
  }

  /** And nothing else is. */
  lemma {:induction false} CapturedAreServed(t: Tables, ss: seq<Selection>, c: Id) returns (k: nat)
    requires FiledById(t) && c in Captured(t, ss)
    ensures k < |ss| && ss[k].requirement.name == c && LastServed(t, ss, k) && Serving(t, ss[k], Captured(t, ss)[c])
    decreases |ss|
  {
    assert ss != [];
    hide *;
    var n, front := |ss| - 1, ss[..|ss| - 1];
    CapturedUnfolds(t, ss);
    ServedIffCaptured(t, ss[n]);
    if Captures(t, ss[n]) && ss[n].requirement.name == c {
      k := n;
      LastAtEnd(t, ss);
    } else {
      k := CapturedAreServed(t, front, c);
      LastInFront(t, ss, k);
    }
  }

  lemma CapturedMeans(t: Tables, ss: seq<Selection>)
    requires FiledById(t)
    ensures forall k, id :: 0 <= k < |ss| && Serving(t, ss[k], id) ==> ss[k].requirement.name in Captured(t, ss)
    ensures forall k, id :: 0 <= k < |ss| && Serving(t, ss[k], id) && LastServed(t, ss, k) ==>
      Captured(t, ss)[ss[k].requirement.name] == id
    ensures forall c :: c in Captured(t, ss) ==>
      exists k :: 0 <= k < |ss| && ss[k].requirement.name == c && LastServed(t, ss, k) && Serving(t, ss[k], Captured(t, ss)[c])
  {
    hide *;
    forall k, id | 0 <= k < |ss| && Serving(t, ss[k], id)
      ensures ss[k].requirement.name in Captured(t, ss)
      ensures LastServed(t, ss, k) ==> Captured(t, ss)[ss[k].requirement.name] == id
    {
      ServedAreCaptured(t, ss, k, id);
    }
    forall c | c in Captured(t, ss)
      ensures exists k :: 0 <= k < |ss| && ss[k].requirement.name == c && LastServed(t, ss, k) && Serving(t, ss[k], Captured(t, ss)[c])
    {
      var k := CapturedAreServed(t, ss, c);
    }
  }

  // ---- The loop, as a function of how many entries were handled

  datatype Progress = Progress(
    tables: Tables,
    identities: map<Id, SemanticIdentity>,
    ordered: seq<Instance>,
    mounted: seq<Instance>,
    failed: bool)
  {
    /** Whether this call has mounted a new instance for the entry. */
    predicate Mounted(e: Id) {
      exists i :: i in mounted && i.entry == e
    }
  }

  predicate Reusable(existing: Option<Instance>, revision: nat, identity: SemanticIdentity) {
    && existing.Some? && existing.value.state == Active
    && existing.value.revision == revision && existing.value.identity == Some(identity)
  }

  function Cleared(t: Tables, existing: Option<Instance>): Tables {
    if existing.Some? && existing.value.state == Failed then t.Forgotten(existing.value.id) else t
  }

  function Step(entry: Entry, ss: seq<Selection>, o: Outcome, p: Progress): Progress {
    var existing := p.tables.InstanceFor(entry.id);
    var identity := IdentityOf(entry, ss, Answers(p.tables, p.identities, ss));
    if Reusable(existing, entry.revision, identity)
    then p.(ordered := p.ordered + [existing.value], identities := p.identities[entry.id := identity])
    else
      var cleared := Cleared(p.tables, existing);
      var resolved := Captured(cleared, ss);
      if o.ok then
        var i := Instance(o.id, entry.id, entry.revision, Active, Some(identity), resolved);
        Progress(cleared.Added(i, o.offers), p.identities[entry.id := identity], p.ordered + [i], p.mounted + [i], false)
      else
        var i := Instance(o.id, entry.id, entry.revision, Failed, None, resolved);
        p.(tables := cleared.Added(i, {}), failed := true)
  }

  /** After `k` entries of the order; an entry that is not installed is skipped, and a failed
      setup ends the loop. */
  function After(plan: Agenda, entries: map<Id, Entry>, outcomes: map<Id, Outcome>, t: Tables, k: nat): Progress
    requires k <= |plan.order|
    requires forall e :: e in plan.order ==> e in outcomes
  {
    if k == 0 then Progress(t, map[], [], [], false)
    else
      var p := After(plan, entries, outcomes, t, k - 1);
      var e := plan.order[k - 1];
      if p.failed || e !in entries then p
      else Step(entries[e], plan.SelectionsOf(e), outcomes[e], p)
  }

  // ---- Hypotheses

  /** Every provider a plan selected comes before its consumer. */
  ghost predicate ProvidersFirst(plan: Agenda) {
    && Distinct(plan.order)
    && forall k :: 0 <= k < |plan.order| ==> ProvidersOf(plan.SelectionsOf(plan.order[k])) <= Elements(plan.order[..k])
  }

  ghost predicate Installed(plan: Agenda, entries: map<Id, Entry>) {
    forall e :: e in plan.order ==> e in entries && entries[e].id == e
  }

  /** New instance ids are new, and differ from each other. */
  ghost predicate Fresh(outcomes: map<Id, Outcome>, issued: set<Id>) {
    && (forall e :: e in outcomes ==> IsInstanceId(outcomes[e].id) && outcomes[e].id !in issued)
    && (forall d, e :: d in outcomes && e in outcomes && outcomes[d].id == outcomes[e].id ==> d == e)
  }

  /** What every reconciliation may rely on, whatever the order its plan settled for. */
  ghost predicate Possible(plan: Agenda, entries: map<Id, Entry>, outcomes: map<Id, Outcome>, t: Tables) {
    && Distinct(plan.order) && Installed(plan, entries)
    && (forall e :: e in plan.order ==> e in outcomes)
    && Fresh(outcomes, t.issued)
  }

  ghost predicate Legal(plan: Agenda, entries: map<Id, Entry>, outcomes: map<Id, Outcome>, t: Tables) {
    && ProvidersFirst(plan) && Installed(plan, entries)
    && (forall e :: e in plan.order ==> e in outcomes)
    && Fresh(outcomes, t.issued) && Consistent(t)
  }

  // ---- The invariant of the loop

  /** Every captured provider is one of the instances. */
  ghost predicate BindingClosed(instances: seq<Instance>) {
    forall i, c :: i in instances && c in i.resolved ==> exists j :: j in instances && j.id == i.resolved[c]
  }

  /** An entry that was handled has an active instance, in the candidate and with the identity
      just computed: the one it had before, or a new one. */
  ghost predicate Handled(t: Tables, outcomes: map<Id, Outcome>, p: Progress, e: Id) {
    && e in p.identities && WellFormed(p.identities[e])
    && p.tables.InstanceFor(e).Some?
    && var i := p.tables.InstanceFor(e).value;
       && i in p.ordered && i.state == Active && i.identity == Some(p.identities[e])
       && (p.Mounted(e) ==> e in outcomes && i.id == outcomes[e].id)
       && (!p.Mounted(e) ==> t.InstanceFor(e) == Some(i))
  }

  ghost predicate Sound(t: Tables, outcomes: map<Id, Outcome>, p: Progress, done: seq<Id>) {
    && !p.failed && Consistent(p.tables)
    && t.issued <= p.tables.issued
    && (forall id :: id in p.tables.issued - t.issued ==> exists i :: i in p.mounted && i.id == id)
    && (forall i :: i in p.mounted ==> i.entry in done && i.entry in outcomes && i.id == outcomes[i.entry].id)
    && (forall e :: e in done ==> Handled(t, outcomes, p, e))
    && (forall e :: e !in done ==> e !in p.identities && p.tables.InstanceFor(e) == t.InstanceFor(e))
    && (forall i :: i in p.ordered ==> i.entry in done)
    && BindingClosed(p.ordered)
  }

  /** Answers about providers already handled: their candidate instance and identity. */
  lemma AnswerOfHandled(t: Tables, outcomes: map<Id, Outcome>, p: Progress, e: Id)
    requires Handled(t, outcomes, p, e)
    ensures AnswerFor(p.tables, p.identities, e)
         == Answer(Some(p.tables.InstanceFor(e).value.id), Some(p.identities[e].IdentityDigest()))
    ensures !p.Mounted(e) ==> AnswerFor(p.tables, p.identities, e) == AnswerFor(t, map[], e)
  {
  }

  lemma AnswersAreIssued(t: Tables, identities: map<Id, SemanticIdentity>, ss: seq<Selection>, entry: Entry)
    requires Consistent(t)
    ensures BindsIssued(IdentityOf(entry, ss, Answers(t, identities, ss)), t.issued)
    ensures WellFormed(IdentityOf(entry, ss, Answers(t, identities, ss)))
  {
    hide Consistent, InstanceOk;
    var sorted := SortSelections(ss);
    var answers := Answers(t, identities, ss);
    forall p | p in answers && answers[p].instance.Some? ensures answers[p].instance.value in t.issued {
      IssuedWhenOk(t, p);
    }
    var bindings := BindAll(entry.id, sorted, answers);
    forall b | b in bindings && b.providerInstance.Some? ensures b.providerInstance.value in t.issued {
      var k :| 0 <= k < |bindings| && bindings[k] == b;
      assert sorted[k] in sorted;
    }
  }

  lemma IssuedWhenOk(t: Tables, p: Id)
    requires Consistent(t) && t.InstanceFor(p).Some?
    ensures t.InstanceFor(p).value.id in t.issued
  {
    InstanceForFacts(t, p);
  }

  // ---- One step

  /** What the step needs to know about the entry it handles. */
  ghost predicate Ready(t: Tables, outcomes: map<Id, Outcome>, entry: Entry, ss: seq<Selection>, p: Progress, done: seq<Id>) {
    && Sound(t, outcomes, p, done) && Consistent(t) && Fresh(outcomes, t.issued)
    && entry.id !in done && entry.id in outcomes
    && ProvidersOf(ss) <= Elements(done)
  }

  function Identified(entry: Entry, ss: seq<Selection>, p: Progress): SemanticIdentity {
    IdentityOf(entry, ss, Answers(p.tables, p.identities, ss))
  }

  /** A capture through a handled provider names that provider's candidate instance, and the
      identity records it. */
  lemma CaptureIsBound(t: Tables, outcomes: map<Id, Outcome>, entry: Entry, ss: seq<Selection>, p: Progress,
                       done: seq<Id>, cleared: Tables, c: Id)
    requires Ready(t, outcomes, entry, ss, p, done)
    requires cleared == Cleared(p.tables, p.tables.InstanceFor(entry.id))
    requires c in Captured(cleared, ss)
    ensures exists j :: j in p.ordered && j.id == Captured(cleared, ss)[c]
    ensures var n := Identified(entry, ss, p);
      exists k :: 0 <= k < |n.bindings| && n.bindings[k].capability == c && n.bindings[k].provider.Some?
                  && n.bindings[k].providerInstance == Some(Captured(cleared, ss)[c])
  {
    CapturedFrom(cleared, ss, c);
    var s :| s in ss && s.requirement.name == c && Captures(cleared, s)
      && Captured(cleared, ss)[c] == cleared.InstanceFor(s.provider.value).value.id;
    SelectedProvider(t, outcomes, entry, ss, p, done, s, cleared);
    assert s.provider.Some? && Identified(entry, ss, p) == IdentityOf(entry, ss, Answers(p.tables, p.identities, ss));
    hide *;
    BoundTo(entry, ss, Answers(p.tables, p.identities, ss), s);
    AnswerOf(p.tables, p.identities, ss, entry, s);
  }

  /** A selected provider was handled, and making room for the consumer did not move it. */
  lemma SelectedProvider(t: Tables, outcomes: map<Id, Outcome>, entry: Entry, ss: seq<Selection>, p: Progress,
                         done: seq<Id>, s: Selection, cleared: Tables)
    requires Ready(t, outcomes, entry, ss, p, done) && s in ss && s.provider.Some?
    requires cleared == Cleared(p.tables, p.tables.InstanceFor(entry.id))
    ensures cleared.InstanceFor(s.provider.value) == p.tables.InstanceFor(s.provider.value)
    ensures cleared.InstanceFor(s.provider.value).Some? && cleared.InstanceFor(s.provider.value).value in p.ordered
  {
    var q := s.provider.value;
    assert q in ProvidersOf(ss) && q in done;
    assert Handled(t, outcomes, p, q);
    HandledInstance(t, outcomes, p, q);
    hide Handled, BindingClosed, Consistent, Fresh;
    ClearedFacts(p.tables, entry.id);
  }

  lemma AnswerOf(t: Tables, identities: map<Id, SemanticIdentity>, ss: seq<Selection>, entry: Entry, s: Selection)
    requires s in ss && s.provider.Some? && t.InstanceFor(s.provider.value).Some?
    ensures s.provider.value in Answers(t, identities, ss)
    ensures var b := Bind(entry.id, s, Answers(t, identities, ss));
      b.capability == s.requirement.name && b.provider == s.provider
      && b.providerInstance == Some(t.InstanceFor(s.provider.value).value.id)
  {
    assert s.provider.value in ProvidersOf(ss);
  }

  lemma HandledInstance(t: Tables, outcomes: map<Id, Outcome>, p: Progress, e: Id)
    requires Handled(t, outcomes, p, e)
    ensures p.tables.InstanceFor(e).Some? && p.tables.InstanceFor(e).value in p.ordered
  {
  }

  /** Every selection shows up in the identity as a binding. */
  lemma BoundTo(entry: Entry, ss: seq<Selection>, answers: map<Id, Answer>, s: Selection)
    requires Answered(ss, answers) && s in ss
    ensures exists k :: 0 <= k < |IdentityOf(entry, ss, answers).bindings|
                        && IdentityOf(entry, ss, answers).bindings[k] == Bind(entry.id, s, answers)
  {
    var sorted := SortSelections(ss);
    var k :| 0 <= k < |sorted| && sorted[k] == s;
    assert IdentityOf(entry, ss, answers).bindings[k] == Bind(entry.id, s, answers);
  }

  lemma StepReuses(t: Tables, outcomes: map<Id, Outcome>, entry: Entry, ss: seq<Selection>, p: Progress, done: seq<Id>)
    requires Ready(t, outcomes, entry, ss, p, done)
    requires Reusable(p.tables.InstanceFor(entry.id), entry.revision, Identified(entry, ss, p))
    ensures Sound(t, outcomes, Step(entry, ss, outcomes[entry.id], p), done + [entry.id])
    ensures !Step(entry, ss, outcomes[entry.id], p).Mounted(entry.id)
  {
    var e := entry.id;
    var i := p.tables.InstanceFor(e).value;
    var n := Identified(entry, ss, p);
    var q := Step(entry, ss, outcomes[e], p);
    InstanceForFacts(p.tables, e);
    assert q == p.(ordered := p.ordered + [i], identities := p.identities[e := n]);
    ReusedIsClosed(t, outcomes, entry, ss, p, done);
    assert !q.Mounted(e);
    assert p.tables.InstanceFor(e) == t.InstanceFor(e);
    AnswersAreIssued(p.tables, p.identities, ss, entry);
    ClosedWithOneMore(p.ordered, i);
    ReusedOneMore(t, outcomes, p, q, done, i, n);
    hide *;
  }

  lemma ReusedOneMore(t: Tables, outcomes: map<Id, Outcome>, p: Progress, q: Progress, done: seq<Id>, i: Instance, n: SemanticIdentity)
    requires Sound(t, outcomes, p, done) && i.entry !in done
    requires p.tables.InstanceFor(i.entry) == t.InstanceFor(i.entry) == Some(i)
    requires i.state == Active && i.identity == Some(n) && WellFormed(n) && BindingClosed(q.ordered)
    requires q == p.(ordered := p.ordered + [i], identities := p.identities[i.entry := n])
    ensures Sound(t, outcomes, q, done + [i.entry])
  {
    hide Consistent, BindingClosed, WellFormed, Tables.InstanceFor, Handled, Progress.Mounted;
    assert !p.Mounted(i.entry) by { NotMountedYet(p, done, i.entry); }
    AllHandledStill(t, outcomes, p, q, done, i, n);
  }

  lemma NotMountedYet(p: Progress, done: seq<Id>, e: Id)
    requires e !in done && forall i :: i in p.mounted ==> i.entry in done
    ensures !p.Mounted(e)
  {
  }

  lemma AllHandledStill(t: Tables, outcomes: map<Id, Outcome>, p: Progress, q: Progress, done: seq<Id>, i: Instance, n: SemanticIdentity)
    requires i.entry !in done && !p.Mounted(i.entry) && forall d :: d in done ==> Handled(t, outcomes, p, d)
    requires p.tables.InstanceFor(i.entry) == t.InstanceFor(i.entry) == Some(i)
    requires i.state == Active && i.identity == Some(n) && WellFormed(n)
    requires q == p.(ordered := p.ordered + [i], identities := p.identities[i.entry := n])
    ensures forall d :: d in done + [i.entry] ==> Handled(t, outcomes, q, d)
  {
    hide WellFormed, Tables.InstanceFor;
    assert Handled(t, outcomes, q, i.entry);
    forall d | d in done ensures Handled(t, outcomes, q, d) {
      assert Handled(t, outcomes, p, d);
    }
  }

  /** A reused instance captured nothing but candidates. */
  lemma ReusedIsClosed(t: Tables, outcomes: map<Id, Outcome>, entry: Entry, ss: seq<Selection>, p: Progress, done: seq<Id>)
    requires Ready(t, outcomes, entry, ss, p, done)
    requires Reusable(p.tables.InstanceFor(entry.id), entry.revision, Identified(entry, ss, p))
    ensures var i := p.tables.InstanceFor(entry.id).value;
      forall c :: c in i.resolved ==> exists j :: j in p.ordered && j.id == i.resolved[c]
  {
    var e := entry.id;
    var i := p.tables.InstanceFor(e).value;
    var n := Identified(entry, ss, p);
    InstanceForFacts(p.tables, e);
    hide Consistent, BindingClosed, WellFormed, BindsIssued;
    forall c | c in i.resolved ensures exists j :: j in p.ordered && j.id == i.resolved[c] {
      var k :| 0 <= k < |n.bindings| && n.bindings[k].capability == c && n.bindings[k].provider.Some?
        && n.bindings[k].providerInstance == Some(i.resolved[c]);
      var sorted := SortSelections(ss);
      assert n.bindings[k] == Bind(e, sorted[k], Answers(p.tables, p.identities, ss));
      var provider := sorted[k].provider.value;
      assert sorted[k] in sorted && provider in ProvidersOf(ss);
      assert Handled(t, outcomes, p, provider);
    }
  }

  lemma ClosedWithOneMore(instances: seq<Instance>, i: Instance)
    requires BindingClosed(instances)
    requires forall c :: c in i.resolved ==> exists j :: j in instances && j.id == i.resolved[c]
    ensures BindingClosed(instances + [i])
  {
    forall x, c | x in instances + [i] && c in x.resolved
      ensures exists j :: j in instances + [i] && j.id == x.resolved[c]
    {
      var j :| j in instances && j.id == x.resolved[c];
      assert j in instances + [i];
    }
  }

  /** Making room for a new instance: the failed one of the same entry goes, nothing else moves. */
  lemma ClearedFacts(t: Tables, e: Id)
    requires Consistent(t)
    ensures var u := Cleared(t, t.InstanceFor(e));
      && Consistent(u) && u.issued == t.issued
      && forall d :: d != e ==> u.InstanceFor(d) == t.InstanceFor(d)
  {
    var existing := t.InstanceFor(e);
    if existing.Some? && existing.value.state == Failed {
      InstanceForFacts(t, e);
      var id := existing.value.id;
      ForgottenStaysConsistent(t, id);
      forall d | d != e ensures t.Forgotten(id).InstanceFor(d) == t.InstanceFor(d) {
        if t.InstanceFor(d).Some? { InstanceForFacts(t, d); }
        ForgottenKeepsOthers(t, id, d);
      }
    }
  }

  /** The failed instance a new one of its entry takes the place of. */
  ghost predicate MakesWay(t: Tables, e: Id, id: Id) {
    && e in t.byEntry && t.byEntry[e] != [] && t.byEntry[e][|t.byEntry[e]| - 1] == id
    && id in t.instances && t.instances[id].state == Failed
  }

  /** Mounting files one instance, the newest of its entry: an active one under the identity just
      built, or a failed one with none. */
  lemma MountingFiles(entry: Entry, ss: seq<Selection>, o: Outcome, p: Progress)
    requires !p.failed && !Reusable(p.tables.InstanceFor(entry.id), entry.revision, Identified(entry, ss, p))
    ensures var q, e := Step(entry, ss, o, p), entry.id;
      && q.failed == !o.ok
      && o.id in q.tables.instances && e in q.tables.byEntry && q.tables.byEntry[e] != []
      && q.tables.byEntry[e][|q.tables.byEntry[e]| - 1] == o.id
      && var i := q.tables.instances[o.id];
         && i.id == o.id && i.entry == e && i.revision == entry.revision
         && (if o.ok then i.state == Active && i.identity == Some(Identified(entry, ss, p)) else i.state == Failed && i.identity == None)
         && q.ordered == (if o.ok then p.ordered + [i] else p.ordered)
         && q.mounted == (if o.ok then p.mounted + [i] else p.mounted)
  {
    hide Captured, IdentityOf, Reusable, Answers, Cleared, Tables.InstanceFor;
  }

  /** What it offered is registered if it came up; a failed predecessor goes with its registrations;
      every other instance and every other registration stays. */
  lemma MountingKeeps(entry: Entry, ss: seq<Selection>, o: Outcome, p: Progress, id: Id, l: Live)
    requires Consistent(p.tables) && id != o.id
    requires !Reusable(p.tables.InstanceFor(entry.id), entry.revision, Identified(entry, ss, p))
    ensures var q, e := Step(entry, ss, o, p), entry.id;
      && (id in q.tables.instances <==> id in p.tables.instances && !MakesWay(p.tables, e, id))
      && (id in q.tables.instances ==> q.tables.instances[id] == p.tables.instances[id])
      && (l in q.tables.live <==>
            || (l in p.tables.live && !MakesWay(p.tables, e, l.provider))
            || (o.ok && l.provider == o.id && (l.key, l.version) in o.offers))
  {
    hide Consistent, Captured, IdentityOf, Reusable, Answers, Cleared, MakesWay, Tables.InstanceFor;
    ClearedMeans(p.tables, entry.id, id, l);
    var cleared := Cleared(p.tables, p.tables.InstanceFor(entry.id));
    var resolved := Captured(cleared, ss);
    AddedMeans(cleared, Instance(o.id, entry.id, entry.revision, Active, Some(Identified(entry, ss, p)), resolved), o.offers, id, l);
    AddedMeans(cleared, Instance(o.id, entry.id, entry.revision, Failed, None, resolved), {}, id, l);
  }

  lemma AddedMeans(t: Tables, i: Instance, offers: set<(Key, Version)>, id: Id, l: Live)
    requires id != i.id
    ensures var u := t.Added(i, offers);
      && (id in u.instances <==> id in t.instances)
      && (id in t.instances ==> u.instances[id] == t.instances[id])
      && (l in u.live <==> l in t.live || (l.provider == i.id && (l.key, l.version) in offers))
  {
    if l in t.Added(i, offers).live && l !in t.live {
      var o :| o in offers && l == Live(i.id, o.0, o.1);
      assert o == (l.key, l.version);
    }
    if l.provider == i.id && (l.key, l.version) in offers {
      assert l == Live(i.id, (l.key, l.version).0, (l.key, l.version).1);
    }
  }

  /** Only a failed newest instance makes way, and only its registrations go. */
  lemma ClearedMeans(t: Tables, e: Id, id: Id, l: Live)
    requires Consistent(t)
    ensures var u := Cleared(t, t.InstanceFor(e));
      && (id in u.instances <==> id in t.instances && !MakesWay(t, e, id))
      && (id in u.instances ==> u.instances[id] == t.instances[id])
      && (l in u.live <==> l in t.live && !MakesWay(t, e, l.provider))
  {
    var existing := t.InstanceFor(e);
    if existing.Some? {
      InstanceForFacts(t, e);
      assert InstanceOk(t, t.byEntry[e][|t.byEntry[e]| - 1]);
      if existing.value.state == Failed {
        ForgottenStaysConsistent(t, existing.value.id);
        ForgottenWithdraws(t, existing.value.id, l);
      }
    }
  }

  /** What a consumer is told of a provider: the newest instance filed for it, and the digest of the
      identity this reconcile gave it, or else of the one that instance carries. */
  lemma AnswerMeans(t: Tables, identities: map<Id, SemanticIdentity>, p: Id, id: Id)
    requires FiledById(t) && p in t.byEntry && t.byEntry[p] != [] && t.byEntry[p][|t.byEntry[p]| - 1] == id && id in t.instances
    ensures var a := AnswerFor(t, identities, p);
      && a.instance == Some(id)
      && (p in identities ==> a.identity == Some(identities[p].IdentityDigest()))
      && (p !in identities && t.instances[id].identity.Some? ==> a.identity == Some(t.instances[id].identity.value.IdentityDigest()))
      && (p !in identities && t.instances[id].identity.None? ==> a.identity == None)
  {
  }

  /** The id a step would mount under is unknown so far. */
  lemma StillFresh(t: Tables, outcomes: map<Id, Outcome>, p: Progress, done: seq<Id>, e: Id)
    requires Sound(t, outcomes, p, done) && Fresh(outcomes, t.issued) && e !in done && e in outcomes
    ensures outcomes[e].id !in p.tables.issued
  {
    assert forall i :: i in p.mounted ==> i.id != outcomes[e].id;
    assert outcomes[e].id !in p.tables.issued - t.issued;
  }

  lemma StepMounts(t: Tables, outcomes: map<Id, Outcome>, entry: Entry, ss: seq<Selection>, p: Progress, done: seq<Id>)
    requires Ready(t, outcomes, entry, ss, p, done) && outcomes[entry.id].ok
    requires !Reusable(p.tables.InstanceFor(entry.id), entry.revision, Identified(entry, ss, p))
    ensures Sound(t, outcomes, Step(entry, ss, outcomes[entry.id], p), done + [entry.id])
    ensures Step(entry, ss, outcomes[entry.id], p).Mounted(entry.id)
  {
    var e := entry.id;
    var n := Identified(entry, ss, p);
    var cleared := Cleared(p.tables, p.tables.InstanceFor(e));
    var i := Instance(outcomes[e].id, e, entry.revision, Active, Some(n), Captured(cleared, ss));
    var q := Step(entry, ss, outcomes[e], p);
    assert q == Progress(cleared.Added(i, outcomes[e].offers), p.identities[e := n], p.ordered + [i], p.mounted + [i], false);
    AnswersAreIssued(p.tables, p.identities, ss, entry);
    ClearedFacts(p.tables, e);
    StillFresh(t, outcomes, p, done, e);
    forall c | c in i.resolved
      ensures exists j :: j in p.ordered && j.id == i.resolved[c]
      ensures exists k :: 0 <= k < |n.bindings| && n.bindings[k].capability == c && n.bindings[k].provider.Some?
                          && n.bindings[k].providerInstance == Some(i.resolved[c])
    {
      CaptureIsBound(t, outcomes, entry, ss, p, done, cleared, c);
    }
    AddedStaysConsistent(cleared, i, outcomes[e].offers);
    ClosedWithOneMore(p.ordered, i);
    MountedOneMore(t, outcomes, p, q, done, i);
  }

  lemma StaysHandled(t: Tables, outcomes: map<Id, Outcome>, p: Progress, q: Progress, d: Id, i: Instance)
    requires Handled(t, outcomes, p, d) && d != i.entry
    requires q.mounted == p.mounted + [i] && q.ordered == p.ordered + [i]
    requires i.identity.Some? && q.identities == p.identities[i.entry := i.identity.value]
    requires q.tables.InstanceFor(d) == p.tables.InstanceFor(d)
    ensures Handled(t, outcomes, q, d)
  {
    hide WellFormed, Tables.InstanceFor;
    if p.Mounted(d) {
      var x :| x in p.mounted && x.entry == d;
      assert x in q.mounted;
    }
  }

  lemma IssuedOneMore(before: set<Id>, issued: set<Id>, mounted: seq<Instance>, i: Instance)
    requires forall id :: id in issued - before ==> exists j :: j in mounted && j.id == id
    ensures forall id :: id in issued + {i.id} - before ==> exists j :: j in mounted + [i] && j.id == id
  {
    forall id | id in issued + {i.id} - before ensures exists j :: j in mounted + [i] && j.id == id {
      if id == i.id {
        assert i in mounted + [i];
      } else {
        assert id in issued - before;
        var j :| j in mounted && j.id == id;
        assert j in mounted + [i];
      }
    }
  }

  lemma AllHandled(t: Tables, outcomes: map<Id, Outcome>, p: Progress, q: Progress, done: seq<Id>, i: Instance)
    requires forall d :: d in done ==> Handled(t, outcomes, p, d)
    requires i.entry !in done && i.entry in outcomes && i.id == outcomes[i.entry].id
    requires q.mounted == p.mounted + [i] && q.ordered == p.ordered + [i]
    requires i.identity.Some? && WellFormed(i.identity.value) && i.state == Active
    requires q.identities == p.identities[i.entry := i.identity.value]
    requires q.tables.InstanceFor(i.entry) == Some(i)
    requires forall d :: d != i.entry ==> q.tables.InstanceFor(d) == p.tables.InstanceFor(d)
    ensures forall d :: d in done + [i.entry] ==> Handled(t, outcomes, q, d)
    ensures q.Mounted(i.entry)
  {
    hide WellFormed, Tables.InstanceFor;
    assert i in q.mounted;
    assert Handled(t, outcomes, q, i.entry);
    forall d | d in done ensures Handled(t, outcomes, q, d) {
      StaysHandled(t, outcomes, p, q, d, i);
    }
  }

  lemma MountedOneMore(t: Tables, outcomes: map<Id, Outcome>, p: Progress, q: Progress, done: seq<Id>, i: Instance)
    requires Sound(t, outcomes, p, done) && i.entry !in done && i.entry in outcomes && i.id == outcomes[i.entry].id
    requires !q.failed && Consistent(q.tables) && BindingClosed(q.ordered)
    requires q.tables.issued == p.tables.issued + {i.id}
    requires q.mounted == p.mounted + [i] && q.ordered == p.ordered + [i]
    requires i.identity.Some? && WellFormed(i.identity.value) && i.state == Active
    requires q.identities == p.identities[i.entry := i.identity.value]
    requires q.tables.InstanceFor(i.entry) == Some(i)
    requires forall d :: d != i.entry ==> q.tables.InstanceFor(d) == p.tables.InstanceFor(d)
    ensures Sound(t, outcomes, q, done + [i.entry]) && q.Mounted(i.entry)
  {
    hide Consistent, BindingClosed, WellFormed, Tables.InstanceFor, Handled, Progress.Mounted;
    AllHandled(t, outcomes, p, q, done, i);
    IssuedOneMore(t.issued, p.tables.issued, p.mounted, i);
  }

  // ---- Which entries are rebuilt

  /** The entry itself changed: nothing active to keep, another revision, another own field, or
      another selection. */
  predicate Changed(t: Tables, entry: Entry, ss: seq<Selection>) {
    var existing := t.InstanceFor(entry.id);
    || existing.None? || existing.value.state != Active || existing.value.revision != entry.revision
    || existing.value.identity.None?
    || !SameOwnFields(entry, existing.value.identity.value)
    || !SameSelection(entry, ss, existing.value.identity.value)
  }

  /** Before the call starts, the instance is already bound to something its providers no longer
      are: it outlived a replacement of theirs. */
  predicate OutOfDate(t: Tables, entry: Entry, ss: seq<Selection>) {
    var existing := t.InstanceFor(entry.id);
    existing.Some? && existing.value.identity.Some? && Stale(ss, existing.value.identity.value, Answers(t, map[], ss))
  }

  lemma AnswersUnmoved(t: Tables, outcomes: map<Id, Outcome>, entry: Entry, ss: seq<Selection>, p: Progress, done: seq<Id>)
    requires Ready(t, outcomes, entry, ss, p, done)
    requires forall q :: q in ProvidersOf(ss) ==> !p.Mounted(q)
    ensures Answers(p.tables, p.identities, ss) == Answers(t, map[], ss)
  {
    hide Sound, Handled, Consistent, Fresh, AnswerFor, Progress.Mounted, ProvidersOf;
    forall q | q in ProvidersOf(ss) ensures AnswerFor(p.tables, p.identities, q) == AnswerFor(t, map[], q) {
      ReadyMeansHandled(t, outcomes, entry, ss, p, done, q);
      AnswerOfHandled(t, outcomes, p, q);
    }
  }

  lemma ReadyMeansHandled(t: Tables, outcomes: map<Id, Outcome>, entry: Entry, ss: seq<Selection>, p: Progress, done: seq<Id>, q: Id)
    requires Ready(t, outcomes, entry, ss, p, done) && q in ProvidersOf(ss)
    ensures Handled(t, outcomes, p, q)
  {
    assert q in done;
  }

  /** No recorded binding names an instance that was only just made. */
  lemma BoundToTheOld(t: Tables, outcomes: map<Id, Outcome>, entry: Entry, ss: seq<Selection>, p: Progress,
                      done: seq<Id>, q: Id, i: SemanticIdentity)
    requires Ready(t, outcomes, entry, ss, p, done) && q in ProvidersOf(ss) && p.Mounted(q)
    requires BindsIssued(i, t.issued) && SameSelection(entry, ss, i)
    ensures Stale(ss, i, Answers(p.tables, p.identities, ss))
  {
    assert Handled(t, outcomes, p, q);
    var made := outcomes[q].id;
    assert made !in t.issued;
    AnswerOfHandled(t, outcomes, p, q);
    assert p.tables.InstanceFor(q).value.id == made;
    hide Ready, Sound, Handled, Consistent, Fresh, BindingClosed, AnswerFor, Tables.InstanceFor;
    var s :| s in ss && s.provider == Some(q);
    var sorted := SortSelections(ss);
    assert s in sorted;
    var k :| 0 <= k < |sorted| && sorted[k] == s;
    assert i.bindings[k] in i.bindings;
    assert Answers(p.tables, p.identities, ss)[q].instance == Some(made);
  }

  /** Kept exactly when neither the entry nor one of its providers was touched. */
  lemma ReusableIff(t: Tables, outcomes: map<Id, Outcome>, entry: Entry, ss: seq<Selection>, p: Progress, done: seq<Id>)
    requires Ready(t, outcomes, entry, ss, p, done)
    ensures Reusable(p.tables.InstanceFor(entry.id), entry.revision, Identified(entry, ss, p)) <==>
      !Changed(t, entry, ss) && !OutOfDate(t, entry, ss) && forall q :: q in ProvidersOf(ss) ==> !p.Mounted(q)
  {
    var existing := t.InstanceFor(entry.id);
    assert p.tables.InstanceFor(entry.id) == existing;
    if existing.Some? && existing.value.identity.Some? {
      var i := existing.value.identity.value;
      InstanceForFacts(t, entry.id);
      assert WellFormed(i) && BindsIssued(i, t.issued);
      hide WellFormed, BindsIssued, InstanceOk, Consistent, Sound;
      IdentityEquality(entry, ss, Answers(p.tables, p.identities, ss), i);
      if forall q :: q in ProvidersOf(ss) ==> !p.Mounted(q) {
        AnswersUnmoved(t, outcomes, entry, ss, p, done);
      } else if SameSelection(entry, ss, i) {
        var q :| q in ProvidersOf(ss) && p.Mounted(q);
        BoundToTheOld(t, outcomes, entry, ss, p, done, q, i);
      }
    }
  }

  /** The rule the loop follows at each entry. */
  ghost predicate Decided(plan: Agenda, entries: map<Id, Entry>, t: Tables, p: Progress, e: Id)
    requires e in entries
  {
    p.Mounted(e) <==>
      || Changed(t, entries[e], plan.SelectionsOf(e)) || OutOfDate(t, entries[e], plan.SelectionsOf(e))
      || exists q :: q in ProvidersOf(plan.SelectionsOf(e)) && p.Mounted(q)
  }

  /** What legality says at position `k - 1`. */
  lemma LegalAt(plan: Agenda, entries: map<Id, Entry>, outcomes: map<Id, Outcome>, t: Tables, k: nat)
    requires Legal(plan, entries, outcomes, t) && 0 < k <= |plan.order|
    ensures var done, e := plan.order[..k - 1], plan.order[k - 1];
      && plan.order[..k] == done + [e] && e !in done && e in outcomes
      && e in entries && entries[e].id == e
      && ProvidersOf(plan.SelectionsOf(e)) <= Elements(done)
      && (forall d :: d in done ==> d in entries && ProvidersOf(plan.SelectionsOf(d)) <= Elements(done))
  {
    var done, e := plan.order[..k - 1], plan.order[k - 1];
    assert e in plan.order;
    forall d | d in done ensures d in entries && ProvidersOf(plan.SelectionsOf(d)) <= Elements(done) {
      var j :| 0 <= j < k - 1 && plan.order[j] == d;
      assert d in plan.order;
      assert Elements(plan.order[..j]) <= Elements(done);
    }
  }

  ghost predicate Invariant(plan: Agenda, entries: map<Id, Entry>, outcomes: map<Id, Outcome>, t: Tables, p: Progress, done: seq<Id>) {
    && Sound(t, outcomes, p, done)
    && forall e :: e in done ==> e in entries && Decided(plan, entries, t, p, e)
  }

  /** One step keeps the loop's invariant and mounts exactly when something was touched. */
  lemma StepSound(t: Tables, outcomes: map<Id, Outcome>, entry: Entry, ss: seq<Selection>, p: Progress, done: seq<Id>)
    requires Ready(t, outcomes, entry, ss, p, done)
    requires !Step(entry, ss, outcomes[entry.id], p).failed
    ensures Sound(t, outcomes, Step(entry, ss, outcomes[entry.id], p), done + [entry.id])
    ensures Step(entry, ss, outcomes[entry.id], p).Mounted(entry.id) <==>
      || Changed(t, entry, ss) || OutOfDate(t, entry, ss)
      || exists q :: q in ProvidersOf(ss) && p.Mounted(q)
  {
    ReusableIff(t, outcomes, entry, ss, p, done);
    assert !p.failed;
    hide Sound, Handled, Ready, Changed, OutOfDate, Consistent, Fresh, Progress.Mounted;
    if Reusable(p.tables.InstanceFor(entry.id), entry.revision, Identified(entry, ss, p)) {
      StepReuses(t, outcomes, entry, ss, p, done);
    } else {
      assert outcomes[entry.id].ok;
      StepMounts(t, outcomes, entry, ss, p, done);
    }
  }

  lemma StepDecides(plan: Agenda, entries: map<Id, Entry>, outcomes: map<Id, Outcome>, t: Tables, p: Progress, done: seq<Id>, e: Id)
    requires e in entries && entries[e].id == e && e in outcomes && e !in done
    requires Invariant(plan, entries, outcomes, t, p, done) && Consistent(t) && Fresh(outcomes, t.issued)
    requires ProvidersOf(plan.SelectionsOf(e)) <= Elements(done)
    requires forall d :: d in done ==> ProvidersOf(plan.SelectionsOf(d)) <= Elements(done)
    requires !Step(entries[e], plan.SelectionsOf(e), outcomes[e], p).failed
    ensures Invariant(plan, entries, outcomes, t, Step(entries[e], plan.SelectionsOf(e), outcomes[e], p), done + [e])
  {
    hide Sound, Changed, OutOfDate, Step, Consistent, Fresh, Progress.Mounted;
    var ss := plan.SelectionsOf(e);
    var q := Step(entries[e], ss, outcomes[e], p);
    StepSound(t, outcomes, entries[e], ss, p, done);
    forall d | d != e ensures q.Mounted(d) <==> p.Mounted(d) {
      MountedElsewhere(entries[e], ss, outcomes[e], p, d);
    }
    forall d | d in done ensures Decided(plan, entries, t, q, d) {
      assert Decided(plan, entries, t, p, d);
    }
  }

  lemma InvariantAtStart(plan: Agenda, entries: map<Id, Entry>, outcomes: map<Id, Outcome>, t: Tables)
    requires Consistent(t)
    ensures Invariant(plan, entries, outcomes, t, Progress(t, map[], [], [], false), [])
  {
  }

  /** From the call's start to the first failure. */
  lemma {:induction false} Progressed(plan: Agenda, entries: map<Id, Entry>, outcomes: map<Id, Outcome>, t: Tables, k: nat)
    requires Legal(plan, entries, outcomes, t) && k <= |plan.order|
    requires !After(plan, entries, outcomes, t, k).failed
    ensures Invariant(plan, entries, outcomes, t, After(plan, entries, outcomes, t, k), plan.order[..k])
  {
    hide Invariant, Sound, Step, Consistent, ProvidersFirst, Installed;
    if k == 0 {
      InvariantAtStart(plan, entries, outcomes, t);
      assert plan.order[..k] == [];
    } else {
      var p, done, e := After(plan, entries, outcomes, t, k - 1), plan.order[..k - 1], plan.order[k - 1];
      LegalAt(plan, entries, outcomes, t, k);
      Progressed(plan, entries, outcomes, t, k - 1);
      StepDecides(plan, entries, outcomes, t, p, done, e);
    }
  }

  lemma MountedElsewhere(entry: Entry, ss: seq<Selection>, o: Outcome, p: Progress, d: Id)
    requires d != entry.id
    ensures Step(entry, ss, o, p).Mounted(d) <==> p.Mounted(d)
  {
    var q := Step(entry, ss, o, p);
    assert forall i :: i in p.mounted ==> i in q.mounted;
  }

  // ---- What a mount captured of what serves it

  predicate NamesDiffer(ss: seq<Selection>) {
    forall j, k :: 0 <= j < k < |ss| ==> ss[j].requirement.name != ss[k].requirement.name
  }

  /** The instance captured everything that serves a requirement of its entry in these tables, and
      under its name the very instance that does. */
  ghost predicate CapturesServed(t: Tables, ss: seq<Selection>, i: Instance) {
    forall k, id :: 0 <= k < |ss| && Serving(t, ss[k], id) ==>
      ss[k].requirement.name in i.resolved && (NamesDiffer(ss) ==> i.resolved[ss[k].requirement.name] == id)
  }

  lemma ServingMeans(t: Tables, s: Selection, id: Id)
    requires FiledById(t)
    ensures Serving(t, s, id) <==>
      && s.status == Status.Resolved && s.provider.Some?
      && t.InstanceFor(s.provider.value).Some? && t.InstanceFor(s.provider.value).value.id == id
      && exists l :: l in t.live && l.provider == id && Accepts(s.requirement, l.key, l.version)
  {
    hide Accepts;
  }

  lemma ConsistentIsFiled(t: Tables)
    requires Consistent(t)
    ensures FiledById(t)
  {
    forall id | id in t.instances ensures t.instances[id].id == id {
      assert InstanceOk(t, id);
    }
  }

  /** Whoever serves a selection later served it before, unless it is the instance just filed or
      another is its provider's newest now. */
  lemma ServedBefore(t: Tables, u: Tables, s: Selection, id: Id, made: Id)
    requires FiledById(t) && FiledById(u) && Serving(u, s, id) && id != made
    requires s.provider.Some? ==> u.InstanceFor(s.provider.value) == t.InstanceFor(s.provider.value)
    requires forall l :: l in u.live && l.provider != made ==> l in t.live
    ensures Serving(t, s, id)
  {
    hide Accepts, Tables.InstanceFor, Serving, FiledById;
    ServingMeans(t, s, id);
    ServingMeans(u, s, id);
  }

  lemma CapturedServes(t: Tables, ss: seq<Selection>, i: Instance)
    requires FiledById(t) && i.resolved == Captured(t, ss)
    ensures CapturesServed(t, ss, i)
  {
    hide Serving, Captured, FiledById, Served;
    forall k, id | 0 <= k < |ss| && Serving(t, ss[k], id)
      ensures ss[k].requirement.name in i.resolved && (NamesDiffer(ss) ==> i.resolved[ss[k].requirement.name] == id)
    {
      ServedAreCaptured(t, ss, k, id);
      if NamesDiffer(ss) {
        LastWhenDifferent(t, ss, k, id);
      }
    }
  }

  lemma LastWhenDifferent(t: Tables, ss: seq<Selection>, k: nat, id: Id)
    requires k < |ss| && Serving(t, ss[k], id) && NamesDiffer(ss)
    ensures LastServed(t, ss, k)
  {
    hide Serving;
  }

  /** Later tables serve no more of it. */
  lemma StillCapturesServed(t: Tables, u: Tables, ss: seq<Selection>, i: Instance, made: Id)
    requires FiledById(t) && FiledById(u) && CapturesServed(t, ss, i)
    requires forall q :: q in ProvidersOf(ss) ==>
      u.InstanceFor(q) == t.InstanceFor(q) && u.InstanceFor(q).Some? && u.InstanceFor(q).value.id != made
    requires forall l :: l in u.live && l.provider != made ==> l in t.live
    ensures CapturesServed(u, ss, i)
  {
    hide Serving, FiledById, NamesDiffer, Tables.InstanceFor;
    forall k, id | 0 <= k < |ss| && Serving(u, ss[k], id) ensures Serving(t, ss[k], id) {
      ServingMeans(u, ss[k], id);
      assert ss[k] in ss && ss[k].provider.value in ProvidersOf(ss);
      ServedBefore(t, u, ss[k], id, made);
    }
  }

  lemma StepTables(t: Tables, outcomes: map<Id, Outcome>, entry: Entry, ss: seq<Selection>, p: Progress, done: seq<Id>)
    requires Ready(t, outcomes, entry, ss, p, done) && !Step(entry, ss, outcomes[entry.id], p).failed
    ensures var (q, made) := (Step(entry, ss, outcomes[entry.id], p), outcomes[entry.id].id);
      && made !in p.tables.issued && FiledById(p.tables) && FiledById(q.tables)
      && (forall d :: d != entry.id ==> q.tables.InstanceFor(d) == p.tables.InstanceFor(d))
      && (forall l :: l in q.tables.live && l.provider != made ==> l in p.tables.live)
  {
    StillFresh(t, outcomes, p, done, entry.id);
    StepSound(t, outcomes, entry, ss, p, done);
    ConsistentIsFiled(p.tables);
    ConsistentIsFiled(Step(entry, ss, outcomes[entry.id], p).tables);
    StepMoves(t, outcomes, entry, ss, p, done);
    hide Sound, Captured, Consistent, FiledById, Ready, IdentityOf, Answers, BindingClosed, Handled;
  }

  lemma StepMoves(t: Tables, outcomes: map<Id, Outcome>, entry: Entry, ss: seq<Selection>, p: Progress, done: seq<Id>)
    requires Ready(t, outcomes, entry, ss, p, done) && !Step(entry, ss, outcomes[entry.id], p).failed
    ensures forall d :: d != entry.id ==> Step(entry, ss, outcomes[entry.id], p).tables.InstanceFor(d) == p.tables.InstanceFor(d)
  {
    StillFresh(t, outcomes, p, done, entry.id);
    hide Sound, Captured, IdentityOf, Answers, Fresh, Consistent, Tables.InstanceFor, Tables.Added, Tables.Forgotten, Cleared;
    assert Consistent(p.tables) by { SoundIsConsistent(t, outcomes, p, done); }
    ClearedFacts(p.tables, entry.id);
    var cleared := Cleared(p.tables, p.tables.InstanceFor(entry.id));
    var i := Instance(outcomes[entry.id].id, entry.id, entry.revision, Active, Some(Identified(entry, ss, p)), Captured(cleared, ss));
    AddedLeavesOthers(cleared, i, outcomes[entry.id].offers);
  }

  lemma SoundIsConsistent(t: Tables, outcomes: map<Id, Outcome>, p: Progress, done: seq<Id>)
    requires Sound(t, outcomes, p, done)
    ensures Consistent(p.tables)
  {
  }

  lemma AddedLeavesOthers(t: Tables, i: Instance, offers: set<(Key, Version)>)
    requires Consistent(t) && i.id !in t.issued
    ensures forall e :: e != i.entry ==> t.Added(i, offers).InstanceFor(e) == t.InstanceFor(e)
  {
    forall e | e != i.entry ensures t.Added(i, offers).InstanceFor(e) == t.InstanceFor(e) {
      if e in t.byEntry {
        assert EntryOk(t, e);
        var id := t.byEntry[e][|t.byEntry[e]| - 1];
        assert id in t.byEntry[e] && InstanceOk(t, id);
      }
    }
  }

  /** However far it got without failing, every instance it mounted captured all that serves its
      entry's selections. */
  lemma {:induction false} MountsCaptureServed(plan: Agenda, entries: map<Id, Entry>, outcomes: map<Id, Outcome>, t: Tables, k: nat)
    requires Legal(plan, entries, outcomes, t) && k <= |plan.order| && !After(plan, entries, outcomes, t, k).failed
    ensures var p := After(plan, entries, outcomes, t, k);
      forall i :: i in p.mounted ==> CapturesServed(p.tables, plan.SelectionsOf(i.entry), i)
  {
    hide Invariant, Step, Consistent, ProvidersFirst, Installed, CapturesServed, Fresh;
    if k > 0 {
      var p, done, e := After(plan, entries, outcomes, t, k - 1), plan.order[..k - 1], plan.order[k - 1];
      LegalAt(plan, entries, outcomes, t, k);
      Progressed(plan, entries, outcomes, t, k - 1);
      MountsCaptureServed(plan, entries, outcomes, t, k - 1);
      ReadyAt(plan, entries, outcomes, t, p, done, e);
      var q := Step(entries[e], plan.SelectionsOf(e), outcomes[e], p);
      forall i | i in q.mounted ensures CapturesServed(q.tables, plan.SelectionsOf(i.entry), i) {
        StepCapturesServed(plan, entries, outcomes, t, p, done, e, i);
      }
    }
  }

  lemma ReadyAt(plan: Agenda, entries: map<Id, Entry>, outcomes: map<Id, Outcome>, t: Tables, p: Progress, done: seq<Id>, e: Id)
    requires Legal(plan, entries, outcomes, t) && Invariant(plan, entries, outcomes, t, p, done)
    requires e in entries && entries[e].id == e && e !in done && e in outcomes && ProvidersOf(plan.SelectionsOf(e)) <= Elements(done)
    ensures Ready(t, outcomes, entries[e], plan.SelectionsOf(e), p, done)
  {
    hide Sound, Consistent, Fresh, ProvidersFirst;
  }

  lemma StepCapturesServed(plan: Agenda, entries: map<Id, Entry>, outcomes: map<Id, Outcome>, t: Tables, p: Progress,
                           done: seq<Id>, e: Id, i: Instance)
    requires e in entries && entries[e].id == e && e in outcomes && Ready(t, outcomes, entries[e], plan.SelectionsOf(e), p, done)
    requires forall d :: d in done ==> ProvidersOf(plan.SelectionsOf(d)) <= Elements(done)
    requires forall x :: x in p.mounted ==> CapturesServed(p.tables, plan.SelectionsOf(x.entry), x)
    requires !Step(entries[e], plan.SelectionsOf(e), outcomes[e], p).failed
    requires i in Step(entries[e], plan.SelectionsOf(e), outcomes[e], p).mounted
    ensures CapturesServed(Step(entries[e], plan.SelectionsOf(e), outcomes[e], p).tables, plan.SelectionsOf(i.entry), i)
  {
    hide *;
    var ss, q, made := plan.SelectionsOf(e), Step(entries[e], plan.SelectionsOf(e), outcomes[e], p), outcomes[e].id;
    StepTables(t, outcomes, entries[e], ss, p, done);
    ReadyMeans(t, outcomes, entries[e], ss, p, done);
    MountedNow(t, outcomes, entries[e], ss, p, done, i);
    if i in p.mounted {
      ProvidersStand(t, outcomes, p, q, done, plan.SelectionsOf(i.entry), e, made);
      StillCapturesServed(p.tables, q.tables, plan.SelectionsOf(i.entry), i, made);
    } else {
      ProvidersStand(t, outcomes, p, q, done, ss, e, made);
      var cleared := Cleared(p.tables, p.tables.InstanceFor(e));
      CapturedServes(cleared, ss, i);
      StillCapturesServed(cleared, q.tables, ss, i, made);
    }
  }

  lemma ReadyMeans(t: Tables, outcomes: map<Id, Outcome>, entry: Entry, ss: seq<Selection>, p: Progress, done: seq<Id>)
    requires Ready(t, outcomes, entry, ss, p, done)
    ensures Sound(t, outcomes, p, done) && entry.id !in done && entry.id in outcomes && ProvidersOf(ss) <= Elements(done)
    ensures forall i :: i in p.mounted ==> i.entry in done
  {
    hide Consistent, Handled, BindingClosed, Fresh;
  }

  /** A mounted instance was there before, or captured from the tables with room made for it. */
  lemma MountedNow(t: Tables, outcomes: map<Id, Outcome>, entry: Entry, ss: seq<Selection>, p: Progress, done: seq<Id>, i: Instance)
    requires Ready(t, outcomes, entry, ss, p, done) && !Step(entry, ss, outcomes[entry.id], p).failed
    requires i in Step(entry, ss, outcomes[entry.id], p).mounted
    ensures i !in p.mounted ==>
      var cleared := Cleared(p.tables, p.tables.InstanceFor(entry.id));
      && i.entry == entry.id && i.resolved == Captured(cleared, ss) && FiledById(cleared)
      && (forall q :: q in ProvidersOf(ss) ==> cleared.InstanceFor(q) == p.tables.InstanceFor(q))
      && forall l :: l in Step(entry, ss, outcomes[entry.id], p).tables.live && l.provider != outcomes[entry.id].id ==> l in cleared.live
  {
    SoundIsConsistent(t, outcomes, p, done);
    assert entry.id !in done && ProvidersOf(ss) <= Elements(done);
    hide Sound, Captured, IdentityOf, Answers, Fresh, Consistent, Tables.InstanceFor, Tables.Forgotten, Cleared, FiledById, ProvidersOf;
    ClearedFacts(p.tables, entry.id);
    ConsistentIsFiled(Cleared(p.tables, p.tables.InstanceFor(entry.id)));
  }

  /** Providers already handled stay what they were, with ids older than the new one. */
  lemma ProvidersStand(t: Tables, outcomes: map<Id, Outcome>, p: Progress, q: Progress, done: seq<Id>, ss: seq<Selection>, e: Id, made: Id)
    requires Sound(t, outcomes, p, done) && e !in done && ProvidersOf(ss) <= Elements(done) && made !in p.tables.issued
    requires forall d :: d != e ==> q.tables.InstanceFor(d) == p.tables.InstanceFor(d)
    ensures forall d :: d in ProvidersOf(ss) ==>
      q.tables.InstanceFor(d) == p.tables.InstanceFor(d) && q.tables.InstanceFor(d).Some? && q.tables.InstanceFor(d).value.id != made
  {
    forall d | d in ProvidersOf(ss)
      ensures q.tables.InstanceFor(d) == p.tables.InstanceFor(d) && q.tables.InstanceFor(d).Some? && q.tables.InstanceFor(d).value.id != made
    {
      assert d in done && Handled(t, outcomes, p, d);
      HandledInstance(t, outcomes, p, d);
      IssuedWhenOk(p.tables, d);
    }
  }

  // ---- Exactness

  /** Nothing downstream of the set is outside it. */
  ghost predicate ClosedDownstream(plan: Agenda, s: set<Id>) {
    forall p, c {:trigger p in s, c in plan.order} ::
      c in plan.order && p in s && p in ProvidersOf(plan.SelectionsOf(c)) ==> c in s
  }

  ghost predicate IsLeastClosed(plan: Agenda, base: set<Id>, s: set<Id>) {
    && base <= s && ClosedDownstream(plan, s)
    && forall u :: base <= u && ClosedDownstream(plan, u) ==> s <= u
  }

  /** What one pass along the order reaches from `base`. */
  function Spread(plan: Agenda, base: set<Id>, k: nat): set<Id>
    requires k <= |plan.order|
  {
    if k == 0 then {}
    else
      var s, e := Spread(plan, base, k - 1), plan.order[k - 1];
      if e in base || (exists p :: p in ProvidersOf(plan.SelectionsOf(e)) && p in s) then s + {e} else s
  }

  function AllSpread(plan: Agenda, base: set<Id>): set<Id> {
    Spread(plan, base, |plan.order|)
  }

  lemma {:induction false} SpreadBounds(plan: Agenda, base: set<Id>, k: nat, u: set<Id>)
    requires k <= |plan.order| && base <= u && ClosedDownstream(plan, u)
    ensures Spread(plan, base, k) <= u && Spread(plan, base, k) <= Elements(plan.order[..k])
    ensures forall e :: e in plan.order[..k] && e in base ==> e in Spread(plan, base, k)
  {
    if k > 0 {
      SpreadBounds(plan, base, k - 1, u);
      var e := plan.order[k - 1];
      assert plan.order[..k] == plan.order[..k - 1] + [e] && e in plan.order;
    }
  }

  /** Later steps add nothing to what was decided about a prefix. */
  lemma {:induction false} SpreadStable(plan: Agenda, base: set<Id>, j: nat, k: nat)
    requires Distinct(plan.order) && j <= k <= |plan.order|
    ensures Spread(plan, base, k) * Elements(plan.order[..j]) == Spread(plan, base, j)
  {
    SpreadBounds(plan, base, j, Elements(plan.order) + base);
    if j < k {
      SpreadStable(plan, base, j, k - 1);
      assert plan.order[k - 1] !in plan.order[..j];
    }
  }

  lemma SpreadIsLeast(plan: Agenda, base: set<Id>)
    requires ProvidersFirst(plan) && base <= Elements(plan.order)
    ensures IsLeastClosed(plan, base, AllSpread(plan, base))
  {
    var n := |plan.order|;
    var s := AllSpread(plan, base);
    assert plan.order[..n] == plan.order;
    assert ClosedDownstream(plan, Elements(plan.order));
    SpreadBounds(plan, base, n, Elements(plan.order));
    forall p, c | c in plan.order && p in s && p in ProvidersOf(plan.SelectionsOf(c)) ensures c in s {
      var k :| 0 <= k < n && plan.order[k] == c;
      SpreadStable(plan, base, k, n);
      SpreadStable(plan, base, k + 1, n);
      assert p in Elements(plan.order[..k]);
    }
    forall u | base <= u && ClosedDownstream(plan, u) ensures s <= u {
      SpreadBounds(plan, base, n, u);
    }
  }

  function Rebuilt(p: Progress): set<Id> {
    set i | i in p.mounted :: i.entry
  }

  function ChangedEntries(plan: Agenda, entries: map<Id, Entry>, t: Tables): set<Id> {
    set e | e in plan.order && e in entries && Changed(t, entries[e], plan.SelectionsOf(e))
  }

  function OutOfDateEntries(plan: Agenda, entries: map<Id, Entry>, t: Tables): set<Id> {
    set e | e in plan.order && e in entries && OutOfDate(t, entries[e], plan.SelectionsOf(e))
  }

  lemma {:induction false} RebuiltIsSpread(plan: Agenda, entries: map<Id, Entry>, t: Tables, p: Progress, k: nat)
    requires ProvidersFirst(plan) && k <= |plan.order|
    requires forall e :: e in plan.order ==> e in entries && Decided(plan, entries, t, p, e)
    ensures Rebuilt(p) * Elements(plan.order[..k])
         == Spread(plan, ChangedEntries(plan, entries, t) + OutOfDateEntries(plan, entries, t), k)
  {
    hide Changed, OutOfDate, Agenda.SelectionsOf, ProvidersOf, Decided, Distinct;
    if k > 0 {
      RebuiltIsSpread(plan, entries, t, p, k - 1);
      var e := plan.order[k - 1];
      assert plan.order[..k] == plan.order[..k - 1] + [e] && e in plan.order;
      assert ProvidersOf(plan.SelectionsOf(e)) <= Elements(plan.order[..k - 1]);
      RebuiltIff(plan, entries, t, p, e);
      hide ProvidersFirst, Rebuilt, ChangedEntries, OutOfDateEntries;
    }
  }

  lemma RebuiltIff(plan: Agenda, entries: map<Id, Entry>, t: Tables, p: Progress, e: Id)
    requires e in plan.order && e in entries && Decided(plan, entries, t, p, e)
    ensures e in Rebuilt(p) <==>
      || e in ChangedEntries(plan, entries, t) + OutOfDateEntries(plan, entries, t)
      || exists q :: q in ProvidersOf(plan.SelectionsOf(e)) && q in Rebuilt(p)
  {
    hide Changed, OutOfDate, ProvidersOf;
    assert forall d :: d in Rebuilt(p) <==> p.Mounted(d);
  }

  lemma RebuiltIsLeast(plan: Agenda, entries: map<Id, Entry>, t: Tables, p: Progress)
    requires ProvidersFirst(plan)
    requires forall e :: e in plan.order ==> e in entries && Decided(plan, entries, t, p, e)
    requires Rebuilt(p) <= Elements(plan.order)
    ensures Rebuilt(p) == AllSpread(plan, ChangedEntries(plan, entries, t) + OutOfDateEntries(plan, entries, t))
    ensures IsLeastClosed(plan, ChangedEntries(plan, entries, t) + OutOfDateEntries(plan, entries, t), Rebuilt(p))
  {
    RebuiltIsSpread(plan, entries, t, p, |plan.order|);
    assert plan.order[..|plan.order|] == plan.order;
    hide Decided, Changed, OutOfDate, IsLeastClosed;
    SpreadIsLeast(plan, ChangedEntries(plan, entries, t) + OutOfDateEntries(plan, entries, t));
  }

  /** What was not mounted is the instance from before; what was mounted is new. */
  lemma KeptOrNew(t: Tables, outcomes: map<Id, Outcome>, p: Progress, done: seq<Id>)
    requires Sound(t, outcomes, p, done) && Fresh(outcomes, t.issued)
    ensures Rebuilt(p) <= Elements(done)
    ensures forall e :: e in done && e !in Rebuilt(p) ==>
      t.InstanceFor(e).Some? && t.InstanceFor(e).value in p.ordered && p.tables.InstanceFor(e) == t.InstanceFor(e)
    ensures forall e :: e in Rebuilt(p) ==> p.tables.InstanceFor(e).Some? && p.tables.InstanceFor(e).value.id !in t.issued
  {
    hide Consistent, BindingClosed, WellFormed, Tables.InstanceFor;
    assert forall d :: d in Rebuilt(p) <==> p.Mounted(d);
    assert forall e :: e in done ==> Handled(t, outcomes, p, e);
  }

  /** Reuse is exact: what gets mounted is the least downstream-closed set around the entries
      that changed or were out of date; every other entry keeps its very instance. */
  lemma ReuseIsExact(plan: Agenda, entries: map<Id, Entry>, outcomes: map<Id, Outcome>, t: Tables)
    requires Legal(plan, entries, outcomes, t)
    requires !After(plan, entries, outcomes, t, |plan.order|).failed
    ensures var p := After(plan, entries, outcomes, t, |plan.order|);
      && Rebuilt(p) == AllSpread(plan, ChangedEntries(plan, entries, t) + OutOfDateEntries(plan, entries, t))
      && IsLeastClosed(plan, ChangedEntries(plan, entries, t) + OutOfDateEntries(plan, entries, t), Rebuilt(p))
      && (forall e :: e in plan.order && e !in Rebuilt(p) ==>
            t.InstanceFor(e).Some? && t.InstanceFor(e).value in p.ordered && p.tables.InstanceFor(e) == t.InstanceFor(e))
      && (forall e :: e in Rebuilt(p) ==> p.tables.InstanceFor(e).Some? && p.tables.InstanceFor(e).value.id !in t.issued)
  {
    hide Sound, Decided, Consistent, After, Rebuilt, IsLeastClosed, ProvidersFirst, Installed, Fresh;
    Progressed(plan, entries, outcomes, t, |plan.order|);
    assert plan.order[..|plan.order|] == plan.order;
    KeptOrNew(t, outcomes, After(plan, entries, outcomes, t, |plan.order|), plan.order);
    RebuiltIsLeast(plan, entries, t, After(plan, entries, outcomes, t, |plan.order|));
  }

  /** Counting only the entries that changed is exact just when everything out of date is
      downstream of one of them. */
  lemma ExactForChangedEntriesIff(plan: Agenda, entries: map<Id, Entry>, outcomes: map<Id, Outcome>, t: Tables)
    requires Legal(plan, entries, outcomes, t)
    requires !After(plan, entries, outcomes, t, |plan.order|).failed
    ensures IsLeastClosed(plan, ChangedEntries(plan, entries, t), Rebuilt(After(plan, entries, outcomes, t, |plan.order|)))
       <==> OutOfDateEntries(plan, entries, t) <= AllSpread(plan, ChangedEntries(plan, entries, t))
  {
    ReuseIsExact(plan, entries, outcomes, t);
    SpreadIsLeast(plan, ChangedEntries(plan, entries, t));
    hide After, AllSpread, Legal, ClosedDownstream, Changed, OutOfDate;
  }

  lemma {:induction false} AllSetupsSucceed(plan: Agenda, entries: map<Id, Entry>, outcomes: map<Id, Outcome>, t: Tables, k: nat)
    requires k <= |plan.order| && forall e :: e in plan.order ==> e in outcomes && outcomes[e].ok
    ensures !After(plan, entries, outcomes, t, k).failed
  {
    if k > 0 {
      AllSetupsSucceed(plan, entries, outcomes, t, k - 1);
      assert plan.order[k - 1] in plan.order;
    }
  }

  // ---- Reconciling again

  /** The entry's newest instance is active, of its revision, and recorded just what its providers
      answer now. */
  ghost predicate UpToDate(t: Tables, entry: Entry, ss: seq<Selection>) {
    && t.InstanceFor(entry.id).Some?
    && var i := t.InstanceFor(entry.id).value;
       i.state == Active && i.revision == entry.revision && i.identity == Some(IdentityOf(entry, ss, Answers(t, map[], ss)))
  }

  lemma AnswersAgree(t: Tables, u: Tables, identities: map<Id, SemanticIdentity>, ss: seq<Selection>)
    requires forall q :: q in ProvidersOf(ss) ==> AnswerFor(t, identities, q) == AnswerFor(u, map[], q)
    ensures Answers(t, identities, ss) == Answers(u, map[], ss)
  {
    hide AnswerFor;
  }

  lemma StaysUpToDate(t: Tables, u: Tables, entry: Entry, ss: seq<Selection>)
    requires UpToDate(t, entry, ss) && u.InstanceFor(entry.id) == t.InstanceFor(entry.id)
    requires forall q :: q in ProvidersOf(ss) ==> u.InstanceFor(q) == t.InstanceFor(q)
    ensures UpToDate(u, entry, ss)
  {
    forall q | q in ProvidersOf(ss) ensures AnswerFor(u, map[], q) == AnswerFor(t, map[], q) {}
    hide IdentityOf, AnswerFor, Tables.InstanceFor, ProvidersOf;
    AnswersAgree(u, t, map[], ss);
  }

  /** A step leaves its entry up to date. */
  lemma StepIsUpToDate(t: Tables, outcomes: map<Id, Outcome>, entry: Entry, ss: seq<Selection>, p: Progress, done: seq<Id>)
    requires Ready(t, outcomes, entry, ss, p, done) && !Step(entry, ss, outcomes[entry.id], p).failed
    ensures var q := Step(entry, ss, outcomes[entry.id], p);
      && UpToDate(q.tables, entry, ss)
      && q.tables.InstanceFor(entry.id).Some? && q.ordered == p.ordered + [q.tables.InstanceFor(entry.id).value]
  {
    hide *;
    ReadyMeans(t, outcomes, entry, ss, p, done);
    var q := Step(entry, ss, outcomes[entry.id], p);
    StepFiles(t, outcomes, entry, ss, p, done);
    StepMoves(t, outcomes, entry, ss, p, done);
    forall d | d in ProvidersOf(ss) ensures AnswerFor(p.tables, p.identities, d) == AnswerFor(q.tables, map[], d) {
      HandledAnswers(t, outcomes, p, q.tables, done, entry.id, ss, d);
    }
    AnswersAgree(p.tables, q.tables, p.identities, ss);
    IdentifiedIs(entry, ss, p);
    UpToDateIf(q.tables, entry, ss);
  }

  lemma IdentifiedIs(entry: Entry, ss: seq<Selection>, p: Progress)
    ensures Identified(entry, ss, p) == IdentityOf(entry, ss, Answers(p.tables, p.identities, ss))
  {
  }

  lemma UpToDateIf(t: Tables, entry: Entry, ss: seq<Selection>)
    requires t.InstanceFor(entry.id).Some?
    ensures var i := t.InstanceFor(entry.id).value;
      UpToDate(t, entry, ss) <==>
        i.state == Active && i.revision == entry.revision && i.identity == Some(IdentityOf(entry, ss, Answers(t, map[], ss)))
  {
  }

  /** What a successful step files for its entry. */
  lemma StepFiles(t: Tables, outcomes: map<Id, Outcome>, entry: Entry, ss: seq<Selection>, p: Progress, done: seq<Id>)
    requires Ready(t, outcomes, entry, ss, p, done) && !Step(entry, ss, outcomes[entry.id], p).failed
    ensures var q := Step(entry, ss, outcomes[entry.id], p);
      && q.tables.InstanceFor(entry.id).Some?
      && var i := q.tables.InstanceFor(entry.id).value;
         && i.state == Active && i.revision == entry.revision && i.identity == Some(Identified(entry, ss, p))
         && q.ordered == p.ordered + [i]
  {
    hide Sound, Captured, Answers, Fresh, Consistent, Tables.Forgotten, ProvidersOf, IdentityOf;
  }

  lemma HandledAnswers(t: Tables, outcomes: map<Id, Outcome>, p: Progress, u: Tables, done: seq<Id>, e: Id, ss: seq<Selection>, d: Id)
    requires Sound(t, outcomes, p, done) && e !in done && ProvidersOf(ss) <= Elements(done) && d in ProvidersOf(ss)
    requires forall x :: x != e ==> u.InstanceFor(x) == p.tables.InstanceFor(x)
    ensures AnswerFor(p.tables, p.identities, d) == AnswerFor(u, map[], d)
  {
    assert d in done && Handled(t, outcomes, p, d);
    AnswerOfHandled(t, outcomes, p, d);
  }

  /** Every entry handled so far is up to date, and stands in the candidate at its place. */
  ghost predicate AllUpToDate(plan: Agenda, entries: map<Id, Entry>, p: Progress, k: nat)
    requires k <= |plan.order|
  {
    && |p.ordered| == k
    && forall j {:trigger plan.order[j]} :: 0 <= j < k ==>
         && plan.order[j] in entries && UpToDate(p.tables, entries[plan.order[j]], plan.SelectionsOf(plan.order[j]))
         && p.tables.InstanceFor(plan.order[j]) == Some(p.ordered[j])
  }

  lemma {:induction false} LeavesUpToDate(plan: Agenda, entries: map<Id, Entry>, outcomes: map<Id, Outcome>, t: Tables, k: nat)
    requires Legal(plan, entries, outcomes, t) && k <= |plan.order| && !After(plan, entries, outcomes, t, k).failed
    ensures AllUpToDate(plan, entries, After(plan, entries, outcomes, t, k), k)
  {
    hide *;
    LegalOutcomes(plan, entries, outcomes, t);
    if k == 0 {
      AfterNone(plan, entries, outcomes, t);
      NoneUpToDate(plan, entries, After(plan, entries, outcomes, t, 0));
    } else {
      var p, done, e := After(plan, entries, outcomes, t, k - 1), plan.order[..k - 1], plan.order[k - 1];
      LegalAt(plan, entries, outcomes, t, k);
      LegalDone(plan, entries, outcomes, t, k - 1);
      AfterNext(plan, entries, outcomes, t, k);
      Progressed(plan, entries, outcomes, t, k - 1);
      LeavesUpToDate(plan, entries, outcomes, t, k - 1);
      ReadyAt(plan, entries, outcomes, t, p, done, e);
      StepIsUpToDate(t, outcomes, entries[e], plan.SelectionsOf(e), p, done);
      StepMoves(t, outcomes, entries[e], plan.SelectionsOf(e), p, done);
      OneMoreUpToDate(plan, entries, p, Step(entries[e], plan.SelectionsOf(e), outcomes[e], p), k - 1);
    }
  }

  lemma LegalOutcomes(plan: Agenda, entries: map<Id, Entry>, outcomes: map<Id, Outcome>, t: Tables)
    requires Legal(plan, entries, outcomes, t)
    ensures forall e :: e in plan.order ==> e in outcomes
  {
  }

  lemma AfterNone(plan: Agenda, entries: map<Id, Entry>, outcomes: map<Id, Outcome>, t: Tables)
    requires forall e :: e in plan.order ==> e in outcomes
    ensures After(plan, entries, outcomes, t, 0).ordered == []
  {
  }

  lemma AfterNext(plan: Agenda, entries: map<Id, Entry>, outcomes: map<Id, Outcome>, t: Tables, k: nat)
    requires (forall e :: e in plan.order ==> e in outcomes) && 0 < k <= |plan.order| && !After(plan, entries, outcomes, t, k).failed
    requires plan.order[k - 1] in entries
    ensures var (p, e) := (After(plan, entries, outcomes, t, k - 1), plan.order[k - 1]);
      !p.failed && e in outcomes && After(plan, entries, outcomes, t, k) == Step(entries[e], plan.SelectionsOf(e), outcomes[e], p)
  {
    hide Step;
  }

  lemma LegalDone(plan: Agenda, entries: map<Id, Entry>, outcomes: map<Id, Outcome>, t: Tables, k: nat)
    requires Legal(plan, entries, outcomes, t) && k < |plan.order|
    ensures (forall e :: e in plan.order ==> e in outcomes)
    ensures forall d :: d in plan.order[..k] ==>
      d in entries && entries[d].id == d && d != plan.order[k] && ProvidersOf(plan.SelectionsOf(d)) <= Elements(plan.order[..k])
  {
    hide Consistent, Fresh, ProvidersOf;
    LegalAt(plan, entries, outcomes, t, k + 1);
    assert forall d :: d in plan.order[..k] ==> d in plan.order;
  }

  lemma NoneUpToDate(plan: Agenda, entries: map<Id, Entry>, p: Progress)
    requires p.ordered == []
    ensures AllUpToDate(plan, entries, p, 0)
  {
  }

  lemma OneMoreUpToDate(plan: Agenda, entries: map<Id, Entry>, p: Progress, q: Progress, k: nat)
    requires k < |plan.order| && plan.order[k] in entries && entries[plan.order[k]].id == plan.order[k]
    requires AllUpToDate(plan, entries, p, k)
    requires UpToDate(q.tables, entries[plan.order[k]], plan.SelectionsOf(plan.order[k]))
    requires q.tables.InstanceFor(plan.order[k]).Some? && q.ordered == p.ordered + [q.tables.InstanceFor(plan.order[k]).value]
    requires forall d :: d != plan.order[k] ==> q.tables.InstanceFor(d) == p.tables.InstanceFor(d)
    requires forall d :: d in plan.order[..k] ==>
      d in entries && entries[d].id == d && d != plan.order[k] && ProvidersOf(plan.SelectionsOf(d)) <= Elements(plan.order[..k])
    requires plan.order[k] !in plan.order[..k]
    ensures AllUpToDate(plan, entries, q, k + 1)
  {
    hide UpToDate, Tables.InstanceFor, ProvidersOf;
    forall j {:trigger plan.order[j]} | 0 <= j < k + 1
      ensures plan.order[j] in entries && UpToDate(q.tables, entries[plan.order[j]], plan.SelectionsOf(plan.order[j]))
      ensures q.tables.InstanceFor(plan.order[j]) == Some(q.ordered[j])
    {
      if j < k {
        var d := plan.order[j];
        assert plan.order[..k][j] == d && d in plan.order[..k];
        StaysUpToDate(p.tables, q.tables, entries[d], plan.SelectionsOf(d));
      }
    }
  }

  /** Handling the first `k` entries again with the same plan mounts nothing. */
  ghost predicate KeptSoFar(plan: Agenda, t: Tables, p: Progress, ordered: seq<Instance>, k: nat)
    requires k <= |plan.order| && k <= |ordered|
  {
    && p.tables == t && p.mounted == [] && !p.failed && p.ordered == ordered[..k]
    && forall d :: d in p.identities ==> t.InstanceFor(d).Some? && t.InstanceFor(d).value.identity == Some(p.identities[d])
  }

  lemma KeepsAgain(t: Tables, entry: Entry, ss: seq<Selection>, o: Outcome, p: Progress)
    requires UpToDate(t, entry, ss) && p.tables == t && !p.failed
    requires forall d :: d in p.identities ==> t.InstanceFor(d).Some? && t.InstanceFor(d).value.identity == Some(p.identities[d])
    ensures t.InstanceFor(entry.id).Some? && t.InstanceFor(entry.id).value.identity.Some?
    ensures var i := t.InstanceFor(entry.id).value;
      Step(entry, ss, o, p) == p.(ordered := p.ordered + [i], identities := p.identities[entry.id := i.identity.value])
  {
    forall q | q in ProvidersOf(ss) ensures AnswerFor(t, p.identities, q) == AnswerFor(t, map[], q) {}
    hide IdentityOf, AnswerFor, Tables.InstanceFor, ProvidersOf, Captured, Cleared, Tables.Added;
    AnswersAgree(t, t, p.identities, ss);
  }

  lemma {:induction false} KeptUpTo(plan: Agenda, entries: map<Id, Entry>, outcomes: map<Id, Outcome>, was: Progress, k: nat)
    requires (forall e :: e in plan.order ==> e in outcomes) && k <= |plan.order|
    requires forall j :: 0 <= j < |plan.order| ==> plan.order[j] in entries && entries[plan.order[j]].id == plan.order[j]
    requires AllUpToDate(plan, entries, was, |plan.order|)
    ensures KeptSoFar(plan, was.tables, After(plan, entries, outcomes, was.tables, k), was.ordered, k)
  {
    hide Step, UpToDate, Tables.InstanceFor;
    if k > 0 {
      KeptUpTo(plan, entries, outcomes, was, k - 1);
      var p, e := After(plan, entries, outcomes, was.tables, k - 1), plan.order[k - 1];
      assert UpToDate(was.tables, entries[e], plan.SelectionsOf(e)) && was.tables.InstanceFor(e) == Some(was.ordered[k - 1]);
      KeepsAgain(was.tables, entries[e], plan.SelectionsOf(e), outcomes[e], p);
      assert was.ordered[..k] == was.ordered[..k - 1] + [was.ordered[k - 1]];
    }
  }

  /** Reconciling once more what was just reconciled, nothing having changed, runs no setup and
      yields the same candidate from the same tables. */
  lemma ReconcilingAgainKeepsAll(plan: Agenda, entries: map<Id, Entry>, first: map<Id, Outcome>, t: Tables, again: map<Id, Outcome>)
    requires Legal(plan, entries, first, t) && !After(plan, entries, first, t, |plan.order|).failed
    requires forall e :: e in plan.order ==> e in again
    ensures var p := After(plan, entries, first, t, |plan.order|);
      var q := After(plan, entries, again, p.tables, |plan.order|);
      !q.failed && q.mounted == [] && q.tables == p.tables && q.ordered == p.ordered
  {
    hide After, UpToDate, Consistent, ProvidersFirst, Fresh;
    var p := After(plan, entries, first, t, |plan.order|);
    LeavesUpToDate(plan, entries, first, t, |plan.order|);
    assert |p.ordered| == |plan.order| && p.ordered[..|plan.order|] == p.ordered;
    forall j | 0 <= j < |plan.order| ensures plan.order[j] in entries && entries[plan.order[j]].id == plan.order[j] {
      assert plan.order[j] in plan.order;
    }
    hide AllUpToDate;
    KeptUpTo(plan, entries, again, p, |plan.order|);
  }
}
