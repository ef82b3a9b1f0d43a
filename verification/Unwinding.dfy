/** What closing a tree of scopes does, as functions of the tree before the close. */
module Unwinding {
  import opened Wrappers
  import opened Ordering

  /** How a disposer ends: quietly, with an ordinary error that is recorded and swallowed, or
      with one that escapes to the exit stack, which carries on unwinding. */
  datatype Ending = Quiet | Fails(error: Id) | Escapes(escaped: Id)

  datatype Error = Ordinary(id: Id) | Timeout | Aggregated(failures: seq<Failure>)

  datatype Failure = Failure(description: string, error: Error)

  datatype Entry =
    | Disposer(effect: nat, description: string, ending: Ending)
    | Nested(effect: nat, description: string, child: Tree)

  /** A scope and everything nested in it; `stubborn` are tasks that will not stop in time, and
      `closed` holds the failures a finished close reported. */
  datatype Tree = Tree(
    entries: seq<Entry>,
    effects: set<nat>,
    failures: seq<Failure>,
    stubborn: seq<Id>,
    closed: Option<seq<Failure>>)

  // ---- Which disposers run, in which order

  /** Unwinding the first `k` entries, newest first, a child's whole unwind at its own place. */
  function RunsTo(t: Tree, k: nat): seq<nat>
    requires k <= |t.entries|
    decreases t, k
  {
    if k == 0 then []
    else
      var e := t.entries[k - 1];
      (match e
       case Disposer(effect, _, _) => [effect]
       case Nested(_, _, c) => if c.closed.Some? then [] else RunsTo(c, |c.entries|)) + RunsTo(t, k - 1)
  }

  function Runs(t: Tree): seq<nat> {
    if t.closed.Some? then [] else RunsTo(t, |t.entries|)
  }

  /** Every disposer still registered, in registration order. */
  function RegisteredTo(t: Tree, k: nat): seq<nat>
    requires k <= |t.entries|
    decreases t, k
  {
    if k == 0 then []
    else
      var e := t.entries[k - 1];
      RegisteredTo(t, k - 1) +
      match e
      case Disposer(effect, _, _) => [effect]
      case Nested(_, _, c) => if c.closed.Some? then [] else RegisteredTo(c, |c.entries|)
  }

  function Registered(t: Tree): seq<nat> {
    if t.closed.Some? then [] else RegisteredTo(t, |t.entries|)
  }

  function Reverse<T>(xs: seq<T>): (r: seq<T>)
    ensures |r| == |xs| && forall i :: 0 <= i < |r| ==> r[i] == xs[|xs| - 1 - i]
  {
    if xs == [] then [] else Reverse(xs[1..]) + [xs[0]]
  }

  lemma ReverseConcat<T>(xs: seq<T>, ys: seq<T>)
    ensures Reverse(xs + ys) == Reverse(ys) + Reverse(xs)
  {
  }

  lemma {:induction false} RunsAreReversedTo(t: Tree, k: nat)
    requires k <= |t.entries|
    ensures RunsTo(t, k) == Reverse(RegisteredTo(t, k))
    decreases t, k
  {
    hide Reverse, RunsTo, RegisteredTo, EntryRuns, EntryRegistered;
    if k == 0 {
      NothingRuns(t);
    } else {
      var e := t.entries[k - 1];
      RunsAreReversedTo(t, k - 1);
      if e.Nested? && e.child.closed.None? {
        RunsAreReversedTo(e.child, |e.child.entries|);
      }
      EntryIsReversed(e);
      RunsUnfold(t, k);
      RegisteredUnfold(t, k);
      ReverseConcat(RegisteredTo(t, k - 1), EntryRegistered(e));
    }
  }

  lemma NothingRuns(t: Tree)
    ensures RunsTo(t, 0) == Reverse(RegisteredTo(t, 0))
  {
  }

  function EntryRegistered(e: Entry): seq<nat> {
    match e
    case Disposer(effect, _, _) => [effect]
    case Nested(_, _, c) => Registered(c)
  }

  lemma RegisteredUnfold(t: Tree, k: nat)
    requires 0 < k <= |t.entries|
    ensures RegisteredTo(t, k) == RegisteredTo(t, k - 1) + EntryRegistered(t.entries[k - 1])
  {
  }

  lemma EntryIsReversed(e: Entry)
    requires e.Nested? && e.child.closed.None? ==> RunsTo(e.child, |e.child.entries|) == Reverse(RegisteredTo(e.child, |e.child.entries|))
    ensures EntryRuns(e) == Reverse(EntryRegistered(e))
  {
  }

  /** Whichever disposers fail, all run, once each, in exactly the reverse of the order they
      were registered in, nested ones included. */
  lemma RunsAreReversed(t: Tree)
    ensures Runs(t) == Reverse(Registered(t))
  {
    if t.closed.None? {
      RunsAreReversedTo(t, |t.entries|);
    }
  }

  // ---- Which failures are recorded, in which order

  function Stragglers(stubborn: seq<Id>): (r: seq<Failure>)
    ensures |r| == |stubborn|
  {
    seq(|stubborn|, i requires 0 <= i < |stubborn| => Failure("task " + stubborn[i], Timeout))
  }

  /** The last error to escape while the first `k` entries unwind; it hides the earlier ones. */
  function EscapedTo(t: Tree, k: nat): Option<Id>
    requires k <= |t.entries|
  {
    if k == 0 then None
    else
      var later := EscapedTo(t, k - 1);
      if later.Some? then later
      else match t.entries[k - 1]
        case Disposer(_, _, Escapes(e)) => Some(e)
        case _ => None
  }

  /** What unwinding the first `k` entries records on the scope: a failing disposer by itself, a
      failing child as one aggregated error. */
  function RecordedTo(t: Tree, k: nat): seq<Failure>
    requires k <= |t.entries|
    decreases t, k, 0
  {
    if k == 0 then []
    else
      var e := t.entries[k - 1];
      (match e
       case Disposer(_, description, Fails(error)) => [Failure(description, Ordinary(error))]
       case Disposer(_, _, _) => []
       case Nested(_, description, c) =>
         var reported := if c.closed.Some? then c.closed.value else ReportedTo(c, |c.entries|);
         if reported == [] then [] else [Failure(description, Aggregated(reported))])
      + RecordedTo(t, k - 1)
  }

  /** Failures before the close, then stragglers, then the unwind, then what escaped it. */
  function ReportedTo(t: Tree, k: nat): seq<Failure>
    requires k <= |t.entries|
    decreases t, k, 1
  {
    t.failures + Stragglers(t.stubborn) + RecordedTo(t, k)
    + match EscapedTo(t, k)
      case None => []
      case Some(e) => [Failure("effect unwind", Ordinary(e))]
  }

  /** What a close reports; a scope already closed reports the same again. */
  function Reported(t: Tree): seq<Failure> {
    if t.closed.Some? then t.closed.value else ReportedTo(t, |t.entries|)
  }

  /** Nothing anywhere below fails, straggles, escapes or had failed before. */
  predicate CleanTo(t: Tree, k: nat)
    requires k <= |t.entries|
    decreases t, k
  {
    k == 0 ||
    (CleanTo(t, k - 1) &&
     match t.entries[k - 1]
     case Disposer(_, _, ending) => ending == Quiet
     case Nested(_, _, c) =>
       if c.closed.Some? then c.closed.value == []
       else c.failures == [] && c.stubborn == [] && CleanTo(c, |c.entries|))
  }

  predicate Clean(t: Tree) {
    if t.closed.Some? then t.closed.value == []
    else t.failures == [] && t.stubborn == [] && CleanTo(t, |t.entries|)
  }

  lemma {:induction false} CleanRecordsNothing(t: Tree, k: nat)
    requires k <= |t.entries|
    ensures CleanTo(t, k) <==> RecordedTo(t, k) == [] && EscapedTo(t, k) == None
    decreases t, k
  {
    hide CleanTo, RecordedTo, EscapedTo, EntryRecords, EntryEscape, EntryClean;
    if k == 0 {
      NothingIsClean(t);
    } else {
      var e := t.entries[k - 1];
      CleanRecordsNothing(t, k - 1);
      CleanUnfold(t, k);
      RecordedUnfold(t, k);
      EscapedUnfold(t, k, None);
      if e.Nested? {
        CleanRecordsNothing(e.child, |e.child.entries|);
      }
      EntryIsClean(e);
    }
  }

  lemma NothingIsClean(t: Tree)
    ensures CleanTo(t, 0) && RecordedTo(t, 0) == [] && EscapedTo(t, 0) == None
  {
  }

  predicate EntryClean(e: Entry) {
    match e
    case Disposer(_, _, ending) => ending == Quiet
    case Nested(_, _, c) =>
      if c.closed.Some? then c.closed.value == []
      else c.failures == [] && c.stubborn == [] && CleanTo(c, |c.entries|)
  }

  lemma CleanUnfold(t: Tree, k: nat)
    requires 0 < k <= |t.entries|
    ensures CleanTo(t, k) <==> CleanTo(t, k - 1) && EntryClean(t.entries[k - 1])
  {
  }

  lemma EntryIsClean(e: Entry)
    requires e.Nested? ==>
      (CleanTo(e.child, |e.child.entries|) <==> RecordedTo(e.child, |e.child.entries|) == [] && EscapedTo(e.child, |e.child.entries|) == None)
    ensures EntryClean(e) <==> EntryRecords(e) == [] && EntryEscape(e, None) == None
  {
    hide CleanTo, RecordedTo, EscapedTo;
    if e.Nested? {
      ReportsNothingIff(e.child);
    }
  }

  lemma ReportsNothingIff(t: Tree)
    ensures ReportedTo(t, |t.entries|) == [] <==>
      t.failures == [] && t.stubborn == [] && RecordedTo(t, |t.entries|) == [] && EscapedTo(t, |t.entries|) == None
  {
    hide RecordedTo, EscapedTo;
  }

  /** A failure anywhere in the tree reaches the report of its root. */
  lemma NothingReportedIffClean(t: Tree)
    ensures Reported(t) == [] <==> Clean(t)
  {
    if t.closed.None? {
      CleanRecordsNothing(t, |t.entries|);
    }
  }

  /** Effects that some entry will release. */
  function Releasable(entries: seq<Entry>): set<nat> {
    set e | e in entries :: e.effect
  }

  lemma ReleasableMeans(entries: seq<Entry>, effect: nat)
    ensures effect in Releasable(entries) <==> exists i :: 0 <= i < |entries| && entries[i].effect == effect
  {
    if i :| 0 <= i < |entries| && entries[i].effect == effect {
      assert entries[i] in entries;
    }
  }

  /** A scope is fully disposed exactly when nothing failed or straggled anywhere in it and it
      owned no effect that nothing would release. */
  lemma FullyDisposedIff(t: Tree, failures: seq<Failure>)
    requires t.closed.None? && failures == Reported(t)
    ensures t.stubborn == [] && t.effects - Releasable(t.entries) == {} && failures == []
       <==> Clean(t) && t.effects <= Releasable(t.entries)
  {
    NothingReportedIffClean(t);
    EmptyDifference(t.effects, Releasable(t.entries));
  }

  // ---- One entry at a time

  function EntryRuns(e: Entry): seq<nat> {
    match e
    case Disposer(effect, _, _) => [effect]
    case Nested(_, _, c) => Runs(c)
  }

  function EntryRecords(e: Entry): seq<Failure> {
    match e
    case Disposer(_, description, Fails(error)) => [Failure(description, Ordinary(error))]
    case Disposer(_, _, _) => []
    case Nested(_, description, c) =>
      if Reported(c) == [] then [] else [Failure(description, Aggregated(Reported(c)))]
  }

  function EntryEscape(e: Entry, before: Option<Id>): Option<Id> {
    match e
    case Disposer(_, _, Escapes(error)) => Some(error)
    case _ => before
  }

  /** What a close changes about a scope and the world, while it unwinds. */
  datatype Effect = Effect(runs: seq<nat>, failures: seq<Failure>, escaped: Option<Id>, effects: set<nat>)
  {
    function After(e: Entry): Effect {
      Effect(runs + EntryRuns(e), failures + EntryRecords(e), EntryEscape(e, escaped), effects - {e.effect})
    }

    function AfterFirst(t: Tree, k: nat): Effect
      requires k <= |t.entries|
    {
      Effect(runs + RunsTo(t, k), failures + RecordedTo(t, k),
             if EscapedTo(t, k).Some? then EscapedTo(t, k) else escaped, effects - Releasable(t.entries[..k]))
    }
  }

  lemma RunsUnfold(t: Tree, k: nat)
    requires 0 < k <= |t.entries|
    ensures RunsTo(t, k) == EntryRuns(t.entries[k - 1]) + RunsTo(t, k - 1)
  {
  }

  lemma RecordedUnfold(t: Tree, k: nat)
    requires 0 < k <= |t.entries|
    ensures RecordedTo(t, k) == EntryRecords(t.entries[k - 1]) + RecordedTo(t, k - 1)
  {
  }

  /** The failures of the first `k` entries in the order those were registered in. */
  function FailingTo(t: Tree, k: nat): seq<Failure>
    requires k <= |t.entries|
  {
    if k == 0 then [] else FailingTo(t, k - 1) + EntryRecords(t.entries[k - 1])
  }

  lemma {:induction false} RecordedAreReversedTo(t: Tree, k: nat)
    requires k <= |t.entries|
    ensures RecordedTo(t, k) == Reverse(FailingTo(t, k))
    decreases k
  {
    hide EntryRecords, RecordedTo, Reverse;
    if k == 0 {
      NothingRecorded(t);
    } else {
      var e := EntryRecords(t.entries[k - 1]);
      RecordedAreReversedTo(t, k - 1);
      RecordedUnfold(t, k);
      ReverseConcat(FailingTo(t, k - 1), e);
      RecordedAtMostOnce(t.entries[k - 1]);
    }
  }

  lemma NothingRecorded(t: Tree)
    ensures RecordedTo(t, 0) == Reverse([])
  {
  }

  lemma RecordedAtMostOnce(e: Entry)
    ensures Reverse(EntryRecords(e)) == EntryRecords(e)
  {
  }

  /** A close reports what had failed before, the stragglers, the unwind's failures in unwind
      order, and last an error that escaped. */
  lemma ReportedInUnwindOrder(t: Tree)
    requires t.closed.None?
    ensures t.failures + Stragglers(t.stubborn) + Reverse(FailingTo(t, |t.entries|)) <= Reported(t)
    ensures |Reported(t)| == |t.failures| + |t.stubborn| + |FailingTo(t, |t.entries|)| + if EscapedTo(t, |t.entries|).Some? then 1 else 0
  {
    RecordedAreReversedTo(t, |t.entries|);
  }

  lemma EscapedUnfold(t: Tree, k: nat, before: Option<Id>)
    requires 0 < k <= |t.entries|
    ensures (if EscapedTo(t, k).Some? then EscapedTo(t, k) else before)
         == if EscapedTo(t, k - 1).Some? then EscapedTo(t, k - 1) else EntryEscape(t.entries[k - 1], before)
  {
  }

  lemma ReleasableUnfold(t: Tree, k: nat, effects: set<nat>)
    requires 0 < k <= |t.entries|
    ensures effects - Releasable(t.entries[..k]) == effects - {t.entries[k - 1].effect} - Releasable(t.entries[..k - 1])
  {
    assert t.entries[..k] == t.entries[..k - 1] + [t.entries[k - 1]];
  }

  lemma Associative<T>(a: seq<T>, b: seq<T>, c: seq<T>)
    ensures a + (b + c) == (a + b) + c
  {
  }

  lemma Unfolds(t: Tree, k: nat, e: Effect)
    requires 0 < k <= |t.entries|
    ensures e.AfterFirst(t, k) == e.After(t.entries[k - 1]).AfterFirst(t, k - 1)
  {
    RunsUnfold(t, k);
    RecordedUnfold(t, k);
    EscapedUnfold(t, k, e.escaped);
    ReleasableUnfold(t, k, e.effects);
    hide RunsTo, RecordedTo, EscapedTo, Releasable, EntryRuns, EntryRecords, EntryEscape;
    Associative(e.runs, EntryRuns(t.entries[k - 1]), RunsTo(t, k - 1));
    Associative(e.failures, EntryRecords(t.entries[k - 1]), RecordedTo(t, k - 1));
  }

  lemma NothingToUnwind(t: Tree, e: Effect)
    ensures e.AfterFirst(t, 0) == e
  {
  }

  // ---- Entry by entry

  lemma {:induction false} SameRunsTo(t: Tree, u: Tree, k: nat)
    requires k <= |t.entries| && k <= |u.entries| && t.entries[..k] == u.entries[..k]
    ensures RunsTo(t, k) == RunsTo(u, k)
    decreases k
  {
    hide RunsTo, EntryRuns;
    if k == 0 {
      NoRuns(t);
      NoRuns(u);
    } else {
      assert t.entries[..k - 1] == t.entries[..k][..k - 1] == u.entries[..k][..k - 1] == u.entries[..k - 1];
      assert t.entries[k - 1] == t.entries[..k][k - 1] == u.entries[..k][k - 1] == u.entries[k - 1];
      SameRunsTo(t, u, k - 1);
      RunsUnfold(t, k);
      RunsUnfold(u, k);
    }
  }

  lemma NoRuns(t: Tree)
    ensures RunsTo(t, 0) == []
  {
  }

  /** What is registered last is unwound first, a disposer by running, a child by its whole unwind;
      a closed scope has nothing left to run. */
  lemma NewestRunsFirst(t: Tree, effect: nat, description: string, ending: Ending, child: Tree)
    requires t.closed.None?
    ensures Runs(t.(entries := t.entries + [Disposer(effect, description, ending)])) == [effect] + Runs(t)
    ensures Runs(t.(entries := t.entries + [Nested(effect, description, child)])) == Runs(child) + Runs(t)
    ensures Runs(t.(entries := [])) == [] && Runs(t.(closed := Some([]))) == []
  {
    var n := |t.entries|;
    var d, c := t.(entries := t.entries + [Disposer(effect, description, ending)]), t.(entries := t.entries + [Nested(effect, description, child)]);
    assert d.entries[..n] == t.entries[..n] && c.entries[..n] == t.entries[..n];
    SameRunsTo(d, t, n);
    SameRunsTo(c, t, n);
    RunsUnfold(d, n + 1);
    RunsUnfold(c, n + 1);
    NoRuns(t.(entries := []));
  }

  /** How an entry's failure is reported. */
  ghost predicate FailsAs(e: Entry, f: Failure) {
    || (e.Disposer? && e.ending.Fails? && f == Failure(e.description, Ordinary(e.ending.error)))
    || (e.Nested? && Reported(e.child) != [] && f == Failure(e.description, Aggregated(Reported(e.child))))
  }

  predicate EscapesFrom(e: Entry) {
    e.Disposer? && e.ending.Escapes?
  }

  /** The entry whose error escapes the unwind: the earliest registered, hence the last to run. */
  predicate EscapesLast(t: Tree, i: nat) {
    i < |t.entries| && EscapesFrom(t.entries[i]) && forall j :: 0 <= j < i ==> !EscapesFrom(t.entries[j])
  }

  lemma {:induction false} RecordedMeans(t: Tree, k: nat, f: Failure)
    requires k <= |t.entries|
    ensures f in RecordedTo(t, k) <==> exists i :: 0 <= i < k && FailsAs(t.entries[i], f)
    decreases k
  {
    hide RecordedTo, FailsAs, EntryRecords;
    if k == 0 {
      NothingRecorded(t);
    } else {
      RecordedMeans(t, k - 1, f);
      RecordedUnfold(t, k);
      EntryFailsAs(t.entries[k - 1], f);
    }
  }

  lemma EntryFailsAs(e: Entry, f: Failure)
    ensures f in EntryRecords(e) <==> FailsAs(e, f)
  {
    hide Reported;
  }

  lemma {:induction false} EscapedMeans(t: Tree, k: nat)
    requires k <= |t.entries|
    ensures EscapedTo(t, k) == None <==> forall j :: 0 <= j < k ==> !EscapesFrom(t.entries[j])
    ensures forall i: nat :: i < k && EscapesLast(t, i) ==> EscapedTo(t, k) == Some(t.entries[i].ending.escaped)
    decreases k
  {
    if k > 0 {
      EscapedMeans(t, k - 1);
      EscapedUnfold(t, k, None);
      hide EscapedTo;
    }
  }

  /** What a close reports: what had failed before, each task that will not stop, each disposer and
      each child that fails, and the error that escapes - nothing else. */
  lemma ReportedMeans(t: Tree, f: Failure)
    requires t.closed.None?
    ensures f in Reported(t) <==>
      || f in t.failures
      || (exists i :: 0 <= i < |t.stubborn| && f == Failure("task " + t.stubborn[i], Timeout))
      || (exists i :: 0 <= i < |t.entries| && FailsAs(t.entries[i], f))
      || (exists i: nat :: EscapesLast(t, i) && f == Failure("effect unwind", Ordinary(t.entries[i].ending.escaped)))
  {
    hide RecordedTo, EscapedTo, FailsAs, Stragglers, EscapesFrom;
    var n := |t.entries|;
    RecordedMeans(t, n, f);
    EscapedMeans(t, n);
    StragglersMean(t.stubborn, f);
    EscapeIsReported(t, f);
  }

  lemma StragglersMean(stubborn: seq<Id>, f: Failure)
    ensures f in Stragglers(stubborn) <==> exists i :: 0 <= i < |stubborn| && f == Failure("task " + stubborn[i], Timeout)
    ensures forall i :: 0 <= i < |stubborn| ==> Stragglers(stubborn)[i] == Failure("task " + stubborn[i], Timeout)
  {
    var r := Stragglers(stubborn);
    forall i | 0 <= i < |stubborn| ensures r[i] in r && r[i] == Failure("task " + stubborn[i], Timeout) {}
    if f in r {
      var i :| 0 <= i < |r| && r[i] == f;
      assert f == Failure("task " + stubborn[i], Timeout);
    }
  }

  lemma EscapeIsReported(t: Tree, f: Failure)
    ensures (EscapedTo(t, |t.entries|).Some? && f == Failure("effect unwind", Ordinary(EscapedTo(t, |t.entries|).value))) <==>
      exists i: nat :: EscapesLast(t, i) && f == Failure("effect unwind", Ordinary(t.entries[i].ending.escaped))
  {
    var n := |t.entries|;
    EscapedMeans(t, n);
    hide EscapedTo, EscapesFrom;
    if EscapedTo(t, n).Some? {
      var i := FirstEscape(t, n);
    }
  }

  lemma {:induction false} FirstEscape(t: Tree, k: nat) returns (i: nat)
    requires k <= |t.entries| && exists j :: 0 <= j < k && EscapesFrom(t.entries[j])
    ensures EscapesLast(t, i)
    decreases k
  {
    if exists j :: 0 <= j < k - 1 && EscapesFrom(t.entries[j]) {
      i := FirstEscape(t, k - 1);
    } else {
      i := k - 1;
    }
  }
}
