/** Scopes as linked objects: each owns its disposers and its children, and closes them in
    reverse. */
module Ownership {
  import opened Wrappers
  import opened Ordering
  import Unwinding

  /** The outside world, as far as disposers reach it: which of them ran. */
  class Journal {
    var runs: seq<nat>

    constructor ()
      ensures runs == []
    {
      runs := [];
    }
  }

  datatype ScopeState = Open | Closing | Closed

  datatype Entry =
    | Disposer(effect: nat, description: string, ending: Unwinding.Ending)
    | Nested(effect: nat, description: string, child: Scope)

  class Scope {
    const journal: Journal
    var state: ScopeState
    /** The exit stack. */
    var stack: seq<Entry>
    var children: seq<Scope>
    var effects: set<nat>
    var failures: seq<Unwinding.Failure>
    /** Owned tasks that will not stop in time; after the close, the stragglers. */
    var stubborn: seq<Id>
    var stragglers: seq<Id>
    /** What the one close task ended with: the failures it raised, or none. */
    var closeTask: Option<seq<Unwinding.Failure>>
    ghost var repr: set<Scope>

    constructor (journal: Journal)
      ensures Valid() && fresh(repr) && repr == {this} && this.journal == journal && state == Open
      ensures View() == Unwinding.Tree([], {}, [], [], None)
    {
      this.journal := journal;
      state, stack, children, effects := Open, [], [], {};
      failures, stubborn, stragglers, closeTask := [], [], [], None;
      repr := {this};
    }

    /** The stack holds linked children at rest, with disjoint footprints. */
    ghost predicate Linked()
      reads this, repr
      decreases repr
    {
      && this in repr
      && (forall i :: 0 <= i < |stack| && stack[i].Nested? ==>
            var c := stack[i].child;
            c in repr && c.repr <= repr && this !in c.repr && c.journal == journal && c.Linked() && c.AtRest())
      && (forall i, j :: 0 <= i < j < |stack| && stack[i].Nested? && stack[j].Nested? ==>
            stack[i].child.repr !! stack[j].child.repr)
    }

    /** Not in the middle of a close. */
    ghost predicate AtRest()
      reads this
    {
      state != Closing && (closeTask.Some? <==> state == Closed)
    }

    ghost predicate Valid()
      reads this, repr
    {
      Linked() && AtRest()
    }

    ghost function EntryAt(i: nat): Unwinding.Entry
      requires Linked() && i < |stack|
      reads this, repr
      decreases repr, 0
    {
      if stack[i].Disposer?
      then Unwinding.Disposer(stack[i].effect, stack[i].description, stack[i].ending)
      else Unwinding.Nested(stack[i].effect, stack[i].description, stack[i].child.View())
    }

    ghost function View(): (t: Unwinding.Tree)
      requires Linked()
      reads this, repr
      decreases repr, 1
    {
      Unwinding.Tree(
        seq(|stack|, i requires 0 <= i < |stack| && Linked() reads this, repr => EntryAt(i)),
        effects, failures, stubborn, closeTask)
    }

    predicate FullyDisposed()
      reads this
    {
      state == Closed && stragglers == [] && effects == {} && failures == []
    }

    // ---- Registration, refused once the close began

    method RegisterEffect(effect: nat) returns (ok: bool)
      requires Valid()
      modifies this`effects
      ensures Valid() && (ok <==> state == Open)
      ensures View() == old(View()).(effects := old(effects) + if ok then {effect} else {})
    {
      if state != Open { return false; }
      effects := effects + {effect};
      ok := true;
    }

    /** Forget an effect reverted by hand. */
    method ReleaseEffect(effect: nat)
      requires Valid()
      modifies this`effects
      ensures Valid() && View() == old(View()).(effects := old(effects) - {effect})
    {
      effects := effects - {effect};
    }

    method Cleanup(effect: nat, description: string, ending: Unwinding.Ending) returns (ok: bool)
      requires Valid()
      modifies this`effects, this`stack
      ensures Valid() && (ok <==> state == Open)
      ensures !ok ==> View() == old(View())
      ensures ok ==> View() == old(View()).(effects := old(effects) + {effect},
        entries := old(View()).entries + [Unwinding.Disposer(effect, description, ending)])
    {
      if state != Open { return false; }
      effects := effects + {effect};
      stack := stack + [Disposer(effect, description, ending)];
      ok := true;
      assert View().entries == old(View()).entries + [Unwinding.Disposer(effect, description, ending)];
    }

    method Child(effect: nat, description: string) returns (child: Scope?)
      requires Valid()
      modifies this`effects, this`stack, this`children, this`repr
      ensures Valid() && (child != null <==> old(state) == Open)
      ensures child == null ==> View() == old(View())
      ensures child != null ==>
        && fresh(child) && child.Valid() && child.View() == Unwinding.Tree([], {}, [], [], None)
        && View() == old(View()).(effects := old(effects) + {effect},
             entries := old(View()).entries + [Unwinding.Nested(effect, description, child.View())])
    {
      child := null;
      if state != Open { return; }
      child := new Scope(journal);
      Adopt(effect, description, child);
    }

    method Adopt(effect: nat, description: string, child: Scope)
      requires Valid() && child.Valid() && child.repr !! repr && child.journal == journal
      modifies this`effects, this`stack, this`children, this`repr
      ensures Valid() && state == old(state) && child.Valid() && child.View() == old(child.View())
      ensures View() == old(View()).(effects := old(effects) + {effect},
        entries := old(View()).entries + [Unwinding.Nested(effect, description, child.View())])
    {
      children := children + [child];
      effects := effects + {effect};
      stack := stack + [Nested(effect, description, child)];
      repr := repr + child.repr;
      assert View().entries == old(View()).entries + [Unwinding.Nested(effect, description, child.View())];
    }

    // ---- Closing

    /** A scope closes once: the first close unwinds everything below, any later one only
        reports again. Returns the failures it raises. */
    method Close() returns (raised: seq<Unwinding.Failure>)
      requires Valid()
      modifies repr, journal
      ensures Valid() && repr == old(repr) && state == Closed
      ensures raised == Unwinding.Reported(old(View()))
      ensures journal.runs == old(journal.runs) + Unwinding.Runs(old(View()))
      ensures closeTask == Some(raised) && View().closed == Some(raised)
      ensures old(state) == Closed ==> View() == old(View())
      ensures old(state) == Open ==>
        && failures == raised && stragglers == old(stubborn) && stack == []
        && effects == old(effects) - Unwinding.Releasable(old(View()).entries)
      ensures old(state) == Open ==>
        (FullyDisposed() <==> Unwinding.Clean(old(View())) && old(effects) <= Unwinding.Releasable(old(View()).entries))
      decreases repr, 3
    {
      if closeTask.Some? {
        return closeTask.value;
      }
      ghost var t := View();
      CloseOpen(t);
      raised := failures;
      Unwinding.FullyDisposedIff(t, failures);
      hide *;
    }

    /** The body of the close task. */
    method CloseOpen(ghost t: Unwinding.Tree)
      requires Valid() && state == Open && t == View()
      modifies repr, journal
      ensures Valid() && repr == old(repr) && state == Closed && stack == [] && closeTask == Some(failures)
      ensures stragglers == old(stubborn)
      ensures failures == Unwinding.Reported(t)
      ensures journal.runs == old(journal.runs) + Unwinding.Runs(t)
      ensures effects == old(effects) - Unwinding.Releasable(t.entries)
      decreases repr, 2
    {
      BeginClose();
      var escaped := Unwind(t);
      assert t.entries[..|t.entries|] == t.entries;
      if escaped.Some? {
        failures := failures + [Unwinding.Failure("effect unwind", Unwinding.Ordinary(escaped.value))];
      }
      state := Closed;
      closeTask := Some(failures);
    }

    /** The exit stack's loop, newest entry first; `t` is the scope as the close found it. */
    method Unwind(ghost t: Unwinding.Tree) returns (escaped: Option<Id>)
      requires Linked() && state == Closing && |stack| == |t.entries|
      requires forall i :: 0 <= i < |stack| ==> EntryAt(i) == t.entries[i]
      modifies repr, journal
      ensures Linked() && repr == old(repr) && stack == []
      ensures state == Closing && stubborn == old(stubborn) && stragglers == old(stragglers) && closeTask == old(closeTask)
      ensures Unwinding.Effect(journal.runs, failures, escaped, effects)
           == Unwinding.Effect(old(journal.runs), old(failures), None, old(effects)).AfterFirst(t, |t.entries|)
      decreases repr, 1
    {
      escaped := None;
      ghost var before := Unwinding.Effect(journal.runs, failures, escaped, effects);
      assert t.entries[..|t.entries|] == t.entries;
      ghost var after := before.AfterFirst(t, |t.entries|);
      hide *;
      while stack != []
        invariant |stack| <= |t.entries|
        invariant Linked() && repr == old(repr)
        invariant state == Closing && stubborn == old(stubborn) && stragglers == old(stragglers) && closeTask == old(closeTask)
        invariant forall i :: 0 <= i < |stack| ==> EntryAt(i) == t.entries[i]
        invariant Unwinding.Effect(journal.runs, failures, escaped, effects).AfterFirst(t, |stack|) == after
        decreases |stack|
      {
        Unwinding.Unfolds(t, |stack|, Unwinding.Effect(journal.runs, failures, escaped, effects));
        escaped := DisposeLast(t, escaped);
      }
      Unwinding.NothingToUnwind(t, Unwinding.Effect(journal.runs, failures, escaped, effects));
    }

    /** One entry: release its effect, then run it; only an escaping error gets past this. */
    method DisposeLast(ghost t: Unwinding.Tree, before: Option<Id>) returns (escaped: Option<Id>)
      requires Linked() && state == Closing && 0 < |stack| <= |t.entries|
      requires forall i :: 0 <= i < |stack| ==> EntryAt(i) == t.entries[i]
      modifies repr, journal
      ensures Linked() && repr == old(repr) && |stack| + 1 == old(|stack|)
      ensures state == Closing && stubborn == old(stubborn) && stragglers == old(stragglers) && closeTask == old(closeTask)
      ensures forall i :: 0 <= i < |stack| ==> EntryAt(i) == t.entries[i]
      ensures Unwinding.Effect(journal.runs, failures, escaped, effects)
           == Unwinding.Effect(old(journal.runs), old(failures), before, old(effects)).After(t.entries[|stack|])
      decreases repr, 0
    {
      var n := |stack| - 1;
      var e := stack[n];
      assert EntryAt(n) == t.entries[n];
      escaped := before;
      match e
      case Disposer(effect, description, ending) =>
        Pop();
        journal.runs := journal.runs + [effect];
        match ending {
          case Quiet =>
          case Fails(error) => failures := failures + [Unwinding.Failure(description, Unwinding.Ordinary(error))];
          case Escapes(error) => escaped := Some(error);
        }
      case Nested(effect, description, child) =>
        ghost var c := child.View();
        Pop();
        assert child.View() == c && t.entries[n] == Unwinding.Nested(effect, description, c);
        hide Unwinding.Runs, Unwinding.Reported;
        CloseChild(child, description);
    }

    /** A child that fails to close is one failure of its owner. */
    method CloseChild(child: Scope, description: string)
      requires Linked() && state == Closing && child.Linked() && child.AtRest()
      requires child.repr < repr && this !in child.repr && child.journal == journal
      requires forall i :: 0 <= i < |stack| && stack[i].Nested? ==> stack[i].child.repr !! child.repr
      modifies child.repr, journal, this`failures
      ensures Linked() && (forall i :: 0 <= i < |stack| ==> EntryAt(i) == old(EntryAt(i)))
      ensures journal.runs == old(journal.runs) + Unwinding.Runs(old(child.View()))
      ensures failures == old(failures) +
        if Unwinding.Reported(old(child.View())) == [] then []
        else [Unwinding.Failure(description, Unwinding.Aggregated(Unwinding.Reported(old(child.View()))))]
      decreases child.repr, 4
    {
      var raised := child.Close();
      if raised != [] {
        failures := failures + [Unwinding.Failure(description, Unwinding.Aggregated(raised))];
      }
    }

    method BeginClose()
      requires Valid() && state == Open
      modifies this`state, this`stragglers, this`failures, this`stubborn
      ensures Linked() && state == Closing && stragglers == old(stubborn) && stubborn == []
      ensures failures == old(failures) + Unwinding.Stragglers(old(stubborn))
      ensures forall i :: 0 <= i < |stack| ==> EntryAt(i) == old(EntryAt(i))
    {
      state := Closing;
      stragglers := stubborn;
      failures := failures + Unwinding.Stragglers(stubborn);
      stubborn := [];
    }

    method Pop()
      requires Linked() && stack != []
      modifies this`stack, this`effects
      ensures Linked() && stack == old(stack)[..|old(stack)| - 1]
      ensures effects == old(effects) - {old(stack)[|stack|].effect}
      ensures forall i :: 0 <= i < |stack| ==> EntryAt(i) == old(EntryAt(i))
    {
      var n := |stack| - 1;
      effects := effects - {stack[n].effect};
      stack := stack[..n];
    }
  }
}
