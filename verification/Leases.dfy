/** The objects behind the generations: accounting, generation and manager, each method tied to
    the value-level operation it performs. */
module Leases {
  import opened Wrappers
  import opened Ordering
  import opened Generations

  datatype ReleaseOutcome = UnknownLease | Held(idle: bool)

  class GenerationAccounting {
    var state: GenerationState
    var leases: nat
    /** The idle event; a waiter passes when `leases` is zero or the event is set. */
    var zero: bool
    var starts: map<nat, real>
    var nextLease: nat

    constructor ()
      ensures Valid() && state == Building && starts == map[] && nextLease == 0
    {
      state, leases, zero, starts, nextLease := Building, 0, false, map[], 0;
    }

    ghost predicate Valid()
      reads this
    {
      && leases == |starts|
      && (zero ==> leases == 0)
      && forall l :: l in starts ==> l < nextLease
    }

    /** Lease ids are never reused. */
    method Acquire(now: real) returns (lease: nat)
      requires Valid()
      modifies `leases, `zero, `starts, `nextLease
      ensures Valid() && lease !in old(starts) && lease == old(nextLease)
      ensures starts == old(starts)[lease := now] && nextLease == old(nextLease) + 1 && leases == old(leases) + 1
    {
      if leases == 0 { zero := false; }
      lease := nextLease;
      nextLease := nextLease + 1;
      starts := starts[lease := now];
      leases := leases + 1;
    }

    /** A lease that is not outstanding is refused and changes nothing. */
    method Release(lease: nat) returns (r: ReleaseOutcome)
      requires Valid()
      modifies `leases, `zero, `starts
      ensures Valid()
      ensures r == UnknownLease <==> lease !in old(starts)
      ensures r == UnknownLease ==> starts == old(starts) && leases == old(leases) && zero == old(zero)
      ensures r.Held? ==> starts == old(starts) - {lease} && leases + 1 == old(leases)
      ensures r.Held? ==> (r.idle <==> starts == map[]) && (zero <==> r.idle)
    {
      if lease !in starts { return UnknownLease; }
      starts := starts - {lease};
      leases := leases - 1;
      if leases == 0 {
        zero := true;
        return Held(true);
      }
      assert starts != map[];
      return Held(false);
    }

    /** Whether a waiter for idleness may pass: exactly when nothing is leased. */
    method MayPass() returns (pass: bool)
      requires Valid()
      ensures pass <==> starts == map[]
    {
      pass := leases == 0 || zero;
    }
  }

  class RuntimeGeneration {
    const sequence: nat
    const instances: set<Id>
    const accounting: GenerationAccounting

    constructor (sequence: nat, instances: set<Id>)
      ensures this.sequence == sequence && this.instances == instances && fresh(accounting) && accounting.Valid()
      ensures View() == Gen(Building, instances, map[], 0)
    {
      this.sequence, this.instances := sequence, instances;
      accounting := new GenerationAccounting();
    }

    ghost function View(): Gen
      reads accounting
    {
      Gen(accounting.state, instances, accounting.starts, accounting.nextLease)
    }
  }

  class GenerationManager {
    var current: RuntimeGeneration?
    /** A dictionary in insertion order, keyed by generation. */
    var draining: seq<RuntimeGeneration>
    var retired: seq<RuntimeGeneration>
    var evicted: nat
    var shuttingDown: bool
    const limit: nat
    /** Every generation ever built, in sequence. */
    ghost var all: seq<RuntimeGeneration>
    var counter: nat

    constructor (limit: nat)
      ensures Valid() && all == []
      ensures View() == Manager([], None, [], [], 0, false, limit) && View().Sane()
    {
      current, draining, retired, evicted, shuttingDown := null, [], [], 0, false;
      this.limit := limit;
      all, counter := [], 0;
      new;
      assert View().RetiredSet() == {};
    }

    ghost function Accountings(): set<object>
      reads this
    {
      set i | 0 <= i < |all| :: all[i].accounting
    }

    ghost predicate Valid()
      reads this, Accountings()
    {
      && counter == |all|
      && (forall i :: 0 <= i < |all| ==> all[i].sequence == i && all[i].accounting.Valid())
      && (forall i, j :: 0 <= i < j < |all| ==> all[i].accounting != all[j].accounting)
      && (current != null ==> current in all)
      && (forall g :: g in draining ==> g in all)
      && (forall g :: g in retired ==> g in all)
    }

    ghost function View(): Manager
      reads this, Accountings()
    {
      Manager(
        seq(|all|, i requires 0 <= i < |all| reads this, Accountings() => all[i].View()),
        if current == null then None else Some(current.sequence),
        Sequences(draining), Sequences(retired), evicted, shuttingDown, limit)
    }

    /** The generation object of a known sequence number stands where its number says. */
    lemma Known(g: RuntimeGeneration)
      requires Valid() && g in all
      ensures g.sequence < |all| && all[g.sequence] == g && g.accounting in Accountings() && g.accounting.Valid()
    {
    }

    method Build(instances: set<Id>) returns (g: RuntimeGeneration)
      requires Valid()
      modifies `counter, `all
      ensures Valid() && fresh(g) && fresh(g.accounting) && all == old(all) + [g]
      ensures View() == old(View()).Built(instances)
    {
      g := new RuntimeGeneration(counter, instances);
      counter := counter + 1;
      all := all + [g];
    }

    /** Writing one generation's state shows up in its entry of the view and nowhere else. */
    method SetState(g: RuntimeGeneration, state: GenerationState)
      requires Valid() && g in all
      modifies g.accounting`state
      ensures Valid()
      ensures g.sequence < |all| && View() == old(View()).(gens := old(View()).gens[g.sequence := old(g.View()).(state := state)])
    {
      Known(g);
      assert forall i :: 0 <= i < |all| && i != g.sequence ==> all[i].accounting != g.accounting;
      g.accounting.state := state;
      assert View().gens == old(View()).gens[g.sequence := old(g.View()).(state := state)];
    }

    method StartDraining(g: RuntimeGeneration)
      requires Valid() && g in all
      modifies `draining, g.accounting`state
      ensures Valid()
      ensures g.sequence < |all| && View() == old(View()).(
        gens := old(View()).gens[g.sequence := old(g.View()).(state := Draining)],
        draining := old(View()).draining + [g.sequence])
    {
      SetState(g, Draining);
      draining := draining + [g];
      assert Sequences(draining) == old(View()).draining + [g.sequence];
      assert forall x :: x in draining ==> x in old(draining) || x == g;
    }

    method MakeCurrent(g: RuntimeGeneration)
      requires Valid() && g in all
      modifies `current, g.accounting`state
      ensures Valid() && current == g
      ensures g.sequence < |all| && View() == old(View()).(
        gens := old(View()).gens[g.sequence := old(g.View()).(state := Current)], current := Some(g.sequence))
    {
      SetState(g, Current);
      current := g;
    }

    lemma ViewAt(g: RuntimeGeneration)
      requires Valid() && g in all
      ensures g.sequence < |View().gens| && View().gens[g.sequence] == g.View()
    {
    }

    /** Refuses anything but a building generation; otherwise the outgoing one starts draining
        before the new one becomes current. */
    method Publish(g: RuntimeGeneration) returns (published: bool, previous: RuntimeGeneration?)
      requires Valid() && g in all && View().Sane()
      modifies `current, `draining, Accountings()
      ensures Valid() && all == old(all)
      ensures published <==> old(g.accounting.state) == Building
      ensures previous == if published then old(current) else null
      ensures g.sequence < |all| && View() == if published then old(View()).Published(g.sequence) else old(View())
    {
      Known(g);
      ViewAt(g);
      if g.accounting.state != Building { return false, null; }
      previous := current;
      if previous != null {
        Known(previous);
        ViewAt(previous);
        assert View().gens[previous.sequence].state == Current;
        hide Manager.Sane, Valid;
        StartDraining(previous);
      }
      hide Manager.Sane, Valid, View;
      ViewAt(g);
      MakeCurrent(g);
      published := true;
    }

    /** Already retired is no change; current, or leased outside shutdown, is refused. */
    method Retire(g: RuntimeGeneration) returns (done: bool, conflict: bool)
      requires Valid() && g in all && View().Sane()
      modifies `draining, `retired, `evicted, g.accounting`state
      ensures Valid()
      ensures g.sequence < |old(View()).gens|
      ensures done <==> old(View()).Retirable(g.sequence)
      ensures done <==>
        && old(g.accounting.state) != Retired && old(g.accounting.state) != Current
        && (old(g.accounting.starts) == map[] || old(shuttingDown))
      ensures conflict <==> !done && old(g.accounting.state) != Retired
      ensures View() == if done then old(View()).Retiring(g.sequence) else old(View())
    {
      Known(g);
      ViewAt(g);
      LeasedMeans(g);
      if g.accounting.state == Retired { return false, false; }
      if g.accounting.state == Current { return false, true; }
      if g.accounting.leases > 0 && !shuttingDown { return false, true; }
      hide Manager.Sane;
      MoveToRetired(g);
      done, conflict := true, false;
    }

    lemma LeasedMeans(g: RuntimeGeneration)
      requires g.accounting.Valid()
      ensures g.View().Leased() <==> g.accounting.leases > 0
    {
      assert g.accounting.starts == map[] <==> g.accounting.leases == 0 by {
        if g.accounting.starts != map[] {
          assert g.accounting.starts.Keys != {};
          assert |g.accounting.starts| == |g.accounting.starts.Keys|;
        }
      }
    }

    method StopDraining(g: RuntimeGeneration)
      requires Valid()
      modifies `draining
      ensures Valid() && View() == old(View()).(draining := Without(old(View()).draining, g.sequence))
    {
      draining := WithoutGeneration(draining, g.sequence);
    }

    /** Append to the diagnostics buffer, dropping the oldest beyond its limit. */
    method Remember(g: RuntimeGeneration)
      requires Valid() && g in all
      modifies `retired, `evicted
      ensures Valid()
      ensures var kept := old(View()).retired + [g.sequence];
        var overflow := if |kept| > limit then |kept| - limit else 0;
        View() == old(View()).(retired := kept[overflow..], evicted := old(evicted) + overflow)
    {
      var kept := retired + [g];
      var overflow := if |kept| > limit then |kept| - limit else 0;
      BufferSequences(retired, g, overflow);
      SetBuffer(kept[overflow..], overflow);
    }

    method SetBuffer(buffer: seq<RuntimeGeneration>, overflow: nat)
      requires Valid() && forall i :: 0 <= i < |buffer| ==> buffer[i] in all
      modifies `retired, `evicted
      ensures Valid() && View() == old(View()).(retired := Sequences(buffer), evicted := old(evicted) + overflow)
    {
      retired := buffer;
      evicted := evicted + overflow;
    }

    method MoveToRetired(g: RuntimeGeneration)
      requires Valid() && g in all
      modifies `draining, `retired, `evicted, g.accounting`state
      ensures Valid() && g.sequence < |old(View()).gens| && View() == old(View()).Retiring(g.sequence)
    {
      ViewAt(g);
      hide Valid, View;
      SetState(g, Retired);
      StopDraining(g);
      Remember(g);
    }

    method AcquireLease(now: real) returns (lease: Option<(RuntimeGeneration, nat)>)
      requires Valid() && View().Sane()
      modifies Accountings()
      ensures Valid() && all == old(all) && current == old(current)
      ensures lease.Some? <==> old(View()).current.Some?
      ensures lease.None? ==> View() == old(View())
      ensures lease.Some? ==>
        && lease.value.0 == current && lease.value.0 in all
        && lease.value.0.sequence < |old(View()).gens|
        && lease.value.1 == old(View()).gens[lease.value.0.sequence].next
        && View() == old(View()).Acquired(now)
    {
      if current == null { return None; }
      var g := current;
      Known(g);
      ViewAt(g);
      assert View().gens[g.sequence].state == Current;
      hide Manager.Sane;
      if g.accounting.state != Current { return None; }
      var id := Lease(g, now);
      lease := Some((g, id));
    }

    method Lease(g: RuntimeGeneration, now: real) returns (id: nat)
      requires Valid() && g in all
      modifies g.accounting
      ensures Valid() && g.sequence < |old(View()).gens| && id == old(View()).gens[g.sequence].next
      ensures View() == old(View()).(gens := old(View()).gens[g.sequence := old(View()).gens[g.sequence].Acquired(now)])
    {
      Known(g);
      ViewAt(g);
      assert forall i :: 0 <= i < |all| && i != g.sequence ==> all[i].accounting != g.accounting;
      id := g.accounting.Acquire(now);
      assert View().gens == old(View()).gens[g.sequence := old(View()).gens[g.sequence].Acquired(now)];
    }

    /** Says whether this was the last lease of a draining generation. */
    method ReleaseLease(g: RuntimeGeneration, lease: nat) returns (known: bool, becameIdle: bool)
      requires Valid() && g in all
      modifies g.accounting
      ensures Valid() && g.sequence < |old(View()).gens|
      ensures known <==> lease in old(View()).gens[g.sequence].starts
      ensures View() == if known then old(View()).Released(g.sequence, lease) else old(View())
      ensures becameIdle <==> known && old(View()).gens[g.sequence].state == Draining
                              && !old(View()).Released(g.sequence, lease).gens[g.sequence].Leased()
    {
      Known(g);
      ViewAt(g);
      assert forall i :: 0 <= i < |all| && i != g.sequence ==> all[i].accounting != g.accounting;
      var r := g.accounting.Release(lease);
      if r == UnknownLease {
        assert View().gens == old(View()).gens;
        return false, false;
      }
      assert View().gens == old(View()).gens[g.sequence := old(View()).gens[g.sequence].Released(lease)];
      known, becameIdle := true, r.idle && g.accounting.state == Draining;
    }

    method BeginShutdown()
      requires Valid() && View().Sane()
      modifies `current, `draining, `shuttingDown, Accountings()
      ensures Valid() && View() == old(View()).ShutDown()
    {
      RefuseRuns();
      if current != null {
        Known(current);
        ViewAt(current);
        hide Valid, View, Manager.Sane;
        StartDraining(current);
        Vacate();
      }
    }

    method RefuseRuns()
      requires Valid()
      modifies `shuttingDown
      ensures Valid() && View() == old(View()).(shuttingDown := true)
    {
      shuttingDown := true;
    }

    method Vacate()
      requires Valid()
      modifies `current
      ensures Valid() && View() == old(View()).(current := None)
    {
      current := null;
    }

    /** The first half of a reclaim: retire what drained. */
    method RetireIdle()
      requires Valid() && View().Sane()
      modifies `draining, `retired, `evicted, Accountings()
      ensures Valid() && View().Sane() && all == old(all) && current == old(current)
      ensures View() == old(View()).Swept(old(View()).draining)
    {
      DrainingKnown();
      RetireEach(draining);
    }

    method RetireEach(waiting: seq<RuntimeGeneration>)
      requires Valid() && View().Sane() && Waits(View(), Sequences(waiting))
      requires forall i :: 0 <= i < |waiting| ==> waiting[i] in all
      modifies `draining, `retired, `evicted, Accountings()
      ensures Valid() && View().Sane()
      ensures View() == old(View()).Swept(Sequences(waiting))
    {
      hide Valid, View, Manager.Sane, Manager.Swept, Distinct;
      ghost var m := View();
      assert waiting[0..] == waiting;
      for k := 0 to |waiting|
        invariant Valid() && View().Sane()
        invariant Waits(View(), Sequences(waiting[k..]))
        invariant View().Swept(Sequences(waiting[k..])) == m.Swept(Sequences(waiting))
      {
        var g := waiting[k];
        assert waiting[k..] == [g] + waiting[k + 1..];
        assert Sequences(waiting[k..]) == [g.sequence] + Sequences(waiting[k + 1..]);
        RetireIfIdle(g, Sequences(waiting[k + 1..]));
      }
      assert Sequences(waiting[|waiting|..]) == [];
      NothingToSweep(View());
    }

    method RetireIfIdle(g: RuntimeGeneration, ghost rest: seq<nat>)
      requires Valid() && View().Sane() && g in all && Waits(View(), [g.sequence] + rest)
      modifies `draining, `retired, `evicted, g.accounting`state
      ensures Valid() && View().Sane() && Waits(View(), rest)
      ensures old(Waits(View(), [g.sequence] + rest))
      ensures View().Swept(rest) == old(View()).Swept([g.sequence] + rest)
    {
      SweepStep(View(), g.sequence, rest);
      Known(g);
      ViewAt(g);
      LeasedMeans(g);
      hide Valid, View, Manager.Sane, Waits;
      if g.accounting.leases == 0 {
        var done, conflict := Retire(g);
      }
    }

    lemma DrainingKnown()
      requires Valid() && View().Sane()
      ensures Waits(View(), View().draining) && View().draining == Sequences(draining)
      ensures forall i :: 0 <= i < |draining| ==> draining[i] in all
    {
    }
  }

  /** Distinct draining generations. */
  ghost predicate Waits(m: Manager, waiting: seq<nat>) {
    Distinct(waiting) && forall g :: g in waiting ==> g in m.draining && g < |m.gens|
  }

  lemma NothingToSweep(m: Manager)
    ensures m.Swept([]) == m
  {
  }

  lemma SweepStep(m: Manager, g: nat, rest: seq<nat>)
    requires m.Sane() && Waits(m, [g] + rest)
    ensures g < |m.gens| && (m.gens[g].Leased() || m.Retirable(g))
    ensures SweptFirst(m, g).Sane() && Waits(SweptFirst(m, g), rest) && m.Swept([g] + rest) == SweptFirst(m, g).Swept(rest)
  {
    hide Manager.Sane, Manager.Retiring, Manager.Swept, Manager.Retirable, Distinct;
    DistinctTail([g] + rest);
    assert ([g] + rest)[0] == g && ([g] + rest)[1..] == rest;
    assert forall h :: h in rest ==> h in [g] + rest;
    SweepOne(m, g);
    SweptUnfolds(m, [g] + rest, g, rest);
  }

  lemma BufferSequences(retired: seq<RuntimeGeneration>, g: RuntimeGeneration, overflow: nat)
    requires overflow <= |retired| + 1
    ensures Sequences((retired + [g])[overflow..]) == (Sequences(retired) + [g.sequence])[overflow..]
    ensures forall i :: 0 <= i < |(retired + [g])[overflow..]| ==> (retired + [g])[overflow..][i] in retired || (retired + [g])[overflow..][i] == g
  {
  }

  function Sequences(gs: seq<RuntimeGeneration>): (r: seq<nat>)
    ensures |r| == |gs| && forall i :: 0 <= i < |r| ==> r[i] == gs[i].sequence
  {
    seq(|gs|, i requires 0 <= i < |gs| => gs[i].sequence)
  }

  function WithoutGeneration(gs: seq<RuntimeGeneration>, n: nat): (r: seq<RuntimeGeneration>)
    ensures Sequences(r) == Without(Sequences(gs), n)
    ensures forall i :: 0 <= i < |r| ==> r[i] in gs
  {
    if gs == [] then []
    else
      var k := |gs| - 1;
      var front := WithoutGeneration(gs[..k], n);
      assert gs == gs[..k] + [gs[k]] && Sequences(gs)[..k] == Sequences(gs[..k]);
      if gs[k].sequence == n then front
      else
        assert Sequences(front + [gs[k]]) == Sequences(front) + [gs[k].sequence];
        front + [gs[k]]
  }
}
