/** Governors as linked objects: each method does to the tree what the value-level operation of
    the same name does to the forest. */
module Governor {
  import opened Wrappers
  import opened Budget

  class BudgetUsage {
    var modelCalls: int
    var toolCalls: int
    var tokens: int
    var estimatedCost: real
    var childRuns: int
    const startedAt: real

    constructor (now: real)
      ensures View() == Unused(now)
    {
      modelCalls, toolCalls, tokens, estimatedCost, childRuns := 0, 0, 0, 0.0, 0;
      startedAt := now;
    }

    function View(): Usage
      reads this
    {
      Usage(modelCalls, toolCalls, tokens, estimatedCost, childRuns, startedAt)
    }

    /** A charge on the clock leaves every field as it is. */
    method Add(d: Dimension, amount: real)
      modifies this
      ensures View() == old(View()).Add(d, amount)
    {
      match d
      case ModelCalls => modelCalls := modelCalls + amount.Floor;
      case ToolCalls => toolCalls := toolCalls + amount.Floor;
      case Tokens => tokens := tokens + amount.Floor;
      case EstimatedCost => estimatedCost := estimatedCost + amount;
      case ChildRuns => childRuns := childRuns + amount.Floor;
      case WallClockSeconds =>
    }
  }

  /** Every governor of one tree, oldest first; only the specification sees it. */
  class GovernorTree {
    ghost var all: seq<BudgetGovernor>

    constructor ()
      ensures all == []
    {
      all := [];
    }

    ghost function Usages(): set<object>
      reads this
    {
      set i | 0 <= i < |all| :: all[i].usage
    }

    ghost predicate Valid()
      reads this
    {
      && (forall i :: 0 <= i < |all| ==> all[i].index == i && all[i].tree == this)
      && (forall i, j :: 0 <= i < j < |all| ==> all[i].usage != all[j].usage)
      && (forall i :: 0 <= i < |all| && all[i].parent != null ==>
            all[i].parent.index < i && all[all[i].parent.index] == all[i].parent)
    }

    ghost function View(): (f: Forest)
      requires Valid()
      reads this, Usages()
      ensures |f| == |all| && WellParented(f)
    {
      seq(|all|, i requires 0 <= i < |all| reads this, Usages() => all[i].NodeView())
    }
  }

  class BudgetGovernor {
    const limits: Limits
    const parent: BudgetGovernor?
    const usage: BudgetUsage
    ghost const tree: GovernorTree
    ghost const index: nat

    ghost function NodeView(): Node
      reads usage
    {
      Node(if parent == null then None else Some(parent.index), limits, usage.View())
    }

    ghost predicate Known()
      reads tree
    {
      tree.Valid() && index < |tree.all| && tree.all[index] == this
    }

    /** A root allocation, alone in its tree. */
    constructor Root(limits: Limits, now: real)
      requires limits.Valid()
      ensures Known() && fresh(tree) && fresh(usage)
      ensures tree.View() == [Node(None, limits, Unused(now))]
    {
      var t := new GovernorTree();
      this.limits, parent, tree, index := limits, null, t, 0;
      usage := new BudgetUsage(now);
      new;
      t.all := [this];
    }

    constructor Under(parent: BudgetGovernor, limits: Limits, now: real)
      requires parent.Known() && limits.Valid()
      modifies parent.tree
      ensures tree == parent.tree && this.parent == parent && Known() && fresh(usage)
      ensures tree.all == old(parent.tree.all) + [this]
      ensures tree.View() == old(parent.tree.View()) + [Node(Some(parent.index), limits, Unused(now))]
    {
      this.limits, this.parent, tree, index := limits, parent, parent.tree, |parent.tree.all|;
      usage := new BudgetUsage(now);
      new;
      tree.all := tree.all + [this];
      assert tree.View()[..index] == old(parent.tree.View());
    }

    /** The first limit up the chain that the amount would cross refuses it. */
    method Check(d: Dimension, amount: Amount, now: real) returns (r: Outcome)
      requires Known()
      ensures r == Budget.Check(tree.View(), index, d, amount, now)
      ensures r == Exceeded <==> ValidAmount(d, amount) && Crosses(tree.View(), index, d, amount.value, now)
      decreases index
    {
      RefusedIff(tree.View(), index, d, amount, now);
      hide Crosses;
      if !ValidAmount(d, amount) { return Invalid; }
      var limit := limits.For(d);
      if limit.Some? {
        var used := usage.View().Consumed(d, now);
        if used + amount.value > limit.value { return Exceeded; }
      }
      if parent == null { return Accepted; }
      r := parent.Check(d, amount, now);
    }

    /** Adding to one governor's usage shows up in its own node and nowhere else. */
    method AddHere(d: Dimension, amount: real)
      requires Known()
      modifies usage
      ensures Known() && index < |old(tree.View())|
      ensures tree.View() == old(tree.View())[index := old(tree.View())[index].(usage := old(usage.View()).Add(d, amount))]
    {
      usage.Add(d, amount);
    }

    /** Unchecked: add here and all the way up. */
    method RecordUp(d: Dimension, amount: real)
      requires Known()
      modifies tree.Usages()
      ensures Known() && tree.View() == Charge(old(tree.View()), index, d, amount)
      decreases index
    {
      AddHere(d, amount);
      if parent != null {
        parent.RecordUp(d, amount);
      }
    }

    method Consume(d: Dimension, amount: Amount, now: real) returns (r: Outcome)
      requires Known()
      modifies tree.Usages()
      ensures Known() && r == OutcomeOf(old(tree.View()), Op.Consume(index, d, amount, now))
      ensures tree.View() == Apply(old(tree.View()), Op.Consume(index, d, amount, now))
    {
      r := Check(d, amount, now);
      if r == Accepted {
        RecordUp(d, amount.value);
      }
    }

    /** One report over several dimensions: all of it, or nothing anywhere in the chain. */
    method Record(modelCalls: Amount, tokens: Amount, estimatedCost: Amount, now: real) returns (r: Outcome)
      requires Known()
      modifies tree.Usages()
      ensures Known() && r == OutcomeOf(old(tree.View()), Op.Record(index, modelCalls, tokens, estimatedCost, now))
      ensures tree.View() == Apply(old(tree.View()), Op.Record(index, modelCalls, tokens, estimatedCost, now))
    {
      hide AllFit, ChargeEach, AllValid, ValidAmount, Fits, Charge;
      var charges := Reported(modelCalls, tokens, estimatedCost);
      var valid := ValidateEach(charges);
      if !valid { return Invalid; }
      r := CheckEach(charges, now);
      if r == Accepted {
        RecordEach(charges);
      }
    }

    method ValidateEach(charges: Charges) returns (valid: bool)
      ensures valid <==> AllValid(charges)
    {
      for k := 0 to |charges|
        invariant forall j :: 0 <= j < k ==> ValidAmount(charges[j].0, charges[j].1)
      {
        if !ValidAmount(charges[k].0, charges[k].1) {
          assert charges[k] in charges;
          return false;
        }
      }
      valid := true;
    }

    ghost predicate Passes(f: Forest, i: nat, charge: (Dimension, Amount), now: real)
      requires WellParented(f) && i < |f|
    {
      charge.1.Finite? && (charge.1.value == 0.0 || Fits(f, i, charge.0, charge.1.value, now))
    }

    method CheckEach(charges: Charges, now: real) returns (r: Outcome)
      requires Known() && AllValid(charges)
      ensures r == ReportOutcome(tree.View(), index, charges, now)
    {
      ghost var f := tree.View();
      for k := 0 to |charges|
        invariant Known() && tree.View() == f
        invariant forall j :: 0 <= j < k ==> Passes(f, index, charges[j], now)
      {
        assert charges[k] in charges && ValidAmount(charges[k].0, charges[k].1);
        if charges[k].1.value != 0.0 {
          var d, amount := charges[k].0, charges[k].1;
          var one := Check(d, amount, now);
          assert tree.View() == f;
          assert one == Budget.Check(f, index, d, amount, now);
          if one != Accepted { return Exceeded; }
          assert Fits(f, index, d, amount.value, now);
        }
        assert Passes(f, index, charges[k], now);
      }
      assert forall c :: c in charges ==> Passes(f, index, c, now);
      r := Accepted;
    }

    method RecordEach(charges: Charges)
      requires Known() && AllValid(charges)
      modifies tree.Usages()
      ensures Known() && tree.View() == ChargeEach(old(tree.View()), index, charges)
    {
      assert charges[0..] == charges;
      NothingToCharge(tree.View(), index);
      hide ChargeEach, Charge, AllValid, ValidAmount;
      for k := 0 to |charges|
        invariant Known() && tree.all == old(tree.all) && AllValid(charges[k..])
        invariant ChargeEach(tree.View(), index, charges[k..]) == ChargeEach(old(tree.View()), index, charges)
      {
        ChargeEachUnfolds(tree.View(), index, charges, k);
        if charges[k].1.value != 0.0 {
          RecordUp(charges[k].0, charges[k].1.value);
        }
      }
      assert charges[|charges|..] == [];
      NothingToCharge(tree.View(), index);
    }

    lemma NothingToCharge(f: Forest, i: nat)
      requires WellParented(f) && i < |f|
      ensures AllValid([]) && ChargeEach(f, i, []) == f
    {
    }

    lemma ChargeEachUnfolds(f: Forest, i: nat, cs: Charges, k: nat)
      requires WellParented(f) && i < |f| && k < |cs| && AllValid(cs[k..])
      ensures AllValid(cs[k + 1..]) && cs[k].1.Finite?
      ensures ChargeEach(f, i, cs[k..])
           == ChargeEach(if cs[k].1.value == 0.0 then f else Charge(f, i, cs[k].0, cs[k].1.value), i, cs[k + 1..])
    {
      assert cs[k..] == [cs[k]] + cs[k + 1..] && cs[k..][1..] == cs[k + 1..];
      assert cs[k] in cs[k..] && forall c :: c in cs[k + 1..] ==> c in cs[k..];
      assert ValidAmount(cs[k].0, cs[k].1);
    }

    /** Allocate a sub-budget; it costs one child run here and above. */
    method Child(limits: Limits, now: real) returns (r: Outcome, child: BudgetGovernor?)
      requires Known() && limits.Valid()
      modifies tree, tree.Usages()
      ensures Known() && r == OutcomeOf(old(tree.View()), Op.Child(index, limits, now))
      ensures tree.View() == Apply(old(tree.View()), Op.Child(index, limits, now))
      ensures child != null <==> r == Accepted
      ensures child != null ==> child.tree == tree && child.Known() && child.parent == this
    {
      r := Consume(ChildRuns, OneRun(), now);
      child := null;
      if r == Accepted {
        child := new BudgetGovernor.Under(this, limits, now);
      }
    }

    method Remaining(d: Dimension, now: real) returns (left: Option<real>)
      requires Known()
      ensures left == Budget.Remaining(tree.View(), index, d, now)
      decreases index
    {
      var candidates: seq<real> := [];
      var limit := limits.For(d);
      if limit.Some? {
        candidates := [limit.value - usage.View().Consumed(d, now)];
      }
      if parent != null {
        var above := parent.Remaining(d, now);
        if above.Some? {
          candidates := candidates + [above.value];
        }
      }
      if candidates == [] { return None; }
      left := Some(Max(0.0, if |candidates| == 1 then candidates[0] else Min(candidates[0], candidates[1])));
    }

    method RemainingSeconds(now: real) returns (left: Option<real>)
      requires Known()
      ensures left == Budget.RemainingSeconds(tree.View(), index, now)
      decreases index
    {
      var above := None;
      if parent != null {
        above := parent.RemainingSeconds(now);
      }
      if limits.wallClockSeconds.None? { return above; }
      var own := Max(0.0, usage.startedAt + limits.wallClockSeconds.value - now);
      left := Some(if above.None? then own else Min(own, above.value));
    }
  }
}
