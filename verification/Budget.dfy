/** Hierarchical budgets as values: a forest of allocations, what a charge does to it, and what
    every sequence of charges keeps. Costs and clocks are real numbers. */
module Budget {
  import opened Wrappers

  datatype Dimension = WallClockSeconds | ModelCalls | ToolCalls | Tokens | EstimatedCost | ChildRuns

  predicate IsCount(d: Dimension) {
    d != WallClockSeconds && d != EstimatedCost
  }

  /** An amount as a caller may pass it. */
  datatype Amount = NotNumeric | NaN | Infinite | Finite(value: real)

  predicate ValidAmount(d: Dimension, a: Amount) {
    a.Finite? && a.value >= 0.0 && (IsCount(d) ==> a.value.Floor as real == a.value)
  }

  datatype Limits = Limits(
    wallClockSeconds: Option<real>,
    modelCalls: Option<int>,
    toolCalls: Option<int>,
    tokens: Option<int>,
    estimatedCost: Option<real>,
    childRuns: Option<int>)
  {
    function For(d: Dimension): Option<real> {
      match d
      case WallClockSeconds => wallClockSeconds
      case ModelCalls => AsReal(modelCalls)
      case ToolCalls => AsReal(toolCalls)
      case Tokens => AsReal(tokens)
      case EstimatedCost => estimatedCost
      case ChildRuns => AsReal(childRuns)
    }

    /** Limits are refused at construction when negative. */
    predicate Valid() {
      forall d: Dimension :: For(d).Some? ==> For(d).value >= 0.0
    }
  }

  function AsReal(n: Option<int>): Option<real> {
    if n.Some? then Some(n.value as real) else None
  }

  function Max(a: real, b: real): real {
    if a < b then b else a
  }

  function Min(a: real, b: real): real {
    if a < b then a else b
  }

  /** What an allocation and its children have used; elapsed time is observed, not stored. */
  datatype Usage = Usage(modelCalls: int, toolCalls: int, tokens: int, estimatedCost: real, childRuns: int, started: real)
  {
    function Consumed(d: Dimension, now: real): real {
      match d
      case WallClockSeconds => Max(0.0, now - started)
      case ModelCalls => modelCalls as real
      case ToolCalls => toolCalls as real
      case Tokens => tokens as real
      case EstimatedCost => estimatedCost
      case ChildRuns => childRuns as real
    }

    function Add(d: Dimension, amount: real): (r: Usage)
      ensures r.started == started
    {
      match d
      case WallClockSeconds => this
      case ModelCalls => this.(modelCalls := modelCalls + amount.Floor)
      case ToolCalls => this.(toolCalls := toolCalls + amount.Floor)
      case Tokens => this.(tokens := tokens + amount.Floor)
      case EstimatedCost => this.(estimatedCost := estimatedCost + amount)
      case ChildRuns => this.(childRuns := childRuns + amount.Floor)
    }
  }

  function Unused(started: real): Usage {
    Usage(0, 0, 0, 0.0, 0, started)
  }

  /** A valid charge lands on its own dimension, in full, and on no other. */
  lemma AddMeans(u: Usage, d: Dimension, amount: real, e: Dimension, now: real)
    requires ValidAmount(d, Finite(amount))
    ensures u.Add(d, amount).Consumed(e, now)
         == u.Consumed(e, now) + if e == d && d != WallClockSeconds then amount else 0.0
  {
  }

  datatype Node = Node(parent: Option<nat>, limits: Limits, usage: Usage)

  /** Allocations by index; a parent is older than its children. */
  type Forest = seq<Node>

  ghost predicate WellParented(f: Forest) {
    forall i: nat {:trigger f[i]} :: i < |f| && f[i].parent.Some? ==> f[i].parent.value < i
  }

  /** Whether `a` is the allocation `i` or one that encloses it. */
  ghost predicate Encloses(f: Forest, a: nat, i: nat)
    requires WellParented(f) && i < |f|
    decreases i
  {
    a == i || (f[i].parent.Some? && Encloses(f, a, f[i].parent.value))
  }

  // ---- Checking

  datatype Outcome = Accepted | Exceeded | Invalid

  predicate Exceeds(n: Node, d: Dimension, amount: real, now: real) {
    n.limits.For(d).Some? && n.usage.Consumed(d, now) + amount > n.limits.For(d).value
  }

  /** The limits of the allocation, then those of everything that encloses it. */
  predicate Fits(f: Forest, i: nat, d: Dimension, amount: real, now: real)
    requires WellParented(f) && i < |f|
    decreases i
  {
    !Exceeds(f[i], d, amount, now) && (f[i].parent.Some? ==> Fits(f, f[i].parent.value, d, amount, now))
  }

  function Check(f: Forest, i: nat, d: Dimension, amount: Amount, now: real): Outcome
    requires WellParented(f) && i < |f|
  {
    if !ValidAmount(d, amount) then Invalid
    else if Fits(f, i, d, amount.value, now) then Accepted else Exceeded
  }

  lemma {:induction false} FitsMeans(f: Forest, i: nat, d: Dimension, amount: real, now: real)
    requires WellParented(f) && i < |f|
    ensures Fits(f, i, d, amount, now) <==> forall a: nat :: a < |f| && Encloses(f, a, i) ==> !Exceeds(f[a], d, amount, now)
    decreases i
  {
    assert Encloses(f, i, i);
    if f[i].parent.Some? {
      FitsMeans(f, f[i].parent.value, d, amount, now);
    }
  }

  function Remaining(f: Forest, i: nat, d: Dimension, now: real): Option<real>
    requires WellParented(f) && i < |f|
    decreases i
  {
    var local := f[i].limits.For(d);
    var above := if f[i].parent.None? then None else Remaining(f, f[i].parent.value, d, now);
    if local.None? && above.None? then None
    else
      var own := if local.None? then 0.0 else local.value - f[i].usage.Consumed(d, now);
      var least := if local.None? then above.value else if above.None? then own else Min(own, above.value);
      Some(Max(0.0, least))
  }

  /** Somewhere up the chain more is used than the limit allows. */
  predicate Overdrawn(f: Forest, i: nat, d: Dimension, now: real)
    requires WellParented(f) && i < |f|
    decreases i
  {
    Exceeds(f[i], d, 0.0, now) || (f[i].parent.Some? && Overdrawn(f, f[i].parent.value, d, now))
  }

  /** A charge is accepted exactly when it is at most what remains - and nothing is overdrawn,
      which matters only to a charge of nothing. */
  lemma {:induction false} AcceptedIffWithinRemaining(f: Forest, i: nat, d: Dimension, amount: real, now: real)
    requires WellParented(f) && i < |f| && ValidAmount(d, Finite(amount))
    ensures Fits(f, i, d, amount, now) <==>
      !Overdrawn(f, i, d, now) && (Remaining(f, i, d, now).None? || amount <= Remaining(f, i, d, now).value)
    decreases i
  {
    if f[i].parent.Some? {
      AcceptedIffWithinRemaining(f, f[i].parent.value, d, amount, now);
    }
  }

  /** Past its deadline an allocation has no time left, and yet refuses a charge of no time. */
  lemma NoTimeIsRefusedPastTheDeadline(limit: real, started: real, now: real)
    requires limit >= 0.0 && now > started + limit
    ensures var f := [Node(None, Limits(Some(limit), None, None, None, None, None), Unused(started))];
      Remaining(f, 0, WallClockSeconds, now) == Some(0.0) && Check(f, 0, WallClockSeconds, Finite(0.0), now) == Exceeded
  {
    var f := [Node(None, Limits(Some(limit), None, None, None, None, None), Unused(started))];
    assert f[0].limits.For(WallClockSeconds) == Some(limit);
    assert f[0].usage.Consumed(WallClockSeconds, now) == now - started;
  }

  /** The wall clock again, computed from deadlines. */
  function RemainingSeconds(f: Forest, i: nat, now: real): Option<real>
    requires WellParented(f) && i < |f|
    decreases i
  {
    var above := if f[i].parent.None? then None else RemainingSeconds(f, f[i].parent.value, now);
    var limit := f[i].limits.wallClockSeconds;
    if limit.None? then above
    else
      var own := Max(0.0, f[i].usage.started + limit.value - now);
      if above.None? then Some(own) else Some(Min(own, above.value))
  }

  /** Both ways of asking for the time left agree, once every allocation has started. */
  lemma {:induction false} BothClocksAgree(f: Forest, i: nat, now: real)
    requires WellParented(f) && i < |f| && forall a: nat :: a < |f| ==> f[a].usage.started <= now
    ensures RemainingSeconds(f, i, now) == Remaining(f, i, WallClockSeconds, now)
    ensures RemainingSeconds(f, i, now).Some? ==> RemainingSeconds(f, i, now).value >= 0.0
    decreases i
  {
    if f[i].parent.Some? {
      BothClocksAgree(f, f[i].parent.value, now);
    }
  }

  // ---- Charging

  function Charge(f: Forest, i: nat, d: Dimension, amount: real): (r: Forest)
    requires WellParented(f) && i < |f|
    ensures |r| == |f| && WellParented(r)
    ensures forall a: nat :: a < |f| ==> r[a].parent == f[a].parent && r[a].limits == f[a].limits
    decreases i
  {
    var charged := f[i := f[i].(usage := f[i].usage.Add(d, amount))];
    if f[i].parent.None? then charged else Charge(charged, f[i].parent.value, d, amount)
  }

  lemma {:induction false} EnclosesIsOlder(f: Forest, a: nat, i: nat)
    requires WellParented(f) && i < |f| && Encloses(f, a, i)
    ensures a <= i
    decreases i
  {
    if a != i {
      EnclosesIsOlder(f, a, f[i].parent.value);
    }
  }

  lemma {:induction false} SameEnclosing(f: Forest, g: Forest, a: nat, i: nat)
    requires WellParented(f) && WellParented(g) && |f| == |g| && i < |f|
    requires forall k: nat :: k < |f| ==> f[k].parent == g[k].parent
    ensures Encloses(f, a, i) <==> Encloses(g, a, i)
    decreases i
  {
    if f[i].parent.Some? {
      SameEnclosing(f, g, a, f[i].parent.value);
    }
  }

  /** A charge adds its amount once to the allocation and to each one enclosing it, and touches
      nothing else. */
  lemma {:induction false} ChargeMeans(f: Forest, i: nat, d: Dimension, amount: real, a: nat)
    requires WellParented(f) && i < |f| && a < |f|
    ensures Charge(f, i, d, amount)[a].usage == if Encloses(f, a, i) then f[a].usage.Add(d, amount) else f[a].usage
    decreases i
  {
    var charged := f[i := f[i].(usage := f[i].usage.Add(d, amount))];
    if f[i].parent.Some? {
      var p := f[i].parent.value;
      ChargeMeans(charged, p, d, amount, a);
      SameEnclosing(f, charged, a, p);
      if Encloses(f, a, p) {
        EnclosesIsOlder(f, a, p);
      }
    }
  }

  // ---- Operations

  datatype Op =
    | Consume(i: nat, d: Dimension, amount: Amount, now: real)
    | Record(i: nat, modelCalls: Amount, tokens: Amount, estimatedCost: Amount, now: real)
    | Child(i: nat, limits: Limits, now: real)

  type Charges = seq<(Dimension, Amount)>

  function Reported(modelCalls: Amount, tokens: Amount, estimatedCost: Amount): (r: Charges)
    ensures |r| == 3 && r[0] == (ModelCalls, modelCalls) && r[1] == (Tokens, tokens) && r[2] == (EstimatedCost, estimatedCost)
  {
    [(ModelCalls, modelCalls), (Tokens, tokens), (EstimatedCost, estimatedCost)]
  }

  predicate AllValid(cs: Charges) {
    forall c :: c in cs ==> ValidAmount(c.0, c.1)
  }

  /** Charges of nothing are not even checked. */
  predicate AllFit(f: Forest, i: nat, cs: Charges, now: real)
    requires WellParented(f) && i < |f| && AllValid(cs)
  {
    forall c :: c in cs ==> c.1.value == 0.0 || Fits(f, i, c.0, c.1.value, now)
  }

  function ChargeEach(f: Forest, i: nat, cs: Charges): (r: Forest)
    requires WellParented(f) && i < |f| && AllValid(cs)
    ensures |r| == |f| && WellParented(r)
    ensures forall a: nat :: a < |f| ==> r[a].parent == f[a].parent && r[a].limits == f[a].limits
    decreases |cs|
  {
    if cs == [] then f
    else
      assert cs[0] in cs && forall c :: c in cs[1..] ==> c in cs;
      var rest := if cs[0].1.value == 0.0 then f else Charge(f, i, cs[0].0, cs[0].1.value);
      ChargeEach(rest, i, cs[1..])
  }

  function ReportOutcome(f: Forest, i: nat, cs: Charges, now: real): Outcome
    requires WellParented(f) && i < |f|
  {
    if !AllValid(cs) then Invalid else if AllFit(f, i, cs, now) then Accepted else Exceeded
  }

  function OneRun(): Amount { Finite(1.0) }

  function OutcomeOf(f: Forest, op: Op): Outcome
    requires WellParented(f) && op.i < |f|
  {
    match op
    case Consume(i, d, amount, now) => Check(f, i, d, amount, now)
    case Record(i, calls, tokens, cost, now) => ReportOutcome(f, i, Reported(calls, tokens, cost), now)
    case Child(i, _, now) => Check(f, i, ChildRuns, OneRun(), now)
  }

  /** A refused operation changes nothing. */
  function Apply(f: Forest, op: Op): (r: Forest)
    requires WellParented(f) && op.i < |f|
    ensures WellParented(r) && |f| <= |r|
    ensures OutcomeOf(f, op) != Accepted ==> r == f
  {
    if OutcomeOf(f, op) != Accepted then f
    else match op
      case Consume(i, d, amount, _) => Charge(f, i, d, amount.value)
      case Record(i, calls, tokens, cost, _) => ChargeEach(f, i, Reported(calls, tokens, cost))
      case Child(i, limits, now) => Charge(f, i, ChildRuns, 1.0) + [Node(Some(i), limits, Unused(now))]
  }

  // ---- Limits are never exceeded

  /** On every dimension but the clock, usage is within the limit. */
  predicate WithinLimits(f: Forest) {
    forall a: nat, d: Dimension :: a < |f| && d != WallClockSeconds ==> !Exceeds(f[a], d, 0.0, 0.0)
  }

  lemma {:induction false} NothingOverdrawn(f: Forest, i: nat, d: Dimension, now: real)
    requires WellParented(f) && i < |f| && WithinLimits(f) && d != WallClockSeconds
    ensures !Overdrawn(f, i, d, now)
    decreases i
  {
    assert !Exceeds(f[i], d, 0.0, 0.0);
    if f[i].parent.Some? {
      NothingOverdrawn(f, f[i].parent.value, d, now);
    }
  }

  lemma ChargeWithinLimits(f: Forest, i: nat, d: Dimension, amount: real, now: real)
    requires WellParented(f) && i < |f| && WithinLimits(f)
    requires ValidAmount(d, Finite(amount)) && Fits(f, i, d, amount, now)
    ensures WithinLimits(Charge(f, i, d, amount))
  {
    var g := Charge(f, i, d, amount);
    FitsMeans(f, i, d, amount, now);
    forall a: nat, e: Dimension | a < |g| && e != WallClockSeconds ensures !Exceeds(g[a], e, 0.0, 0.0) {
      ChargeMeans(f, i, d, amount, a);
      AddMeans(f[a].usage, d, amount, e, 0.0);
      assert !Exceeds(f[a], e, 0.0, 0.0);
      assert Encloses(f, a, i) ==> !Exceeds(f[a], d, amount, now);
    }
  }

  /** A charge on one dimension does not change what fits on another. */
  lemma {:induction false} OtherDimensionsStillFit(f: Forest, i: nat, d: Dimension, amount: real, k: nat, e: Dimension, more: real, now: real)
    requires WellParented(f) && i < |f| && k < |f| && d != e && ValidAmount(d, Finite(amount))
    ensures Fits(Charge(f, i, d, amount), k, e, more, now) <==> Fits(f, k, e, more, now)
    decreases k
  {
    ChargeMeans(f, i, d, amount, k);
    AddMeans(f[k].usage, d, amount, e, now);
    if f[k].parent.Some? {
      OtherDimensionsStillFit(f, i, d, amount, f[k].parent.value, e, more, now);
    }
  }

  predicate DistinctDimensions(cs: Charges) {
    forall k, l :: 0 <= k < l < |cs| ==> cs[k].0 != cs[l].0
  }

  lemma {:induction false} ChargeEachWithinLimits(f: Forest, i: nat, cs: Charges, now: real)
    requires WellParented(f) && i < |f| && WithinLimits(f) && AllValid(cs) && AllFit(f, i, cs, now) && DistinctDimensions(cs)
    ensures WithinLimits(ChargeEach(f, i, cs))
    decreases |cs|
  {
    if cs != [] {
      var d, amount := cs[0].0, cs[0].1.value;
      assert cs[0] in cs && forall c :: c in cs[1..] ==> c in cs;
      if amount == 0.0 {
        ChargeEachWithinLimits(f, i, cs[1..], now);
      } else {
        ChargeWithinLimits(f, i, d, amount, now);
        var g := Charge(f, i, d, amount);
        forall c | c in cs[1..] ensures c.1.value == 0.0 || Fits(g, i, c.0, c.1.value, now) {
          var k :| 0 <= k < |cs[1..]| && cs[1..][k] == c;
          assert cs[0].0 != cs[k + 1].0;
          OtherDimensionsStillFit(f, i, d, amount, i, c.0, c.1.value, now);
        }
        ChargeEachWithinLimits(g, i, cs[1..], now);
      }
    }
  }

  lemma ApplyWithinLimits(f: Forest, op: Op)
    requires WellParented(f) && op.i < |f| && WithinLimits(f)
    requires op.Child? ==> op.limits.Valid()
    ensures WithinLimits(Apply(f, op))
  {
    if OutcomeOf(f, op) == Accepted {
      match op
      case Consume(i, d, amount, now) => ChargeWithinLimits(f, i, d, amount.value, now);
      case Record(i, calls, tokens, cost, now) => ChargeEachWithinLimits(f, i, Reported(calls, tokens, cost), now);
      case Child(i, limits, now) => ChargeWithinLimits(f, i, ChildRuns, 1.0, now);
    }
  }

  // ---- Conservation

  function Of(u: Usage, d: Dimension): real { u.Consumed(d, 0.0) }

  /** What the first `n` allocations that are children of `a` have used. */
  function ChildSum(f: Forest, a: nat, d: Dimension, n: nat): real
    requires n <= |f|
  {
    if n == 0 then 0.0
    else ChildSum(f, a, d, n - 1) + if f[n - 1].parent == Some(a) then Of(f[n - 1].usage, d) else 0.0
  }

  ghost predicate Conserved(f: Forest, direct: seq<real>, d: Dimension) {
    |direct| == |f| && forall a: nat :: a < |f| ==> Of(f[a].usage, d) == direct[a] + ChildSum(f, a, d, |f|)
  }

  lemma {:induction false} ChildSumUpdate(f: Forest, a: nat, d: Dimension, n: nat, i: nat, u: Usage)
    requires i < |f| && n <= |f|
    ensures ChildSum(f[i := f[i].(usage := u)], a, d, n)
         == ChildSum(f, a, d, n) + if i < n && f[i].parent == Some(a) then Of(u, d) - Of(f[i].usage, d) else 0.0
  {
    if n > 0 {
      ChildSumUpdate(f, a, d, n - 1, i, u);
    }
  }

  /** After charging one allocation alone, its parent's books are short by that much. */
  function Owed(f: Forest, direct: seq<real>, i: nat, more: real): seq<real>
    requires WellParented(f) && i < |f| == |direct|
  {
    var here := direct[i := direct[i] + more];
    if f[i].parent.None? then here
    else
      assert f[i].parent.value < i;
      here[f[i].parent.value := here[f[i].parent.value] - more]
  }

  lemma OneChargeOwes(f: Forest, direct: seq<real>, i: nat, u: Usage, more: real, d: Dimension)
    requires WellParented(f) && i < |f| && Conserved(f, direct, d) && Of(u, d) == Of(f[i].usage, d) + more
    ensures Conserved(f[i := f[i].(usage := u)], Owed(f, direct, i, more), d)
  {
    var charged, owed := f[i := f[i].(usage := u)], Owed(f, direct, i, more);
    forall a: nat | a < |f| ensures Of(charged[a].usage, d) == owed[a] + ChildSum(charged, a, d, |f|) {
      assert Of(f[a].usage, d) == direct[a] + ChildSum(f, a, d, |f|);
      ChildSumUpdate(f, a, d, |f|, i, u);
      assert f[i].parent.Some? ==> f[i].parent.value < i;
    }
  }

  /** A charge is direct where it is made; above it arrives through the children. */
  lemma {:induction false} ChargeConserves(f: Forest, direct: seq<real>, i: nat, e: Dimension, amount: real, d: Dimension)
    requires WellParented(f) && i < |f| && Conserved(f, direct, d)
    requires ValidAmount(e, Finite(amount)) && d != WallClockSeconds
    ensures Conserved(Charge(f, i, e, amount), if e == d then direct[i := direct[i] + amount] else direct, d)
    decreases i
  {
    hide Conserved, Of, Usage.Add, ValidAmount;
    var more := if e == d then amount else 0.0;
    var u := f[i].usage.Add(e, amount);
    OfAdd(f[i].usage, e, amount, d);
    assert |direct| == |f| by { ConservedLength(f, direct, d); }
    OneChargeOwes(f, direct, i, u, more, d);
    var owed := Owed(f, direct, i, more);
    if f[i].parent.Some? {
      var p := f[i].parent.value;
      ChargeConserves(f[i := f[i].(usage := u)], owed, p, e, amount, d);
      assert e == d ==> owed[p := owed[p] + amount] == direct[i := direct[i] + amount];
    }
    assert e != d ==> owed == direct;
  }

  lemma ConservedLength(f: Forest, direct: seq<real>, d: Dimension)
    requires Conserved(f, direct, d)
    ensures |direct| == |f|
  {
  }

  lemma OfAdd(u: Usage, e: Dimension, amount: real, d: Dimension)
    requires ValidAmount(e, Finite(amount)) && d != WallClockSeconds
    ensures Of(u.Add(e, amount), d) == Of(u, d) + if e == d then amount else 0.0
  {
    AddMeans(u, e, amount, d, 0.0);
  }

  /** What an accepted operation charges directly. */
  function DirectCharge(op: Op, d: Dimension): real {
    match op
    case Consume(_, e, amount, _) => if e == d && amount.Finite? then amount.value else 0.0
    case Record(_, calls, tokens, cost, _) =>
      var a := if d == ModelCalls then calls else if d == Tokens then tokens else if d == EstimatedCost then cost else Finite(0.0);
      if a.Finite? then a.value else 0.0
    case Child(_, _, _) => if d == ChildRuns then 1.0 else 0.0
  }

  function DirectAfter(direct: seq<real>, f: Forest, op: Op, d: Dimension): (r: seq<real>)
    requires WellParented(f) && op.i < |f| == |direct|
    ensures |r| == |Apply(f, op)|
  {
    if OutcomeOf(f, op) != Accepted then direct
    else direct[op.i := direct[op.i] + DirectCharge(op, d)] + if op.Child? then [0.0] else []
  }

  lemma {:induction false} ChildSumAppend(f: Forest, n: Node, a: nat, d: Dimension, k: nat)
    requires k <= |f|
    ensures ChildSum(f + [n], a, d, k) == ChildSum(f, a, d, k)
  {
    if k > 0 {
      ChildSumAppend(f, n, a, d, k - 1);
    }
  }

  lemma {:induction false} YoungestHasNoChildren(f: Forest, a: nat, d: Dimension, k: nat)
    requires WellParented(f) && k <= |f| <= a + 1
    ensures ChildSum(f, a, d, k) == 0.0
  {
    if k > 0 {
      YoungestHasNoChildren(f, a, d, k - 1);
      assert f[k - 1].parent.Some? ==> f[k - 1].parent.value < k - 1;
    }
  }

  lemma AppendConserves(f: Forest, direct: seq<real>, i: nat, limits: Limits, now: real, d: Dimension)
    requires WellParented(f) && i < |f| && Conserved(f, direct, d) && d != WallClockSeconds
    ensures Conserved(f + [Node(Some(i), limits, Unused(now))], direct + [0.0], d)
  {
    var n := Node(Some(i), limits, Unused(now));
    var g := f + [n];
    forall a: nat | a < |g| ensures Of(g[a].usage, d) == (direct + [0.0])[a] + ChildSum(g, a, d, |g|) {
      ChildSumAppend(f, n, a, d, |f|);
      if a < |f| {
        assert Of(f[a].usage, d) == direct[a] + ChildSum(f, a, d, |f|);
      } else {
        YoungestHasNoChildren(g, a, d, |g|);
      }
    }
  }

  function SumOf(cs: Charges, d: Dimension): real
    requires AllValid(cs)
    decreases |cs|
  {
    if cs == [] then 0.0
    else
      assert cs[0] in cs && forall c :: c in cs[1..] ==> c in cs;
      (if cs[0].0 == d then cs[0].1.value else 0.0) + SumOf(cs[1..], d)
  }

  lemma {:induction false} ChargeEachConserves(f: Forest, direct: seq<real>, i: nat, cs: Charges, d: Dimension)
    requires WellParented(f) && i < |f| == |direct| && Conserved(f, direct, d) && AllValid(cs) && d != WallClockSeconds
    ensures Conserved(ChargeEach(f, i, cs), direct[i := direct[i] + SumOf(cs, d)], d)
    decreases |cs|
  {
    hide Conserved, Charge, Of, ValidAmount;
    if cs == [] {
      assert direct[i := direct[i] + 0.0] == direct;
    } else {
      FirstIsValid(cs);
      var e, amount := cs[0].0, cs[0].1.value;
      var here := direct[i := direct[i] + if e == d then amount else 0.0];
      var rest := if amount == 0.0 then f else Charge(f, i, e, amount);
      if amount != 0.0 {
        ChargeConserves(f, direct, i, e, amount, d);
      }
      assert amount == 0.0 || e != d ==> here == direct;
      ChargeEachConserves(rest, here, i, cs[1..], d);
      assert here[i := here[i] + SumOf(cs[1..], d)] == direct[i := direct[i] + SumOf(cs, d)];
    }
  }

  lemma FirstIsValid(cs: Charges)
    requires AllValid(cs) && cs != []
    ensures ValidAmount(cs[0].0, cs[0].1) && cs[0].1.Finite? && AllValid(cs[1..])
  {
    assert cs[0] in cs && forall c :: c in cs[1..] ==> c in cs;
  }

  lemma ApplyConserves(f: Forest, direct: seq<real>, op: Op, d: Dimension)
    requires WellParented(f) && op.i < |f| == |direct| && Conserved(f, direct, d) && d != WallClockSeconds
    ensures Conserved(Apply(f, op), DirectAfter(direct, f, op, d), d)
  {
    hide Conserved, Charge, Of, Fits, AllFit, ChargeEach, SumOf;
    if OutcomeOf(f, op) == Accepted {
      match op
      case Consume(i, e, amount, now) =>
        ChargeConserves(f, direct, i, e, amount.value, d);
        assert DirectAfter(direct, f, op, d) == if e == d then direct[i := direct[i] + amount.value] else direct;
      case Record(i, calls, tokens, cost, now) =>
        var cs := Reported(calls, tokens, cost);
        ChargeEachConserves(f, direct, i, cs, d);
        ReportSum(calls, tokens, cost, d);
        assert DirectAfter(direct, f, op, d) == direct[i := direct[i] + SumOf(cs, d)];
      case Child(i, limits, now) =>
        ChargeConserves(f, direct, i, ChildRuns, 1.0, d);
        assert direct[i := direct[i] + DirectCharge(op, d)] == if d == ChildRuns then direct[i := direct[i] + 1.0] else direct;
        AppendConserves(Charge(f, i, ChildRuns, 1.0), direct[i := direct[i] + DirectCharge(op, d)], i, limits, now, d);
    }
  }

  lemma ReportSum(calls: Amount, tokens: Amount, cost: Amount, d: Dimension)
    requires AllValid(Reported(calls, tokens, cost))
    ensures SumOf(Reported(calls, tokens, cost), d) == DirectCharge(Record(0, calls, tokens, cost, 0.0), d)
  {
    var cs := Reported(calls, tokens, cost);
    var two, one := cs[1..], cs[2..];
    assert two[1..] == one && one[1..] == [] && two[0] == cs[1] && one[0] == cs[2];
    assert cs[0] in cs && cs[1] in cs && cs[2] in cs && AllValid(two) && AllValid(one);
    assert SumOf(one, d) == (if d == EstimatedCost then cost.value else 0.0) + SumOf([], d);
    assert SumOf(two, d) == (if d == Tokens then tokens.value else 0.0) + SumOf(one, d);
  }

  // ---- Runs

  ghost predicate Follows(forests: seq<Forest>, ops: seq<Op>, k: nat)
    requires k < |ops| && |forests| == |ops| + 1
  {
    && WellParented(forests[k]) && ops[k].i < |forests[k]|
    && (ops[k].Child? ==> ops[k].limits.Valid())
    && forests[k + 1] == Apply(forests[k], ops[k])
  }

  /** Any operations on the tree grown from one root, in any order. */
  ghost predicate IsRun(forests: seq<Forest>, ops: seq<Op>) {
    && |forests| == |ops| + 1 && |forests[0]| == 1
    && forests[0][0].parent.None? && forests[0][0].limits.Valid()
    && forests[0][0].usage == Unused(forests[0][0].usage.started)
    && forall k {:trigger Follows(forests, ops, k)} :: 0 <= k < |ops| ==> Follows(forests, ops, k)
  }

  /** Everything charged directly to each allocation up to step `k`. */
  ghost function DirectTotal(forests: seq<Forest>, ops: seq<Op>, k: nat, d: Dimension): (r: seq<real>)
    requires IsRun(forests, ops) && k <= |ops|
    ensures |r| == |forests[k]|
  {
    if k == 0 then [0.0]
    else
      assert Follows(forests, ops, k - 1);
      DirectAfter(DirectTotal(forests, ops, k - 1, d), forests[k - 1], ops[k - 1], d)
  }

  /** In every run no allocation is over a limit (the clock apart), and what an allocation used
      is what was charged to it directly plus what its children used. */
  lemma {:induction false} BooksBalance(forests: seq<Forest>, ops: seq<Op>, k: nat, d: Dimension)
    requires IsRun(forests, ops) && k <= |ops| && d != WallClockSeconds
    ensures WellParented(forests[k]) && WithinLimits(forests[k])
    ensures Conserved(forests[k], DirectTotal(forests, ops, k, d), d)
  {
    if k == 0 {
      var f := forests[0];
      assert ChildSum(f, 0, d, 1) == ChildSum(f, 0, d, 0);
    } else {
      BooksBalance(forests, ops, k - 1, d);
      assert Follows(forests, ops, k - 1);
      hide WithinLimits, Conserved, Limits.Valid, Apply, DirectAfter;
      ApplyWithinLimits(forests[k - 1], ops[k - 1]);
      ApplyConserves(forests[k - 1], DirectTotal(forests, ops, k - 1, d), ops[k - 1], d);
    }
  }

  /** Hence, the clock apart, what remains decides every charge. */
  lemma RemainingDecides(forests: seq<Forest>, ops: seq<Op>, k: nat, i: nat, d: Dimension, amount: Amount, now: real)
    requires IsRun(forests, ops) && k <= |ops| && i < |forests[k]| && d != WallClockSeconds
    ensures WellParented(forests[k])
    ensures Check(forests[k], i, d, amount, now) == Accepted <==>
      ValidAmount(d, amount) && (Remaining(forests[k], i, d, now).None? || amount.value <= Remaining(forests[k], i, d, now).value)
  {
    BooksBalance(forests, ops, k, d);
    NothingOverdrawn(forests[k], i, d, now);
    if ValidAmount(d, amount) {
      AcceptedIffWithinRemaining(forests[k], i, d, amount.value, now);
    }
  }

  // ---- By name

  /** Each stored usage is within the limit of its own name, where that is set. */
  ghost predicate WithinByName(n: Node) {
    && (n.limits.modelCalls.Some? ==> n.usage.modelCalls <= n.limits.modelCalls.value)
    && (n.limits.toolCalls.Some? ==> n.usage.toolCalls <= n.limits.toolCalls.value)
    && (n.limits.tokens.Some? ==> n.usage.tokens <= n.limits.tokens.value)
    && (n.limits.estimatedCost.Some? ==> n.usage.estimatedCost <= n.limits.estimatedCost.value)
    && (n.limits.childRuns.Some? ==> n.usage.childRuns <= n.limits.childRuns.value)
  }

  lemma WithinMeansByName(n: Node)
    requires forall d: Dimension :: d != WallClockSeconds ==> !Exceeds(n, d, 0.0, 0.0)
    ensures WithinByName(n)
  {
    assert !Exceeds(n, ModelCalls, 0.0, 0.0) && !Exceeds(n, ToolCalls, 0.0, 0.0) && !Exceeds(n, Tokens, 0.0, 0.0);
    assert !Exceeds(n, EstimatedCost, 0.0, 0.0) && !Exceeds(n, ChildRuns, 0.0, 0.0);
  }

  /** In every run, at every allocation, no usage is over the limit of its name. */
  lemma NoLimitIsExceeded(forests: seq<Forest>, ops: seq<Op>, k: nat, a: nat)
    requires IsRun(forests, ops) && k <= |ops| && a < |forests[k]|
    ensures WithinByName(forests[k][a])
  {
    BooksBalance(forests, ops, k, Tokens);
    hide Exceeds, WithinByName;
    WithinMeansByName(forests[k][a]);
  }

  /** What is left of the limit of that name at one allocation, negative when overdrawn. */
  function Headroom(n: Node, d: Dimension, now: real): Option<real> {
    match d
    case WallClockSeconds =>
      if n.limits.wallClockSeconds.None? then None
      else Some(n.limits.wallClockSeconds.value - (if now < n.usage.started then 0.0 else now - n.usage.started))
    case ModelCalls => if n.limits.modelCalls.None? then None else Some((n.limits.modelCalls.value - n.usage.modelCalls) as real)
    case ToolCalls => if n.limits.toolCalls.None? then None else Some((n.limits.toolCalls.value - n.usage.toolCalls) as real)
    case Tokens => if n.limits.tokens.None? then None else Some((n.limits.tokens.value - n.usage.tokens) as real)
    case EstimatedCost => if n.limits.estimatedCost.None? then None else Some(n.limits.estimatedCost.value - n.usage.estimatedCost)
    case ChildRuns => if n.limits.childRuns.None? then None else Some((n.limits.childRuns.value - n.usage.childRuns) as real)
  }

  lemma ExceedsMeans(n: Node, d: Dimension, amount: real, now: real)
    ensures Exceeds(n, d, amount, now) <==> Headroom(n, d, now).Some? && amount > Headroom(n, d, now).value
    ensures n.limits.For(d).None? <==> Headroom(n, d, now).None?
    ensures Headroom(n, d, now).Some? ==> n.limits.For(d).value - n.usage.Consumed(d, now) == Headroom(n, d, now).value
  {
  }

  /** Somewhere up the chain the amount is more than what is left. */
  ghost predicate Crosses(f: Forest, i: nat, d: Dimension, amount: real, now: real)
    requires WellParented(f) && i < |f|
  {
    exists a: nat :: a < |f| && Encloses(f, a, i) && Headroom(f[a], d, now).Some? && amount > Headroom(f[a], d, now).value
  }

  /** A charge is refused exactly when, at the allocation or at one that encloses it, it is more
      than what is left under the limit of its name. */
  lemma RefusedIff(f: Forest, i: nat, d: Dimension, amount: Amount, now: real)
    requires WellParented(f) && i < |f|
    ensures Check(f, i, d, amount, now) == Exceeded <==> ValidAmount(d, amount) && Crosses(f, i, d, amount.value, now)
    ensures Check(f, i, d, amount, now) == Invalid <==> !ValidAmount(d, amount)
  {
    hide Exceeds, Headroom, ValidAmount, Encloses;
    if ValidAmount(d, amount) {
      assert amount.Finite? by { ValidMeans(d, amount); }
      FitsMeans(f, i, d, amount.value, now);
      forall a: nat | a < |f|
        ensures Exceeds(f[a], d, amount.value, now) <==> Headroom(f[a], d, now).Some? && amount.value > Headroom(f[a], d, now).value
      {
        ExceedsMeans(f[a], d, amount.value, now);
      }
    }
  }

  /** A charge is an amount of at least nothing, and whole where things are counted. */
  lemma ValidMeans(d: Dimension, a: Amount)
    ensures ValidAmount(d, a) <==>
      && a.Finite? && a.value >= 0.0
      && (d in {ModelCalls, ToolCalls, Tokens, ChildRuns} ==> exists n: int :: IsWhole(a.value, n))
  {
    if a.Finite? {
      if n: int :| IsWhole(a.value, n) {
        assert a.value.Floor == n;
      }
      if a.value.Floor as real == a.value {
        assert IsWhole(a.value, a.value.Floor);
      }
    }
  }

  predicate IsWhole(x: real, n: int) { x == n as real }

  ghost predicate IsLeastLeft(f: Forest, i: nat, d: Dimension, now: real, left: Option<real>)
    requires WellParented(f) && i < |f|
  {
    && (left.None? <==> forall a: nat :: a < |f| && Encloses(f, a, i) ==> Headroom(f[a], d, now).None?)
    && (left.Some? ==>
          && left.value >= 0.0
          && (forall a: nat :: a < |f| && Encloses(f, a, i) && Headroom(f[a], d, now).Some? ==>
                left.value == 0.0 || left.value <= Headroom(f[a], d, now).value)
          && exists a: nat :: a < |f| && Encloses(f, a, i) && Headroom(f[a], d, now).Some? &&
               if Headroom(f[a], d, now).value < 0.0 then left.value == 0.0 else left.value == Headroom(f[a], d, now).value)
  }

  /** What remains is the least that is left up the chain, and nothing rather than less. */
  lemma {:induction false} RemainingMeans(f: Forest, i: nat, d: Dimension, now: real)
    requires WellParented(f) && i < |f|
    ensures IsLeastLeft(f, i, d, now, Remaining(f, i, d, now))
    decreases i
  {
    hide Headroom, IsLeastLeft, Encloses, Limits.For, Usage.Consumed;
    ExceedsMeans(f[i], d, 0.0, now);
    if f[i].parent.Some? {
      RemainingMeans(f, f[i].parent.value, d, now);
      LeastOfBoth(f, i, d, now, Headroom(f[i], d, now), Remaining(f, f[i].parent.value, d, now));
    } else {
      LeastAlone(f, i, d, now, Headroom(f[i], d, now));
    }
  }

  lemma LeastAlone(f: Forest, i: nat, d: Dimension, now: real, own: Option<real>)
    requires WellParented(f) && i < |f| && f[i].parent.None? && own == Headroom(f[i], d, now)
    ensures IsLeastLeft(f, i, d, now, if own.None? then None else Some(Max(0.0, own.value)))
  {
    hide Headroom;
    assert Encloses(f, i, i);
  }

  lemma LeastOfBoth(f: Forest, i: nat, d: Dimension, now: real, own: Option<real>, above: Option<real>)
    requires WellParented(f) && i < |f| && f[i].parent.Some? && own == Headroom(f[i], d, now)
    requires IsLeastLeft(f, f[i].parent.value, d, now, above)
    ensures IsLeastLeft(f, i, d, now,
      if own.None? then above
      else if above.None? then Some(Max(0.0, own.value))
      else Some(Max(0.0, Min(own.value, above.value))))
  {
    hide Headroom;
    assert Encloses(f, i, i);
    assert forall a: nat :: Encloses(f, a, i) <==> a == i || Encloses(f, a, f[i].parent.value);
  }

  /** A whole amount lands on the field of its name, and no other field moves. */
  lemma AddByName(u: Usage, n: nat, cost: real)
    ensures u.Add(ModelCalls, n as real) == Usage(u.modelCalls + n, u.toolCalls, u.tokens, u.estimatedCost, u.childRuns, u.started)
    ensures u.Add(ToolCalls, n as real) == Usage(u.modelCalls, u.toolCalls + n, u.tokens, u.estimatedCost, u.childRuns, u.started)
    ensures u.Add(Tokens, n as real) == Usage(u.modelCalls, u.toolCalls, u.tokens + n, u.estimatedCost, u.childRuns, u.started)
    ensures u.Add(EstimatedCost, cost) == Usage(u.modelCalls, u.toolCalls, u.tokens, u.estimatedCost + cost, u.childRuns, u.started)
    ensures u.Add(ChildRuns, n as real) == Usage(u.modelCalls, u.toolCalls, u.tokens, u.estimatedCost, u.childRuns + n, u.started)
    ensures u.Add(WallClockSeconds, cost) == u
  {
    assert (n as real).Floor == n;
  }

  /** No limit is negative. */
  lemma LimitsValidMeans(l: Limits)
    ensures l.Valid() <==>
      && (l.wallClockSeconds.Some? ==> l.wallClockSeconds.value >= 0.0)
      && (l.modelCalls.Some? ==> l.modelCalls.value >= 0)
      && (l.toolCalls.Some? ==> l.toolCalls.value >= 0)
      && (l.tokens.Some? ==> l.tokens.value >= 0)
      && (l.estimatedCost.Some? ==> l.estimatedCost.value >= 0.0)
      && (l.childRuns.Some? ==> l.childRuns.value >= 0)
  {
    if l.Valid() {
      assert l.For(WallClockSeconds) == l.wallClockSeconds && l.For(EstimatedCost) == l.estimatedCost;
      assert l.For(ModelCalls) == AsReal(l.modelCalls) && l.For(ToolCalls) == AsReal(l.toolCalls);
      assert l.For(Tokens) == AsReal(l.tokens) && l.For(ChildRuns) == AsReal(l.childRuns);
    }
  }

  /** The amount is something, and more than what is left somewhere up the chain. */
  ghost predicate TooMuch(f: Forest, i: nat, d: Dimension, a: Amount, now: real)
    requires WellParented(f) && i < |f| && a.Finite?
  {
    a.value != 0.0 && Crosses(f, i, d, a.value, now)
  }

  /** A report is refused as a whole when one of its amounts is no amount, or is too much. */
  lemma ReportMeans(f: Forest, i: nat, calls: Amount, tokens: Amount, cost: Amount, now: real)
    requires WellParented(f) && i < |f|
    ensures var r := OutcomeOf(f, Record(i, calls, tokens, cost, now));
      var valid := ValidAmount(ModelCalls, calls) && ValidAmount(Tokens, tokens) && ValidAmount(EstimatedCost, cost);
      && (r == Invalid <==> !valid)
      && (r == Exceeded <==>
            && valid
            && (TooMuch(f, i, ModelCalls, calls, now) || TooMuch(f, i, Tokens, tokens, now) || TooMuch(f, i, EstimatedCost, cost, now)))
  {
    hide Fits, Crosses;
    var cs := Reported(calls, tokens, cost);
    assert cs[0] in cs && cs[1] in cs && cs[2] in cs;
    RefusedIff(f, i, ModelCalls, calls, now);
    RefusedIff(f, i, Tokens, tokens, now);
    RefusedIff(f, i, EstimatedCost, cost, now);
  }

  /** What a report adds, by name, at the allocation and at each one enclosing it. */
  lemma RecordedByName(f: Forest, op: Op, calls: nat, tokens: nat, cost: real, a: nat)
    requires WellParented(f) && op.i < |f| && a < |f|
    requires op.Record? && op.modelCalls == Finite(calls as real) && op.tokens == Finite(tokens as real) && op.estimatedCost == Finite(cost)
    requires OutcomeOf(f, op) == Accepted
    ensures var u := f[a].usage;
      Apply(f, op)[a].usage ==
        if Encloses(f, a, op.i)
        then Usage(u.modelCalls + calls, u.toolCalls, u.tokens + tokens, u.estimatedCost + cost, u.childRuns, u.started)
        else u
  {
    hide Fits, AllFit, AllValid, ValidAmount, Encloses, Usage.Add, Charge, ChargeEach, ChargedFor;
    var i, cs := op.i, Reported(op.modelCalls, op.tokens, op.estimatedCost);
    assert cs[1..][0] == cs[1] && cs[2..][0] == cs[2] && cs[1..][1..] == cs[2..] && cs[2..][1..] == [];
    var f1 := ChargedFor(f, i, ModelCalls, calls as real);
    var f2 := ChargedFor(f1, i, Tokens, tokens as real);
    ChargedOnce(f, i, ModelCalls, calls as real, a);
    ChargedOnce(f1, i, Tokens, tokens as real, a);
    ChargedOnce(f2, i, EstimatedCost, cost, a);
    SameEnclosing(f, f1, a, i);
    SameEnclosing(f1, f2, a, i);
    AddByName(f[a].usage, calls, cost);
    AddByName(f1[a].usage, tokens, cost);
    AddByName(f2[a].usage, tokens, cost);
    FirstIsValid(cs);
    FirstIsValid(cs[1..]);
    FirstIsValid(cs[2..]);
    ChargeEachUnfolds(f, i, cs);
    ChargeEachUnfolds(f1, i, cs[1..]);
    ChargeEachUnfolds(f2, i, cs[2..]);
  }

  function ChargedFor(f: Forest, i: nat, d: Dimension, amount: real): (r: Forest)
    requires WellParented(f) && i < |f|
    ensures |r| == |f| && WellParented(r)
    ensures forall a: nat :: a < |f| ==> r[a].parent == f[a].parent
  {
    if amount == 0.0 then f else Charge(f, i, d, amount)
  }

  lemma ChargeEachUnfolds(f: Forest, i: nat, cs: Charges)
    requires WellParented(f) && i < |f| && AllValid(cs) && cs != []
    ensures cs[0].1.Finite? && AllValid(cs[1..])
    ensures ChargeEach(f, i, cs) == ChargeEach(ChargedFor(f, i, cs[0].0, cs[0].1.value), i, cs[1..])
    ensures |cs| == 1 ==> ChargeEach(f, i, cs) == ChargedFor(f, i, cs[0].0, cs[0].1.value)
  {
    FirstIsValid(cs);
  }

  lemma ChargedOnce(f: Forest, i: nat, d: Dimension, amount: real, a: nat)
    requires WellParented(f) && i < |f| && a < |f|
    ensures ChargedFor(f, i, d, amount)[a].usage == if Encloses(f, a, i) then f[a].usage.Add(d, amount) else f[a].usage
  {
    hide Charge;
    ChargeMeans(f, i, d, amount, a);
  }
}
