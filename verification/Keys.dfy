/** Capability contracts: version ranges, and the contract generation a range pins. */
module Keys {
  import opened Wrappers
  import opened Ordering

  /** A final release of one to three components. */
  datatype Release = Release(parts: seq<nat>)
  {
    /** Component `i`, zero-padded. */
    function Part(i: nat): nat {
      if i < |parts| then parts[i] else 0
    }

    function Major(): nat { Part(0) }
    function Minor(): nat { Part(1) }
    function Micro(): nat { Part(2) }
  }

  type Version = v: Release | 1 <= |v.parts| <= 3 witness Release([0])

  predicate Less(a: Version, b: Version) {
    || a.Major() < b.Major()
    || (a.Major() == b.Major() && a.Minor() < b.Minor())
    || (a.Major() == b.Major() && a.Minor() == b.Minor() && a.Micro() < b.Micro())
  }

  predicate Same(a: Version, b: Version) {
    a.Major() == b.Major() && a.Minor() == b.Minor() && a.Micro() == b.Micro()
  }

  datatype Operator = GE | GT | LE | LT | EQ | NE | Compatible | Arbitrary

  /** One clause of a specifier set; `wildcard` is a trailing `.*`. `Unreadable` is an
      arbitrary-equality clause whose text is no version at all. */
  datatype Clause = Clause(op: Operator, version: Version, wildcard: bool) | Unreadable

  predicate HasPrefix(v: Version, prefix: seq<nat>) {
    forall i :: 0 <= i < |prefix| ==> v.Part(i) == prefix[i]
  }

  /** The "Version specifiers" section of PEP 440, for final releases. */
  predicate Matches(c: Clause, v: Version) {
    match c
    case Unreadable => false
    case Clause(op, version, wildcard) =>
      match op
      case GE => !Less(v, version)
      case GT => Less(version, v)
      case LE => !Less(version, v)
      case LT => Less(v, version)
      case EQ => if wildcard then HasPrefix(v, version.parts) else Same(v, version)
      case NE => if wildcard then !HasPrefix(v, version.parts) else !Same(v, version)
      case Compatible =>
        // a single component is not a legal compatible release
        |version.parts| > 1 && !Less(v, version) && HasPrefix(v, version.parts[..|version.parts| - 1])
      case Arbitrary => !wildcard && v.parts == version.parts
  }

  /** `version in specifier`. */
  predicate InSet(specifier: seq<Clause>, v: Version) {
    forall i :: 0 <= i < |specifier| ==> Matches(specifier[i], v)
  }

  // ---- What the operators mean to one another

  /** The first component in which two releases differ, counted with zeros, decides. */
  lemma LessMeans(a: Version, b: Version)
    ensures Less(a, b) <==> exists i :: 0 <= i < 3 && a.Part(i) < b.Part(i) && forall j :: 0 <= j < i ==> a.Part(j) == b.Part(j)
    ensures Same(a, b) <==> !Less(a, b) && !Less(b, a)
    ensures Same(a, b) <==> forall i :: 0 <= i < 3 ==> a.Part(i) == b.Part(i)
  {
    if a.Major() < b.Major() {
      assert a.Part(0) < b.Part(0);
    } else if a.Major() == b.Major() && a.Minor() < b.Minor() {
      assert a.Part(1) < b.Part(1);
    } else if a.Major() == b.Major() && a.Minor() == b.Minor() && a.Micro() < b.Micro() {
      assert a.Part(2) < b.Part(2);
    }
  }

  /** Each operator by `<`, equality and prefixes: the exclusions are complements, the inclusive
      bounds unions, a compatible release is both above and alike up to its last component. */
  lemma OperatorsMean(w: Version, wild: bool, v: Version)
    ensures Matches(Clause(LT, w, wild), v) <==>
      exists i :: 0 <= i < 3 && v.Part(i) < w.Part(i) && forall j :: 0 <= j < i ==> v.Part(j) == w.Part(j)
    ensures Matches(Clause(EQ, w, false), v) <==> forall i :: 0 <= i < 3 ==> v.Part(i) == w.Part(i)
    ensures Matches(Clause(EQ, w, true), v) <==> forall i :: 0 <= i < |w.parts| ==> v.Part(i) == w.parts[i]
    ensures Matches(Clause(NE, w, wild), v) <==> !Matches(Clause(EQ, w, wild), v)
    ensures Matches(Clause(GE, w, wild), v) <==> !Matches(Clause(LT, w, wild), v)
    ensures Matches(Clause(LE, w, wild), v) <==> Matches(Clause(LT, w, wild), v) || Matches(Clause(EQ, w, false), v)
    ensures Matches(Clause(GT, w, wild), v) <==> !Matches(Clause(LE, w, wild), v)
    ensures Matches(Clause(Compatible, w, wild), v) <==>
      |w.parts| > 1 && Matches(Clause(GE, w, wild), v) && Matches(Clause(EQ, Release(w.parts[..|w.parts| - 1]), true), v)
    ensures Matches(Clause(Arbitrary, w, wild), v) <==> !wild && v == w
    ensures !Matches(Unreadable, v)
  {
    LessMeans(v, w);
    LessMeans(w, v);
    hide Less, Same;
  }

  lemma PartMeans(v: Version, i: nat)
    ensures v.Part(i) == if i < |v.parts| then v.parts[i] else 0
    ensures v.Major() == v.Part(0) && v.Minor() == v.Part(1) && v.Micro() == v.Part(2)
  {
  }

  // ---- The generation a specifier pins

  predicate Pins(c: Clause) { c.Clause? && c.op in {EQ, Arbitrary, Compatible} }
  predicate BoundsBelow(c: Clause) { c.Clause? && c.op in {GE, GT} }
  predicate BoundsAbove(c: Clause) { c.Clause? && c.op in {LT, LE} }

  function Select(specifier: seq<Clause>, keep: Clause -> bool): seq<Clause> {
    if specifier == [] then []
    else
      var n := |specifier| - 1;
      Select(specifier[..n], keep) + (if keep(specifier[n]) then [specifier[n]] else [])
  }

  lemma {:induction false} Selected(specifier: seq<Clause>, keep: Clause -> bool)
    ensures forall c :: c in Select(specifier, keep) <==> c in specifier && keep(c)
  {
    if specifier != [] {
      var n := |specifier| - 1;
      Selected(specifier[..n], keep);
      assert specifier == specifier[..n] + [specifier[n]];
    }
  }

  /** The first clause with the least version: Python's `min`. */
  function MinClause(cs: seq<Clause>): (c: Clause)
    requires cs != [] && forall c :: c in cs ==> c.Clause?
    ensures c in cs && forall i :: 0 <= i < |cs| ==> !Less(cs[i].version, c.version)
  {
    if |cs| == 1 then cs[0]
    else
      var best := MinClause(cs[..|cs| - 1]);
      var last := cs[|cs| - 1];
      if Less(last.version, best.version) then last else best
  }

  /** The first clause with the greatest version: Python's `max`. */
  function MaxClause(cs: seq<Clause>): (c: Clause)
    requires cs != [] && forall c :: c in cs ==> c.Clause?
    ensures c in cs && forall i :: 0 <= i < |cs| ==> !Less(c.version, cs[i].version)
  {
    if |cs| == 1 then cs[0]
    else
      var best := MaxClause(cs[..|cs| - 1]);
      var last := cs[|cs| - 1];
      if Less(best.version, last.version) then last else best
  }

  /** The last major an upper bound still admits; -1 below `<0`. */
  function CeilingMajor(c: Clause): int
    requires c.Clause?
  {
    if c.op == LT && c.version.Minor() == 0 && c.version.Micro() == 0
    then c.version.Major() - 1
    else c.version.Major()
  }

  function Decide(pinned: seq<Clause>, lower: seq<Clause>, upper: seq<Clause>): Option<nat>
    requires forall c :: c in pinned + lower + upper ==> c.Clause?
  {
    if pinned != [] then Some(MinClause(pinned).version.Major())
    else if lower == [] || upper == [] then None
    else
      var floor := MaxClause(lower).version.Major();
      if floor == CeilingMajor(MinClause(upper)) then Some(floor) else None
  }

  function PinnedMajor(specifier: seq<Clause>): Option<nat> {
    Selected(specifier, Pins);
    Selected(specifier, BoundsBelow);
    Selected(specifier, BoundsAbove);
    Decide(Select(specifier, Pins), Select(specifier, BoundsBelow), Select(specifier, BoundsAbove))
  }

  /** `specifier_major`, one pass over the clauses. */
  method SpecifierMajor(specifier: seq<Clause>) returns (major: Option<nat>)
    ensures major == PinnedMajor(specifier)
    ensures major.Some? ==> forall v: Version :: InSet(specifier, v) ==> v.Major() == major.value
  {
    var pinned, lower, upper := [], [], [];
    for i := 0 to |specifier|
      invariant pinned == Select(specifier[..i], Pins)
      invariant lower == Select(specifier[..i], BoundsBelow)
      invariant upper == Select(specifier[..i], BoundsAbove)
    {
      assert specifier[..i + 1][..i] == specifier[..i];
      var clause := specifier[i];
      if clause.Unreadable? || clause.op == NE { continue; }
      if clause.op == EQ || clause.op == Arbitrary || clause.op == Compatible {
        pinned := pinned + [clause];
      } else if clause.op == GE || clause.op == GT {
        lower := lower + [clause];
      } else {
        upper := upper + [clause];
      }
    }
    assert specifier[..|specifier|] == specifier;
    Selected(specifier, Pins);
    Selected(specifier, BoundsBelow);
    Selected(specifier, BoundsAbove);
    major := Decide(pinned, lower, upper);
    if major.Some? {
      forall v: Version | InSet(specifier, v) ensures v.Major() == major.value {
        PinIsSound(specifier, v);
      }
    }
  }

  /** Every version the range accepts belongs to the generation it pins. */
  lemma PinIsSound(specifier: seq<Clause>, v: Version)
    requires PinnedMajor(specifier).Some? && InSet(specifier, v)
    ensures v.Major() == PinnedMajor(specifier).value
  {
    Selected(specifier, Pins);
    Selected(specifier, BoundsBelow);
    Selected(specifier, BoundsAbove);
    var pinned := Select(specifier, Pins);
    if pinned != [] {
      var p := MinClause(pinned);
      assert p in specifier && Matches(p, v);
      PinningClause(p, v);
    } else {
      var floor := MaxClause(Select(specifier, BoundsBelow));
      var ceiling := MinClause(Select(specifier, BoundsAbove));
      assert floor in specifier && Matches(floor, v);
      assert ceiling in specifier && Matches(ceiling, v);
      assert floor.version.Major() <= v.Major() <= CeilingMajor(ceiling);
    }
  }

  lemma PinningClause(c: Clause, v: Version)
    requires Pins(c) && Matches(c, v)
    ensures v.Major() == c.version.Major()
  {
    var p := c.version.parts;
    assert c.op == Compatible ==> p[..|p| - 1][0] == p[0];
  }

  /** Exact and compatible clauses decide first, by the least of their versions; without them a
      range that is open on one side pins nothing. */
  lemma PinsFirst(specifier: seq<Clause>)
    ensures (exists c :: c in specifier && Pins(c)) ==>
      exists c :: c in specifier && Pins(c) && PinnedMajor(specifier) == Some(c.version.Major())
                  && forall d :: d in specifier && Pins(d) ==> !Less(d.version, c.version)
    ensures (forall c :: c in specifier ==> !Pins(c)) && !BoundedBothWays(specifier) ==> PinnedMajor(specifier) == None
  {
    Selected(specifier, Pins);
    Selected(specifier, BoundsBelow);
    Selected(specifier, BoundsAbove);
    hide Less, CeilingMajor;
    var pinned, lower, upper := Select(specifier, Pins), Select(specifier, BoundsBelow), Select(specifier, BoundsAbove);
    if pinned != [] {
      assert pinned[0] in pinned;
    }
    assert lower != [] ==> lower[0] in lower;
    assert upper != [] ==> upper[0] in upper;
  }

  /** Two upper bounds at one version are of one kind; otherwise their order would decide. */
  ghost predicate UpperBoundsAgree(specifier: seq<Clause>) {
    forall a, b :: a in specifier && b in specifier && BoundsAbove(a) && BoundsAbove(b) && Same(a.version, b.version) ==>
      a.op == b.op
  }

  ghost predicate BoundedBothWays(specifier: seq<Clause>) {
    (exists c :: c in specifier && BoundsBelow(c)) && (exists c :: c in specifier && BoundsAbove(c))
  }

  /** Without exclusions, a range bounded on both sides pins exactly when its versions share a major. */
  lemma PinIsComplete(specifier: seq<Clause>, w: Version)
    requires InSet(specifier, w) && UpperBoundsAgree(specifier)
    requires forall c :: c in specifier ==> !(c.Clause? && c.op == NE)
    requires (exists c :: c in specifier && Pins(c)) || BoundedBothWays(specifier)
    ensures PinnedMajor(specifier).Some? <==> forall v: Version :: InSet(specifier, v) ==> v.Major() == w.Major()
  {
    if PinnedMajor(specifier).Some? {
      forall v: Version | InSet(specifier, v) ensures v.Major() == w.Major() {
        PinIsSound(specifier, v);
        PinIsSound(specifier, w);
      }
    } else {
      var low, high := TwoMajors(specifier, w);
      assert low.Major() < high.Major();
    }
  }

  ghost predicate Tightest(specifier: seq<Clause>, floor: Clause, ceiling: Clause) {
    && floor in specifier && BoundsBelow(floor) && ceiling in specifier && BoundsAbove(ceiling)
    && (forall c :: c in specifier && BoundsBelow(c) ==> !Less(floor.version, c.version))
    && (forall c :: c in specifier && BoundsAbove(c) ==> !Less(c.version, ceiling.version))
  }

  /** The bounds a range without a pin was judged by. */
  lemma JudgedBy(specifier: seq<Clause>) returns (floor: Clause, ceiling: Clause)
    requires PinnedMajor(specifier).None?
    requires (exists c :: c in specifier && Pins(c)) || BoundedBothWays(specifier)
    ensures Tightest(specifier, floor, ceiling) && floor.version.Major() != CeilingMajor(ceiling)
    ensures forall c :: c in specifier ==> !Pins(c)
  {
    Selected(specifier, Pins);
    Selected(specifier, BoundsBelow);
    Selected(specifier, BoundsAbove);
    hide Less, CeilingMajor;
    floor := MaxClause(Select(specifier, BoundsBelow));
    ceiling := MinClause(Select(specifier, BoundsAbove));
  }

  /** A range that pins nothing accepts versions of two majors: one just above its floor, one below its ceiling. */
  lemma TwoMajors(specifier: seq<Clause>, w: Version) returns (low: Version, high: Version)
    requires InSet(specifier, w) && UpperBoundsAgree(specifier)
    requires forall c :: c in specifier ==> !(c.Clause? && c.op == NE)
    requires PinnedMajor(specifier).None?
    requires (exists c :: c in specifier && Pins(c)) || BoundedBothWays(specifier)
    ensures InSet(specifier, low) && InSet(specifier, high) && low.Major() < high.Major()
  {
    hide PinnedMajor, BoundedBothWays, UpperBoundsAgree;
    var floor, ceiling := JudgedBy(specifier);
    assert Matches(floor, w) && Matches(ceiling, w);
    var f := floor.version;
    low := Release([f.Major(), f.Minor(), f.Micro() + 1]);
    high := Release([CeilingMajor(ceiling)]);
    forall i | 0 <= i < |specifier| ensures Matches(specifier[i], low) && Matches(specifier[i], high) {
      var c := specifier[i];
      assert Matches(c, w) && c in specifier;
      BetweenBounds(specifier, c, floor, ceiling, low, high);
    }
  }

  lemma BetweenBounds(specifier: seq<Clause>, c: Clause, floor: Clause, ceiling: Clause, low: Version, high: Version)
    requires c in specifier && (BoundsBelow(c) || BoundsAbove(c)) && UpperBoundsAgree(specifier)
    requires BoundsBelow(floor) && ceiling in specifier && BoundsAbove(ceiling)
    requires BoundsBelow(c) ==> !Less(floor.version, c.version)
    requires BoundsAbove(c) ==> !Less(c.version, ceiling.version)
    requires floor.version.Major() < CeilingMajor(ceiling)
    requires low == Release([floor.version.Major(), floor.version.Minor(), floor.version.Micro() + 1])
    requires high == Release([CeilingMajor(ceiling)])
    ensures Matches(c, low) && Matches(c, high)
  {
    if BoundsAbove(c) && Same(c.version, ceiling.version) {
      assert c.op == ceiling.op;
    }
  }

  const FROM_ONE := Clause(GE, Release([1]), false)
  const UP_TO_TWO := Clause(LE, Release([2]), false)
  const BELOW_TWO := Clause(LT, Release([2]), false)

  /** Of two upper bounds at one version the first one read decides, though the range is the same. */
  lemma EqualBoundsMakeOrderMatter(v: Version)
    ensures InSet([FROM_ONE, BELOW_TWO, UP_TO_TWO], v) <==> InSet([FROM_ONE, UP_TO_TWO, BELOW_TWO], v)
    ensures PinnedMajor([FROM_ONE, BELOW_TWO, UP_TO_TWO]) == Some(1)
    ensures PinnedMajor([FROM_ONE, UP_TO_TWO, BELOW_TWO]) == None
  {
    var a, b := [FROM_ONE, BELOW_TWO, UP_TO_TWO], [FROM_ONE, UP_TO_TWO, BELOW_TWO];
    assert InSet(a, v) <==> Matches(a[0], v) && Matches(a[1], v) && Matches(a[2], v);
    assert InSet(b, v) <==> Matches(b[0], v) && Matches(b[1], v) && Matches(b[2], v);
    SelectThree(FROM_ONE, BELOW_TWO, UP_TO_TWO);
    SelectThree(FROM_ONE, UP_TO_TWO, BELOW_TWO);
  }

  lemma SelectThree(a: Clause, b: Clause, c: Clause)
    requires BoundsBelow(a) && BoundsAbove(b) && BoundsAbove(c)
    ensures Select([a, b, c], Pins) == [] && Select([a, b, c], BoundsBelow) == [a] && Select([a, b, c], BoundsAbove) == [b, c]
  {
    SelectOfThree(a, b, c, Pins);
    SelectOfThree(a, b, c, BoundsBelow);
    SelectOfThree(a, b, c, BoundsAbove);
  }

  lemma SelectOfThree(a: Clause, b: Clause, c: Clause, keep: Clause -> bool)
    ensures Select([a, b, c], keep) ==
      (if keep(a) then [a] else []) + (if keep(b) then [b] else []) + (if keep(c) then [c] else [])
  {
    assert [a, b, c][..2] == [a, b] && [a, b][..1] == [a] && [a][..0] == [];
    assert Select([a], keep) == Select([], keep) + if keep(a) then [a] else [];
    assert Select([a, b], keep) == Select([a], keep) + if keep(b) then [b] else [];
    assert Select([a, b, c], keep) == Select([a, b], keep) + if keep(c) then [c] else [];
  }

  // ---- Requirements

  /** `generation` is `None` for a generation-agnostic requirement. */
  datatype Requirement = Requirement(name: Id, generation: Option<nat>, specifier: seq<Clause>, optional: bool)

  /** A provider's contract: always of a definite generation. */
  datatype Key = Key(name: Id, generation: nat)

  function FromVersion(name: Id, v: Version): Key {
    Key(name, v.Major())
  }

  function Parse(name: Id, specifier: seq<Clause>, optional: bool): Requirement {
    Requirement(name, PinnedMajor(specifier), specifier, optional)
  }

  predicate Accepts(r: Requirement, key: Key, v: Version) {
    && key.name == r.name
    && (r.generation.Some? ==> key.generation == r.generation.value)
    && InSet(r.specifier, v)
  }

  /** Pinning never turns away a version the range itself accepts, whatever the clauses. */
  lemma PinningNeverRejects(name: Id, specifier: seq<Clause>, optional: bool, v: Version)
    ensures Accepts(Parse(name, specifier, optional), FromVersion(name, v), v) <==> InSet(specifier, v)
  {
    if InSet(specifier, v) && PinnedMajor(specifier).Some? {
      PinIsSound(specifier, v);
    }
  }

  /** A contract is accepted exactly when it has the name, a version in the set and, where the set
      pins a generation, that of its own version. */
  lemma AcceptsMeans(name: Id, specifier: seq<Clause>, optional: bool, key: Key, v: Version)
    ensures Accepts(Parse(name, specifier, optional), key, v) <==>
      key.name == name && InSet(specifier, v) && (PinnedMajor(specifier).Some? ==> key.generation == v.Major())
  {
    if InSet(specifier, v) && PinnedMajor(specifier).Some? {
      PinIsSound(specifier, v);
    }
  }
}
