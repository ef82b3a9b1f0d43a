/** The signature checker, against how a call binds its arguments (section 6.3.4, "Calls", of
    the Python Language Reference). */
module ApiCompat {
  import opened Wrappers
  import opened Ordering

  datatype Kind = PositionalOnly | PositionalOrKeyword | VarPositional | KeywordOnly | VarKeyword

  datatype Parameter = Parameter(name: Id, kind: Kind, hasDefault: bool)
  {
    predicate IsPositional() { kind == PositionalOnly || kind == PositionalOrKeyword }

    /** A keyword argument of its name reaches it. */
    predicate IsKeyword() { kind == PositionalOrKeyword || kind == KeywordOnly }

    predicate Collects() { kind == VarPositional || kind == VarKeyword }
  }

  type Signature = seq<Parameter>

  /** What Python itself demands of a signature, as far as binding depends on it. */
  ghost predicate WellFormed(s: Signature) {
    && (forall i, j :: 0 <= i < j < |s| ==> s[i].name != s[j].name)
    && (forall i, j :: 0 <= i < j < |s| && s[i].Collects() ==> s[i].kind != s[j].kind)
  }

  function Positional(s: Signature): (r: seq<Id>)
    ensures forall n :: n in r <==> exists p :: p in s && p.IsPositional() && p.name == n
    ensures |r| <= |s|
  {
    if s == [] then []
    else
      assert s == [s[0]] + s[1..];
      (if s[0].IsPositional() then [s[0].name] else []) + Positional(s[1..])
  }

  ghost predicate HasKeyword(s: Signature, n: Id) {
    exists p :: p in s && p.IsKeyword() && p.name == n
  }

  ghost predicate Collector(s: Signature, kind: Kind, n: Id) {
    exists p :: p in s && p.kind == kind && p.name == n
  }

  ghost predicate HasCollector(s: Signature, kind: Kind) {
    exists p :: p in s && p.kind == kind
  }

  // ---- Binding

  /** A call: how many positional arguments, and which keywords. */
  datatype Call = Call(positional: nat, keywords: set<Id>)

  ghost predicate Filled(s: Signature, p: Parameter, c: Call) {
    || (p.IsPositional() && p.name in Positional(s)[..if c.positional < |Positional(s)| then c.positional else |Positional(s)|])
    || (p.IsKeyword() && p.name in c.keywords)
  }

  ghost predicate Accepts(s: Signature, c: Call) {
    var slots := Positional(s);
    var taken := slots[..if c.positional < |slots| then c.positional else |slots|];
    && (c.positional > |slots| ==> HasCollector(s, VarPositional))
    && (forall k :: k in c.keywords ==> if HasKeyword(s, k) then k !in taken else HasCollector(s, VarKeyword))
    && (forall p :: p in s && !p.Collects() ==> p.hasDefault || Filled(s, p, c))
  }

  /** Where the positional argument `i` of an accepted call goes. */
  ghost predicate BindsPositional(s: Signature, i: nat, n: Id) {
    if i < |Positional(s)| then n == Positional(s)[i] else Collector(s, VarPositional, n)
  }

  /** Where a keyword argument of an accepted call goes. */
  ghost predicate BindsKeyword(s: Signature, k: Id, n: Id) {
    if HasKeyword(s, k) then n == k else Collector(s, VarKeyword, n)
  }

  /** Every call the old signature takes, the new one takes too, each argument landing on the
      parameter of the same name. */
  ghost predicate Preserves(was: Signature, now: Signature, c: Call) {
    Accepts(was, c) ==>
      && Accepts(now, c)
      && (forall i: nat, n :: i < c.positional && BindsPositional(was, i, n) ==> BindsPositional(now, i, n))
      && (forall k, n :: k in c.keywords && BindsKeyword(was, k, n) ==> BindsKeyword(now, k, n))
  }

  // ---- The checker

  datatype Problem =
    | OrderChanged
    | Removed(name: Id)
    | KindChanged(name: Id)
    | DefaultLost(name: Id)
    | RequiredAdded(name: Id)

  /** `{parameter["name"]: parameter for parameter in new}`: the last of a name counts. */
  function Lookup(s: Signature, n: Id): (r: Option<Parameter>)
    ensures r.Some? ==> r.value in s && r.value.name == n
    ensures r.None? ==> forall p :: p in s ==> p.name != n
  {
    if s == [] then None
    else
      var last := |s| - 1;
      assert s == s[..last] + [s[last]];
      if s[last].name == n then Some(s[last]) else Lookup(s[..last], n)
  }

  function ProblemsOf(p: Parameter, now: Signature): seq<Problem> {
    var found := Lookup(now, p.name);
    if found.None? then [Removed(p.name)]
    else
      (if found.value.kind != p.kind then [KindChanged(p.name)] else []) +
      (if p.hasDefault && !found.value.hasDefault then [DefaultLost(p.name)] else [])
  }

  function AllProblemsOf(was: Signature, now: Signature): (r: seq<Problem>)
    ensures r == [] <==> forall p :: p in was ==> ProblemsOf(p, now) == []
  {
    if was == [] then []
    else
      var last := |was| - 1;
      assert was == was[..last] + [was[last]];
      AllProblemsOf(was[..last], now) + ProblemsOf(was[last], now)
  }

  predicate Added(was: Signature, p: Parameter) {
    Lookup(was, p.name).None?
  }

  function AddedProblems(was: Signature, now: Signature): (r: seq<Problem>)
    ensures r == [] <==> forall p :: p in now && Added(was, p) ==> p.hasDefault
  {
    if now == [] then []
    else
      var last := |now| - 1;
      assert now == now[..last] + [now[last]];
      AddedProblems(was, now[..last]) +
      if Added(was, now[last]) && !now[last].hasDefault then [RequiredAdded(now[last].name)] else []
  }

  function Problems(was: Signature, now: Signature): seq<Problem> {
    (if Positional(was) <= Positional(now) then [] else [OrderChanged])
    + AllProblemsOf(was, now) + AddedProblems(was, now)
  }

  method AppendProblemsOf(p: Parameter, now: Signature, before: seq<Problem>) returns (problems: seq<Problem>)
    ensures problems == before + ProblemsOf(p, now)
  {
    problems := before;
    var found := Lookup(now, p.name);
    if found.None? {
      problems := problems + [Removed(p.name)];
      return;
    }
    if found.value.kind != p.kind {
      problems := problems + [KindChanged(p.name)];
    }
    if p.hasDefault && !found.value.hasDefault {
      problems := problems + [DefaultLost(p.name)];
    }
  }

  /** The checker's loop over the old parameters. */
  method AppendOld(was: Signature, now: Signature, before: seq<Problem>) returns (problems: seq<Problem>)
    ensures problems == before + AllProblemsOf(was, now)
  {
    hide ProblemsOf, AllProblemsOf;
    problems := before;
    NoOldProblems(now);
    for i := 0 to |was|
      invariant problems == before + AllProblemsOf(was[..i], now)
    {
      AllProblemsNext(was, now, i);
      problems := AppendProblemsOf(was[i], now, problems);
    }
    assert was[..|was|] == was;
  }

  lemma NoOldProblems(now: Signature)
    ensures AllProblemsOf([], now) == []
  {
  }

  lemma AllProblemsNext(was: Signature, now: Signature, i: nat)
    requires i < |was|
    ensures AllProblemsOf(was[..i + 1], now) == AllProblemsOf(was[..i], now) + ProblemsOf(was[i], now)
  {
    hide ProblemsOf;
    assert was[..i + 1][..i] == was[..i];
  }

  /** And the one over the new parameters. */
  method AppendAdded(was: Signature, now: Signature, before: seq<Problem>) returns (problems: seq<Problem>)
    ensures problems == before + AddedProblems(was, now)
  {
    problems := before;
    for i := 0 to |now|
      invariant problems == before + AddedProblems(was, now[..i])
    {
      assert now[..i + 1][..i] == now[..i];
      if Lookup(was, now[i].name).None? && !now[i].hasDefault {
        problems := problems + [RequiredAdded(now[i].name)];
      }
    }
    assert now[..|now|] == now;
  }

  method IncompatibleParams(was: Signature, now: Signature) returns (problems: seq<Problem>)
    ensures problems == Problems(was, now)
  {
    problems := [];
    var before, after := Positional(was), Positional(now);
    if after[..if |before| < |after| then |before| else |after|] != before {
      problems := [OrderChanged];
    }
    problems := AppendOld(was, now, problems);
    problems := AppendAdded(was, now, problems);
  }

  // ---- What an empty verdict is worth

  lemma NoProblemsFacts(was: Signature, now: Signature)
    requires Problems(was, now) == [] && WellFormed(was) && WellFormed(now)
    ensures Positional(was) <= Positional(now)
    ensures forall p :: p in was ==> exists q :: q in now && q.name == p.name && q.kind == p.kind && (p.hasDefault ==> q.hasDefault)
    ensures forall q :: q in now ==> q.hasDefault || exists p :: p in was && p.name == q.name
  {
    forall p | p in was
      ensures exists q :: q in now && q.name == p.name && q.kind == p.kind && (p.hasDefault ==> q.hasDefault)
    {
      assert ProblemsOf(p, now) == [];
      var q := Lookup(now, p.name).value;
      assert q in now && q.kind == p.kind;
    }
    forall q | q in now ensures q.hasDefault || exists p :: p in was && p.name == q.name {
      if !Added(was, q) {
        var p := Lookup(was, q.name).value;
        assert p in was;
      }
    }
  }

  /** In a well-formed signature a name decides the parameter. */
  lemma NameDecides(s: Signature, p: Parameter, q: Parameter)
    requires WellFormed(s) && p in s && q in s && p.name == q.name
    ensures p == q
  {
    var i :| 0 <= i < |s| && s[i] == p;
    var j :| 0 <= j < |s| && s[j] == q;
  }

  lemma NameMeansKind(s: Signature, p: Parameter, q: Parameter)
    requires WellFormed(s) && p in s && q in s
    ensures p.kind != q.kind ==> p.name != q.name
  {
    if p.name == q.name {
      NameDecides(s, p, q);
    }
  }

  /** What the checker's empty verdict establishes, and all the rest uses. */
  ghost predicate Carried(was: Signature, now: Signature) {
    && WellFormed(was) && WellFormed(now) && Positional(was) <= Positional(now)
    && (forall p :: p in was ==> exists q :: q in now && q.name == p.name && q.kind == p.kind && (p.hasDefault ==> q.hasDefault))
    && (forall q :: q in now ==> q.hasDefault || exists p :: p in was && p.name == q.name)
  }

  /** The verdict is empty exactly when every old parameter is carried over and nothing required
      is added. */
  lemma NoProblemsIff(was: Signature, now: Signature)
    requires WellFormed(was) && WellFormed(now)
    ensures Problems(was, now) == [] <==> Carried(was, now)
  {
    hide WellFormed, Positional, Lookup, ProblemsOf;
    if Problems(was, now) == [] {
      NoProblemsFacts(was, now);
    }
    if Carried(was, now) {
      forall p | p in was ensures ProblemsOf(p, now) == [] {
        CarriedParameter(was, now, p);
      }
      assert AllProblemsOf(was, now) == [] && AddedProblems(was, now) == [];
    }
  }

  lemma CarriedParameter(was: Signature, now: Signature, p: Parameter)
    requires Carried(was, now) && p in was
    ensures ProblemsOf(p, now) == []
  {
    hide Positional, Lookup;
    var q :| q in now && q.name == p.name && q.kind == p.kind && (p.hasDefault ==> q.hasDefault);
    NameDecides(now, q, Lookup(now, p.name).value);
  }

  function Taken(s: Signature, n: nat): seq<Id> {
    Positional(s)[..if n < |Positional(s)| then n else |Positional(s)|]
  }

  /** Arguments that used to be collected are still: no positional parameter was added behind
      `*args`, and no keyword in front of `**kwargs`. */
  ghost predicate NothingDiverted(was: Signature, now: Signature) {
    && (HasCollector(was, VarPositional) ==> Positional(now) == Positional(was))
    && (HasCollector(was, VarKeyword) ==> forall k :: HasKeyword(now, k) ==> HasKeyword(was, k))
  }

  lemma CarriedCollector(was: Signature, now: Signature, kind: Kind, n: Id)
    requires Carried(was, now) && Collector(was, kind, n)
    ensures Collector(now, kind, n) && HasCollector(now, kind)
  {
    var p :| p in was && p.kind == kind && p.name == n;
    var q :| q in now && q.name == p.name && q.kind == p.kind;
  }

  lemma CarriedKeyword(was: Signature, now: Signature, k: Id)
    requires Carried(was, now) && HasKeyword(was, k)
    ensures HasKeyword(now, k)
  {
    var p :| p in was && p.IsKeyword() && p.name == k;
    var q :| q in now && q.name == p.name && q.kind == p.kind;
  }

  lemma TakenElements(s: Signature, n: nat)
    ensures forall j :: 0 <= j < |Taken(s, n)| ==> Positional(s)[j] in Taken(s, n)
  {
    assert forall j :: 0 <= j < |Taken(s, n)| ==> Taken(s, n)[j] == Positional(s)[j];
  }

  /** A keyword the old call could pass is not taken by a positional argument of the new one. */
  lemma KeywordStaysFree(was: Signature, now: Signature, c: Call, k: Id)
    requires Carried(was, now) && Accepts(was, c) && k in c.keywords && HasKeyword(was, k)
    ensures k !in Taken(now, c.positional)
  {
    PositionalDistinct(now);
    var p :| p in was && p.IsKeyword() && p.name == k;
    var r :| r in now && r.name == p.name && r.kind == p.kind;
    if k in Positional(was) {
      var j :| 0 <= j < |Positional(was)| && Positional(was)[j] == k;
      assert Positional(now)[j] == k;
      assert |Taken(was, c.positional)| <= j by { TakenElements(was, c.positional); }
    } else {
      forall q | q in now && q.IsPositional() ensures q.name != k {
        assert p.name == k && p.kind == r.kind;
        NameMeansKind(now, q, r);
      }
      assert k !in Positional(now);
    }
  }

  lemma {:induction false} PositionalDistinct(s: Signature)
    requires WellFormed(s)
    ensures Distinct(Positional(s))
  {
    if s != [] {
      var rest := s[1..];
      assert forall i :: 0 <= i < |rest| ==> rest[i] == s[i + 1];
      PositionalDistinct(rest);
      forall p | p in rest ensures p.name != s[0].name {
        var i :| 0 <= i < |rest| && rest[i] == p;
        assert s[i + 1] == p;
      }
      assert s[0].name !in Positional(rest);
      DistinctConcat(if s[0].IsPositional() then [s[0].name] else [], Positional(rest));
    }
  }

  lemma TakenGrows(was: Signature, now: Signature, n: nat)
    requires Positional(was) <= Positional(now)
    ensures Taken(was, n) <= Taken(now, n)
  {
  }

  lemma StillFilled(was: Signature, now: Signature, c: Call, q: Parameter)
    requires Carried(was, now) && Accepts(was, c) && q in now && !q.Collects()
    ensures q.hasDefault || Filled(now, q, c)
  {
    assert Positional(was) <= Positional(now);
    if !q.hasDefault {
      var p :| p in was && p.name == q.name;
      var r :| r in now && r.name == p.name && r.kind == p.kind && (p.hasDefault ==> r.hasDefault);
      NameDecides(now, q, r);
      assert Filled(was, p, c);
      hide Accepts, WellFormed, Carried, Positional;
      var before, after := Taken(was, c.positional), Taken(now, c.positional);
      TakenGrows(was, now, c.positional);
      if p.IsPositional() && p.name in before {
        var i :| 0 <= i < |before| && before[i] == p.name;
        assert after[i] == p.name;
      }
    }
  }

  lemma StillAccepted(was: Signature, now: Signature, c: Call)
    requires Carried(was, now) && NothingDiverted(was, now) && Accepts(was, c)
    ensures Accepts(now, c)
  {
    if c.positional > |Positional(now)| {
      var p :| p in was && p.kind == VarPositional;
      CarriedCollector(was, now, VarPositional, p.name);
    }
    forall k | k in c.keywords
      ensures if HasKeyword(now, k) then k !in Taken(now, c.positional) else HasCollector(now, VarKeyword)
    {
      if HasKeyword(was, k) {
        CarriedKeyword(was, now, k);
        KeywordStaysFree(was, now, c, k);
      } else {
        var p :| p in was && p.kind == VarKeyword;
        CarriedCollector(was, now, VarKeyword, p.name);
      }
    }
    forall q | q in now && !q.Collects() ensures q.hasDefault || Filled(now, q, c) {
      StillFilled(was, now, c, q);
    }
  }

  lemma StillBound(was: Signature, now: Signature, c: Call)
    requires Carried(was, now) && NothingDiverted(was, now) && Accepts(was, c)
    ensures forall i: nat, n :: i < c.positional && BindsPositional(was, i, n) ==> BindsPositional(now, i, n)
    ensures forall k, n :: k in c.keywords && BindsKeyword(was, k, n) ==> BindsKeyword(now, k, n)
  {
    forall i: nat, n | i < c.positional && BindsPositional(was, i, n) ensures BindsPositional(now, i, n) {
      if i >= |Positional(was)| {
        CarriedCollector(was, now, VarPositional, n);
        assert HasCollector(was, VarPositional);
      }
    }
    forall k, n | k in c.keywords && BindsKeyword(was, k, n) ensures BindsKeyword(now, k, n) {
      if HasKeyword(was, k) {
        CarriedKeyword(was, now, k);
      } else {
        CarriedCollector(was, now, VarKeyword, n);
        assert HasCollector(was, VarKeyword);
      }
    }
  }

  function KeywordOnlyNames(s: Signature): set<Id> {
    set p | p in s && p.kind == KeywordOnly :: p.name
  }

  /** Filling every slot of a signature, and passing more besides. */
  lemma FullCall(s: Signature, n: nat, extra: set<Id>)
    requires WellFormed(s) && n >= |Positional(s)| && (n > |Positional(s)| ==> HasCollector(s, VarPositional))
    requires forall k :: k in extra ==> !HasKeyword(s, k) && HasCollector(s, VarKeyword)
    ensures Accepts(s, Call(n, KeywordOnlyNames(s) + extra))
  {
    var c := Call(n, KeywordOnlyNames(s) + extra);
    assert Taken(s, n) == Positional(s);
    forall k | k in KeywordOnlyNames(s) ensures HasKeyword(s, k) && k !in Positional(s) {
      var p :| p in s && p.kind == KeywordOnly && p.name == k;
      forall q | q in s && q.IsPositional() ensures q.name != k {
        NameMeansKind(s, q, p);
      }
    }
    forall p | p in s && !p.Collects() ensures Filled(s, p, c) {
      if p.kind == KeywordOnly {
        assert p.name in KeywordOnlyNames(s);
      } else {
        assert p.name in Positional(s);
      }
    }
  }

  lemma DivertedPositional(was: Signature, now: Signature) returns (c: Call)
    requires Carried(was, now) && HasCollector(was, VarPositional) && Positional(now) != Positional(was)
    ensures !Preserves(was, now, c)
  {
    var n := |Positional(was)|;
    c := Call(n + 1, KeywordOnlyNames(was) + {});
    FullCall(was, n + 1, {});
    var p :| p in was && p.kind == VarPositional;
    CarriedCollector(was, now, VarPositional, p.name);
    assert BindsPositional(was, n, p.name);
    var q :| q in now && q.kind == VarPositional && q.name == p.name;
    assert Positional(now)[n] in Positional(now);
    var r :| r in now && r.IsPositional() && r.name == Positional(now)[n];
    NameMeansKind(now, q, r);
    assert !BindsPositional(now, n, p.name);
  }

  lemma DivertedKeyword(was: Signature, now: Signature, k: Id) returns (c: Call)
    requires Carried(was, now) && HasCollector(was, VarKeyword) && HasKeyword(now, k) && !HasKeyword(was, k)
    ensures !Preserves(was, now, c)
  {
    c := Call(|Positional(was)|, KeywordOnlyNames(was) + {k});
    FullCall(was, |Positional(was)|, {k});
    var p :| p in was && p.kind == VarKeyword;
    CarriedCollector(was, now, VarKeyword, p.name);
    assert BindsKeyword(was, k, p.name) && k in c.keywords;
    var q :| q in now && q.kind == VarKeyword && q.name == p.name;
    var r :| r in now && r.IsKeyword() && r.name == k;
    NameMeansKind(now, q, r);
    assert !BindsKeyword(now, k, p.name);
  }

  /** With an empty verdict every old call still works and still means the same exactly when
      nothing that used to be collected is diverted. */
  lemma EmptyVerdictPreservesCallsIff(was: Signature, now: Signature)
    requires WellFormed(was) && WellFormed(now) && Problems(was, now) == []
    ensures (forall c :: Preserves(was, now, c)) <==> NothingDiverted(was, now)
  {
    hide Problems, WellFormed, Preserves, NothingDiverted, Carried;
    NoProblemsIff(was, now);
    if NothingDiverted(was, now) {
      forall c ensures Preserves(was, now, c) {
        StillPreserved(was, now, c);
      }
    } else {
      var c := SomeDiverted(was, now);
    }
  }

  lemma StillPreserved(was: Signature, now: Signature, c: Call)
    requires Carried(was, now) && NothingDiverted(was, now)
    ensures Preserves(was, now, c)
  {
    hide Carried, NothingDiverted, Accepts, BindsPositional, BindsKeyword;
    if Accepts(was, c) {
      StillAccepted(was, now, c);
      StillBound(was, now, c);
    }
  }

  lemma SomeDiverted(was: Signature, now: Signature) returns (c: Call)
    requires Carried(was, now) && !NothingDiverted(was, now)
    ensures !Preserves(was, now, c)
  {
    hide Carried, Preserves, HasCollector, HasKeyword, Positional;
    if HasCollector(was, VarPositional) && Positional(now) != Positional(was) {
      c := DivertedPositional(was, now);
    } else {
      var k :| HasKeyword(now, k) && !HasKeyword(was, k);
      c := DivertedKeyword(was, now, k);
    }
  }

  /** So for a signature that collected nothing the checker is sound. */
  lemma SoundWithoutCollectors(was: Signature, now: Signature, c: Call)
    requires WellFormed(was) && WellFormed(now) && Problems(was, now) == []
    requires forall p :: p in was ==> !p.Collects()
    ensures Preserves(was, now, c)
  {
    EmptyVerdictPreservesCallsIff(was, now);
    assert NothingDiverted(was, now);
  }

  // ---- What each problem says

  /** The problem is there, in terms of the two signatures. */
  ghost predicate Justified(was: Signature, now: Signature, q: Problem) {
    match q
    case OrderChanged => !(Positional(was) <= Positional(now))
    case Removed(n) => exists p :: p in was && p.name == n && forall r :: r in now ==> r.name != n
    case KindChanged(n) => exists p, r :: p in was && r in now && p.name == n && r.name == n && p.kind != r.kind
    case DefaultLost(n) => exists p, r :: p in was && r in now && p.name == n && r.name == n && p.hasDefault && !r.hasDefault
    case RequiredAdded(n) => exists r :: r in now && r.name == n && !r.hasDefault && forall p :: p in was ==> p.name != n
  }

  /** The checker reports each problem there is, under its own label, and no other. */
  lemma ProblemsMean(was: Signature, now: Signature, q: Problem)
    requires WellFormed(was) && WellFormed(now)
    ensures q in Problems(was, now) <==> Justified(was, now, q)
  {
    hide Positional, ProblemsOf, AllProblemsOf, AddedProblems, WellFormed, Justified;
    OldProblemsMean(was, now, q);
    AddedProblemsMean(was, now, q);
    OneLabel(was, now, q);
  }

  lemma {:induction false} OldProblemsMean(was: Signature, now: Signature, q: Problem)
    ensures q in AllProblemsOf(was, now) <==> exists i :: 0 <= i < |was| && q in ProblemsOf(was[i], now)
    decreases |was|
  {
    hide ProblemsOf, AllProblemsOf;
    if was == [] {
      NoOldProblems(now);
    } else {
      var last := |was| - 1;
      OldProblemsMean(was[..last], now, q);
      AllProblemsNext(was, now, last);
      assert was[..last + 1] == was;
      assert forall i :: 0 <= i < last ==> was[..last][i] == was[i];
    }
  }

  lemma {:induction false} AddedProblemsMean(was: Signature, now: Signature, q: Problem)
    ensures q in AddedProblems(was, now) <==>
      exists i :: 0 <= i < |now| && q == RequiredAdded(now[i].name) && !now[i].hasDefault && Lookup(was, now[i].name).None?
    decreases |now|
  {
    hide Lookup;
    if now != [] {
      var last := |now| - 1;
      AddedProblemsMean(was, now[..last], q);
      assert forall i :: 0 <= i < last ==> now[..last][i] == now[i];
    }
  }

  lemma OneLabel(was: Signature, now: Signature, q: Problem)
    requires WellFormed(was) && WellFormed(now)
    ensures q == OrderChanged ==>
      (Justified(was, now, q) <==> !(Positional(was) <= Positional(now)))
      && (forall i :: 0 <= i < |was| ==> q !in ProblemsOf(was[i], now))
    ensures q != OrderChanged ==>
      (Justified(was, now, q) <==>
        || (exists i :: 0 <= i < |was| && q in ProblemsOf(was[i], now))
        || (exists i :: 0 <= i < |now| && q == RequiredAdded(now[i].name) && !now[i].hasDefault && Lookup(was, now[i].name).None?))
  {
    hide Positional, ProblemsOf, WellFormed, Lookup, Justified;
    match q
    case OrderChanged =>
      NotAboutOrder(was, now);
    case Removed(n) => OldLabel(was, now, q);
    case KindChanged(n) => OldLabel(was, now, q);
    case DefaultLost(n) => OldLabel(was, now, q);
    case RequiredAdded(n) => NewLabel(was, now, q);
  }

  lemma NotAboutOrder(was: Signature, now: Signature)
    ensures Justified(was, now, OrderChanged) <==> !(Positional(was) <= Positional(now))
    ensures forall i :: 0 <= i < |was| ==> OrderChanged !in ProblemsOf(was[i], now)
  {
  }

  lemma ProblemOfOne(now: Signature, p: Parameter, q: Problem)
    requires WellFormed(now)
    ensures q in ProblemsOf(p, now) <==>
      || (q == Removed(p.name) && forall r :: r in now ==> r.name != p.name)
      || (exists r :: r in now && r.name == p.name &&
            ((q == KindChanged(p.name) && p.kind != r.kind) || (q == DefaultLost(p.name) && p.hasDefault && !r.hasDefault)))
  {
    hide WellFormed, Lookup;
    var found := Lookup(now, p.name);
    if found.Some? {
      forall r | r in now && r.name == p.name ensures r == found.value {
        NameDecides(now, r, found.value);
      }
    }
  }

  lemma OldLabel(was: Signature, now: Signature, q: Problem)
    requires WellFormed(now) && (q.Removed? || q.KindChanged? || q.DefaultLost?)
    ensures Justified(was, now, q) <==> exists i :: 0 <= i < |was| && q in ProblemsOf(was[i], now)
    ensures forall r: Parameter :: q != RequiredAdded(r.name)
  {
    hide ProblemsOf, WellFormed;
    if i :| 0 <= i < |was| && q in ProblemsOf(was[i], now) {
      ProblemOfOne(now, was[i], q);
      assert was[i] in was;
    }
    if Justified(was, now, q) {
      var p := BlamedFor(was, now, q);
      var i :| 0 <= i < |was| && was[i] == p;
      ProblemOfOne(now, was[i], q);
    }
  }

  lemma BlamedFor(was: Signature, now: Signature, q: Problem) returns (p: Parameter)
    requires (q.Removed? || q.KindChanged? || q.DefaultLost?) && Justified(was, now, q)
    ensures p in was
    ensures || (q == Removed(p.name) && forall r :: r in now ==> r.name != p.name)
            || (exists r :: r in now && r.name == p.name &&
                  ((q == KindChanged(p.name) && p.kind != r.kind) || (q == DefaultLost(p.name) && p.hasDefault && !r.hasDefault)))
  {
    match q
    case Removed(n) =>
      p :| p in was && p.name == n && forall r :: r in now ==> r.name != n;
    case KindChanged(n) =>
      var x, r :| x in was && r in now && x.name == n && r.name == n && x.kind != r.kind;
      p := x;
    case DefaultLost(n) =>
      var x, r :| x in was && r in now && x.name == n && r.name == n && x.hasDefault && !r.hasDefault;
      p := x;
  }

  lemma NewLabel(was: Signature, now: Signature, q: Problem)
    requires WellFormed(now) && q.RequiredAdded?
    ensures Justified(was, now, q) <==>
      exists i :: 0 <= i < |now| && q == RequiredAdded(now[i].name) && !now[i].hasDefault && Lookup(was, now[i].name).None?
    ensures forall i :: 0 <= i < |was| ==> q !in ProblemsOf(was[i], now)
  {
    hide ProblemsOf, WellFormed, Lookup;
    forall i | 0 <= i < |was| ensures q !in ProblemsOf(was[i], now) {
      ProblemOfOne(now, was[i], q);
    }
    if Justified(was, now, q) {
      var r :| r in now && r.name == q.name && !r.hasDefault && forall p :: p in was ==> p.name != q.name;
      var i :| 0 <= i < |now| && now[i] == r;
      assert Lookup(was, now[i].name).None?;
    }
  }

  // ---- What binding does

  /** The positional slots come in the order of the signature. */
  lemma {:induction false} PositionalInOrder(s: Signature, i: nat, j: nat) returns (a: nat, b: nat)
    requires i < j < |Positional(s)|
    ensures a < b < |s| && s[a].name == Positional(s)[i] && s[b].name == Positional(s)[j]
    ensures s[a].kind in {PositionalOnly, PositionalOrKeyword} && s[b].kind in {PositionalOnly, PositionalOrKeyword}
  {
    assert s != [];
    var rest := s[1..];
    if s[0].IsPositional() {
      if i == 0 {
        a := 0;
        b := PositionalAt(rest, j - 1);
        b := b + 1;
      } else {
        a, b := PositionalInOrder(rest, i - 1, j - 1);
        a, b := a + 1, b + 1;
      }
    } else {
      a, b := PositionalInOrder(rest, i, j);
      a, b := a + 1, b + 1;
    }
  }

  lemma PositionalAt(s: Signature, i: nat) returns (a: nat)
    requires i < |Positional(s)|
    ensures a < |s| && s[a].name == Positional(s)[i] && s[a].kind in {PositionalOnly, PositionalOrKeyword}
  {
    assert Positional(s)[i] in Positional(s);
    var p :| p in s && p.IsPositional() && p.name == Positional(s)[i];
    a :| 0 <= a < |s| && s[a] == p;
  }

  /** Which calls a signature of one required parameter accepts, kind by kind. */
  lemma OneParameter(n: Id, c: Call)
    ensures Accepts([Parameter(n, PositionalOnly, false)], c) <==> c.positional == 1 && c.keywords == {}
    ensures Accepts([Parameter(n, PositionalOrKeyword, false)], c) <==>
      (c.positional == 1 && c.keywords == {}) || (c.positional == 0 && c.keywords == {n})
    ensures Accepts([Parameter(n, KeywordOnly, false)], c) <==> c.positional == 0 && c.keywords == {n}
    ensures Accepts([Parameter(n, VarPositional, false)], c) <==> c.keywords == {}
    ensures Accepts([Parameter(n, VarKeyword, false)], c) <==> c.positional == 0
  {
    OfOneKind(n, PositionalOnly, c);
    OfOneKind(n, PositionalOrKeyword, c);
    OfOneKind(n, KeywordOnly, c);
    OfOneKind(n, VarPositional, c);
    OfOneKind(n, VarKeyword, c);
  }

  lemma OfOneKind(n: Id, kind: Kind, c: Call)
    ensures Accepts([Parameter(n, kind, false)], c) <==>
      match kind
      case PositionalOnly => c.positional == 1 && c.keywords == {}
      case PositionalOrKeyword => (c.positional == 1 && c.keywords == {}) || (c.positional == 0 && c.keywords == {n})
      case KeywordOnly => c.positional == 0 && c.keywords == {n}
      case VarPositional => c.keywords == {}
      case VarKeyword => c.positional == 0
  {
    var p := Parameter(n, kind, false);
    var s := [p];
    assert s[1..] == [] && p in s;
    assert Positional(s) == if p.IsPositional() then [n] else [];
    assert forall k :: HasKeyword(s, k) <==> p.IsKeyword() && k == n;
    assert forall k :: HasCollector(s, k) <==> kind == k;
    if c.keywords != {} {
      var k :| k in c.keywords;
    }
  }
}
