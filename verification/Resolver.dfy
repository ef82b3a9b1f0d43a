/** The dependency resolver: provider pools filtered by scope, selection of one provider per
    requirement, and the eligibility loop. */
module Resolver {
  import opened Wrappers
  import opened Ordering
  import opened Keys
  import opened Scopes

  datatype Registration = Registration(providerName: Id, key: Key, version: Version)

  /** A desired plugin. An active one provides what it registered, any other what it declares. */
  datatype Candidate = Candidate(
    entry: Id,
    name: Id,
    scope: Id,
    contracts: seq<(Id, Version)>,
    required: seq<Requirement>,
    optional: seq<Requirement>,
    instance: Option<Id>,
    active: bool,
    registrations: seq<Registration>)

  datatype ProviderOption = ProviderOption(
    entry: Id,
    instance: Option<Id>,
    providerName: Id,
    key: Key,
    version: Version,
    active: bool,
    scope: Id)

  datatype Status = Resolved | NoProvider | VersionMismatch | Ambiguous | SelfReference | NotVisible | ProviderPending

  datatype Resolution = Resolution(requirement: Requirement, status: Status, provider: Option<ProviderOption>)
  {
    predicate Satisfied() { status == Status.Resolved }
  }

  /** What one resolution works from; the candidates are sorted by entry id. */
  datatype Context = Context(index: ScopeIndex, candidates: seq<Candidate>, preferences: map<Id, Id>)
  {
    ghost predicate Valid() {
      && index.Valid()
      && (forall i :: 0 <= i < |candidates| ==> candidates[i].scope in index.specs)
      && (forall i, j :: 0 <= i < j < |candidates| ==> candidates[i].entry != candidates[j].entry)
      && (forall i, r :: 0 <= i < |candidates| && r in candidates[i].required ==> !r.optional)
      && (forall i, r :: 0 <= i < |candidates| && r in candidates[i].optional ==> r.optional)
    }

    function Entries(): set<Id> {
      set c | c in candidates :: c.entry
    }
  }

  // ---- Options

  function DeclaredOptions(c: Candidate): seq<ProviderOption> {
    seq(|c.contracts|, i requires 0 <= i < |c.contracts| =>
      var (name, version) := c.contracts[i];
      ProviderOption(c.entry, c.instance, c.name, FromVersion(name, version), version, c.active, c.scope))
  }

  function RegisteredOptions(c: Candidate): seq<ProviderOption> {
    seq(|c.registrations|, i requires 0 <= i < |c.registrations| =>
      var r := c.registrations[i];
      ProviderOption(c.entry, c.instance, r.providerName, r.key, r.version, true, c.scope))
  }

  function OptionsOf(c: Candidate): seq<ProviderOption> {
    if c.active then RegisteredOptions(c) else DeclaredOptions(c)
  }

  function Keep(options: seq<ProviderOption>, p: ProviderOption -> bool): (r: seq<ProviderOption>)
    ensures forall o :: o in r <==> o in options && p(o)
    ensures |r| <= |options|
  {
    if options == [] then [] else (if p(options[0]) then [options[0]] else []) + Keep(options[1..], p)
  }

  /** The options called `name` of the candidates living in `scope`, in candidate order. */
  function ScopeOptions(candidates: seq<Candidate>, scope: Id, name: Id): seq<ProviderOption> {
    if candidates == [] then []
    else
      (if candidates[0].scope == scope then Keep(OptionsOf(candidates[0]), (o: ProviderOption) => o.key.name == name) else [])
      + ScopeOptions(candidates[1..], scope, name)
  }

  function LineageOptions(candidates: seq<Candidate>, lineage: seq<Id>, name: Id): seq<ProviderOption> {
    if lineage == [] then []
    else ScopeOptions(candidates, lineage[0], name) + LineageOptions(candidates, lineage[1..], name)
  }

  // ---- Option order

  function Decimal(n: nat): string {
    (if n < 10 then "" else Decimal(n / 10)) + [(n % 10) as char + '0']
  }

  function VersionText(parts: seq<nat>): string {
    if parts == [] then ""
    else if |parts| == 1 then Decimal(parts[0])
    else Decimal(parts[0]) + "." + VersionText(parts[1..])
  }

  predicate IsDigits(s: string) {
    forall i :: 0 <= i < |s| ==> '0' <= s[i] <= '9'
  }

  /** Reads a run of digits. */
  function Read(s: string): nat
    requires IsDigits(s)
  {
    if s == "" then 0 else 10 * Read(s[..|s| - 1]) + (s[|s| - 1] as int - '0' as int)
  }

  lemma ReadOneMore(front: string, digit: nat)
    requires IsDigits(front) && digit < 10
    ensures var s := front + [digit as char + '0']; IsDigits(s) && Read(s) == 10 * Read(front) + digit
  {
    var s := front + [digit as char + '0'];
    assert s[..|s| - 1] == front;
  }

  /** The decimal text of a number is digits without a leading zero, and reads back. */
  lemma {:induction false} DecimalReads(n: nat)
    ensures IsDigits(Decimal(n)) && Read(Decimal(n)) == n && Decimal(n) != ""
    ensures n > 0 ==> Decimal(n)[0] != '0'
    decreases n
  {
    hide IsDigits, Read;
    NoDigits();
    if n < 10 {
      ReadOneMore("", n);
      assert Decimal(n) == "" + [n as char + '0'];
    } else {
      DecimalReads(n / 10);
      ReadOneMore(Decimal(n / 10), n % 10);
    }
  }

  lemma NoDigits()
    ensures IsDigits("") && Read("") == 0
  {
  }

  lemma VersionTextMeans(a: nat, b: nat, c: nat)
    ensures VersionText([a]) == Decimal(a) && VersionText([a, b]) == Decimal(a) + "." + Decimal(b)
    ensures VersionText([a, b, c]) == Decimal(a) + "." + Decimal(b) + "." + Decimal(c)
  {
    hide Decimal;
    assert [a, b][1..] == [b] && [a, b, c][1..] == [b, c] && [b, c][1..] == [c];
    assert VersionText([b, c]) == Decimal(b) + "." + VersionText([c]);
    assert VersionText([a, b, c]) == Decimal(a) + "." + VersionText([b, c]);
  }

  function OrderKey(o: ProviderOption): seq<string> {
    [o.providerName, o.entry, if o.instance.None? then "" else o.instance.value, VersionText(o.version.parts), o.scope]
  }

  function InsertOption(o: ProviderOption, sorted: seq<ProviderOption>): (r: seq<ProviderOption>)
    ensures |r| == |sorted| + 1
    ensures forall x :: x in r <==> x == o || x in sorted
  {
    if sorted == [] || KeyBefore(OrderKey(o), OrderKey(sorted[0])) then [o] + sorted
    else [sorted[0]] + InsertOption(o, sorted[1..])
  }

  /** `sorted(options, key=_option_order)`, stable. */
  function SortOptions(options: seq<ProviderOption>): (r: seq<ProviderOption>)
    ensures |r| == |options|
    ensures forall x :: x in r <==> x in options
  {
    if options == [] then []
    else
      var n := |options| - 1;
      assert options == options[..n] + [options[n]];
      InsertOption(options[n], SortOptions(options[..n]))
  }

  // ---- Views

  function VisibleOptions(ctx: Context, path: Id, name: Id): seq<ProviderOption>
    requires path in ctx.index.lineages && path in ctx.index.allowed
  {
    if ctx.index.Allows(path, name)
    then SortOptions(LineageOptions(ctx.candidates, ctx.index.lineages[path], name))
    else []
  }

  ghost predicate Offers(c: Candidate, o: ProviderOption) {
    o in OptionsOf(c)
  }

  lemma OptionsCarryTheirCandidate(c: Candidate, o: ProviderOption)
    requires Offers(c, o)
    ensures o.entry == c.entry && o.scope == c.scope && o.instance == c.instance
  {
  }

  lemma {:induction false} ScopeOptionsMember(candidates: seq<Candidate>, scope: Id, name: Id, o: ProviderOption)
    ensures o in ScopeOptions(candidates, scope, name) <==>
      o.key.name == name && exists i :: 0 <= i < |candidates| && candidates[i].scope == scope && Offers(candidates[i], o)
    decreases |candidates|
  {
    if candidates != [] {
      ScopeOptionsMember(candidates[1..], scope, name, o);
      if o in ScopeOptions(candidates[1..], scope, name) {
        var i :| 0 <= i < |candidates[1..]| && candidates[1..][i].scope == scope && Offers(candidates[1..][i], o);
        assert Offers(candidates[i + 1], o);
      }
      if i :| 0 <= i < |candidates| && candidates[i].scope == scope && Offers(candidates[i], o) && o.key.name == name {
        if i > 0 {
          assert Offers(candidates[1..][i - 1], o);
        }
      }
    }
  }

  lemma {:induction false} LineageOptionsMember(candidates: seq<Candidate>, lineage: seq<Id>, name: Id, o: ProviderOption)
    ensures o in LineageOptions(candidates, lineage, name) <==>
      o.key.name == name && exists i :: 0 <= i < |candidates| && candidates[i].scope in lineage && Offers(candidates[i], o)
    decreases |lineage|
  {
    hide ScopeOptions, LineageOptions, Offers;
    LineageOptionsNext(candidates, lineage, name);
    if lineage != [] {
      var first, rest := lineage[0], lineage[1..];
      assert forall s :: s in lineage <==> s == first || s in rest;
      ScopeOptionsMember(candidates, first, name, o);
      LineageOptionsMember(candidates, rest, name, o);
    }
  }

  lemma LineageOptionsNext(candidates: seq<Candidate>, lineage: seq<Id>, name: Id)
    ensures LineageOptions(candidates, lineage, name) ==
      if lineage == [] then [] else ScopeOptions(candidates, lineage[0], name) + LineageOptions(candidates, lineage[1..], name)
  {
  }

  /** Exactly the options a scope may see: offered in its lineage and allowed by its view. */
  lemma VisibleOptionsMember(ctx: Context, path: Id, name: Id, o: ProviderOption)
    requires path in ctx.index.lineages && path in ctx.index.allowed
    ensures o in VisibleOptions(ctx, path, name) <==>
      o.key.name == name &&
      exists i :: 0 <= i < |ctx.candidates| && Offers(ctx.candidates[i], o) && ctx.index.CanSee(path, ctx.candidates[i].scope, name)
  {
    LineageOptionsMember(ctx.candidates, ctx.index.lineages[path], name, o);
  }

  // ---- One requirement

  /** Most specific preference wins: consumer, then scope, then global. */
  function PreferenceFor(preferences: map<Id, Id>, consumer: Id, capability: Id, scope: Id): Option<Id> {
    if consumer + ":" + capability in preferences then Some(preferences[consumer + ":" + capability])
    else if "scope:" + scope + ":" + capability in preferences then Some(preferences["scope:" + scope + ":" + capability])
    else if capability in preferences then Some(preferences[capability])
    else None
  }

  function FirstOf(options: seq<ProviderOption>, entry: Id): (r: Option<ProviderOption>)
    ensures r.Some? ==> r.value in options && r.value.entry == entry
    ensures r.None? ==> forall o :: o in options ==> o.entry != entry
  {
    if options == [] then None
    else if options[0].entry == entry then Some(options[0])
    else FirstOf(options[1..], entry)
  }

  function Others(options: seq<ProviderOption>, exclude: Id): seq<ProviderOption> {
    Keep(options, (o: ProviderOption) => o.entry != exclude)
  }

  /** The options of others the consumer may see, and those of them that are eligible. */
  function VisibleTo(ctx: Context, consumer: Candidate, r: Requirement): seq<ProviderOption>
    requires consumer.scope in ctx.index.lineages && consumer.scope in ctx.index.allowed
  {
    Others(VisibleOptions(ctx, consumer.scope, r.name), consumer.entry)
  }

  function Pool(ctx: Context, eligible: set<Id>, consumer: Candidate, r: Requirement): seq<ProviderOption>
    requires consumer.scope in ctx.index.lineages && consumer.scope in ctx.index.allowed
  {
    Keep(VisibleTo(ctx, consumer, r), (o: ProviderOption) => o.entry in eligible)
  }

  /** The eligible, visible, accepted options of others: what selection chooses from. */
  function Matching(ctx: Context, eligible: set<Id>, consumer: Candidate, r: Requirement): seq<ProviderOption>
    requires consumer.scope in ctx.index.lineages && consumer.scope in ctx.index.allowed
  {
    Keep(VisibleTo(ctx, consumer, r), (o: ProviderOption) => o.entry in eligible && Accepts(r, o.key, o.version))
  }

  predicate SomeAccepted(options: seq<ProviderOption>, r: Requirement) {
    exists o | o in options :: Accepts(r, o.key, o.version)
  }

  /** Someone else offers the capability, visibly or not. */
  predicate OfferedElsewhere(ctx: Context, consumer: Candidate, r: Requirement) {
    exists c | c in ctx.candidates :: c.entry != consumer.entry && exists o | o in OptionsOf(c) :: o.key.name == r.name
  }

  function ResolveOne(ctx: Context, eligible: set<Id>, consumer: Candidate, r: Requirement): (s: Resolution)
    requires consumer.scope in ctx.index.lineages && consumer.scope in ctx.index.allowed
    ensures s.requirement == r && (s.Satisfied() <==> s.provider.Some?)
    ensures s.provider.Some? ==> s.provider.value in Matching(ctx, eligible, consumer, r)
  {
    var matching := Matching(ctx, eligible, consumer, r);
    if |matching| == 1 then Resolution(r, Status.Resolved, Some(matching[0]))
    else if matching != [] then
      var preferred := PreferenceFor(ctx.preferences, consumer.entry, r.name, consumer.scope);
      var selected := if preferred.None? then None else FirstOf(matching, preferred.value);
      Resolution(r, if selected.Some? then Status.Resolved else Ambiguous, selected)
    else if Pool(ctx, eligible, consumer, r) != [] then Resolution(r, VersionMismatch, None)
    else if SomeAccepted(VisibleTo(ctx, consumer, r), r) then Resolution(r, ProviderPending, None)
    else if VisibleTo(ctx, consumer, r) != [] then Resolution(r, VersionMismatch, None)
    else if OfferedElsewhere(ctx, consumer, r) then Resolution(r, NotVisible, None)
    else if exists p | p in consumer.contracts :: p.0 == r.name then Resolution(r, SelfReference, None)
    else Resolution(r, NoProvider, None)
  }

  // ---- What a resolution means

  /** An option of another entry that the consumer may see. */
  ghost predicate Sees(ctx: Context, consumer: Candidate, r: Requirement, o: ProviderOption)
    requires consumer.scope in ctx.index.lineages && consumer.scope in ctx.index.allowed
  {
    o.key.name == r.name && o.entry != consumer.entry &&
    exists i :: 0 <= i < |ctx.candidates| && Offers(ctx.candidates[i], o) && ctx.index.CanSee(consumer.scope, ctx.candidates[i].scope, r.name)
  }

  ghost predicate Seen(ctx: Context, consumer: Candidate, r: Requirement)
    requires consumer.scope in ctx.index.lineages && consumer.scope in ctx.index.allowed
  {
    exists o :: Sees(ctx, consumer, r, o)
  }

  ghost predicate SeenAccepted(ctx: Context, consumer: Candidate, r: Requirement)
    requires consumer.scope in ctx.index.lineages && consumer.scope in ctx.index.allowed
  {
    exists o :: Sees(ctx, consumer, r, o) && Accepts(r, o.key, o.version)
  }

  ghost predicate SeenEligible(ctx: Context, eligible: set<Id>, consumer: Candidate, r: Requirement)
    requires consumer.scope in ctx.index.lineages && consumer.scope in ctx.index.allowed
  {
    exists o :: Sees(ctx, consumer, r, o) && o.entry in eligible
  }

  ghost predicate SeenMatching(ctx: Context, eligible: set<Id>, consumer: Candidate, r: Requirement)
    requires consumer.scope in ctx.index.lineages && consumer.scope in ctx.index.allowed
  {
    exists o :: Sees(ctx, consumer, r, o) && o.entry in eligible && Accepts(r, o.key, o.version)
  }

  lemma ListsMean(ctx: Context, eligible: set<Id>, consumer: Candidate, r: Requirement)
    requires consumer.scope in ctx.index.lineages && consumer.scope in ctx.index.allowed
    ensures VisibleTo(ctx, consumer, r) != [] <==> Seen(ctx, consumer, r)
    ensures SomeAccepted(VisibleTo(ctx, consumer, r), r) <==> SeenAccepted(ctx, consumer, r)
    ensures Pool(ctx, eligible, consumer, r) != [] <==> SeenEligible(ctx, eligible, consumer, r)
    ensures Matching(ctx, eligible, consumer, r) != [] <==> SeenMatching(ctx, eligible, consumer, r)
  {
    hide VisibleOptions;
    hide Accepts;
    hide Sees;
    var visible, pool, matching := VisibleTo(ctx, consumer, r), Pool(ctx, eligible, consumer, r), Matching(ctx, eligible, consumer, r);
    forall o ensures o in visible <==> Sees(ctx, consumer, r, o) {
      SeesMeans(ctx, consumer, r, o);
    }
    assert visible != [] ==> visible[0] in visible;
    assert pool != [] ==> pool[0] in pool;
    assert matching != [] ==> matching[0] in matching;
  }

  lemma SeesMeans(ctx: Context, consumer: Candidate, r: Requirement, o: ProviderOption)
    requires consumer.scope in ctx.index.lineages && consumer.scope in ctx.index.allowed
    ensures o in VisibleTo(ctx, consumer, r) <==> Sees(ctx, consumer, r, o)
  {
    VisibleOptionsMember(ctx, consumer.scope, r.name, o);
  }

  lemma SeenIsOffered(ctx: Context, consumer: Candidate, r: Requirement)
    requires consumer.scope in ctx.index.lineages && consumer.scope in ctx.index.allowed
    ensures Seen(ctx, consumer, r) ==> OfferedElsewhere(ctx, consumer, r)
  {
    if o :| Sees(ctx, consumer, r, o) {
      var i :| 0 <= i < |ctx.candidates| && Offers(ctx.candidates[i], o);
      OptionsCarryTheirCandidate(ctx.candidates[i], o);
      assert ctx.candidates[i] in ctx.candidates;
    }
  }

  /** Whatever order the options are met in, the status says what others offer the consumer. */
  lemma StatusMeans(ctx: Context, eligible: set<Id>, consumer: Candidate, r: Requirement)
    requires consumer.scope in ctx.index.lineages && consumer.scope in ctx.index.allowed
    ensures var status := ResolveOne(ctx, eligible, consumer, r).status;
      && (status == Status.Resolved || status == Ambiguous <==> SeenMatching(ctx, eligible, consumer, r))
      && (status == ProviderPending <==> SeenAccepted(ctx, consumer, r) && !SeenEligible(ctx, eligible, consumer, r))
      && (status == VersionMismatch <==>
            if SeenEligible(ctx, eligible, consumer, r) then !SeenMatching(ctx, eligible, consumer, r)
            else Seen(ctx, consumer, r) && !SeenAccepted(ctx, consumer, r))
      && (status == NotVisible <==> OfferedByOthers(ctx, consumer, r) && !Seen(ctx, consumer, r))
      && (status == SelfReference <==> !OfferedByOthers(ctx, consumer, r) && exists p :: p in consumer.contracts && p.0 == r.name)
      && (status == NoProvider <==> !OfferedByOthers(ctx, consumer, r) && forall p :: p in consumer.contracts ==> p.0 != r.name)
  {
    hide Pool, Matching, VisibleTo, SomeAccepted, OfferedElsewhere, OfferedByOthers, Sees, Accepts, PreferenceFor;
    ListsMean(ctx, eligible, consumer, r);
    SeenIsOffered(ctx, consumer, r);
    OfferedElsewhereIff(ctx, consumer, r);
  }

  /** Another entry offers the capability, whoever may see it. */
  ghost predicate OfferedByOthers(ctx: Context, consumer: Candidate, r: Requirement) {
    exists i, o :: 0 <= i < |ctx.candidates| && Offers(ctx.candidates[i], o) && o.key.name == r.name
                   && ctx.candidates[i].entry != consumer.entry
  }

  lemma OfferedElsewhereIff(ctx: Context, consumer: Candidate, r: Requirement)
    ensures OfferedElsewhere(ctx, consumer, r) <==> OfferedByOthers(ctx, consumer, r)
  {
    hide OptionsOf;
    if OfferedElsewhere(ctx, consumer, r) {
      var c :| c in ctx.candidates && c.entry != consumer.entry && exists o :: o in OptionsOf(c) && o.key.name == r.name;
      var o :| o in OptionsOf(c) && o.key.name == r.name;
      var i :| 0 <= i < |ctx.candidates| && ctx.candidates[i] == c;
      assert Offers(ctx.candidates[i], o);
    }
    if OfferedByOthers(ctx, consumer, r) {
      var i, o :| 0 <= i < |ctx.candidates| && Offers(ctx.candidates[i], o) && o.key.name == r.name
        && ctx.candidates[i].entry != consumer.entry;
      assert ctx.candidates[i] in ctx.candidates;
    }
  }

  /** What a plugin offers: an active one exactly what it registered, any other what it declares,
      each contract in the generation of its version. */
  lemma OffersMean(c: Candidate, o: ProviderOption)
    ensures Offers(c, o) <==>
      && o.entry == c.entry && o.instance == c.instance && o.scope == c.scope && o.active == c.active
      && if c.active then Registration(o.providerName, o.key, o.version) in c.registrations
         else o.providerName == c.name && (o.key.name, o.version) in c.contracts && o.key.generation == o.version.Major()
  {
    if c.active {
      if Registration(o.providerName, o.key, o.version) in c.registrations {
        var k :| 0 <= k < |c.registrations| && c.registrations[k] == Registration(o.providerName, o.key, o.version);
        assert RegisteredOptions(c)[k] in RegisteredOptions(c);
      }
    } else {
      if Offers(c, o) {
        var k :| 0 <= k < |c.contracts| && DeclaredOptions(c)[k] == o;
        assert c.contracts[k] == (o.key.name, o.version);
      }
      if (o.key.name, o.version) in c.contracts {
        var k :| 0 <= k < |c.contracts| && c.contracts[k] == (o.key.name, o.version);
        assert DeclaredOptions(c)[k] in DeclaredOptions(c);
        assert DeclaredOptions(c)[k] == ProviderOption(c.entry, c.instance, c.name, Key(o.key.name, o.version.Major()), o.version, c.active, c.scope);
      }
    }
  }

  // ---- The order options are met in

  ghost predicate InOptionOrder(options: seq<ProviderOption>) {
    forall i, j :: 0 <= i < j < |options| ==> !KeyBefore(OrderKey(options[j]), OrderKey(options[i]))
  }

  lemma NotBeforeIsTransitive(a: seq<string>, b: seq<string>, c: seq<string>)
    requires !KeyBefore(b, a) && !KeyBefore(c, b)
    ensures !KeyBefore(c, a)
  {
    if KeyBefore(c, a) {
      KeyBeforeIsTotal(a, b);
      KeyBeforeIsTotal(b, c);
      KeyBeforeIsIrreflexive(a);
      KeyBeforeIsIrreflexive(c);
      if a != b {
        KeyBeforeIsTransitive(c, a, b);
      }
    }
  }

  lemma {:induction false} InsertedInOrder(o: ProviderOption, sorted: seq<ProviderOption>)
    requires InOptionOrder(sorted)
    ensures InOptionOrder(InsertOption(o, sorted)) && multiset(InsertOption(o, sorted)) == multiset(sorted) + multiset{o}
    decreases |sorted|
  {
    hide OrderKey, KeyBefore;
    var r := InsertOption(o, sorted);
    if sorted == [] {
      assert r == [o];
    } else if KeyBefore(OrderKey(o), OrderKey(sorted[0])) {
      NewestFirst(o, sorted);
      assert r == [o] + sorted;
    } else {
      var first, rest := sorted[0], sorted[1..];
      assert sorted == [first] + rest;
      InsertedInOrder(o, rest);
      var inserted := InsertOption(o, rest);
      assert r == [first] + inserted;
      forall x | x in inserted ensures !KeyBefore(OrderKey(x), OrderKey(first)) {
        if x != o {
          var k :| 0 <= k < |rest| && rest[k] == x;
          assert sorted[k + 1] == x;
        }
      }
      FirstInOrder(first, inserted);
    }
  }

  lemma FirstInOrder(first: ProviderOption, rest: seq<ProviderOption>)
    requires InOptionOrder(rest) && forall x :: x in rest ==> !KeyBefore(OrderKey(x), OrderKey(first))
    ensures InOptionOrder([first] + rest)
  {
    hide OrderKey, KeyBefore;
  }

  lemma NewestFirst(o: ProviderOption, sorted: seq<ProviderOption>)
    requires InOptionOrder(sorted) && sorted != [] && KeyBefore(OrderKey(o), OrderKey(sorted[0]))
    ensures InOptionOrder([o] + sorted)
  {
    hide OrderKey, KeyBefore;
    forall x | x in sorted ensures !KeyBefore(OrderKey(x), OrderKey(o)) {
      var k :| 0 <= k < |sorted| && sorted[k] == x;
      if KeyBefore(OrderKey(x), OrderKey(o)) {
        KeyBeforeIsTransitive(OrderKey(x), OrderKey(o), OrderKey(sorted[0]));
        KeyBeforeIsIrreflexive(OrderKey(x));
      }
    }
    FirstInOrder(o, sorted);
  }

  /** Sorting permutes, and puts provider name, entry, instance, version text and scope in order. */
  lemma {:induction false} OptionsAreSorted(options: seq<ProviderOption>)
    ensures InOptionOrder(SortOptions(options)) && multiset(SortOptions(options)) == multiset(options)
    decreases |options|
  {
    hide InOptionOrder, InsertOption;
    if options == [] {
      NothingInOrder();
    } else {
      var n := |options| - 1;
      OptionsAreSorted(options[..n]);
      assert options == options[..n] + [options[n]];
      InsertedInOrder(options[n], SortOptions(options[..n]));
    }
  }

  lemma NothingInOrder()
    ensures InOptionOrder([])
  {
  }

  lemma {:induction false} KeepsOrder(options: seq<ProviderOption>, p: ProviderOption -> bool)
    requires InOptionOrder(options)
    ensures InOptionOrder(Keep(options, p))
    decreases |options|
  {
    hide OrderKey, KeyBefore;
    if options != [] {
      var first, rest := options[0], options[1..];
      KeepsOrder(rest, p);
      forall x | x in Keep(rest, p) ensures !KeyBefore(OrderKey(x), OrderKey(first)) {
        var k :| 0 <= k < |rest| && rest[k] == x;
        assert options[k + 1] == x;
      }
      FirstInOrder(first, Keep(rest, p));
      assert [] + Keep(rest, p) == Keep(rest, p);
    }
  }

  lemma {:induction false} FirstIsLeastOf(options: seq<ProviderOption>, entry: Id)
    requires InOptionOrder(options) && FirstOf(options, entry).Some?
    ensures forall o :: o in options && o.entry == entry ==> !KeyBefore(OrderKey(o), OrderKey(FirstOf(options, entry).value))
    decreases |options|
  {
    hide OrderKey, KeyBefore;
    KeyBeforeIsIrreflexive(OrderKey(FirstOf(options, entry).value));
    if options[0].entry != entry {
      FirstIsLeastOf(options[1..], entry);
    }
  }

  /** Which options selection chooses from. */
  lemma MatchingMember(ctx: Context, eligible: set<Id>, consumer: Candidate, r: Requirement, o: ProviderOption)
    requires consumer.scope in ctx.index.lineages && consumer.scope in ctx.index.allowed
    ensures o in Matching(ctx, eligible, consumer, r) <==>
      Sees(ctx, consumer, r, o) && o.entry in eligible && Accepts(r, o.key, o.version)
    ensures InOptionOrder(Matching(ctx, eligible, consumer, r))
  {
    SeesMeans(ctx, consumer, r, o);
    hide Sees, Accepts, InOptionOrder;
    OptionsAreSorted(LineageOptions(ctx.candidates, ctx.index.lineages[consumer.scope], r.name));
    NothingInOrder();
    KeepsOrder(VisibleOptions(ctx, consumer.scope, r.name), (o: ProviderOption) => o.entry != consumer.entry);
    KeepsOrder(VisibleTo(ctx, consumer, r), (o: ProviderOption) => o.entry in eligible && Accepts(r, o.key, o.version));
  }

  /** Of a provider's several answers the least in option order is taken. */
  lemma SelectedIsLeast(ctx: Context, eligible: set<Id>, consumer: Candidate, r: Requirement, o: ProviderOption)
    requires consumer.scope in ctx.index.lineages && consumer.scope in ctx.index.allowed
    requires ResolveOne(ctx, eligible, consumer, r).Satisfied()
    requires Sees(ctx, consumer, r, o) && o.entry in eligible && Accepts(r, o.key, o.version)
    ensures var s := ResolveOne(ctx, eligible, consumer, r).provider.value;
      o.entry == s.entry ==> !KeyBefore(OrderKey(o), OrderKey(s))
  {
    hide *;
    MatchingMember(ctx, eligible, consumer, r, o);
    var entry := TakenFrom(ctx, eligible, consumer, r);
    LeastTaken(Matching(ctx, eligible, consumer, r), entry, o);
  }

  /** Options go by provider name, entry, instance, version text and scope, the earlier one deciding first;
      a provider that is not running yet goes by an empty instance. */
  lemma OptionOrderMeans(a: ProviderOption, b: ProviderOption, running: Id, other: Id)
    requires a.instance == Some(running) || (a.instance.None? && running == "")
    requires b.instance == Some(other) || (b.instance.None? && other == "")
    ensures KeyBefore(OrderKey(a), OrderKey(b)) <==>
      if a.providerName != b.providerName then Before(a.providerName, b.providerName)
      else if a.entry != b.entry then Before(a.entry, b.entry)
      else if running != other then Before(running, other)
      else if VersionText(a.version.parts) != VersionText(b.version.parts)
        then Before(VersionText(a.version.parts), VersionText(b.version.parts))
      else Before(a.scope, b.scope)
  {
    hide KeyBefore, Before, VersionText;
    var k, l := OrderKey(a), OrderKey(b);
    FirstDifferenceDecides(k, l);
    FirstDifferenceDecides(k[1..], l[1..]);
    FirstDifferenceDecides(k[2..], l[2..]);
    FirstDifferenceDecides(k[3..], l[3..]);
    FirstDifferenceDecides(k[4..], l[4..]);
    assert k[1..][1..] == k[2..] && k[2..][1..] == k[3..] && k[3..][1..] == k[4..] && k[4..][1..] == [];
    assert l[1..][1..] == l[2..] && l[2..][1..] == l[3..] && l[3..][1..] == l[4..] && l[4..][1..] == [];
    KeyBeforeIsIrreflexive([]);
    BeforeIsIrreflexive(a.scope);
  }

  /** What is taken is the first match of some entry. */
  lemma TakenFrom(ctx: Context, eligible: set<Id>, consumer: Candidate, r: Requirement) returns (entry: Id)
    requires consumer.scope in ctx.index.lineages && consumer.scope in ctx.index.allowed
    requires ResolveOne(ctx, eligible, consumer, r).Satisfied()
    ensures FirstOf(Matching(ctx, eligible, consumer, r), entry) == ResolveOne(ctx, eligible, consumer, r).provider
  {
    hide Matching, Pool, VisibleTo, SomeAccepted, OfferedElsewhere, Accepts;
    var matching := Matching(ctx, eligible, consumer, r);
    if |matching| == 1 {
      entry := matching[0].entry;
    } else {
      entry := PreferenceFor(ctx.preferences, consumer.entry, r.name, consumer.scope).value;
    }
  }

  lemma LeastTaken(matching: seq<ProviderOption>, entry: Id, o: ProviderOption)
    requires InOptionOrder(matching) && FirstOf(matching, entry).Some? && o in matching
    ensures o.entry == FirstOf(matching, entry).value.entry ==> !KeyBefore(OrderKey(o), OrderKey(FirstOf(matching, entry).value))
  {
    hide InOptionOrder, OrderKey, KeyBefore;
    FirstIsLeastOf(matching, entry);
  }

  /** Where a preference is looked up, the most specific place first. */
  function PreferenceKeys(consumer: Id, capability: Id, scope: Id): seq<Id> {
    [consumer + ":" + capability, "scope:" + scope + ":" + capability, capability]
  }

  /** Among several choices the most specific preference on record decides, if it names one of them. */
  lemma SelectionMeans(ctx: Context, eligible: set<Id>, consumer: Candidate, r: Requirement, k: nat)
    requires consumer.scope in ctx.index.lineages && consumer.scope in ctx.index.allowed
    requires |Matching(ctx, eligible, consumer, r)| > 1
    requires var keys := PreferenceKeys(consumer.entry, r.name, consumer.scope);
      k <= |keys| && (forall j :: 0 <= j < k ==> keys[j] !in ctx.preferences) && (k < |keys| ==> keys[k] in ctx.preferences)
    ensures var keys, s := PreferenceKeys(consumer.entry, r.name, consumer.scope), ResolveOne(ctx, eligible, consumer, r);
      && (s.provider.Some? <==> k < |keys| && exists o :: o in Matching(ctx, eligible, consumer, r) && o.entry == ctx.preferences[keys[k]])
      && (s.provider.Some? ==> s.provider.value.entry == ctx.preferences[keys[k]])
      && (s.status == Ambiguous <==> s.provider.None?)
  {
    hide Matching;
    var keys := PreferenceKeys(consumer.entry, r.name, consumer.scope);
    assert k > 0 ==> keys[0] !in ctx.preferences;
    assert k > 1 ==> keys[1] !in ctx.preferences;
    assert k > 2 ==> keys[2] !in ctx.preferences;
    assert PreferenceFor(ctx.preferences, consumer.entry, r.name, consumer.scope) ==
      if k < 3 then Some(ctx.preferences[keys[k]]) else None;
  }

  /** A satisfied requirement is answered by a different, eligible, visible provider it accepts. */
  lemma SatisfiedMeans(ctx: Context, eligible: set<Id>, consumer: Candidate, r: Requirement)
    requires consumer.scope in ctx.index.lineages && consumer.scope in ctx.index.allowed
    requires ResolveOne(ctx, eligible, consumer, r).Satisfied()
    ensures var o := ResolveOne(ctx, eligible, consumer, r).provider.value;
      && o.entry != consumer.entry && o.entry in eligible
      && o.key.name == r.name && Accepts(r, o.key, o.version)
      && exists i :: 0 <= i < |ctx.candidates| && Offers(ctx.candidates[i], o) && ctx.candidates[i].entry == o.entry
                     && ctx.index.CanSee(consumer.scope, ctx.candidates[i].scope, r.name)
  {
    var o := ResolveOne(ctx, eligible, consumer, r).provider.value;
    VisibleOptionsMember(ctx, consumer.scope, r.name, o);
    var i :| 0 <= i < |ctx.candidates| && Offers(ctx.candidates[i], o) && ctx.index.CanSee(consumer.scope, ctx.candidates[i].scope, r.name);
    OptionsCarryTheirCandidate(ctx.candidates[i], o);
  }

  function ResolveEach(ctx: Context, eligible: set<Id>, consumer: Candidate, rs: seq<Requirement>): (s: seq<Resolution>)
    requires consumer.scope in ctx.index.lineages && consumer.scope in ctx.index.allowed
    ensures |s| == |rs| && forall i :: 0 <= i < |rs| ==> s[i] == ResolveOne(ctx, eligible, consumer, rs[i])
  {
    if rs == [] then []
    else [ResolveOne(ctx, eligible, consumer, rs[0])] + ResolveEach(ctx, eligible, consumer, rs[1..])
  }

  /** Hard requirements first, then optional ones. */
  function ResolveRequirements(ctx: Context, eligible: set<Id>, c: Candidate): seq<Resolution>
    requires c.scope in ctx.index.lineages && c.scope in ctx.index.allowed
  {
    ResolveEach(ctx, eligible, c, c.required + c.optional)
  }

  /** Every requirement gets its own resolution, the hard ones first, the optional ones after them. */
  lemma EveryRequirementIsResolved(ctx: Context, eligible: set<Id>, c: Candidate, k: nat)
    requires c.scope in ctx.index.lineages && c.scope in ctx.index.allowed && k < |c.required| + |c.optional|
    ensures var rs, r := ResolveRequirements(ctx, eligible, c), if k < |c.required| then c.required[k] else c.optional[k - |c.required|];
      |rs| == |c.required| + |c.optional| && rs[k].requirement == r && rs[k] == ResolveOne(ctx, eligible, c, r)
  {
    hide Matching, VisibleTo, Pool, PreferenceFor, FirstOf, Accepts, OfferedElsewhere, SomeAccepted;
  }

  predicate Blocked(resolutions: seq<Resolution>) {
    exists s | s in resolutions :: !s.Satisfied() && !s.requirement.optional
  }

  // ---- Eligibility

  /** Every hard requirement of the candidate is satisfied by the entries of `eligible`. */
  predicate Supported(ctx: Context, eligible: set<Id>, c: Candidate)
    requires c.scope in ctx.index.lineages && c.scope in ctx.index.allowed
  {
    !Blocked(ResolveRequirements(ctx, eligible, c))
  }

  ghost predicate SelfSupporting(ctx: Context, s: set<Id>)
    requires ctx.Valid()
  {
    && s <= ctx.Entries()
    && forall i :: 0 <= i < |ctx.candidates| && ctx.candidates[i].entry in s ==> Supported(ctx, s, ctx.candidates[i])
  }

  /** One simultaneous pass: keep the entries that `eligible` supports. */
  ghost function Survivors(ctx: Context, eligible: set<Id>): (s: set<Id>)
    requires ctx.Valid()
    ensures s <= eligible
  {
    set i | 0 <= i < |ctx.candidates| && ctx.candidates[i].entry in eligible && Supported(ctx, eligible, ctx.candidates[i])
      :: ctx.candidates[i].entry
  }

  /** Where repeated passes settle. */
  ghost function Settled(ctx: Context, eligible: set<Id>): (s: set<Id>)
    requires ctx.Valid()
    ensures s <= eligible
    decreases eligible
  {
    if Survivors(ctx, eligible) == eligible then eligible else Settled(ctx, Survivors(ctx, eligible))
  }

  /** The loop: stored resolutions are those of the last pass, which changed nothing. */
  method Eligible(ctx: Context) returns (eligible: set<Id>, resolutions: map<Id, seq<Resolution>>)
    requires ctx.Valid()
    ensures eligible == Settled(ctx, ctx.Entries())
    ensures SelfSupporting(ctx, eligible)
    ensures forall i, r :: 0 <= i < |ctx.candidates| && ctx.candidates[i].entry in eligible && r in ctx.candidates[i].required ==>
      ResolveOne(ctx, eligible, ctx.candidates[i], r).status == Status.Resolved
    ensures forall i :: 0 <= i < |ctx.candidates| && ctx.candidates[i].required == [] ==> ctx.candidates[i].entry in eligible
    ensures forall i :: 0 <= i < |ctx.candidates| && ctx.candidates[i].entry in eligible ==>
      ctx.candidates[i].entry in resolutions &&
      resolutions[ctx.candidates[i].entry] == ResolveRequirements(ctx, eligible, ctx.candidates[i])
  {
    eligible, resolutions := ctx.Entries(), map[];
    while true
      invariant eligible <= ctx.Entries()
      invariant Settled(ctx, eligible) == Settled(ctx, ctx.Entries())
      decreases eligible
    {
      ghost var start := eligible;
      var changed;
      eligible, resolutions, changed := Pass(ctx, eligible, resolutions);
      if !changed { break; }
    }
    EligibleMeans(ctx, eligible);
  }

  lemma EligibleMeans(ctx: Context, eligible: set<Id>)
    requires ctx.Valid() && eligible == Settled(ctx, ctx.Entries()) && SelfSupporting(ctx, eligible)
    ensures forall i :: 0 <= i < |ctx.candidates| ==>
      ctx.candidates[i].scope in ctx.index.lineages && ctx.candidates[i].scope in ctx.index.allowed
    ensures forall i, r :: 0 <= i < |ctx.candidates| && ctx.candidates[i].entry in eligible && r in ctx.candidates[i].required ==>
      ResolveOne(ctx, eligible, ctx.candidates[i], r).status == Status.Resolved
    ensures forall i :: 0 <= i < |ctx.candidates| && ctx.candidates[i].required == [] ==> ctx.candidates[i].entry in eligible
  {
    hide *;
    SelfSupportIff(ctx, eligible);
    forall i | 0 <= i < |ctx.candidates| && ctx.candidates[i].required == [] ensures ctx.candidates[i].entry in eligible {
      NothingRequiredIsEligible(ctx, i);
    }
  }

  method Pass(ctx: Context, start: set<Id>, resolutions0: map<Id, seq<Resolution>>)
    returns (eligible: set<Id>, resolutions: map<Id, seq<Resolution>>, changed: bool)
    requires ctx.Valid() && start <= ctx.Entries()
    ensures eligible == Survivors(ctx, start)
    ensures forall i :: 0 <= i < |ctx.candidates| ==>
      (ctx.candidates[i].entry in eligible <==>
        && ctx.candidates[i].entry in start
        && forall r :: r in ctx.candidates[i].required ==> ResolveOne(ctx, start, ctx.candidates[i], r).status == Status.Resolved)
    ensures changed <==> eligible != start
    ensures forall i :: 0 <= i < |ctx.candidates| && ctx.candidates[i].entry in start ==>
      ctx.candidates[i].entry in resolutions &&
      resolutions[ctx.candidates[i].entry] == ResolveRequirements(ctx, start, ctx.candidates[i])
  {
    hide ResolveRequirements, Blocked, ScopeIndex.Computed;
    eligible, resolutions, changed := start, resolutions0, false;
    for i := 0 to |ctx.candidates|
      invariant forall k :: 0 <= k < i && ctx.candidates[k].entry in start ==>
        ctx.candidates[k].entry in resolutions &&
        resolutions[ctx.candidates[k].entry] == ResolveRequirements(ctx, start, ctx.candidates[k])
      invariant eligible <= start
      invariant forall k :: 0 <= k < i && ctx.candidates[k].entry in start ==>
        (ctx.candidates[k].entry in eligible <==> Supported(ctx, start, ctx.candidates[k]))
      invariant forall k :: i <= k < |ctx.candidates| && ctx.candidates[k].entry in start ==> ctx.candidates[k].entry in eligible
      invariant changed <==> eligible != start
    {
      var c := ctx.candidates[i];
      if c.entry !in eligible { continue; }
      var rs := ResolveRequirements(ctx, start, c);
      resolutions := resolutions[c.entry := rs];
      if Blocked(rs) {
        eligible, changed := eligible - {c.entry}, true;
      }
    }
    forall e ensures e in eligible <==> e in Survivors(ctx, start) {
      if e in eligible {
        var c :| c in ctx.candidates && c.entry == e;
        var k :| 0 <= k < |ctx.candidates| && ctx.candidates[k] == c;
      }
    }
    PassMeans(ctx, start, eligible);
  }

  lemma PassMeans(ctx: Context, start: set<Id>, eligible: set<Id>)
    requires ctx.Valid() && eligible == Survivors(ctx, start)
    ensures forall i :: 0 <= i < |ctx.candidates| ==>
      && ctx.candidates[i].scope in ctx.index.lineages && ctx.candidates[i].scope in ctx.index.allowed
      && (ctx.candidates[i].entry in eligible <==>
        && ctx.candidates[i].entry in start
        && forall r :: r in ctx.candidates[i].required ==> ResolveOne(ctx, start, ctx.candidates[i], r).status == Status.Resolved)
  {
    hide *;
    forall i | 0 <= i < |ctx.candidates|
      ensures ctx.candidates[i].scope in ctx.index.lineages && ctx.candidates[i].scope in ctx.index.allowed
      ensures ctx.candidates[i].entry in eligible <==>
        && ctx.candidates[i].entry in start
        && forall r :: r in ctx.candidates[i].required ==> ResolveOne(ctx, start, ctx.candidates[i], r).status == Status.Resolved
    {
      SurvivesIff(ctx, start, i);
    }
  }

  // ---- Eligibility in terms of the hard requirements

  /** Only what is hard-required counts, and each of it has to be satisfied. */
  lemma SupportedIff(ctx: Context, eligible: set<Id>, i: nat)
    requires ctx.Valid() && i < |ctx.candidates|
    ensures ctx.candidates[i].scope in ctx.index.lineages && ctx.candidates[i].scope in ctx.index.allowed
    ensures Supported(ctx, eligible, ctx.candidates[i]) <==>
      forall r :: r in ctx.candidates[i].required ==> ResolveOne(ctx, eligible, ctx.candidates[i], r).status == Status.Resolved
  {
    hide ResolveOne, ResolveRequirements, Blocked, ScopeIndex.Computed;
    var c := ctx.candidates[i];
    assert forall r :: r in c.required ==> !r.optional;
    assert forall r :: r in c.optional ==> r.optional;
    BlockedIff(ctx, eligible, c);
  }

  lemma BlockedIff(ctx: Context, eligible: set<Id>, c: Candidate)
    requires c.scope in ctx.index.lineages && c.scope in ctx.index.allowed
    requires (forall r :: r in c.required ==> !r.optional) && forall r :: r in c.optional ==> r.optional
    ensures Blocked(ResolveRequirements(ctx, eligible, c)) <==>
      exists r :: r in c.required && ResolveOne(ctx, eligible, c, r).status != Status.Resolved
  {
    hide ResolveOne;
    var rs, all := ResolveRequirements(ctx, eligible, c), c.required + c.optional;
    if Blocked(rs) {
      var s :| s in rs && !s.Satisfied() && !s.requirement.optional;
      var k :| 0 <= k < |rs| && rs[k] == s;
      assert rs[k] == ResolveOne(ctx, eligible, c, all[k]) && all[k] in all;
      assert all[k] in c.required && ResolveOne(ctx, eligible, c, all[k]).status != Status.Resolved;
    }
    if r :| r in c.required && ResolveOne(ctx, eligible, c, r).status != Status.Resolved {
      var k :| 0 <= k < |c.required| && c.required[k] == r;
      assert all[k] == r && rs[k] in rs;
    }
  }

  /** Self-support both ways: the members are candidates, and every hard requirement of a member
      is satisfied by the members. */
  lemma SelfSupportIff(ctx: Context, s: set<Id>)
    requires ctx.Valid()
    ensures forall i :: 0 <= i < |ctx.candidates| ==>
      ctx.candidates[i].scope in ctx.index.lineages && ctx.candidates[i].scope in ctx.index.allowed
    ensures SelfSupporting(ctx, s) <==>
      && (forall e :: e in s ==> exists i :: 0 <= i < |ctx.candidates| && ctx.candidates[i].entry == e)
      && forall i, r :: 0 <= i < |ctx.candidates| && ctx.candidates[i].entry in s && r in ctx.candidates[i].required ==>
           ResolveOne(ctx, s, ctx.candidates[i], r).status == Status.Resolved
  {
    hide Supported, ResolveOne, ScopeIndex.Computed;
    forall i | 0 <= i < |ctx.candidates|
      ensures ctx.candidates[i].scope in ctx.index.lineages && ctx.candidates[i].scope in ctx.index.allowed
      ensures Supported(ctx, s, ctx.candidates[i]) <==>
        forall r :: r in ctx.candidates[i].required ==> ResolveOne(ctx, s, ctx.candidates[i], r).status == Status.Resolved
    {
      SupportedIff(ctx, s, i);
    }
    EntriesMean(ctx);
  }

  lemma EntriesMean(ctx: Context)
    ensures forall e :: e in ctx.Entries() <==> exists i :: 0 <= i < |ctx.candidates| && ctx.candidates[i].entry == e
  {
    forall e | e in ctx.Entries() ensures exists i :: 0 <= i < |ctx.candidates| && ctx.candidates[i].entry == e {
      var c :| c in ctx.candidates && c.entry == e;
      var i :| 0 <= i < |ctx.candidates| && ctx.candidates[i] == c;
    }
  }

  /** An entry survives a pass exactly when its hard requirements are satisfied by those there at
      its start. */
  lemma SurvivesIff(ctx: Context, start: set<Id>, i: nat)
    requires ctx.Valid() && i < |ctx.candidates|
    ensures ctx.candidates[i].scope in ctx.index.lineages && ctx.candidates[i].scope in ctx.index.allowed
    ensures ctx.candidates[i].entry in Survivors(ctx, start) <==>
      && ctx.candidates[i].entry in start
      && forall r :: r in ctx.candidates[i].required ==> ResolveOne(ctx, start, ctx.candidates[i], r).status == Status.Resolved
  {
    hide Supported, ResolveOne, ScopeIndex.Computed;
    SupportedIff(ctx, start, i);
    assert forall k :: 0 <= k < |ctx.candidates| && ctx.candidates[k].entry == ctx.candidates[i].entry ==> k == i;
  }

  /** What the loop settles for is reached by such passes from all entries, and stays put. */
  lemma {:induction false} PassesSettle(ctx: Context, start: set<Id>) returns (sets: seq<set<Id>>)
    requires ctx.Valid() && start <= ctx.Entries()
    ensures |sets| > 0 && sets[0] == start && sets[|sets| - 1] == Settled(ctx, start)
    ensures Survivors(ctx, Settled(ctx, start)) == Settled(ctx, start)
    ensures forall k, l :: 0 <= k && l == k + 1 && l < |sets| ==> sets[l] == Survivors(ctx, sets[k])
    decreases start
  {
    hide Survivors, ScopeIndex.Computed;
    if Survivors(ctx, start) == start {
      sets := [start];
    } else {
      var rest := PassesSettle(ctx, Survivors(ctx, start));
      sets := [start] + rest;
    }
  }

  /** Whoever requires nothing is eligible, whatever it would like. */
  lemma NothingRequiredIsEligible(ctx: Context, i: nat)
    requires ctx.Valid() && i < |ctx.candidates| && ctx.candidates[i].required == []
    ensures ctx.candidates[i].entry in Settled(ctx, ctx.Entries())
  {
    hide Survivors, Settled, ScopeIndex.Computed;
    EntriesMean(ctx);
    var sets := PassesSettle(ctx, ctx.Entries());
    var k := 0;
    while k < |sets| - 1
      invariant 0 <= k < |sets| && ctx.candidates[i].entry in sets[k]
    {
      SurvivesIff(ctx, sets[k], i);
      assert sets[k + 1] == Survivors(ctx, sets[k]);
      k := k + 1;
    }
  }

  // ---- The greatest self-supporting set

  /** The visible options of others a requirement accepts, eligible or not. */
  function Choices(ctx: Context, consumer: Candidate, r: Requirement): seq<ProviderOption>
    requires consumer.scope in ctx.index.lineages && consumer.scope in ctx.index.allowed
  {
    Keep(Others(VisibleOptions(ctx, consumer.scope, r.name), consumer.entry), (o: ProviderOption) => Accepts(r, o.key, o.version))
  }

  ghost predicate Unambiguous(ctx: Context)
    requires ctx.Valid()
  {
    forall i, r :: 0 <= i < |ctx.candidates| && r in ctx.candidates[i].required ==> |Choices(ctx, ctx.candidates[i], r)| <= 1
  }

  lemma {:induction false} KeepStronger(options: seq<ProviderOption>, p: ProviderOption -> bool, q: ProviderOption -> bool)
    requires forall o :: p(o) ==> q(o)
    ensures |Keep(options, p)| <= |Keep(options, q)|
  {
    if options != [] {
      KeepStronger(options[1..], p, q);
    }
  }

  /** With at most one choice, enlarging the eligible set never takes a provider away. */
  lemma SatisfactionGrows(ctx: Context, s: set<Id>, t: set<Id>, c: Candidate, r: Requirement)
    requires c.scope in ctx.index.lineages && c.scope in ctx.index.allowed
    requires s <= t && |Choices(ctx, c, r)| <= 1
    requires ResolveOne(ctx, s, c, r).Satisfied()
    ensures ResolveOne(ctx, t, c, r).Satisfied()
  {
    var options := Others(VisibleOptions(ctx, c.scope, r.name), c.entry);
    KeepStronger(options, (o: ProviderOption) => o.entry in t && Accepts(r, o.key, o.version),
                 (o: ProviderOption) => Accepts(r, o.key, o.version));
    var o := ResolveOne(ctx, s, c, r).provider.value;
    assert o in Matching(ctx, t, c, r);
  }

  lemma SupportGrows(ctx: Context, s: set<Id>, t: set<Id>, i: nat)
    requires ctx.Valid() && Unambiguous(ctx) && s <= t && i < |ctx.candidates|
    requires Supported(ctx, s, ctx.candidates[i])
    ensures Supported(ctx, t, ctx.candidates[i])
  {
    var c := ctx.candidates[i];
    var rs := c.required + c.optional;
    forall k | 0 <= k < |rs| && !rs[k].optional ensures ResolveRequirements(ctx, t, c)[k].Satisfied() {
      assert rs[k] in c.required;
      assert ResolveRequirements(ctx, s, c)[k] in ResolveRequirements(ctx, s, c);
      SatisfactionGrows(ctx, s, t, c, rs[k]);
    }
  }

  lemma {:induction false} SettledContains(ctx: Context, s: set<Id>, eligible: set<Id>)
    requires ctx.Valid() && Unambiguous(ctx) && SelfSupporting(ctx, s) && s <= eligible
    ensures s <= Settled(ctx, eligible)
    decreases eligible
  {
    forall e | e in s ensures e in Survivors(ctx, eligible) {
      var c :| c in ctx.candidates && c.entry == e;
      var i :| 0 <= i < |ctx.candidates| && ctx.candidates[i] == c;
      SupportGrows(ctx, s, eligible, i);
    }
    if Survivors(ctx, eligible) != eligible {
      SettledContains(ctx, s, Survivors(ctx, eligible));
    }
  }

  /** When every hard requirement has at most one choice, the loop's result is the greatest
      self-supporting set. */
  lemma EligibleIsGreatest(ctx: Context, s: set<Id>)
    requires ctx.Valid() && Unambiguous(ctx) && SelfSupporting(ctx, s)
    ensures s <= Settled(ctx, ctx.Entries())
  {
    SettledContains(ctx, s, ctx.Entries());
  }

  /** A self-supporting set in the terms of the composition: whatever an entry hard-requires is
      provided by a different member that it can see. */
  lemma SelfSupportMeans(ctx: Context, s: set<Id>, i: nat, r: Requirement)
    requires ctx.Valid() && SelfSupporting(ctx, s)
    requires i < |ctx.candidates| && ctx.candidates[i].entry in s && r in ctx.candidates[i].required
    ensures exists p, o :: (
      && 0 <= p < |ctx.candidates| && Offers(ctx.candidates[p], o) && Accepts(r, o.key, o.version)
      && ctx.candidates[p].entry in s && ctx.candidates[p].entry != ctx.candidates[i].entry
      && ctx.index.CanSee(ctx.candidates[i].scope, ctx.candidates[p].scope, r.name))
  {
    var c := ctx.candidates[i];
    var k :| 0 <= k < |c.required| && c.required[k] == r;
    assert (c.required + c.optional)[k] == r;
    assert ResolveRequirements(ctx, s, c)[k] in ResolveRequirements(ctx, s, c);
    assert !r.optional;
    SatisfiedMeans(ctx, s, c, r);
  }

  // ---- Ambiguity makes the loop miss a self-supporting set

  const ONE: Version := Release([1])
  const NEEDS_X: Requirement := Requirement("x", None, [], false)
  const FLAT: ScopeIndex :=
    ScopeIndex(map[ROOT := ScopeSpec(ROOT, None, None, None)], map[ROOT := [ROOT]], map[ROOT := None])

  function Provider(entry: Id): Candidate {
    Candidate(entry, entry, ROOT, [("x", ONE)], [], [], None, false, [])
  }

  /** Two providers of `x` and one consumer with no preference between them. */
  const TWO_PROVIDERS: Context :=
    Context(FLAT, [Provider("a"), Provider("b"), Candidate("c", "c", ROOT, [], [NEEDS_X], [], None, false, [])], map[])

  function OptionOf(entry: Id): ProviderOption {
    ProviderOption(entry, None, entry, FromVersion("x", ONE), ONE, false, ROOT)
  }

  lemma FlatIsValid()
    ensures FLAT.Valid() && TWO_PROVIDERS.Valid()
  {
    var specs := FLAT.specs;
    assert ParentDeclared(specs, ROOT);
    assert Declared(specs);
    assert [ROOT][..0] == [];
    assert ViewAlong(CapabilityViews(specs), [ROOT]) == None;
    assert FLAT.Computed(ROOT);
  }

  lemma TwoChoices()
    ensures ROOT in TWO_PROVIDERS.index.lineages && ROOT in TWO_PROVIDERS.index.allowed
    ensures VisibleOptions(TWO_PROVIDERS, ROOT, "x") == SortOptions([OptionOf("a"), OptionOf("b")])
  {
    var cs := TWO_PROVIDERS.candidates;
    var name: (ProviderOption) -> bool := (o: ProviderOption) => o.key.name == "x";
    assert OptionsOf(cs[0]) == [OptionOf("a")] && OptionsOf(cs[1]) == [OptionOf("b")] && OptionsOf(cs[2]) == [];
    assert cs[1..][0] == cs[1] && cs[1..][1..] == [cs[2]] && cs[2..][1..] == [];
    assert ScopeOptions([cs[2]], ROOT, "x") == [] by { assert [cs[2]][1..] == []; }
    assert Keep([OptionOf("b")], name) == [OptionOf("b")] by { assert [OptionOf("b")][1..] == []; }
    assert Keep([OptionOf("a")], name) == [OptionOf("a")] by { assert [OptionOf("a")][1..] == []; }
    assert ScopeOptions(cs[1..], ROOT, "x") == [OptionOf("b")];
    assert ScopeOptions(cs, ROOT, "x") == [OptionOf("a"), OptionOf("b")];
    assert [ROOT][1..] == [];
    assert LineageOptions(cs, [ROOT], "x") == [OptionOf("a"), OptionOf("b")];
  }

  lemma {:induction false} KeepAll(options: seq<ProviderOption>, p: ProviderOption -> bool)
    requires forall o :: o in options ==> p(o)
    ensures Keep(options, p) == options
  {
    if options != [] {
      KeepAll(options[1..], p);
    }
  }

  lemma BothSorted()
    ensures SortOptions([OptionOf("a"), OptionOf("b")]) == [OptionOf("a"), OptionOf("b")]
  {
    var a, b := OptionOf("a"), OptionOf("b");
    var both := [a, b];
    assert both[..1] == [a] && [a][..0] == [];
    assert SortOptions([a]) == [a];
    assert !KeyBefore(OrderKey(b), OrderKey(a));
    assert InsertOption(b, []) == [b];
    assert [a][1..] == [];
  }

  /** What the consumer of the example may choose from under an eligible set. */
  lemma MatchingInExample(eligible: set<Id>)
    requires "a" in eligible && eligible <= TWO_PROVIDERS.Entries()
    ensures ROOT in TWO_PROVIDERS.index.lineages && ROOT in TWO_PROVIDERS.index.allowed
    ensures Matching(TWO_PROVIDERS, eligible, TWO_PROVIDERS.candidates[2], NEEDS_X) ==
      if "b" in eligible then [OptionOf("a"), OptionOf("b")] else [OptionOf("a")]
  {
    hide KeyBefore, OrderKey, SortOptions, InsertOption;
    var a, b := OptionOf("a"), OptionOf("b");
    TwoChoices();
    var both := [a, b];
    BothSorted();
    KeepAll(both, (o: ProviderOption) => o.entry != "c");
    var p := (o: ProviderOption) => o.entry in eligible && Accepts(NEEDS_X, o.key, o.version);
    assert both[1..] == [b] && [b][1..] == [];
    assert p(a) && (p(b) <==> "b" in eligible);
    assert Keep([b], p) == if "b" in eligible then [b] else [];
    assert Keep(both, p) == if "b" in eligible then both else [a];
  }

  lemma ConsumerInExample(eligible: set<Id>)
    requires "a" in eligible && eligible <= TWO_PROVIDERS.Entries()
    ensures ROOT in TWO_PROVIDERS.index.lineages && ROOT in TWO_PROVIDERS.index.allowed
    ensures Supported(TWO_PROVIDERS, eligible, TWO_PROVIDERS.candidates[2]) <==> "b" !in eligible
  {
    var ctx := TWO_PROVIDERS;
    var c := ctx.candidates[2];
    assert c.required + c.optional == [NEEDS_X] && [NEEDS_X][1..] == [];
    MatchingInExample(eligible);
    assert PreferenceFor(ctx.preferences, c.entry, "x", ROOT) == None;
    hide Matching;
    var s := ResolveOne(ctx, eligible, c, NEEDS_X);
    assert ResolveRequirements(ctx, eligible, c) == [s];
    assert s in [s];
  }

  lemma ProvidersInExample(eligible: set<Id>)
    requires ROOT in TWO_PROVIDERS.index.lineages && ROOT in TWO_PROVIDERS.index.allowed
    ensures Supported(TWO_PROVIDERS, eligible, TWO_PROVIDERS.candidates[0])
    ensures Supported(TWO_PROVIDERS, eligible, TWO_PROVIDERS.candidates[1])
  {
    assert forall c: Candidate :: c.required == [] && c.optional == [] ==> c.required + c.optional == [];
  }

  lemma ExampleEntries()
    ensures TWO_PROVIDERS.Entries() == {"a", "b", "c"}
  {
    var cs := TWO_PROVIDERS.candidates;
    assert forall k :: k in cs <==> k == cs[0] || k == cs[1] || k == cs[2];
  }

  lemma UnsupportedIsDropped(ctx: Context, eligible: set<Id>, i: nat)
    requires ctx.Valid() && i < |ctx.candidates| && !Supported(ctx, eligible, ctx.candidates[i])
    ensures ctx.candidates[i].entry !in Settled(ctx, eligible)
  {
    hide Supported, ScopeIndex.Computed;
    var e := ctx.candidates[i].entry;
    forall k | 0 <= k < |ctx.candidates| && ctx.candidates[k].entry == e ensures k == i {}
    assert e !in Survivors(ctx, eligible);
  }

  /** `{a, c}` supports itself, yet the loop settles without `c`: without the hypothesis of
      `EligibleIsGreatest` the result need not contain every self-supporting set. */
  lemma AmbiguityLosesASelfSupportingSet()
    ensures TWO_PROVIDERS.Valid() && SelfSupporting(TWO_PROVIDERS, {"a", "c"})
    ensures "c" !in Settled(TWO_PROVIDERS, TWO_PROVIDERS.Entries())
  {
    hide Supported, ScopeIndex.Valid, Settled;
    FlatIsValid();
    ExampleEntries();
    ConsumerInExample({"a", "b", "c"});
    UnsupportedIsDropped(TWO_PROVIDERS, {"a", "b", "c"}, 2);
    ConsumerInExample({"a", "c"});
    ProvidersInExample({"a", "c"});
  }
}
