# Chassis: a verified model

Chassis resolves a graph of plugins, mounts plugin instances, publishes immutable generations
that runs lease, and disposes an instance only when nothing can reach it. This project models
the parts of it that decide things, in Dafny, and proves what they promise.
`dafny verify dfyconfig.toml` verifies the whole project.

## How it is laid out

| files | what they model |
|---|---|
| `Wrappers`, `Ordering`, `Graphs` | options, `sorted` over ids, paths and cycles in a finite graph |
| `Tarjan`, `Activation` | the iterative component search and the least-first activation order |
| `Keys`, `Scopes`, `Resolver`, `Planning` | version ranges, the scope hierarchy and its views, selection and eligibility, the whole plan |
| `Identity`, `Registry`, `Reuse`, `Reconcile`, `Preview`, `Agendas` | semantic identities, the plugin registry, incremental reuse, materialization with rollback, the dry run, and the bridge from plans to it |
| `Flat`, `Mounting`, `Circular`, `Outlived`, `Rivals` | two compositions followed from resolution to what is published: a circle of optional requirements, and a consumer that outlives its provider |
| `Generations`, `Leases`, `Lifecycle`, `Teardown` | the generation manager as values and as classes, the control plane as a step machine, the disposal order |
| `Bindings`, `Control` | which instances captured which in every run, and the step machine joined with the registry's tables |
| `Budget`, `Governor` | hierarchical budgets as a forest of values and as objects with parent pointers |
| `Unwinding`, `Ownership` | what closing a tree of scopes does, and the scopes that do it |
| `Paths`, `Composition` | canonical scope paths, and the composition tree with its path index |
| `Configuration`, `ApiCompat` | the configuration diff and its transaction, and the signature checker |
| `Cache`, `Recency` | the least-recently-used graph cache, and what its history says it holds |

Objects the program updates in place are classes here (`PluginRegistry`, `GenerationManager`,
`GenerationAccounting`, `RuntimeGeneration`, `BudgetGovernor`, `Scope`, `CompositionTree`,
`GraphCache`, the configuration side of `Harness`); each of their methods is tied to a function
of the value it shows, and the theorems are about those functions. Loops are loops with
invariants. Awaits are interleaving points of one step machine (`Lifecycle`): the holder of the
composition lock has a program counter, and runs acquire and release leases between any two of
its steps. `Control` is the same machine with the registry in it, where a step of the holder is
one turn of a reconciliation's loops.

Ids are strings, compared by code point. `stable_hash` is a free constructor, so it is
injective; redaction is part of the fingerprints an entry comes with, hence fixed. Instance ids
are given from outside and only assumed fresh. Costs and clock readings are reals; counters are
unbounded integers, as in the program.

## Where the code does less than one might expect

- Rebuilding is not only about change. An entry also counts as out of date when its active
  instance is bound to a provider instance that is no longer the provider's newest, which happens
  when a leased generation keeps the consumer alive while its entry is pending and its provider is
  replaced. `Outlived.OutOfDateIsNotChanged` gives the run, `Rivals` the plans it takes;
  `Reuse.ExactForChangedEntriesIff` says exactly when changes alone decide.
- Eligibility is not monotone: a second provider of a capability can disqualify its consumer.
  The settled set is the greatest self-supporting one when choices are unique, and
  `Resolver.AmbiguityLosesASelfSupportingSet` shows that it need not be otherwise.
- The comment at `src/chassis/plugins/resolver.py:1165` says a cycle among eligible entries cannot occur.
  The cycle check looks at declared contracts and hard requirements, the edges come from live
  registrations and optional requirements as well; `Planning.Resolve` proves the comment's claim
  under the conditions that close this gap, and keeps the order a permutation in any case. Outside
  them the claim is false: `Circular.ResolvePair` gives two entries that optionally require each
  other, and `Circular.NeverSettles` what follows, both being rebuilt at every reconcile and each
  generation from the second on holding an instance bound outside of it. The same pair goes against
  `src/chassis/harness.py:1388`, which takes providers to be mounted before their consumers.
- A charge equal to what remains is accepted, except for the clock: past a deadline `remaining`
  is zero and a charge of zero is refused (`Budget.NoTimeIsRefusedPastTheDeadline`).
- The signature checker is sound where the old signature collects nothing; with `*args` or
  `**kwargs` an added parameter can divert arguments (`ApiCompat.EmptyVerdictPreservesCallsIff`
  is the exact condition).
- Applying a configuration converges exactly when what it installs is named as the catalog lists
  it (`Configuration.Converges`); otherwise the next diff replaces the entry again.
- An invalidation can leave room in the graph cache that evicted keys do not come back to fill:
  `Cache.EvictedKeysStayOut` is such a history, and `Cache.HoldsAsManyAsItMay` says exactly which
  histories are free of it.
- Whether a range with `<2` and `<=2` at once pins a contract generation depends on the order its
  clauses are read in. No accepted version is rejected either way.
- A child attached through the handle of a removed scope is indexed but cannot be reached from
  the root; `Composition.CompositionTree.Child` says that this is the only way to get out of step.

## Model

| member | source | states |
|---|---|---|
| Tarjan.StronglyConnectedComponents | src/chassis/plugins/resolver.py:1203-1253 | The iterative search ends and partitions the nodes (with everything they reach): two nodes are in one component exactly when each reaches the other, and each component is listed in sorted order. |
| Tarjan.SegmentIsComponent | src/chassis/plugins/resolver.py:1243-1251 | What is popped when a low link equals its own index is a whole mutual-reachability class. |
| Tarjan.SegmentClosed | src/chassis/plugins/resolver.py:1228-1251 | No edge leaves the popped segment except into components emitted before. |
| Tarjan.MergingFalls | src/chassis/plugins/resolver.py:1239-1243 | A node whose low link is below its own index reaches an earlier node still on the work stack. |
| Tarjan.SearchComplete | src/chassis/plugins/resolver.py:1203-1253 | When the work stack is empty after every root, what was collected is the partition. |
| Graphs.OnCycleIffMutual | src/chassis/plugins/resolver.py:1198-1200 | With self loops excluded, a node lies on a directed cycle exactly when it shares a component with another node. |
| Planning.DeclaredGraph | src/chassis/plugins/resolver.py:1172-1196 | The graph that cycles are looked for in: provider to consumer exactly where a hard requirement of the consumer is met by a declared, visible contract of another entry. |
| Planning.EdgeMeans | src/chassis/plugins/resolver.py:1179-1196 | An edge, by the fields of the composition: another entry whose scope is on the consumer's lineage, every view along that lineage admitting the capability, has a contract of that name, of the generation asked for and with a version in the set. |
| Planning.SiblingsShareNoEdge | src/chassis/plugins/resolver.py:1179-1196 | So no edge joins entries of two sibling scopes. |
| Planning.CyclesStayInOneScope | src/chassis/plugins/resolver.py:1179-1200 | Edges lead down the hierarchy only, so whoever lies on one cycle lives in one scope: no cycle across scopes is reported. |
| Planning.DetectCycles | src/chassis/plugins/resolver.py:1172-1200 | Reports exactly the entries on a directed cycle of that graph, in disjoint components of more than one, each sorted, within one scope, and the components in order; nothing exactly when the graph is acyclic. |
| Planning.DependencyEdges | src/chassis/plugins/resolver.py:1126-1136 | An edge exactly for each selected provider of an eligible consumer, hard or optional, except itself. |
| Planning.PlanEdgeMeans | src/chassis/plugins/resolver.py:1126-1136 | Requirement by requirement: an edge exactly where a hard or optional requirement of an eligible consumer is resolved to that provider. |
| Activation.ActivationOrder | src/chassis/plugins/resolver.py:1139-1169 | Always a permutation of the eligible entries outside cycles; each step emits the least id whose providers are all emitted; topological exactly when the edges are acyclic. |
| Activation.TopologicalIffAcyclic | src/chassis/plugins/resolver.py:1160-1169 | An order built by least-ready steps, completed by the sorted rest, is topological exactly when the edges have no cycle. |
| Activation.TopologicalPathsAdvance | src/chassis/plugins/resolver.py:1139-1169 | In a topological order every chain of dependencies moves strictly forward. |
| Planning.Resolve | src/chassis/plugins/resolver.py:517-600 | The whole plan: settled, self-supporting eligibility, resolutions against the final set, edges from them, exact cycles, and the order. With no cycles, nothing optional and active registrations among the declared contracts, every provider precedes its consumer. |
| Planning.BindingIsDeclared | src/chassis/plugins/resolver.py:1126-1200 | Under those conditions a selected provider is an edge of the graph the cycle check looked at. |
| Planning.NoDeclaredCycleNoDependencyCycle | src/chassis/plugins/resolver.py:1160-1169 | Under those conditions an empty cycle report rules out a cycle among the dependency edges. |
| Resolver.StatusMeans | src/chassis/plugins/resolver.py:714-783 | Each requirement status stated by who offers what visibly to the consumer, whatever the order of the options: resolved or ambiguous, pending, mismatch, not visible, self reference. |
| Resolver.OffersMean | src/chassis/plugins/resolver.py:919-971 | What a plugin offers: an active one exactly its registrations, any other exactly its declared contracts, each in the generation of its version. |
| Resolver.MatchingMember | src/chassis/plugins/resolver.py:724-731 | Selection chooses among exactly the eligible, visible, accepted options of others, in option order. |
| Resolver.SelectedIsLeast | src/chassis/plugins/resolver.py:732-752 | Of a provider's several answers the least in option order is taken. |
| Resolver.OptionOrderMeans | src/chassis/plugins/resolver.py:1102-1109 | Options go by provider name, entry, instance, version text and scope, the earlier one deciding first; a provider not running yet goes by an empty instance. |
| Resolver.OptionsAreSorted | src/chassis/plugins/resolver.py:1102-1109 | Sorting options permutes them and orders them by provider name, entry, instance, version text and scope. |
| Resolver.SelectionMeans | src/chassis/plugins/resolver.py:733-752 | Among several choices the most specific preference on record (consumer, scope, global) decides, and only if it names one of them; otherwise the requirement is ambiguous. |
| Resolver.SatisfiedMeans | src/chassis/plugins/resolver.py:714-783 | A satisfied requirement is answered by a different, eligible, visible entry whose offer it accepts. |
| Resolver.EveryRequirementIsResolved | src/chassis/plugins/resolver.py:676-700 | Every requirement of a candidate gets its own resolution, the hard ones first, the optional ones after them. |
| Resolver.VisibleOptionsMember | src/chassis/plugins/resolver.py:983-1022 | A scope's options are exactly those offered somewhere on its lineage under a capability its views allow. |
| Resolver.Pass | src/chassis/plugins/resolver.py:565-581 | One pass over the candidates keeps exactly the entries all of whose hard requirements the set at its start satisfies. |
| Resolver.SurvivesIff | src/chassis/plugins/resolver.py:565-581 | An entry survives a pass exactly when each of its hard requirements is satisfied by those there at the start; optional ones do not count. |
| Resolver.Eligible | src/chassis/plugins/resolver.py:556-587 | The loop ends in a set whose members' hard requirements are all satisfied by it, which contains every entry that hard-requires nothing; the stored resolutions are those against it. |
| Resolver.SelfSupportMeans | src/chassis/plugins/resolver.py:556-581 | Every hard requirement of an eligible entry is offered, accepted and visible from a different eligible entry. |
| Resolver.SelfSupportIff | src/chassis/plugins/resolver.py:573-578 | Self-support both ways: the members are candidates and every hard requirement of a member resolves within the set. |
| Resolver.PassesSettle | src/chassis/plugins/resolver.py:560-581 | What the loop settles for is reached from all entries by such passes, and a further pass changes nothing. |
| Resolver.NothingRequiredIsEligible | src/chassis/plugins/resolver.py:573-578 | An entry that hard-requires nothing is eligible, whatever becomes of its optional requirements. |
| Resolver.EligibleIsGreatest | src/chassis/plugins/resolver.py:556-581 | Where every requirement has at most one visible accepted option, the result contains every self-supporting set. |
| Resolver.SatisfactionGrows | src/chassis/plugins/resolver.py:724-752 | With at most one choice, enlarging the eligible set never takes a provider away. |
| Resolver.AmbiguityLosesASelfSupportingSet | src/chassis/plugins/resolver.py:733-752 | Without that condition it fails: two providers of one capability make their consumer ambiguous and lose it, although one provider and the consumer support themselves. |
| Circular.ResolvePair | src/chassis/plugins/resolver.py:1160-1169 | Outside those conditions a cycle among eligible entries does occur: for two entries that optionally require what the other provides no cycle is reported, both are eligible, there are edges both ways, and the order is not topological. |
| Circular.NeverSettles | src/chassis/harness.py:1229-1293 | What such a plan publishes: in every run that reconciles it again and again both entries are rebuilt each time, and from the second generation on one instance captured an instance outside its generation. |
| Circular.PairReachesOutside | src/chassis/harness.py:1385-1421 | Such a run exists for the plan of that pair, with any four instance ids, and its second generation is not binding-closed. |
| Scopes.ComputeLineage | src/chassis/plugins/resolver.py:452-462 | The climb from a scope to the top, reversed; fails exactly when climbing the parents comes back to a scope met before. |
| Scopes.LoopsWhenCut | src/chassis/plugins/resolver.py:452-462 | The seen-set test of the climb is exact: it cuts the lineage short exactly where some path of parents returns to itself. |
| Scopes.ByPathKeepsAll | src/chassis/plugins/resolver.py:429-435 | Filing the specs by path fails exactly on a duplicate, and otherwise keeps each under its own path and nothing else. |
| Scopes.BuildIndex | src/chassis/plugins/resolver.py:429-450 | Accepts a hierarchy exactly when paths are unique, the root is there, every parent is declared and no lineage is circular; what it files is determined by the specs. |
| Scopes.AcceptableMeans | src/chassis/plugins/resolver.py:429-463 | What the constructor accepts, on the list it is given: no path twice, a root, every parent the path of some spec, and no climb along parents that meets a scope again. |
| Scopes.NarrowingOnlyNarrows | src/chassis/plugins/resolver.py:464-473 | A scope's allowed set lies within its parent's and within its own view. |
| Scopes.LineageIsChain | src/chassis/plugins/resolver.py:452-462 | A filed lineage runs from a scope without a parent down to its own, each the parent of the next, none twice. |
| Scopes.AllowedMeans | src/chassis/plugins/resolver.py:464-473 | A scope is allowed exactly the names that no view on its lineage leaves out. |
| Scopes.CanSeeMeans | src/chassis/plugins/resolver.py:507-511 | A scope sees what is offered on its lineage under a name every view along it admits, and nothing else. |
| Scopes.VisibleOnlyThroughTheParent | src/chassis/plugins/resolver.py:507-511 | What a scope can see it offers itself or its parent can see. |
| Scopes.SiblingsAreIsolated | src/chassis/plugins/resolver.py:507-511 | Two scopes of one parent never see each other's providers. |
| Scopes.EffectiveView | src/chassis/composition.py:954-968 | The recomputing climb yields the intersection of the views along the lineage. |
| Scopes.ReintersectionIsIdentity | src/chassis/composition.py:954-968 | Intersecting views that were already intersected along a lineage changes nothing. |
| Scopes.RecomputeAllowed | src/chassis/composition.py:954-968 | What the published tree recomputes from the plan's intersected views is the resolver's allowed set. |
| Scopes.GatherInherited | src/chassis/composition.py:1002-1006 | Climbing the parents collects exactly what strictly higher scopes of the lineage offer. |
| Scopes.ResolveScope | src/chassis/composition.py:998-1014 | The published tree's visible providers are exactly those `can_see` grants; its local ones exactly the scope's own under its view. |
| Scopes.ResolveTools | src/chassis/composition.py:978-1042 | A scope's tools are those of its lineage that every tool view along it selects; its own among them are listed apart. |
| Scopes.ExposesMeans | src/chassis/composition.py:978-996 | A tool is exposed exactly where no tool view on the lineage leaves it out. |
| Scopes.ToolsOnlyNarrow | src/chassis/composition.py:978-1042 | A child's tools are its own contributions and what its parent sees, and its parent's view selects all of them. |
| Keys.SpecifierMajor | src/chassis/capabilities/keys.py:180-221 | The pass over the clauses; when it returns a major, every version in the set has that major. |
| Keys.OperatorsMean | src/chassis/capabilities/keys.py:131-138 | What the operators accept, by first difference, equality and prefixes of the releases: exclusions are complements, inclusive bounds unions, a compatible release both above and alike up to its last component. |
| Keys.PinsFirst | src/chassis/capabilities/keys.py:193-214 | Exact and compatible clauses decide first, by the least of their versions; without them a range open on one side pins nothing. |
| Keys.PinIsSound | src/chassis/capabilities/keys.py:180-221 | The same for the function the pass computes, over specifier sets of any size. |
| Keys.PinIsComplete | src/chassis/capabilities/keys.py:180-221 | For a satisfiable range without exclusions that is bounded on both sides or has an exact clause, a major is returned exactly when all its versions share one. |
| Keys.EqualBoundsMakeOrderMatter | src/chassis/capabilities/keys.py:216-221 | Completeness needs equal upper bounds to be of one kind: of `<2` and `<=2` the one read first decides whether the same range pins. |
| Keys.PinningNeverRejects | src/chassis/capabilities/keys.py:77-138 | A requirement accepts a provider of the derived contract key exactly when the version is in the set, so pinning never rejects an accepted version. |
| Keys.AcceptsMeans | src/chassis/capabilities/keys.py:131-138 | A contract is accepted exactly when it has the name, a version in the set and, where the set pins a generation, that of its own version. |
| Identity.BuildSemanticIdentity | src/chassis/core/identity.py:348-402 | The loop that binds each resolution and sorts the bindings yields the identity of the entry, its selections and the answers about its providers. |
| Identity.IdentityEquality | src/chassis/core/identity.py:228-248 | A recorded identity equals the new one exactly when own fields (the display fingerprint included), the selection, and every provider's answer are the same. |
| Identity.DigestIgnoresInstances | src/chassis/core/identity.py:252-267 | The digest sees providers' digests, never which instances stand behind them. |
| Identity.DigestMeans | src/chassis/core/identity.py:252-267 | Digests agree exactly when scope, implementation, contracts, configuration and, requirement by requirement, the selected provider, its digest and the status agree, so that any change upstream shows. |
| Identity.SortCommutes | src/chassis/core/identity.py:374-390 | Sorting the bindings is binding the sorted selections. |
| Identity.SelectionsAreSorted | src/chassis/core/identity.py:390-390 | Sorting orders by capability and keeps the bindings of one capability as they were. |
| Registry.PluginRegistry.Transition | src/chassis/plugins/lifecycle.py:97-110 | Moves an instance only along the table of allowed transitions; anything else is refused and changes nothing. |
| Registry.AllowedMeans | src/chassis/plugins/lifecycle.py:53-61 | The nine moves there are: setup only from pending or failed, active only from setup, disposed never straight from active. |
| Registry.PluginRegistry.Mount | src/chassis/plugins/registry.py:260-341 | One setup: refused when a live instance of the revision exists and is not superseded; otherwise the new instance is filed as the entry's newest, active with its registrations or failed with none. |
| Registry.PluginRegistry.SetUp | src/chassis/plugins/registry.py:324-341 | On success the registrations are added; on failure exactly those of the new instance are withdrawn again. |
| Registry.PluginRegistry.Dispose | src/chassis/plugins/registry.py:343-403 | Refused while some generation references the instance or it is loading; otherwise the instance and everything registered by it are forgotten, and nothing else. |
| Registry.PluginRegistry.Forget | src/chassis/plugins/registry.py:427-440 | Removes the instance and its place among the entry's instances, keeping the others' order. |
| Registry.AddedStaysConsistent | src/chassis/plugins/registry.py:260-341 | Mounting keeps the tables consistent, makes the instance its entry's newest and moves no other entry. |
| Registry.ForgottenStaysConsistent | src/chassis/plugins/registry.py:427-440 | Forgetting keeps the tables consistent and never frees an issued id. |
| Registry.ForgottenKeepsOthers | src/chassis/plugins/registry.py:427-440 | An entry whose newest instance was not the forgotten one keeps it. |
| Registry.ForgottenWithdraws | src/chassis/plugins/registry.py:427-440 | Its registrations go with it, those of others stay, and no entry lists it any more. |
| Registry.WithdrawnAgain | src/chassis/plugins/registry.py:405-425 | Rolling back a failed setup restores the registrations exactly. |
| Reconcile.HandleEntry | src/chassis/harness.py:1229-1293 | One turn of the loop: reuse, retry, or mount under the identity built from the providers handled so far. |
| Reuse.MountingFiles | src/chassis/harness.py:1229-1293 | A turn that mounts files one instance, the newest of its entry and at its revision: active under the identity just built and part of the candidate, or failed, without identity, and ending the loop. |
| Reuse.MountingKeeps | src/chassis/harness.py:1229-1293 | What it offered is registered if it came up; a failed predecessor goes with its registrations; every other instance and registration stays. |
| Reuse.AnswerMeans | src/chassis/harness.py:1423-1489 | What a consumer learns of a provider: its newest instance, and the digest of the identity this reconcile gave it or else of the one that instance carries. |
| Reconcile.IdentityIn | src/chassis/harness.py:1423-1489 | The identity is built from the registry's newest instances and the identities of this very reconcile. |
| Reconcile.CapturedIn | src/chassis/harness.py:1385-1421 | The loop captures, for each satisfied selection, its provider's newest instance where that registered something the requirement accepts, and nothing else. |
| Reuse.CapturedMeans | src/chassis/harness.py:1399-1420 | Every satisfied selection whose provider's newest instance has an accepted live registration is captured, under its name and by that instance, a later selection of one name in front of an earlier; nothing else is. |
| Reuse.MountsCaptureServed | src/chassis/harness.py:1247-1293 | So every instance a reconcile mounted captured all that serves its entry's selections in the tables it ends with. |
| Reconcile.Materialize | src/chassis/harness.py:1210-1294 | The loop over the activation order, up to the first failing setup; where none fails every mounted instance captured all that serves its entry. |
| Reuse.ReuseIsExact | src/chassis/harness.py:1229-1293 | The mounted entries are the least set that contains the changed and the out-of-date ones and is closed from providers to consumers; all others keep the same instance, and every mounted one is new. |
| Reuse.ReusableIff | src/chassis/harness.py:1235-1240 | An entry is kept exactly when it did not change, is not out of date, and none of its providers was mounted. |
| Reuse.ExactForChangedEntriesIff | src/chassis/harness.py:1229-1293 | Changed entries alone suffice exactly when every out-of-date entry lies downstream of a changed one. |
| Outlived.OutOfDateIsNotChanged | src/chassis/harness.py:1229-1293 | They do not suffice in general. A run of two reconciliations leaves a consumer bound to a provider instance that was replaced while the consumer was pending; in the third nothing about any entry changed, and the consumer is rebuilt. |
| Outlived.TwoGenerations | src/chassis/harness.py:1008-1076 | How that state is reached: provider and consumer are mounted, then the provider is replaced and a rival mounted, while the consumer and the replaced instance, active with its registration, stay. |
| Rivals.ResolveTogether | src/chassis/plugins/resolver.py:517-600 | The plan of the first and the third reconciliation is the one resolution yields for a provider and its consumer. |
| Rivals.ResolveContested | src/chassis/plugins/resolver.py:733-752 | The plan of the second is the one it yields when a rival makes the consumer ambiguous, which is then left out. |
| Rivals.ConsumerIsRebuilt | src/chassis/harness.py:1229-1293 | For those very plans the run exists with any six instance ids. |
| Reuse.SpreadIsLeast | src/chassis/harness.py:1229-1293 | Spreading a set along the activation order gives the least set closed from providers to consumers. |
| Reuse.CaptureIsBound | src/chassis/harness.py:1385-1421 | What a mount captures is a candidate instance, and its identity records it. |
| Reuse.ReusedIsClosed | src/chassis/harness.py:1235-1246 | A reused instance captured nothing but instances of the candidate. |
| Reuse.StepMounts | src/chassis/harness.py:1247-1293 | A mounting turn keeps the candidate closed, and its id was unknown before. |
| Reuse.ReconcilingAgainKeepsAll | src/chassis/harness.py:1229-1293 | Reconciling once more what was just reconciled runs no setup, keeps the tables and yields the same candidate. |
| Agendas.TopologicalPutsProvidersFirst | src/chassis/plugins/resolver.py:1139-1169 | A topological plan hands every selected provider to the loop before its consumer. |
| Agendas.AgendaCarries | src/chassis/plugins/resolver.py:724-752 | Of each requirement of the plan: the requirement itself, its status and the entry of the provider chosen, in order. |
| Agendas.SelectedIsEligible | src/chassis/plugins/resolver.py:724-752 | A selected provider is an eligible entry other than the consumer, and an edge of the plan. |
| Reconcile.RollBack | src/chassis/harness.py:1038-1041 | Disposes the mounted instances newest first, and reports the entries in that order. |
| Reconcile.FailureRestoresActive | src/chassis/harness.py:1028-1049 | However far it got, a failed materialization that is rolled back leaves exactly the active instances it found. |
| Reconcile.Attempt | src/chassis/harness.py:1008-1049 | On success a binding-closed candidate with one instance per entry; on failure the active set it started from. |
| Reconcile.PublishedIsClosed | src/chassis/harness.py:1227-1294 | Each provider an instance of the candidate captured is itself in the candidate, reused instances included. |
| Reconcile.EveryGenerationIsClosed | src/chassis/harness.py:1008-1076 | Over every sequence of reconciles, failed ones included, and disposals, every generation ever published is binding-closed, if every plan puts providers first; `Circular.NeverSettles` shows what happens otherwise. |
| Preview.DryRun | src/chassis/harness.py:2143-2178 | The dry run's loop over the same plan, without mounting. |
| Preview.PredictionIsExact | src/chassis/harness.py:2143-2178 | Every entry is predicted reused exactly when materializing the same desired state does not mount it. |
| Preview.SameDecision | src/chassis/harness.py:2155-2177 | At each entry both loops decide alike and get identities of one digest. |
| Preview.SameVerdict | src/chassis/harness.py:2147-2153 | Against `pending:` answers a recorded identity compares as against the fresh instance's. |
| Preview.PendingIsNotIssued | src/chassis/harness.py:2147-2151 | A `pending:` name is never an instance id. |
| Leases.GenerationAccounting.Acquire | src/chassis/core/generation.py:73-87 | Issues a lease id never used before; one more is outstanding. |
| Leases.GenerationAccounting.Release | src/chassis/core/generation.py:89-107 | An id that is not outstanding is refused and changes nothing; the last release makes the generation idle. |
| Leases.GenerationAccounting.MayPass | src/chassis/core/generation.py:127-133 | A waiter for idleness passes exactly when no lease is outstanding. |
| Leases.GenerationManager.Build | src/chassis/core/generations.py:151-177 | A new generation under the next sequence number; nothing else moves. |
| Leases.GenerationManager.Publish | src/chassis/core/generations.py:179-202 | Only a building generation becomes current; its predecessor drains. |
| Leases.GenerationManager.Retire | src/chassis/core/generations.py:204-237 | Refused for the current generation, and for a leased one outside shutdown; in a shutdown leases are no obstacle; retired twice is no change. |
| Leases.GenerationManager.Remember | src/chassis/core/generations.py:230-237 | The diagnostics buffer keeps the newest within its limit and counts what it drops. |
| Leases.GenerationManager.BeginShutdown | src/chassis/core/generations.py:250-268 | No current generation any more; the outgoing one drains. |
| Leases.GenerationManager.AcquireLease | src/chassis/core/generations.py:270-286 | Leases the current generation, and fails exactly when there is none. |
| Leases.GenerationManager.ReleaseLease | src/chassis/core/generations.py:288-296 | Says whether this was the last lease of a draining generation. |
| Leases.GenerationManager.RetireIdle | src/chassis/harness.py:1564-1573 | The first half of a reclaim retires exactly the draining generations that nobody leases. |
| Generations.BuiltIsSane | src/chassis/core/generations.py:151-177 | Building keeps the manager sane and what is reachable. |
| Generations.PublishedIsSane | src/chassis/core/generations.py:179-202 | Publication keeps it sane; exactly the new generation joins the live ones. |
| Generations.RetiringIsSane | src/chassis/core/generations.py:204-237 | Retiring keeps it sane; exactly that generation leaves the live ones. |
| Generations.RetiringKeepsNewest | src/chassis/core/generations.py:230-237 | The diagnostics buffer is the newest retirements within its limit, in order, and the counter counts the rest. |
| Generations.LeasesStay | src/chassis/core/generations.py:179-237 | Publishing, retiring and shutting down change no generation's instances and no leases; the outgoing generation drains last in line. |
| Generations.ShutDownIsSane | src/chassis/core/generations.py:250-268 | Beginning a shutdown keeps every live generation live. |
| Generations.AcquiredIsSane | src/chassis/core/generations.py:270-286 | Acquiring changes neither the live generations nor what they reach. |
| Generations.ReleasedIsSane | src/chassis/core/generations.py:288-296 | Nor does releasing. |
| Generations.LeaseAndRelease | src/chassis/core/generations.py:270-296 | A run leases under an id that is not outstanding; releasing that id undoes the lease, and the id is not given out again. |
| Generations.SweptIsSane | src/chassis/harness.py:1564-1573 | A sweep removes from the live generations exactly the unleased draining ones. |
| Generations.ReachableFrom | src/chassis/core/generations.py:137-149 | What is reachable depends only on the live generations and their instances, and grows with them. |
| Generations.ReachableMeans | src/chassis/core/generations.py:137-149 | Reachable is what the current generation or a draining one holds, and nothing else. |
| Lifecycle.NextKeepsInv | src/chassis/harness.py:1008-1191 | Every step of the control plane keeps the invariant: the active instances are the reachable ones and whatever the lock holder has in hand. |
| Lifecycle.LeasedStaysActive | src/chassis/harness.py:1157-1191 | In every run, under every interleaving, all instances of a leased generation are active and no step disposes one of them. |
| Lifecycle.LeaseIsHeld | src/chassis/core/generation.py:73-107 | A lease is outstanding from its acquisition until that very lease is released. |
| Lifecycle.RunKeepsItsInstances | src/chassis/harness.py:1157-1191 | So a run keeps every instance of the generation it acquired for as long as it runs. |
| Lifecycle.DisposalIsNeverRefused | src/chassis/plugins/registry.py:343-361 | The registry's reference-count gate never has to refuse what the reclaim or the rollback disposes. |
| Lifecycle.DisposedMeans | src/chassis/harness.py:1036-1049 | What a step disposes is what it takes out of the instances, active or failed; nothing else goes. |
| Lifecycle.ReclaimIsExact | src/chassis/harness.py:1561-1592 | When a reclaim finishes, the active instances are exactly those in some live generation. |
| Lifecycle.FailedReconcileChangesNothing | src/chassis/harness.py:1028-1049 | A reconcile that fails and rolls back leaves the current generation and the active set as it found them, whatever was acquired or released meanwhile. |
| Lifecycle.RefCountMeans | src/chassis/core/generations.py:331-343 | A refreshed reference count is positive exactly for the reachable instances. |
| Lifecycle.NeverStuck | src/chassis/harness.py:1008-1191 | In every state the invariant allows, the lock holder can go on. |
| Lifecycle.MayMount | src/chassis/harness.py:1210-1294 | While mounting it may keep any active instance, retry any failed one, mount under any new id, and publish. |
| Lifecycle.RunsMayLease | src/chassis/core/generations.py:270-296 | Whatever the lock holder is doing, a run may begin exactly while a generation is current, and may end whenever it holds a lease. |
| Lifecycle.HolderFinishes | src/chassis/harness.py:1036-1049 | Rolling back and reclaiming come to an end after as many steps as there are instances to dispose, however runs interleave. |
| Teardown.TeardownOrder | src/chassis/harness.py:1610-1645 | The loop ends even on cyclic bindings, with the unused instances of what remains, sorted, layer after layer. |
| Teardown.Layers | src/chassis/harness.py:1628-1645 | Every target exactly once. |
| Teardown.ConsumersFirst | src/chassis/harness.py:1610-1645 | Where bindings are acyclic, no instance is disposed before one bound to it. |
| Teardown.TeardownByRank | src/chassis/harness.py:1628-1645 | The whole order: by the length of the longest chain of consumers among the disposed, and among equals by id. |
| Teardown.ChainsRespected | src/chassis/harness.py:1575-1645 | Nor before one bound to it through a chain, also where the chain could pass through instances that stay. |
| Teardown.ReclaimKeepsAClosedSet | src/chassis/harness.py:1575-1587 | If the generations that stay are closed and untouched and nobody is bound to a failed instance, what is kept is closed under bindings, which is what the chains need. |
| Bindings.CapturesActive | src/chassis/harness.py:1385-1421 | What a mount captures is active and filed already. |
| Bindings.AddedIsBound | src/chassis/plugins/registry.py:260-341 | Filing an instance that captured only such instances closes no circle of captures. |
| Bindings.CapturesNeverCircle | src/chassis/harness.py:1610-1626 | In every world that reconciliations and disposals lead to, whatever the plans, the bindings among instances are acyclic: the defensive branch of the teardown is never needed. |
| Bindings.TeardownPutsConsumersFirst | src/chassis/harness.py:1628-1645 | So in every such world no teardown disposes an instance before one bound to it. |
| Bindings.FiledInstancesStay | src/chassis/plugins/registry.py:427-440 | An instance is filed once and stays as it is, with exactly what it registered, until it is disposed of, whatever is mounted or disposed meanwhile. |
| Bindings.FailureRestoresRegistrations | src/chassis/harness.py:1028-1049 | A failed reconcile leaves exactly the live registrations it found. |
| Bindings.SelectedProvidersGoLast | src/chassis/harness.py:1610-1645 | Whatever a reconcile mounted is, in any later teardown, disposed of before each instance that served one of its entry's selections. |
| Control.NextKeepsInv | src/chassis/harness.py:1008-1294 | The step machine joined with the registry's tables: every step keeps the tables, the counters, the candidate and every live generation's instances in agreement, and every live generation closed and active. |
| Control.RefinesLifecycle | src/chassis/harness.py:1008-1191 | Every run of the joined machine is a run of the control plane, so what is proved of those holds of it. |
| Control.NeverStuck | src/chassis/harness.py:1229-1293 | At each entry of a plan exactly one of keeping, clearing and mounting is due, and after the last one publishing. |
| Control.LeasedProvidersAreActive | src/chassis/harness.py:1157-1191 | In every run, under every interleaving, each provider that an instance of a leased generation captured belongs to that generation and is active. |
| Control.KeptInstancesAreClosed | src/chassis/harness.py:1575-1587 | At every reclaim the kept instances are bound to nothing that goes, those nobody is bound to apart. |
| Control.ReclaimTakes | src/chassis/harness.py:1561-1587 | In every reachable state a reclaim goes after exactly the active instances that no generation left over reaches and the failed ones of entries no longer wanted; a failed instance of a wanted entry waits for its retry. |
| Control.ReclaimRespectsChains | src/chassis/harness.py:1561-1645 | At every reclaim of every run whatever is disposed goes before everything it is bound to, directly or through any chain of instances, kept ones included. |
| Budget.AddMeans | src/chassis/budget/models.py:255-269 | A valid charge lands on its own dimension in full and on no other; the clock is observed, never charged. |
| Budget.AddByName | src/chassis/budget/models.py:255-269 | Each dimension adds to the field of its own name and leaves the others. |
| Budget.FitsMeans | src/chassis/budget/governor.py:162-184 | A charge fits exactly when no enclosing allocation's limit would be exceeded. |
| Budget.AcceptedIffWithinRemaining | src/chassis/budget/governor.py:119-184 | A charge is accepted exactly when it is at most what remains and nothing up the chain is overdrawn. |
| Budget.RemainingDecides | src/chassis/budget/governor.py:119-184 | In every run, the clock apart, `remaining` alone decides every charge. |
| Budget.NoLimitIsExceeded | src/chassis/budget/models.py:167-180 | By name: in every run, at every allocation, each of the five stored usages is within the limit of its own name. |
| Budget.RefusedIff | src/chassis/budget/governor.py:162-184 | A charge is refused exactly when at the allocation or an enclosing one it is more than what its usage of that name leaves of the limit of that name. |
| Budget.LimitsValidMeans | src/chassis/budget/models.py:131-165 | No limit is negative, by name. |
| Budget.ReportMeans | src/chassis/budget/governor.py:253-265 | A report is refused whole when one of its amounts is no amount, or is something and more than what is left up the chain under the limit of its name; an amount of nothing is not even checked. |
| Budget.RecordedByName | src/chassis/budget/governor.py:266-276 | An accepted report adds its calls, tokens and cost to those fields of the allocation and of each one enclosing it, and to nothing else. |
| Budget.RemainingMeans | src/chassis/budget/governor.py:119-132 | What remains is the least that is left up the chain by name, and nothing rather than less. |
| Budget.ValidMeans | src/chassis/budget/governor.py:186-214 | A charge is a finite amount of at least nothing, and whole where things are counted. |
| Budget.NoTimeIsRefusedPastTheDeadline | src/chassis/budget/governor.py:119-184 | The clock is the exception: past a deadline zero remains, yet a charge of zero is refused. |
| Budget.BothClocksAgree | src/chassis/budget/governor.py:145-160 | `remaining_seconds` and `remaining` give the same time left, never negative. |
| Budget.ChargeMeans | src/chassis/budget/governor.py:272-275 | A recorded amount is added at exactly the allocation and those enclosing it. |
| Budget.ApplyWithinLimits | src/chassis/budget/governor.py:216-281 | No operation takes any allocation over a limit on a non-clock dimension. |
| Budget.ChargeEachWithinLimits | src/chassis/budget/governor.py:257-270 | A report over several dimensions, checked one at a time before any is recorded, still exceeds none of them. |
| Budget.ChargeConserves | src/chassis/budget/governor.py:272-275 | After a charge each allocation's usage is its direct charges plus its children's usage. |
| Budget.BooksBalance | src/chassis/budget/governor.py:216-281 | Over every sequence of consume, record and child calls: within all limits, and each usage equals direct charges plus the children's. |
| Governor.BudgetUsage.Add | src/chassis/budget/models.py:255-269 | The fields after a charge are those of the charged value. |
| Governor.BudgetGovernor.Under | src/chassis/budget/governor.py:72-83 | A child joins its parent's tree as its youngest node, unused. |
| Governor.BudgetGovernor.Check | src/chassis/budget/governor.py:162-184 | The recursive check up the parents refuses exactly what is more than some enclosing allocation has left under the limit of that name, and changes nothing. |
| Governor.BudgetGovernor.RecordUp | src/chassis/budget/governor.py:272-275 | The recursion charges this allocation and every ancestor. |
| Governor.BudgetGovernor.Consume | src/chassis/budget/governor.py:216-226 | Checked, then charged up the chain; a refusal changes nothing. |
| Governor.BudgetGovernor.Record | src/chassis/budget/governor.py:228-270 | All of a report or nothing anywhere in the chain. |
| Governor.BudgetGovernor.Child | src/chassis/budget/governor.py:277-281 | Allocating a child costs one child run here and above; refused, no child exists. |
| Governor.BudgetGovernor.Remaining | src/chassis/budget/governor.py:119-132 | The least headroom up the chain. |
| Governor.BudgetGovernor.RemainingSeconds | src/chassis/budget/governor.py:145-160 | The earliest deadline up the chain, against one reading of the clock. |
| Unwinding.RunsAreReversed | src/chassis/core/scope.py:97-110 | Whichever disposers fail, all run, once each, in the reverse of registration order, a child's whole unwind at its own place. |
| Unwinding.NewestRunsFirst | src/chassis/core/scope.py:97-110 | What is registered last unwinds first: a disposer by running, a child by its whole unwind, a closed child not at all. |
| Unwinding.ReportedInUnwindOrder | src/chassis/core/scope.py:432-456 | A close reports earlier failures, then stragglers, then the unwind's failures in unwind order, then an error that escaped the unwind. |
| Unwinding.ReportedMeans | src/chassis/core/scope.py:416-456 | What a close reports, and nothing else: earlier failures, a timeout naming each task that will not stop, each failing disposer under its description, each failing child as one aggregate of its own report, and the error that escapes. |
| Unwinding.NothingReportedIffClean | src/chassis/core/scope.py:432-456 | A failure anywhere in the tree reaches the report of its root, and nothing else does. |
| Unwinding.FullyDisposedIff | src/chassis/core/scope.py:240-254 | Fully disposed exactly when nothing failed, straggled or stayed unreleased. |
| Ownership.Scope.RegisterEffect | src/chassis/core/scope.py:286-301 | Only an open scope takes on an effect. |
| Ownership.Scope.ReleaseEffect | src/chassis/core/scope.py:303-306 | Forgets that effect and no other. |
| Ownership.Scope.Cleanup | src/chassis/core/scope.py:308-325 | Registers a disposer after all earlier ones, or nothing on a scope that is not open. |
| Ownership.Scope.Child | src/chassis/core/scope.py:368-380 | A new open scope, closed by its owner at its own place in the unwind. |
| Ownership.Scope.Close | src/chassis/core/scope.py:416-456 | Runs exactly the disposers of the tree, reports exactly its failures, leaves the scope closed and says when it is fully disposed; a second close runs nothing. |
| Ownership.Scope.Unwind | src/chassis/core/scope.py:432-456 | The exit stack's loop: newest first, carrying on past an error that escapes. |
| Ownership.Scope.DisposeLast | src/chassis/core/scope.py:97-110 | One entry: its effect is released before it runs, its ordinary failure is recorded. |
| Ownership.Scope.CloseChild | src/chassis/core/scope.py:368-380 | A child that fails to close is one aggregated failure of its owner. |
| Paths.CanonicalIff | src/chassis/core/paths.py:17-40 | A canonical path is the path of its segments. |
| Paths.PathIsCanonical | src/chassis/core/paths.py:17-40 | And every list of segments has a canonical path that determines it. |
| Paths.CanonicalMeans | src/chassis/core/paths.py:17-40 | Character by character: absolute, no segment empty, reserved or changed by stripping, no trailing separator but the root's. |
| Paths.TrimmedIff | src/chassis/core/paths.py:34-38 | A segment is trimmed exactly when stripping leaves it as it is. |
| Paths.WithinIffPrefix | src/chassis/composition.py:653-656 | A path lies within another exactly when the other's segments are a prefix of its own. |
| Paths.PartitionOfPath | src/chassis/composition.py:555-571 | Splitting a path at its last separator gives its parent and its name, also directly below the root. |
| Composition.CompositionScope.Path | src/chassis/composition.py:244-255 | The path a scope builds by climbing its parents is the one of its segments. |
| Composition.CompositionTree.Child | src/chassis/composition.py:515-553 | Refuses bad names, foreign parents and taken paths, changing nothing; otherwise indexes a new child under its own path. The index and the tree stay in step exactly when the parent was live. |
| Composition.CompositionTree.Get | src/chassis/composition.py:573-580 | The live scope whose path is the one asked for, if there is one; a path that is not canonical is refused. |
| Composition.CompositionTree.Ensure | src/chassis/composition.py:555-571 | The scope returned for a canonical path has that path; exactly its missing ancestors are created, and no scope there before is touched. |
| Composition.CompositionTree.Walk | src/chassis/composition.py:590-599 | Finds exactly the scopes at or below one, all live, in pre-order: ascending by their segments, hence parents first and siblings by name. |
| Composition.CompositionTree.Remove | src/chassis/composition.py:601-630 | Deletes exactly the subtree at the path and withdraws exactly its entries; the root and paths that are not canonical are refused; the rest stays in step. |
| Composition.PrunedIsIndexed | src/chassis/composition.py:601-630 | Nothing outside a subtree hangs on it. |
| Composition.RemovalMeans | src/chassis/composition.py:601-630 | What goes is the scope at the path and all whose segments continue its own, and an entry exactly when its declaring scope does. |
| Composition.BelowIsUnion | src/chassis/composition.py:590-599 | What lies at or below a scope is the scope and what lies below its children. |
| Configuration.DiffDesiredState | src/chassis/config/reconcile.py:86-154 | One change per wanted or installed id, in id order, unchanged exactly where installed name and configuration equal the wanted ones. |
| Configuration.ChangesSayWhy | src/chassis/config/reconcile.py:100-154 | By the fields: an entry is left alone exactly when the installed name and configuration are the wanted ones, replaced exactly when one differs, added and removed exactly when only one side has it; one change per id, in id order. |
| Configuration.WantedIsLast | src/chassis/config/reconcile.py:98-98 | Of several enabled entries of one id the last counts. |
| Configuration.AppliedEntries | src/chassis/harness.py:454-469 | Where each change leaves its entry: exactly the wanted ids installed, unchanged ones untouched, the others anew under the next revision. |
| Configuration.AppliedInstallsWanted | src/chassis/harness.py:445-486 | After an applied configuration exactly the enabled ids are installed, each with the wanted configuration: untouched where name and configuration were the wanted ones, else of the catalog's class under the next revision. |
| Configuration.OwnedFromEntry | src/chassis/harness.py:471-475 | Every preference of an enabled entry is owned under the entry's id, a later one of the same key in front of an earlier. |
| Configuration.OwnedFromConfig | src/chassis/harness.py:471-475 | All other keys are the configuration's own preferences. |
| Configuration.StagedMeans | src/chassis/harness.py:498-507 | Staging sees the last enabled entry's word on a name, else the configuration's. |
| Configuration.StagedIff | src/chassis/harness.py:488-507 | Accepted are exactly the configurations whose every entry, a disabled one too, names a listed implementation and whose every preference - the last enabled entry's word, else the configuration's - has text on both sides. |
| Configuration.BlankMeans | src/chassis/harness.py:502 | Blank is what stripping leaves nothing of. |
| Configuration.MutatesMeans | src/chassis/config/reconcile.py:53-58 | A batch counts as a change exactly when it leaves other entries behind. |
| Configuration.Converges | src/chassis/harness.py:445-486 | After an apply the installed ids are the enabled ids, and a fresh diff is all unchanged exactly when every installed implementation carries the catalog name it is listed under. |
| Configuration.RestoreUndoes | src/chassis/plugins/registry.py:190-206 | Restoring a captured entry undoes whatever happened to that entry. |
| Configuration.Harness.Install | src/chassis/plugins/registry.py:104-173 | Refused when installed and not replacing; where it breaks off it has touched that entry alone. |
| Configuration.Harness.Uninstall | src/chassis/harness.py:697-702 | Removes the entry and marks the harness dirty exactly when it was there. |
| Configuration.Harness.RestoreEntry | src/chassis/harness.py:2431-2446 | Puts a captured entry and its revision back. |
| Configuration.Harness.ApplyChanges | src/chassis/harness.py:453-469 | The batch up to the first failure; undoing its undo list gives back the state it started from. |
| Configuration.Harness.ApplyConfig | src/chassis/harness.py:432-486 | All of a configuration or none of it: applied, exactly the enabled ids are installed as wanted; a refusal or a failure at any change leaves entries, revisions, preferences, configuration and the dirty flag exactly as they were. |
| ApiCompat.IncompatibleParams | scripts/api_compat.py:197-228 | The loops over old and new parameters collect the order, removal, kind, default and required-addition problems. |
| ApiCompat.NoProblemsIff | scripts/api_compat.py:197-228 | No problem is found exactly when the old positional order is a prefix of the new one, every old parameter survives in kind and default, and every added one has a default. |
| ApiCompat.ProblemsMean | scripts/api_compat.py:197-228 | Each problem is reported under its own label exactly when it is there: a changed order, a missing parameter, a changed kind, a lost default, an added parameter without one. |
| ApiCompat.PositionalInOrder | scripts/api_compat.py:197-206 | The positional slots come in the order of the signature. |
| ApiCompat.OneParameter | scripts/api_compat.py:197-228 | What the binding rules give for one required parameter of each kind. |
| ApiCompat.SoundWithoutCollectors | scripts/api_compat.py:197-228 | Then every call the old signature accepts the new one accepts, each argument bound to the same name, if the old one has neither `*args` nor `**kwargs`. |
| ApiCompat.EmptyVerdictPreservesCallsIff | scripts/api_compat.py:197-228 | With them, exactly when no positional parameter is added behind `*args` and no keyword in front of `**kwargs`. |
| ApiCompat.DivertedPositional | scripts/api_compat.py:197-228 | A positional parameter added to a signature with `*args` breaks a call the checker passes. |
| ApiCompat.DivertedKeyword | scripts/api_compat.py:197-228 | A keyword parameter added to a signature with `**kwargs` does too. |
| Cache.AlwaysConsistent | src/chassis/langgraph/graphs.py:195-268 | After any operations both dictionaries have the keys of the recency order, each once, within the limit. |
| Cache.HoldsTheMostRecent | src/chassis/langgraph/graphs.py:220-268 | The cache holds an end of the reference order, with the last stored graphs. The reference order keeps every key stored and not invalidated since, evicted ones included, in the order last touched, where a get touches a key only if the cache itself still held it. |
| Cache.FullIff | src/chassis/langgraph/graphs.py:234-252 | That end is as long as the limit allows exactly when nothing of the reference order is missing or the cache is at its limit. |
| Cache.GetKeepsFull | src/chassis/langgraph/graphs.py:220-232 | A get changes nothing about that, whatever came before. |
| Cache.PutRefills | src/chassis/langgraph/graphs.py:234-252 | After a put it is so exactly if it was before, or the put reached the limit, or it stored the only key missing; so a put keeps it whatever came before. |
| Cache.InvalidationLeavesFullIff | src/chassis/langgraph/graphs.py:254-268 | After an invalidation it is so exactly if the invalidation drops everything evicted before, or drops nothing from a cache at its limit. |
| Cache.HoldsAsManyAsItMay | src/chassis/langgraph/graphs.py:220-268 | Throughout a history, whatever its operations, the cache is as full as it may be exactly when each invalidation in it drops nothing cached or drops everything evicted before. |
| Cache.EvictedKeysStayOut | src/chassis/langgraph/graphs.py:254-268 | A history in which one does neither: what was evicted before does not come back, and the cache is shorter than it might be. |
| Cache.SizeIsAccountedFor | src/chassis/langgraph/graphs.py:220-268 | Size plus overwrites, evictions and invalidations equals builds; without overwrites, as when puts follow misses, size is builds minus evictions minus invalidations. |
| Recency.HoldsByRecency | src/chassis/langgraph/graphs.py:220-252 | By the history alone: the cached keys are in the order of their last touch, a put or a get that hit. |
| Recency.HoldsWhatStands | src/chassis/langgraph/graphs.py:234-268 | A key is cached only while its last put has not been invalidated, by its agent or altogether, and then with that put's graph. |
| Recency.MissingIsOlder | src/chassis/langgraph/graphs.py:234-252 | What stands and is not cached was touched before everything that is. |
| Recency.CountersMean | src/chassis/langgraph/graphs.py:220-252 | Every get is a hit or a miss, every put a build. |
| Cache.GraphCache.Get | src/chassis/langgraph/graphs.py:220-232 | A hit moves the key to the end; the graph stored last is returned, if any. |
| Cache.GraphCache.Put | src/chassis/langgraph/graphs.py:234-252 | Stores at the end, then evicts from the front down to the limit. |
| Cache.GraphCache.Invalidate | src/chassis/langgraph/graphs.py:254-268 | Drops exactly one agent's keys, or all, and says how many. |

## Left out

- Reconcile.Materialize: every entry of the plan is taken to be installed throughout one reconcile; an uninstall during its awaits, which the loop skips over, is not modelled.
- Reconcile.CapturedIn: a captured requirement names the provider instance, not which of its several matching registrations was taken.
- Planning.Resolve: pending diagnostics, scope plans, assessments and explanations of a plan are not part of it.
- Scopes.BuildIndex: the implicit root that an absent list of scopes stands for is not part of it.
- Keys.PinningNeverRejects: a requirement parsed with an explicit `api_version`, pre-releases, post-releases, epochs, local versions and releases of more than three components are not modelled.
- Keys.PinIsComplete: ranges open on one side, and ranges with exclusions, may share a major and still pin nothing; only soundness is stated for them.
- Identity.BuildSemanticIdentity: explanations, preference provenance and other display-only fields of a binding are not built.
- Identity.IdentityEquality: display-only fields of a binding (explanations, preference provenance) and the display fingerprints of providers are not modelled.
- Registry.PluginRegistry.Mount: the plugin's own code is one outcome, with an id, success or failure, and what it offers; instances are values filed by id, so aliasing of instance objects is not captured, and a state transition is a method of the registry.
- Registry.PluginRegistry.Dispose: a disposal whose cleanup raises forgets the instance all the same; the recorded failures are not modelled here.
- Lifecycle.LeasedStaysActive: runs of the machine end where a shutdown begins; from there on drain deadlines decide. `discard` is never called by the harness and is no step. Cancellation inside an observation hook, between a mount and its bookkeeping, is no step either.
- Lifecycle.FailedReconcileChangesNothing: instances left in the failed state by a setup remain filed until a retry or a reclaim; the claim is about the active ones.
- Reconcile.Attempt: the validation and the scope tree that publication builds inside the same `try` are not modelled; a failure there would roll back the same way.
- Preview.PredictionIsExact: the preview of a configuration not yet applied, and the `would_publish` flag, are not modelled.
- Ownership.Scope.Close: tasks that will not stop in time are given beforehand; timeouts, cancellation and two concurrent closers of one scope are not modelled, and a child's description is its own.
- Governor.BudgetGovernor.RemainingSeconds: the clock is read once per call of a governor, whereas the program reads it again at each ancestor.
- Budget.BooksBalance: the `deadline` accessor and the descriptive enforcement tables are not modelled.
- Composition.CompositionTree.Ensure: views, tools, metadata and requirements of a scope do not matter to the index and are left out.
- Configuration.Harness.Install: what it checks and builds on the way, scope, entry id and instance configuration among it, is summed up in where it breaks off, if anywhere.
- Configuration.Harness.ApplyConfig: parsing and schema validation come before; the configuration is given as a value. Programmatic preferences are separate and untouched.
- Cache.GraphCache.Put: telemetry counters and the construction of cache keys are not modelled.
- Teardown.ConsumersFirst: disposal failures and the hooks around each disposal are not modelled.
- Control.NextKeepsInv: only plans that order providers first are begun, since others publish generations that are not closed; runs end where a shutdown begins, as in `Lifecycle`.
- Reconcile.EveryGenerationIsClosed: assumes that plans order providers first, for the same reason; `Planning.Resolve` says when they do.
- Reuse of an unchanged composition as the current generation is a step of the machine that compares instances only; snapshots, scope trees and preferences, which the program compares as well, are not modelled.
- Agent materialization and its rollback, tools and their executor, hooks, replay, telemetry, diagnostics and rendering, secret providers, YAML and JSON loading, LangGraph and LangSmith are outside the model.
