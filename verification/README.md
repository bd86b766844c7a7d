# platformctl: a verified model of planning, applying and access compilation

This project models the plan-and-reconcile machine of `platformctl` in Dafny and proves what it
promises. Manifests (envelopes) refer to each other; the references form a dependency graph; the planner
compares the graph with the recorded state and orders the work in levels; the executor reconciles and
deletes, records after every resource, and survives failures and crashes; teardown runs the other way. The
same graph is compiled into per-edge networks and ingress peers, and two policy evaluators judge its edges.

| file | subject |
|---|---|
| `Resources.dfy`, `Reachability.dfy` | envelopes, keys and records; walks, reachability, longest chains |
| `DependencyGraph.dfy`, `GraphBuild.dfy` | cycle search, topological levels, closures; building from manifests |
| `Planner.dfy` | the one-pass diff, the change cascade, authoritative deletes |
| `ApplyMachine.dfy`, `ApplyEngine.dfy` | execution as an interleaving state machine; the sequential loop that refines it |
| `ApplyResults.dfy`, `ApplyCommand.dfy` | containment, approvals, records that outlive their dependencies; the command end to end |
| `Replan.dfy` | planning again after a finished or interrupted run |
| `DestroyEngine.dfy`, `History.dfy` | teardown; histories of many commands |
| `GraphAccess.dfy`, `EdgeNetworks.dfy` | who may dial whom; Docker networks the two endpoints compute independently |
| `PolicyVerdicts.dfy` | enforcement and audit of declared edges and grants |
| `Conditions.dfy` | condition history |
| `Paths.dfy`, `EnvText.dfy`, `ComposeWrite.dfy` | cleaned paths, the `.env` file, compose patches |
| `ManifestFields.dfy`, `ReferenceLaws.dfy`, `PlanLaws.dfy`, `RunLaws.dfy`, `AccessLaws.dfy`, `PolicyLaws.dfy`, `ComposeLaws.dfy` | what the above comes to, stated over manifest fields, records, flags and call outcomes alone |
| `Findings.dfy` | small manifest sets on which the code does less than one might expect |

## How the model is set up

- Adjacency lists and recorded dependency lists are sets. Every loop over a Go map, or over such a list, is a
  loop that picks elements in arbitrary order, so each result holds for every iteration order.
- Calls out of the program are parameters: provider reconcile and destroy outcomes, drift and resolved
  fingerprints are arbitrary functions of the key, the spec hash is an arbitrary function of the envelope
  (no collision-freedom is needed anywhere it is used), `host:port` splitting, selector decoding and
  exemption parsing are arbitrary functions of their text. State saves succeed.
- FNV digests are arbitrary functions to hexadecimal strings. The network results assume that no two of
  the finitely many names of one manifest set collide, since injectivity on all strings is impossible.
- A step of an entry is one of three atomic actions: admission, provider call with its state write, and
  bookkeeping. Entries of one level interleave at that grain; a level starts when the levels before it are done.
- A closed form (`OutcomeOf`, `FinalAt`) says what each entry comes to without mentioning order. All run
  theorems go through the invariant that ties every reachable state to that closed form.
- `DependencyHashes` is keyed by the key itself instead of its escaped rendering.
- A secret reference is probed and reconciled by the same resolution of the same store, with no recorded hash
  to compare, so a secret drifts exactly when reconciling it fails. A store that fails between the two calls of
  one run is outside the model, like every other outcome that changes during a run.
- File names are joined with `filepath.Join`, which cleans them; `Paths.Clean` models that lexical cleaning.

## Where the code falls short of a natural expectation

Each point names the lemma with the exact condition and the members that exhibit an input. The manifest sets build,
their Providers declare a runtime and a type that serves what refers to them (redpanda under an EventStream, proxy under
a Connection, trino with or without secrets), and their records are those an earlier apply has written.

- A cascade can be lost. Resources pending only because a dependency changed leave no record, so a crash, or a
  failure of their own reconcile, leaves them out of the next plan. `Replan.ReplanAfterPrefix` says exactly which
  ones are still listed; `Findings.CascadeLostInCrash` and `Findings.CascadeLostInFailure` lose one, with
  `Findings.ImageChangeForgotten` instantiating both with a broker whose image changes under its EventStream.
- Authoritative apply deletes what a surviving record depends on: when the dependent's own delete is refused or
  fails, when a declared dependent that dropped the reference fails or is skipped, and, with nothing failing, when
  an External or Imported dependent is passed over although something further down dropped the key.
  `ApplyResults.DanglesExactly` gives the exact condition for any two keys and `Replan.DanglesAfterClean` that of a
  clean run; `Findings.CredentialsDeletedUnderEngine` shows the first two, `Findings.ProxyDroppedUnderEngine` the third.
- Teardown ignores resources it deliberately leaves alone. `DestroyEngine.SurvivorsWereLeftAlone` says that these are
  exactly the survivors on top of a destroyed resource; `Findings.LinkDestroyedUnderEngine` removes a Connection under
  the external Provider that is reached through it.
- A reference to a Connection does not by itself put the two realizing Providers on a common Docker network: the
  referring Provider joins a network with the Connection, which the Connection's Provider never joins.
  `EdgeNetworks.ReferenceSharesNetwork` gives the exact condition; `Findings.EngineSharesNoNetwork` computes both
  lists for an engine that names a Connection on a proxy.
- Compose does not validate names. A secret name with `=` or a newline gives `.env` keys that cannot be read back and
  stay pending for ever (`ComposeWrite.CredentialsStayPending`, exact; `ComposeWrite.CredentialsNeverHeld` for
  `--name a=b`). Names with separators can share a file after cleaning; `ComposeWrite.ComposeIdempotent` gives the exact
  condition and `ComposeWrite.SeparatorsShareAFile` an input.

## Model

| member | source | states |
|---|---|---|
| `Resources.KeyStringInjective` | internal/domain/resource/resource.go:78-80 | the rendering of a key determines the key, for keys with separator-free parts |
| `DependencyGraph.Search` | internal/domain/graph/graph.go:332-354 | from a white key either blackens it with everything kept consistent (gray set equals the stack, the stack is a walk, black keys are closed and on no cycle) or returns a closed walk |
| `DependencyGraph.CutStack` | internal/domain/graph/graph.go:338-344 | the stack from the first occurrence of the gray key, closed by it, is a closed walk |
| `DependencyGraph.FindCycle` | internal/domain/graph/graph.go:323-370 | reports nothing exactly when the edge relation is acyclic; a reported list is a closed walk |
| `DependencyGraph.Collect` | internal/domain/graph/graph.go:310-318 | adds only reachable keys, and every new key with all its successors |
| `DependencyGraph.Dependencies` | internal/domain/graph/graph.go:308-321 | exactly the keys reachable by one or more edges |
| `DependencyGraph.Reverse` | internal/domain/graph/graph.go:287-292 | has an edge exactly where the original has the opposite one |
| `DependencyGraph.Dependents` | internal/domain/graph/graph.go:286-305 | exactly the keys that reach the given one, so the two closures are dual |
| `DependencyGraph.Visit` | internal/domain/graph/graph.go:252-266 | never reads a provisional depth on an acyclic graph; every finished depth is one more than the deepest successor's |
| `DependencyGraph.GroupByDepth` | internal/domain/graph/graph.go:275-281 | each key is listed in the level of its depth and nowhere else, each level sorted |
| `DependencyGraph.TopologicalLevels` | internal/domain/graph/graph.go:250-283 | every node is in the level whose index is the length of its longest dependency chain, once, in rendered order |
| `DependencyGraph.LevelsDetermined` | internal/domain/graph/graph.go:268-282 | the levels are a function of the graph, whatever the map iteration order |
| `DependencyGraph.LevelsRespectDependencies` | internal/domain/graph/graph.go:247-250 | a node has one level, and everything it reaches is strictly earlier, so a level has no related nodes |
| `GraphBuild.FileEnvelopes` | internal/domain/graph/graph.go:89-101 | reports a duplicate exactly when two envelopes share a key, and then a key that two share; else files and indexes all |
| `GraphBuild.Resolve` | internal/domain/graph/graph.go:106-126 | a reference resolves exactly when it is valid and one node of an allowed kind bears the name |
| `GraphBuild.EdgesOf` | internal/domain/graph/graph.go:103-239 | collects the targets of all references of a manifest, or stops at the first unresolvable one |
| `GraphBuild.Build` | internal/domain/graph/graph.go:73-245 | succeeds exactly for distinct keys, resolvable references and an acyclic declared relation; the edges are the declared ones; an error names a repeated key, the first unresolvable reference or a closed walk of declared references |
| `ReferenceLaws.EdgesLaw` | internal/domain/graph/graph.go:103-239 | over the fields of the manifests: an edge exactly to each declared resource that a reference field of an admitted kind, a configuration or tls reference, a listed secret, an observer or a target host names, in the namespace it gives or else the manifest's own |
| `ReferenceLaws.ResolvableLaw` | internal/domain/graph/graph.go:103-239 | over the same fields: resolvable exactly when every set reference is made of labels and names one declared resource of an admitted kind, and every listed secret and observer is declared |
| `Planner.PendingUnfold` | internal/application/plan/plan.go:121-137 | a resource is pending iff it is directly changed or managed with a pending direct dependency |
| `Planner.CascadeIsLeastFixpoint` | internal/application/plan/plan.go:73-140 | the non-no-op resources are the least set holding the direct changes and closed under the cascade |
| `Planner.PlanEntry` | internal/application/plan/plan.go:82-134 | the entry is the one the inputs call for, whichever dependency is looked at first |
| `Planner.PlanLevel` | internal/application/plan/plan.go:81-139 | planning a level in any order keeps `changed` equal to the pending keys planned so far |
| `Planner.VisitAbsent` | internal/application/plan/plan.go:186-206 | terminates on any recorded relation; on an acyclic one depths follow the longest-chain recurrence |
| `Planner.ComputeApplyDeletes` | internal/application/plan/plan.go:172-247 | lists every absent key once with its action; dependents strictly first when the recorded relation is acyclic |
| `Planner.ComputeWithSecretHashes` | internal/application/plan/plan.go:64-145 | fails exactly when a spec cannot be hashed; else every declared or recorded key is planned once, dependencies earlier, deletes last and reversed, each entry as its inputs call for |
| `PlanLaws.DeclaredEntryLaw` | internal/application/plan/plan.go:82-134 | over records and manifests: External is configured iff its record is not up to date; others are created iff unrecorded, and updated iff not up to date or, unless imported, something they refer to is acted on or is a secret that has moved on |
| `PlanLaws.UndeclaredEntryLaw` | internal/application/plan/plan.go:229-246 | an undeclared record is an orphan without a last applied manifest, refused when that is protected, deleted otherwise |
| `ApplyMachine.BlockedIffTainted` | internal/application/engine/engine.go:223-233 | when an entry is admitted it is blocked exactly when some transitive dependency would fail |
| `ApplyMachine.DependenciesSettled` | internal/application/engine/engine.go:1099-1118 | when an entry records, the secret hashes it reads are the final ones |
| `ApplyMachine.AdvanceKeepsInvariant` | internal/application/engine/engine.go:223-314 | every atomic step of every entry keeps each record and result set at its closed form |
| `ApplyMachine.ReachableInvariant` | internal/application/engine/engine.go:216-352 | every state of every interleaving satisfies that invariant |
| `ApplyMachine.InterleavingsAgree` | internal/application/engine/engine.go:316-352 | all complete schedules end in the same records and the same succeeded, failed, skipped and blocked sets |
| `ApplyMachine.NeverStuck` | internal/application/engine/engine.go:333-348 | while an entry is unfinished, some entry can move |
| `ApplyEngine.ApplyRun.ReconcileOne` | internal/application/engine/engine.go:474-525 | on success records hash, secret hash, import flag, manifest, dependencies and their secret hashes; on failure nothing |
| `ApplyEngine.ApplyRun.DependencyHashes` | internal/application/engine/engine.go:1099-1116 | the recorded secret hashes of the given dependencies, and no empty ones |
| `ApplyEngine.ApplyRun.ApplyDeleteOne` | internal/application/engine/engine.go:1120-1164 | removes the record exactly when the lifecycle is approved and the provider, if one is needed, succeeds |
| `ApplyEngine.ApplyRun.ProcessEntry` | internal/application/engine/engine.go:223-314 | is one uninterrupted run of the entry's atomic steps |
| `ApplyEngine.ApplyRun.Apply` | internal/application/engine/engine.go:321-352 | ends in a state the machine reaches; with halt-on-error it stops at the first failure with nothing later run, otherwise all entries run |
| `ApplyResults.FailureContainment` | internal/application/engine/engine.go:216-314 | a declared resource is skipped iff a transitive dependency failed; outcomes are exclusive; what has none was a no-op; failed and skipped keys keep their records |
| `RunLaws.DeclaredOutcomeLaw` | internal/application/engine/engine.go:223-314 | over the plan, flags and call outcomes: who is skipped, who fails and who succeeds among the declared resources |
| `RunLaws.RecordLaw` | internal/application/engine/engine.go:474-525 | what is recorded of a resource that has succeeded: its hash, its manifest in its namespace, its imported flag, its fingerprint, and exactly its transitive dependencies |
| `RunLaws.RecordedHashesLaw` | internal/application/engine/engine.go:1099-1118 | such a record holds exactly the secret hashes its dependencies have on record |
| `ApplyResults.NoUnapprovedDeletion` | internal/application/engine/engine.go:1120-1164 | at every point of a run a key is gone only through a Delete entry, unprotected, with allowDestructive if its manifest is marked external and allowImportedDeletes if its record is imported and its manifest is not |
| `ApplyResults.ApplyDeletesExactly` | internal/application/engine/engine.go:1120-1164 | a recorded but undeclared key is removed iff it is so approved and either nothing realizes it or its provider's destroy works |
| `ApplyResults.UnrealizedIsStateOnly` | internal/application/engine/kind_handler.go:56-100 | records are forgotten without a provider call exactly for secret references and external resources that name no Provider |
| `ApplyResults.DanglesExactly` | internal/application/engine/engine.go:1070-1164 | after a complete run a record names an unrecorded dependency iff it is an old record that was kept and that dependency was removed or never created; a fresh record never does |
| `ApplyResults.StrandedByKeptDelete` | internal/application/engine/engine.go:245-253 | an undeclared resource outlives what it depends on iff that is removed and it is not |
| `ApplyResults.StrandedByStaleRecord` | internal/application/engine/engine.go:223-314 | a declared resource outlives what its record depends on iff that is removed and it is not reconciled |
| `ApplyCommand.Apply` | cmd/platformctl/root.go:654-756 | build, plan and execution composed: refused iff not buildable or not hashable, else a reachable state of the machine, complete and contained without halt-on-error, with no unapproved loss |
| `ApplyCommand.FirstApplyRecords` | internal/application/engine/engine.go:1070-1118 | a first, fully successful apply records every manifest with its hash, lifecycle, manifest and transitive dependencies |
| `Replan.RecordsChangeWhereWritten` | internal/application/engine/engine.go:518-524 | after each step the records differ from the initial ones exactly by the final records of the written keys |
| `Replan.WrittenNotSeed` | internal/application/plan/plan.go:95-134 | what a run has written, the next plan finds unchanged in spec, secret and dependency hashes |
| `Replan.SeedAfterPrefix` | internal/application/plan/plan.go:95-134 | what the next plan finds directly changed: exactly what is unwritten and has a changed record, or is managed and names a secret whose present hash it has not recorded |
| `Replan.ReplanAfterPrefix` | internal/application/plan/plan.go:73-134 | after any prefix, with or without fingerprints, the next plan reconciles a resource iff a chain of managed resources leads to such an unwritten change |
| `Replan.UnfinishedIsListedAgain` | internal/application/engine/engine.go:168-170 | unfinished direct changes, missing records and undeclared records are listed again with the same action |
| `Replan.CascadeIsForgotten` | internal/application/plan/plan.go:121-137 | the next plan passes over everything, finished or not, iff no unwritten direct change is left |
| `Replan.WrittenSecretWasPending` | internal/application/engine/engine.go:619-681 | a secret is re-recorded only when the plan asked for it, never by drift healing |
| `Replan.FixedPoint` | internal/application/plan/plan.go:64-170 | after a run with nothing failed or skipped, the same manifests and fingerprints plan to no-ops alone, on exactly the declared keys |
| `Replan.FixedPointWithoutFingerprints` | internal/application/plan/plan.go:55-57 | so does the plan command, which supplies no fingerprints |
| `Replan.DanglesAfterClean` | internal/application/engine/engine.go:1070-1164 | after such a run a record names an unrecorded dependency iff it is the record of a declared, unreconciled resource and the dependency is no longer declared |
| `DestroyEngine.ComputeDestroy` | internal/application/plan/plan.go:264-315 | every node once, dependents strictly before dependencies, with the action lifecycle, flags and protection call for |
| `RunLaws.TeardownEntryLaw` | internal/application/plan/plan.go:281-311 | over manifests, records and flags: refused iff it would be deleted and is protected, deleted iff it would be and is not |
| `DestroyEngine.BlockedIffHeld` | internal/application/engine/engine.go:1234-1264 | when an entry's turn comes it is blocked iff some transitive dependent is refused or would fail |
| `DestroyEngine.EveryPrefixOnCourse` | internal/application/engine/engine.go:1243-1317 | after every prefix of a teardown the results and the blocked set are those of the order-free closed form |
| `DestroyEngine.StepAsExpected` | internal/application/engine/engine.go:1244-1317 | one step of the executor comes to the outcome of the closed form, and keeps the blocked set exactly what failed keys depend on |
| `DestroyEngine.Destroy` | internal/application/engine/engine.go:1222-1331 | no destroyed key has a dependent that failed, was refused or was skipped; the records lose exactly the destroyed keys |
| `RunLaws.TeardownOutcomeLaw` | internal/application/engine/engine.go:1244-1317 | who is destroyed, who fails or is refused and who is skipped, over manifests, records, flags and call outcomes |
| `DestroyEngine.SurvivorsWereLeftAlone` | internal/application/plan/plan.go:281-306 | a dependent of a destroyed resource survives iff it is recorded and is External or Imported and was not included |
| `DestroyEngine.NoUnapprovedDestroy` | internal/application/plan/plan.go:250-311 | wherever a teardown is cut short, a lost key has a manifest without the protect flag, and the flags that an external or imported resource needs |
| `History.EveryLossWasApproved` | internal/application/engine/engine.go:60-67 | over any sequence of possibly interrupted applies and teardowns, a lost key was removed by an operation entitled to it |
| `Findings.CascadeLostInCrash` | internal/application/plan/plan.go:121-137 | a run stopped after the changed dependency leaves its pending dependent out of the next plan |
| `Findings.CascadeLostInFailure` | internal/application/plan/plan.go:121-137 | a complete run in which the dependent fails reports it failed and leaves it out of the next plan |
| `Findings.ImageChangeForgotten` | internal/application/plan/plan.go:121-137 | both losses for a broker whose image changes under its EventStream |
| `Findings.DeletedUnderProtected` | internal/application/engine/engine.go:245-253 | a protected resource no longer declared stays recorded while the secret it names is deleted |
| `Findings.DeletedUnderStaleRecord` | internal/application/engine/engine.go:1120-1164 | a declared resource that dropped a secret and fails to reconcile keeps naming the deleted secret |
| `Findings.CredentialsDeletedUnderEngine` | internal/application/engine/engine.go:1120-1164 | both for a compute engine and its credentials |
| `Findings.StaleAfterCleanRun` | internal/application/engine/engine.go:1070-1164 | in a run with nothing failed or skipped, an external resource keeps naming a key dropped further down |
| `Findings.ProxyDroppedUnderEngine` | internal/application/engine/engine.go:1070-1164 | this happens to the proxy of a Connection that becomes a plain address |
| `Findings.DestroyUnderKeptExternal` | internal/application/plan/plan.go:282-289 | a managed resource is destroyed under an external dependent that stays recorded |
| `Findings.LinkDestroyedUnderEngine` | internal/application/plan/plan.go:282-289 | this happens to a Connection under the external Provider that names it |
| `Findings.ConnectionGivesNoNetwork` | internal/application/graphaccess/graphscope.go:24-34 | a Provider that refers to a Connection and the Provider realizing that Connection have no network in common |
| `Findings.EngineSharesNoNetwork` | internal/application/graphaccess/graphscope.go:24-34 | such an engine and the proxy behind its Connection |
| `GraphAccess.ContainerMembers` | internal/application/graphaccess/graphscope.go:126-134 | the key itself and everything it realizes |
| `GraphAccess.AddGrantedContainers` | internal/application/graphaccess/graphscope.go:252-267 | adds exactly the other containers of the namespace that the grant admits |
| `GraphAccess.EgressPeers` | internal/application/graphaccess/graphscope.go:147-168 | the containers reached by references from members or opened by their grants |
| `GraphAccess.IngressPeers` | internal/application/graphaccess/graphscope.go:180-208 | the containers whose references reach a member or whose grants admit this one |
| `AccessLaws.ContainerLaw` | internal/application/graphaccess/graphscope.go:24-34 | the container of a resource is the Provider it names, or itself when it is a Provider or a Connection or names none |
| `AccessLaws.EgressLaw` | internal/application/graphaccess/graphscope.go:147-267 | over manifests: one container may dial another iff a reference joins their members, or a member declares a grant to the other's namespace without a selector, or with one that the gate enables and the labels meet in every pair and expression |
| `AccessLaws.TunnelLaw` | internal/application/graphaccess/graphaccess.go:196-233 | the synthetic edges lead from each Provider running a dependent to the capable Provider that a managed Connection names |
| `GraphAccess.MembershipEdges` | internal/application/graphaccess/graphscope.go:216-225 | the union of both directions |
| `GraphAccess.EgressIngressDual` | internal/application/graphaccess/graphscope.go:170-179 | the dialing and the dialed container compile the same access |
| `GraphAccess.MembershipSymmetric` | internal/application/graphaccess/graphscope.go:210-215 | membership is symmetric, and is ingress in one direction or the other |
| `GraphAccess.DeriveEdges` | internal/application/graphaccess/graphaccess.go:54-74 | exactly the declared references |
| `GraphAccess.CompileMediatedConnections` | internal/application/graphaccess/graphaccess.go:235-267 | every mediated Connection with its direct consumers and its non-provider, non-secret targets |
| `GraphAccess.MediatedConsumerEdges` | internal/application/graphaccess/graphaccess.go:196-233 | an edge for every transitive dependent realized by a Provider other than the tunneler |
| `GraphAccess.MediatedConsumersMeet` | internal/application/graphaccess/graphaccess.go:174-192 | each such Provider and the tunneler are members of each other |
| `EdgeNetworks.EdgeKeySymmetric` | internal/domain/naming/naming.go:117-128 | the canonical key does not depend on the order of the pair |
| `EdgeNetworks.EdgeKeyInjective` | internal/domain/naming/naming.go:123-128 | the canonical key determines the unordered pair |
| `EdgeNetworks.TruncationKeepsApart` | internal/domain/naming/naming.go:68-75 | cutting to 63 characters never merges names that end in different digests |
| `EdgeNetworks.HomeNetworksDiffer` | internal/domain/naming/naming.go:90-94 | two owners never share a home network |
| `EdgeNetworks.NewDomainRuntime` | internal/application/engine/domainruntime.go:172-196 | the runtime view is keyed by the realizing Provider and lists its members and ingress peers |
| `EdgeNetworks.ContainerNetworks` | internal/application/engine/domainruntime.go:312-328 | the translated requested networks and, on Docker, one per peer |
| `AccessLaws.RequestedNetworkLaw` | internal/application/engine/domainruntime.go:206-220 | a configured network is joined as it is; otherwise only the token is replaced |
| `AccessLaws.DigestNamesLaw` | internal/domain/naming/naming.go:90-115 | home and pair networks are named after digests of the keys |
| `AccessLaws.DomainNetworkLaw` | internal/domain/naming/naming.go:54-60 | the default domain keeps the base name, another domain that fits gets its own |
| `EdgeNetworks.DockerNetworks` | internal/application/engine/graphscoped.go:53-67 | a Provider's container joins its exclusive home network and one network per member |
| `EdgeNetworks.SharedNetworkIffMember` | internal/application/engine/graphscoped.go:45-67 | two Providers share a Docker network iff they are members, iff one may dial the other on Kubernetes |
| `EdgeNetworks.ReferenceSharesNetwork` | internal/application/engine/domainruntime.go:189-192 | a reference leaves its two realizing Providers on a common network iff neither end is a Connection or something else connects them |
| `EdgeNetworks.ConnectionNetworkIsLonely` | internal/application/engine/graphscoped.go:53-67 | the network of a reference to a Connection is joined by the referring Provider alone |
| `EdgeNetworks.BuiltSetsAreCoherent` | internal/domain/graph/graph.go:113-126 | on a built set every container and every access edge stays inside the set |
| `PolicyVerdicts.ResolveRef` | internal/application/policy/evaluator.go:232-248 | finds a node iff one matches, and the only one when there is one, in any scan order |
| `PolicyVerdicts.BuiltGraphsAreWellGoverned` | internal/application/policy/evaluator.go:185-194 | on a built graph every flow reference has at most one match |
| `PolicyVerdicts.CrossDomainEdges` | internal/application/policy/evaluator.go:195-224 | the declared Binding and connectionRef edges, in declaration order |
| `PolicyVerdicts.EvaluateFieldAssert` | internal/application/policy/evaluator.go:92-117 | fails exactly when a selected resource cannot be judged, else fires on exactly the selected resources that do not meet the assertion |
| `PolicyVerdicts.EvaluateFinding` | internal/application/policy/evaluator.go:119-138 | fires on exactly the resources with a finding of the code |
| `PolicyVerdicts.EvaluateCrossDomain` | internal/application/policy/evaluator.go:254-272 | fires on exactly the owners of edges with the domain pair |
| `PolicyVerdicts.EvaluateEdgeSelector` | internal/application/policy/evaluator.go:282-300 | fires on exactly the owners of edges whose two ends the selectors select |
| `PolicyVerdicts.EvaluateRule` | internal/application/policy/evaluator.go:45-66 | the dispatch by kind with its gates fires exactly where the rule says |
| `PolicyVerdicts.EvaluateGrant` | internal/application/policy/evaluator.go:310-330 | fires on exactly the resources with a matching grant |
| `PolicyVerdicts.ApplyExemptions` | internal/application/policy/exemption.go:18-47 | marks exactly the decisions whose rule allows, and whose resource claims, an exemption |
| `PolicyVerdicts.RunRules` | internal/application/policy/evaluator.go:41-71 | fails exactly when some assertion cannot be evaluated, else the decisions are exactly those some rule produces, exemptions applied |
| `PolicyLaws.FlowRuleLaw` | internal/application/policy/evaluator.go:195-300 | over the envelopes: an edge rule fires on a resource iff data flows, from the source a Binding names to its target or from another resource to the Connection it names, between ends of the rule's domains or labels |
| `PolicyLaws.GrantRuleLaw` | internal/application/policy/evaluator.go:310-330 | a grant rule fires on a resource iff it declares a grant to the rule's namespace |
| `PolicyLaws.DecisionLaw` | internal/application/policy/exemption.go:18-47 | a decision is lifted iff the last rule of its id is exemptible and the resource claims the exemption |
| `PolicyVerdicts.MatchingEdgeRules` | internal/application/policy/audit.go:97-121 | the audit's own matching selects exactly the edge rules that match, label rules only with the gate on |
| `PolicyVerdicts.ExemptionFor` | internal/application/policy/audit.go:138-152 | the audit's own lookup finds exactly the exemption enforcement honours |
| `PolicyVerdicts.MatchingGrantRules` | internal/application/policy/audit.go:126-136 | exactly the grant rules for the namespace |
| `PolicyVerdicts.ResolveVerdict` | internal/application/policy/audit.go:160-191 | the least standing deny decides, else the least lifted one justifies, else the default stands |
| `PolicyVerdicts.Audit` | internal/application/policy/audit.go:201-238 | one row per declared edge and grant, resolved over exactly the rules that match: least standing deny, else least lifted deny with its reason, else the default |
| `PolicyLaws.AuditedFlows` | internal/application/policy/audit.go:201-222 | the audited edges are exactly the declared flows, with the domains of their ends |
| `PolicyLaws.FlowVerdictLaw` | internal/application/policy/audit.go:160-191 | a flow is Denied iff a deny rule speaks of its ends' domains or labels and its declarer holds no exemption from it |
| `PolicyLaws.GrantVerdictLaw` | internal/application/policy/audit.go:160-191 | the same for grants |
| `PolicyVerdicts.AuditAgreesOnEdges` | internal/application/policy/audit.go:193-201 | an edge is Denied iff enforcement has an unexempted deny on its owner from a rule matching the edge |
| `PolicyVerdicts.AuditAgreesOnGrants` | internal/application/policy/audit.go:193-201 | the same for grants |
| `Conditions.Status.SetCondition` | internal/domain/status/status.go:44-61 | replaces the condition of the type, or appends it, keeping the transition time while the status is unchanged |
| `Conditions.Status.FindCondition` | internal/domain/status/status.go:64-71 | the first condition of the type |
| `Conditions.Status.IsReady` | internal/domain/status/status.go:74-77 | whether the first condition of type Ready is True |
| `Conditions.ConditionHistory` | internal/domain/status/status.go:42-61 | after any calls there is one condition per type, with the last payload and the time of the first call of the final run of equal statuses |
| `EnvText.ReadEnvKeys` | internal/application/compose/patch.go:121-143 | exactly the keys some line assigns |
| `EnvText.AssignmentIsRead` | internal/application/compose/patch.go:131-141 | a readable key written as an assignment is read back |
| `EnvText.OnlyReadableKeysAreRead` | internal/application/compose/patch.go:131-141 | no other key is ever read |
| `ComposeLaws.BlanksAreIgnored` | internal/application/compose/patch.go:131-141 | blanks before a key and before its equals sign do not hide the assignment |
| `ComposeWrite.FilePathInjective` | internal/application/compose/patch.go:73-88 | one file name per known kind and name |
| `ComposeLaws.FileNamesLaw` | internal/application/compose/patch.go:73-88 | the file name of every kind |
| `ComposeWrite.NeverEnv` | internal/application/compose/patch.go:73-88 | no piece, whatever its name, goes to the `.env` file |
| `ComposeWrite.PlainNamesAreConsistent` | internal/application/compose/patch.go:68-72 | known kinds with separator-free names, no kind and name twice, never share a file |
| `ComposeWrite.SeparatorsShareAFile` | internal/application/compose/pipeline.go:68-98 | the database Provider of a pipeline and a broker whose name holds a separator have one destination |
| `ComposeWrite.Directory.ResolveFile` | internal/application/compose/patch.go:98-116 | refuses exactly when placing the piece would overwrite a file or duplicate a resource; an accepted piece changes no file that is there, is new iff placing it adds a file and identical iff placing it changes nothing |
| `ComposeWrite.Directory.ResolveEnvAppends` | internal/application/compose/patch.go:147-158 | a key is pending iff no line assigns it |
| `ComposeWrite.Directory.Resolve` | internal/application/compose/pipeline.go:113-126 | a patch exists iff no piece collides |
| `ComposeWrite.Directory.Write` | internal/application/compose/patch.go:165-212 | writes the new files and appends one block with the pending keys |
| `ComposeWrite.WriteNeverOverwrites` | internal/application/compose/patch.go:160-183 | whatever the names, no file that was there changes, `.env` is only extended, and every destination holds one of its pieces |
| `ComposeLaws.EnvLinesLaw` | internal/application/compose/patch.go:180-200 | line by line: a header, then for each pending key its comment and its assignment with the proposed value; nothing without a pending key |
| `ComposeLaws.HasChangesLaw` | internal/application/compose/patch.go:51-66 | a patch reports changes iff writing it changes the directory |
| `ComposeWrite.ComposeIdempotent` | internal/application/compose/patch.go:51-66 | resolving again succeeds iff no two pieces wanted different content in one file, and reports no change iff every proposed key can be read back |
| `ComposeWrite.CredentialsStayPending` | internal/application/compose/dbengine.go:85-112 | the credentials of a composed secret stay pending iff its name contains an equals sign or a newline |
| `ComposeLaws.CredentialsLaw` | internal/application/compose/dbengine.go:85-112 | the two variables of a composed secret and the values proposed for them |
| `ComposeWrite.CredentialsNeverHeld` | internal/application/compose/dbengine.go:108-112 | no `.env` file assigns the variable of a secret named after `a=b` |

## Left out

- The prompt, the plan-policy gate and the early exit of the apply command when nothing is to be done.
- Provider, runtime and secret-store calls, published-fact resolution and request assembly: outcomes are parameters.
- The mediation fabric set up before apply and torn down after destroy, and host-port conflict reporting.
- Entry reasons, log and progress events, error texts, and the sorted report lists of `Write`, `Run` and `Audit`.
- Save failures in the state store, and the state file format with its migrations.
- The parallelism bound: `ApplyMachine.InterleavingsAgree` lets all entries of a level run at once, which covers every bound.
- `Import`, `Probe`, backup and restore.
- Gate-off network translation with consumer-domain holes, pinned networks, subnet allocation, and the namespace rendering of Kubernetes peers.
- `ContainerDomain` and workload identity naming: single lookups and concatenations.
- The vocabulary of field assertions: which resources an assertion selects and whether it holds are arbitrary functions of the envelope. Plan rules and a nil graph are not modelled.
- GraphBuild.Build: an unresolved, invalid or ambiguous reference is reported as one error kind with its field.
- EnvText.ReadEnvKeys: does not model the line-length limit of the scanner.
- ComposeWrite.Directory.Write: does not model file-system errors; case conversion of unknown kinds and of variable names is on ASCII only.
- Compatibility checks, lint, schema loading, documentation and the command line: independent checks or text, which would only add easy members.
