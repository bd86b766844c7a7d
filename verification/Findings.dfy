/**
 * Small manifest sets on which the code does less than one might expect, each built, planned and
 * executed by the modelled operations; the exact conditions are lemmas elsewhere.
 */
module Findings {
  import opened Resources
  import opened Reachability
  import opened DependencyGraph
  import opened GraphBuild
  import opened Planner
  import opened ApplyMachine
  import opened ApplyEngine
  import opened ApplyResults
  import opened ApplyCommand
  import opened Replan
  import opened DestroyEngine
  import opened GraphAccess
  import opened EdgeNetworks

  type SpecHash = Envelope -> Option<string>

  const BROKER := Key("default", PROVIDER, "broker")
  const STREAM := Key("default", "EventStream", "events")
  const CREDS := Key("default", SECRET_REFERENCE, "creds")
  const PROXY := Key("default", PROVIDER, "proxy")
  const LINK := Key("default", CONNECTION, "link")
  const ENGINE := Key("default", PROVIDER, "engine")

  function Manifest(k: Key, spec: Spec, protect: bool): Envelope {
    Envelope("datascape.io/v1alpha1", k.kind, Metadata(k.name, k.namespace, map[], map[], [], protect, ""), spec)
  }

  function RefTo(name: string): Json {
    JObject(map["name" := JString(name)])
  }

  /** Providers run on Docker. */
  const RUNTIME := JObject(map["type" := JString("docker")])

  // ---------------------------------------------------------------- what small manifests refer to

  lemma {:induction false} NoFieldDemands(spec: Spec, fields: seq<(string, Option<set<string>>)>)
    requires forall j :: 0 <= j < |fields| ==> RefFromSpec(spec, fields[j].0).name == ""
    ensures FieldDemands(spec, fields) == []
  {
    if fields != [] {
      NoFieldDemands(spec, fields[1..]);
    }
  }

  lemma {:induction false} OneFieldDemand(spec: Spec, fields: seq<(string, Option<set<string>>)>, i: nat)
    requires i < |fields| && RefFromSpec(spec, fields[i].0).name != ""
    requires forall j :: 0 <= j < |fields| && j != i ==> RefFromSpec(spec, fields[j].0).name == ""
    ensures FieldDemands(spec, fields) == [Named(fields[i].0, RefFromSpec(spec, fields[i].0), fields[i].1)]
  {
    if i == 0 {
      NoFieldDemands(spec, fields[1..]);
    } else {
      OneFieldDemand(spec, fields[1..], i - 1);
    }
  }

  const REF_NAMES := {"providerRef", "sourceRef", "targetRef", "connectionRef", "secretRef", "warehouseRef", "via"}

  lemma NoRefs(spec: Spec)
    requires spec.Keys !! REF_NAMES
    ensures FieldDemands(spec, REF_FIELDS) == []
  {
    NoFieldDemands(spec, REF_FIELDS);
  }

  lemma OneRef(spec: Spec, i: nat, name: string)
    requires i < |REF_FIELDS| && spec.Keys * REF_NAMES == {REF_FIELDS[i].0}
    requires name != "" && spec[REF_FIELDS[i].0] == RefTo(name)
    ensures FieldDemands(spec, REF_FIELDS) == [Named(REF_FIELDS[i].0, NameRef(name, ""), REF_FIELDS[i].1)]
  {
    assert RefFromSpec(spec, REF_FIELDS[i].0) == NameRef(name, "");
    forall j | 0 <= j < |REF_FIELDS| && j != i ensures RefFromSpec(spec, REF_FIELDS[j].0).name == "" {
      assert REF_FIELDS[j].0 !in spec.Keys * REF_NAMES;
    }
    OneFieldDemand(spec, REF_FIELDS, i);
  }

  /** No references in the configuration or tls blocks, and no observers. */
  predicate PlainManifest(e: Envelope) {
    && e.metadata.observers == []
    && ObjectField(e.spec, "configuration").Keys !! {"catalogRef", "warehouseProviderRef"}
    && "tls" !in e.spec
  }

  lemma PlainDemands(e: Envelope, hostOf: string -> string)
    requires PlainManifest(e)
    ensures Demands(e, hostOf) ==
            FieldDemands(e.spec, REF_FIELDS)
            + (if "secretRefs" in e.spec && e.spec["secretRefs"].JList? then
                 SecretDemands(KeyOf(e), e.spec["secretRefs"].items) else [])
            + TargetDemands(e, hostOf)
  {
    NoFieldDemands(ObjectField(e.spec, "configuration"), CONFIG_REF_FIELDS);
    NoFieldDemands(ObjectField(e.spec, "tls"), [("secretRef", Some({SECRET_REFERENCE}))]);
    assert ObserverDemands(e) == [];
  }

  /** A manifest with no reference field, no secretRefs and no target. */
  predicate NamesNothing(e: Envelope) {
    PlainManifest(e) && e.spec.Keys !! REF_NAMES && "secretRefs" !in e.spec && "target" !in e.spec
  }

  lemma NoDemands(e: Envelope, hostOf: string -> string)
    requires NamesNothing(e)
    ensures Demands(e, hostOf) == []
  {
    PlainDemands(e, hostOf);
    NoRefs(e.spec);
  }

  /** A manifest whose only reference is the i-th field. */
  predicate NamesOne(e: Envelope, i: nat, name: string) {
    && PlainManifest(e) && i < |REF_FIELDS| && e.spec.Keys * REF_NAMES == {REF_FIELDS[i].0}
    && name != "" && e.spec[REF_FIELDS[i].0] == RefTo(name) && "secretRefs" !in e.spec && "target" !in e.spec
  }

  lemma OneDemand(e: Envelope, i: nat, name: string, hostOf: string -> string)
    requires NamesOne(e, i, name)
    ensures Demands(e, hostOf) == [Named(REF_FIELDS[i].0, NameRef(name, ""), REF_FIELDS[i].1)]
  {
    PlainDemands(e, hostOf);
    OneRef(e.spec, i, name);
  }

  // ---------------------------------------------------------------- graphs of two and three resources

  lemma OneEdge(E: Relation, a: Key, b: Key)
    requires a != b && forall x :: Direct(E, x) == if x == b then {a} else {}
    ensures forall x, y :: Reaches(E, x, y) <==> x == b && y == a
    ensures Acyclic(E) && ReachSet(E, b) == {a} && ReachSet(E, a) == {}
  {
    forall x, y ensures Reaches(E, x, y) <==> x == b && y == a {
      if Reaches(E, x, y) {
        var p :| WalkBetween(E, p, x, y);
        assert Step(E, p[0], p[1]);
        ClosedReaches(E, {a}, x, y);
      }
      if x == b && y == a {
        ReachStep(E, b, a);
      }
    }
    ReachSetExact(E, b);
    ReachSetExact(E, a);
  }

  /** b refers to a and nothing else does. */
  ghost predicate RefersOnlyTo(a: Envelope, b: Envelope, refs: References, demand: Demand) {
    && KeyOf(a) != KeyOf(b) && refs(a) == [] && refs(b) == [demand]
    && Satisfied({KeyOf(a), KeyOf(b)}, b, demand) && DemandTargets({KeyOf(a), KeyOf(b)}, b, demand) == {KeyOf(a)}
  }

  lemma PairNodes(a: Envelope, b: Envelope)
    requires KeyOf(a) != KeyOf(b)
    ensures NodesOf([a, b]) == map[KeyOf(a) := a, KeyOf(b) := b] && NodesOf([a, b]).Keys == {KeyOf(a), KeyOf(b)}
  {
    assert [a, b][..1] == [a] && [a][..0] == [];
    assert NodesOf([a]) == map[KeyOf(a) := a];
  }

  lemma PairBuilds(a: Envelope, b: Envelope, refs: References, demand: Demand)
    requires RefersOnlyTo(a, b, refs, demand)
    ensures Buildable([a, b], refs)
    ensures forall x :: Direct(Declared(NodesOf([a, b]), refs), x) == if x == KeyOf(b) then {KeyOf(a)} else {}
  {
    PairNodes(a, b);
    var keys := {KeyOf(a), KeyOf(b)};
    assert [demand][..0] == [];
    assert TargetsUpTo(keys, b, [demand]) == {KeyOf(a)};
    OneEdge(Declared(NodesOf([a, b]), refs), KeyOf(a), KeyOf(b));
    assert AllSatisfied(keys, a, refs) && AllSatisfied(keys, b, refs);
  }

  lemma PairGraph(a: Envelope, b: Envelope, refs: References, demand: Demand, g: Graph)
    requires RefersOnlyTo(a, b, refs, demand) && BuiltFrom([a, b], refs, g)
    ensures g.nodes == map[KeyOf(a) := a, KeyOf(b) := b]
    ensures forall x :: Direct(g.edges, x) == if x == KeyOf(b) then {KeyOf(a)} else {}
    ensures forall x, y :: Reaches(g.edges, x, y) <==> x == KeyOf(b) && y == KeyOf(a)
    ensures ReachSet(g.edges, KeyOf(b)) == {KeyOf(a)} && ReachSet(g.edges, KeyOf(a)) == {}
  {
    PairNodes(a, b);
    PairBuilds(a, b, refs, demand);
    OneEdge(g.edges, KeyOf(a), KeyOf(b));
  }

  /** The records a first deployment of the pair leaves. */
  ghost predicate PairRecords(a: Envelope, b: Envelope, specHash: SpecHash, st: Recorded) {
    && st.Keys == {KeyOf(a), KeyOf(b)} && !st[KeyOf(a)].imported && !st[KeyOf(b)].imported
    && Some(st[KeyOf(a)].specHash) == specHash(a) && Some(st[KeyOf(b)].specHash) == specHash(b)
    && st[KeyOf(a)].lastApplied == Some(Normalized(a)) && st[KeyOf(b)].lastApplied == Some(Normalized(b))
    && st[KeyOf(b)].dependencies == {KeyOf(a)}
  }

  /** Deploys the pair into empty records. */
  method DeployPair(a: Envelope, b: Envelope, refs: References, specHash: SpecHash, ghost demand: Demand) returns (st: Recorded)
    requires RefersOnlyTo(a, b, refs, demand) && forall e :: specHash(e).Some?
    ensures PairRecords(a, b, specHash, st)
  {
    PairBuilds(a, b, refs, demand);
    ghost var g;
    st, g := Deploy([a, b], refs, specHash);
    PairGraph(a, b, refs, demand, g);
    assert RecordedFresh(g, specHash, st, KeyOf(a));
    assert RecordedFresh(g, specHash, st, KeyOf(b));
  }

  // ---------------------------------------------------------------- a forgotten cascade

  /** A managed b refers to a, whose manifest changes to c; nothing else is declared. */
  datatype Change = Change(a: Envelope, c: Envelope, b: Envelope, refs: References, demand: Demand, specHash: SpecHash)

  ghost predicate ChangeBelow(x: Change) {
    && RefersOnlyTo(x.a, x.b, x.refs, x.demand) && RefersOnlyTo(x.c, x.b, x.refs, x.demand)
    && KeyOf(x.a) == KeyOf(x.c) && x.specHash(x.a) != x.specHash(x.c) && (forall e :: x.specHash(e).Some?)
    && !IsExternal(x.c) && !IsExternal(x.b) && x.c.kind != SECRET_REFERENCE && x.b.kind != SECRET_REFERENCE
  }

  /** The records of the old set meet the graph of the new one. */
  ghost predicate Outdated(x: Change, inp: Inputs) {
    && inp.g.nodes == map[KeyOf(x.c) := x.c, KeyOf(x.b) := x.b]
    && Direct(inp.g.edges, KeyOf(x.b)) == {KeyOf(x.c)} && Direct(inp.g.edges, KeyOf(x.c)) == {}
    && PairRecords(x.a, x.b, x.specHash, inp.st) && inp.specHash == x.specHash
  }

  lemma OnlySeed(x: Change, inp: Inputs, k: Key)
    requires ChangeBelow(x) && Outdated(x, inp)
    ensures Seed(inp, k) <==> k == KeyOf(x.c)
  {
    if k == KeyOf(x.b) {
      assert !IsSecret(inp, KeyOf(x.c));
      assert DirectAction(inp, k) == Noop;
    }
  }

  /** c is changed by its own record, b only through c. */
  lemma ChangesThroughDependency(x: Change, inp: Inputs)
    requires ChangeBelow(x) && Outdated(x, inp)
    ensures Pending(inp, KeyOf(x.c)) && Pending(inp, KeyOf(x.b)) && PlannedAction(inp, KeyOf(x.b)) == Update
  {
    OnlySeed(x, inp, KeyOf(x.c));
    OnlySeed(x, inp, KeyOf(x.b));
    PendingUnfold(inp, KeyOf(x.c));
    PendingUnfold(inp, KeyOf(x.b));
  }

  /** Once c is written, the next plan no longer lists b. */
  lemma DependentIsForgotten(x: Change, inp: Inputs, run: Run, s: Sys)
    requires ChangeBelow(x) && Outdated(x, inp) && Applies(inp, run) && Reachable(run, s) && Written(run, s, KeyOf(x.c))
    ensures PlannedAction(After(inp, s), KeyOf(x.b)) == Noop
  {
    forall k ensures !UnfinishedSeed(inp, run, s, k) {
      OnlySeed(x, inp, k);
      UnfinishedSeedIsSeed(inp, run, s, k);
    }
    CascadeIsForgotten(inp, run, s);
  }

  lemma DependencySucceeds(x: Change, inp: Inputs, run: Run)
    requires ChangeBelow(x) && Outdated(x, inp) && Applies(inp, run) && run.world.reconciles(KeyOf(x.c))
    ensures Runs(run, KeyOf(x.c)) && OutcomeOf(run, KeyOf(x.c)) == HasSucceeded
  {
    DeclaredVerb(inp, run, KeyOf(x.c));
    ChangesThroughDependency(x, inp);
    if Tainted(run, KeyOf(x.c)) {
      var d :| Reaches(run.g.edges, KeyOf(x.c), d) && Breaks(run, d);
      ClosedReaches(run.g.edges, {}, KeyOf(x.c), d);
    }
  }

  /** Only c could keep b from being tried. */
  lemma DependentFails(x: Change, inp: Inputs, run: Run)
    requires ChangeBelow(x) && Outdated(x, inp) && Applies(inp, run)
    requires run.world.reconciles(KeyOf(x.c)) && !run.world.reconciles(KeyOf(x.b))
    ensures OutcomeOf(run, KeyOf(x.b)) == HasFailed
  {
    DependencySucceeds(x, inp, run);
    forall d | Reaches(run.g.edges, KeyOf(x.b), d) ensures d == KeyOf(x.c) {
      ClosedReaches(run.g.edges, {KeyOf(x.c)}, KeyOf(x.b), d);
    }
    assert !Tainted(run, KeyOf(x.b));
    DeclaredVerb(inp, run, KeyOf(x.b));
    ChangesThroughDependency(x, inp);
  }

  lemma LostAfterFailure(x: Change, inp: Inputs, run: Run, s: Sys)
    requires ChangeBelow(x) && Outdated(x, inp) && Applies(inp, run) && Reachable(run, s) && Complete(run, s)
    requires run.world.reconciles(KeyOf(x.c)) && !run.world.reconciles(KeyOf(x.b))
    ensures KeyOf(x.b) in s.failed && PlannedAction(After(inp, s), KeyOf(x.b)) == Noop
  {
    DependencySucceeds(x, inp, run);
    DependentFails(x, inp, run);
    ReachableInvariant(run, s);
    CompleteKey(run, s, KeyOf(x.b));
    DependentIsForgotten(x, inp, run, s);
  }

  /** Nothing is scheduled before c. */
  lemma DependencyCanStart(x: Change, inp: Inputs, run: Run, i: int)
    requires Outdated(x, inp) && PlanOf(inp, run.plan) && At(run.plan.levels, i, KeyOf(x.c))
    ensures BarrierUpTo(run, Init(run), i)
  {
    forall j, k | At(run.plan.levels, j, k) ensures i <= j {
      assert Scheduled(run.plan.levels, k);
      if k == KeyOf(x.b) {
        ReachStep(inp.g.edges, KeyOf(x.b), KeyOf(x.c));
      }
    }
  }

  ghost predicate PlansAs(p: Plan, k: Key, action: Action) {
    exists i :: 0 <= i < |p.entries| && p.entries[i].key == k && p.entries[i].action == action
  }

  lemma PlanListsExpected(inp: Inputs, p: Plan, k: Key)
    requires PlanOf(inp, p) && k in inp.g.nodes
    ensures PlansAs(p, k, PlannedAction(inp, k))
  {
    FlattenMembers(p.levels, k);
    assert k in EntryKeys(p.entries);
    var i :| 0 <= i < |p.entries| && EntryKeys(p.entries)[i] == k;
    assert p.entries[i].key == k;
  }

  const NO_FLAGS := Flags(false, false, false, false)

  function WorksExcept(broken: set<Key>): World {
    World(k => k !in broken, _ => true, _ => false, _ => "")
  }

  /** Deploys the old set and builds the new one. */
  method MeetChange(x: Change) returns (inp: Inputs)
    requires ChangeBelow(x)
    ensures BuiltFrom([x.c, x.b], x.refs, inp.g) && Outdated(x, inp)
  {
    var st := DeployPair(x.a, x.b, x.refs, x.specHash, x.demand);
    PairBuilds(x.c, x.b, x.refs, x.demand);
    var built := Build([x.c, x.b], x.refs);
    inp := Inputs(built.graph, st, map[], x.specHash);
    PairGraph(x.c, x.b, x.refs, x.demand, inp.g);
  }

  /** Runs the dependency's entry and stops. */
  method StopAfterDependency(x: Change, inp: Inputs, p: Plan) returns (records: Recorded, ghost run: Run, ghost s: Sys)
    requires ChangeBelow(x) && Outdated(x, inp) && Accepted(inp.g) && PlanOf(inp, p)
    ensures Applies(inp, run) && run.plan == p && Reachable(run, s) && records == s.resources
    ensures PhaseOf(s, KeyOf(x.b)) == Waiting && Written(run, s, KeyOf(x.c))
  {
    var execution := Run(inp.g, p, inp.st, NO_FLAGS, WorksExcept({}));
    run := execution;
    DependencySucceeds(x, inp, run);
    var engine := new ApplyRun(execution);
    ghost var i :| At(p.levels, i, KeyOf(x.c));
    DependencyCanStart(x, inp, run, i);
    StartsWaiting(run);
    ProcessedReachable(run, Init(run), i, KeyOf(x.c));
    engine.ProcessEntry(KeyOf(x.c), EntryMap(p.entries)[KeyOf(x.c)]);
    records := engine.resources;
    s := engine.View();
  }

  /**
   * b must be reconciled because what it refers to changed. The run stops right after that
   * dependency, and the next plan no longer lists b.
   */
  method CascadeLostInCrash(x: Change) returns (planned: Plan, again: Plan, ghost inp: Inputs, ghost run: Run, ghost s: Sys)
    requires ChangeBelow(x)
    ensures BuiltFrom([x.c, x.b], x.refs, inp.g)
    ensures Applies(inp, run) && run.plan == planned && Reachable(run, s) && PhaseOf(s, KeyOf(x.b)) == Waiting
    ensures PlanOf(After(inp, s), again)
    ensures PlansAs(planned, KeyOf(x.b), Update) && PlansAs(again, KeyOf(x.b), Noop)
  {
    var inputs := MeetChange(x);
    inp := inputs;
    var first := ComputeWithSecretHashes(inputs);
    planned := first.value;
    ChangesThroughDependency(x, inp);
    PlanListsExpected(inp, planned, KeyOf(x.b));
    var records;
    records, run, s := StopAfterDependency(x, inputs, planned);
    DependentIsForgotten(x, inp, run, s);
    var second := ComputeWithSecretHashes(inputs.(st := records));
    again := second.value;
    PlanListsExpected(After(inp, s), again, KeyOf(x.b));
  }

  /** The same loss without a crash: b's own reconcile fails, it is reported failed, and the next plan passes it over. */
  method CascadeLostInFailure(x: Change)
    returns (failed: set<Key>, again: Plan, ghost inp: Inputs, ghost run: Run, ghost s: Sys)
    requires ChangeBelow(x)
    ensures BuiltFrom([x.c, x.b], x.refs, inp.g)
    ensures Applies(inp, run) && Reachable(run, s) && Complete(run, s) && failed == s.failed
    ensures PlanOf(After(inp, s), again)
    ensures KeyOf(x.b) in failed && PlansAs(again, KeyOf(x.b), Noop)
  {
    var inputs := MeetChange(x);
    inp := inputs;
    var first := ComputeWithSecretHashes(inputs);
    var planned := first.value;
    var execution := Run(inputs.g, planned, inputs.st, NO_FLAGS, WorksExcept({KeyOf(x.b)}));
    run := execution;
    var engine := new ApplyRun(execution);
    var halted := engine.Apply();
    failed := engine.failed;
    s := engine.View();
    LostAfterFailure(x, inp, run, s);
    var second := ComputeWithSecretHashes(inputs.(st := engine.resources));
    again := second.value;
    PlanListsExpected(After(inp, s), again, KeyOf(x.b));
  }

  /** A message broker; its image is part of its configuration. */
  function Broker(image: string): Envelope {
    Manifest(BROKER, map["type" := JString("redpanda"), "runtime" := RUNTIME,
                         "configuration" := JObject(map["image" := JString(image)])], false)
  }

  /** An EventStream the broker realizes. */
  function Stream(): Envelope {
    Manifest(STREAM, map["providerRef" := RefTo("broker")], false)
  }

  const TO_BROKER := Named("providerRef", NameRef("broker", ""), Some({PROVIDER}))

  lemma BrokerNamesNothing(image: string)
    ensures NamesNothing(Broker(image)) && KeyOf(Broker(image)) == BROKER && !IsExternal(Broker(image))
  {
  }

  lemma StreamNamesBroker()
    ensures NamesOne(Stream(), 0, "broker") && KeyOf(Stream()) == STREAM && !IsExternal(Stream())
    ensures Satisfied({BROKER, STREAM}, Stream(), TO_BROKER) && DemandTargets({BROKER, STREAM}, Stream(), TO_BROKER) == {BROKER}
  {
    var named := Candidates({BROKER, STREAM}, NamespaceOr(TO_BROKER.ref, Stream().metadata.namespace), "broker", Some({PROVIDER}));
    assert named == {BROKER};
    assert IsTheOnly(named, BROKER);
  }

  lemma StreamOnBroker(image: string, hostOf: string -> string)
    ensures RefersOnlyTo(Broker(image), Stream(), ManifestReferences(hostOf), TO_BROKER)
  {
    BrokerNamesNothing(image);
    NoDemands(Broker(image), hostOf);
    StreamNamesBroker();
    OneDemand(Stream(), 0, "broker", hostOf);
  }

  /** A broker whose image changes, under the EventStream it realizes, is such a change, for every hash that tells the images apart. */
  lemma ImageChange(hostOf: string -> string, specHash: SpecHash)
    requires (forall e :: specHash(e).Some?) && specHash(Broker("a")) != specHash(Broker("b"))
    ensures ChangeBelow(Change(Broker("a"), Broker("b"), Stream(), ManifestReferences(hostOf), TO_BROKER, specHash))
  {
    StreamOnBroker("a", hostOf);
    StreamOnBroker("b", hostOf);
    BrokerNamesNothing("a");
    BrokerNamesNothing("b");
    StreamNamesBroker();
  }

  method ImageChangeForgotten(hostOf: string -> string, specHash: SpecHash)
    returns (planned: Plan, again: Plan, failed: set<Key>, afterFailure: Plan)
    requires (forall e :: specHash(e).Some?) && specHash(Broker("a")) != specHash(Broker("b"))
    ensures PlansAs(planned, STREAM, Update) && PlansAs(again, STREAM, Noop)
    ensures STREAM in failed && PlansAs(afterFailure, STREAM, Noop)
  {
    ImageChange(hostOf, specHash);
    var x := Change(Broker("a"), Broker("b"), Stream(), ManifestReferences(hostOf), TO_BROKER, specHash);
    ghost var inp, run, s;
    planned, again, inp, run, s := CascadeLostInCrash(x);
    failed, afterFailure, inp, run, s := CascadeLostInFailure(x);
  }

  // ---------------------------------------------------------------- apply deletes under a survivor

  /** A provider b that names the unprotected secret a. */
  datatype Holding = Holding(a: Envelope, b: Envelope, refs: References, demand: Demand, specHash: SpecHash)

  ghost predicate HoldsSecret(x: Holding) {
    && RefersOnlyTo(x.a, x.b, x.refs, x.demand) && (forall e :: x.specHash(e).Some?)
    && x.a.kind == SECRET_REFERENCE && !IsExternal(x.a) && !x.a.metadata.protect
  }

  lemma SecretIsRemoved(x: Holding, inp: Inputs, run: Run)
    requires HoldsSecret(x) && PairRecords(x.a, x.b, x.specHash, inp.st) && KeyOf(x.a) !in inp.g.nodes
    ensures Removed(inp, run, KeyOf(x.a))
  {
  }

  lemma SingleBuilds(c: Envelope, refs: References)
    requires refs(c) == []
    ensures Buildable([c], refs) && NodesOf([c]) == map[KeyOf(c) := c]
  {
    assert [c][..0] == [];
    var E := Declared(NodesOf([c]), refs);
    assert NodesOf([c]) == map[KeyOf(c) := c];
    assert TargetsUpTo({KeyOf(c)}, c, []) == {};
    assert forall k :: Direct(E, k) == {};
    forall k ensures !Reaches(E, k, k) {
      if Reaches(E, k, k) {
        ClosedReaches(E, {}, k, k);
      }
    }
  }

  /** Only an unrelated c is declared now: the protected b stays, and the secret it names is deleted. */
  method DeletedUnderProtected(x: Holding, c: Envelope) returns (report: Report)
    requires HoldsSecret(x) && x.b.metadata.protect && x.refs(c) == [] && KeyOf(c) != KeyOf(x.a) && KeyOf(c) != KeyOf(x.b)
    ensures report.Applied? && Dangles(report.records, KeyOf(x.b), KeyOf(x.a))
  {
    var st := DeployPair(x.a, x.b, x.refs, x.specHash, x.demand);
    SingleBuilds(c, x.refs);
    ghost var inp, run, s;
    report, inp, run, s := Apply([c], x.refs, st, map[], x.specHash, NO_FLAGS, WorksExcept({}));
    SecretIsRemoved(x, inp, run);
    StrandedByKeptDelete(inp, run, s, KeyOf(x.b), KeyOf(x.a));
  }

  /** b drops its reference and the secret goes, but reconciling b fails: its record still names the deleted secret. */
  method DeletedUnderStaleRecord(x: Holding, c: Envelope) returns (report: Report)
    requires HoldsSecret(x) && KeyOf(c) == KeyOf(x.b) && x.refs(c) == []
    ensures report.Applied? && Dangles(report.records, KeyOf(c), KeyOf(x.a))
  {
    var st := DeployPair(x.a, x.b, x.refs, x.specHash, x.demand);
    SingleBuilds(c, x.refs);
    ghost var inp, run, s;
    report, inp, run, s := Apply([c], x.refs, st, map[], x.specHash, NO_FLAGS, WorksExcept({KeyOf(c)}));
    SecretIsRemoved(x, inp, run);
    StrandedByStaleRecord(inp, run, s, KeyOf(c), KeyOf(x.a));
  }

  function Credentials(): Envelope {
    Manifest(CREDS, map["backend" := JString("env"), "keys" := JList([JString("username")])], false)
  }

  /** A compute engine that is handed the credentials. */
  function Holder(protect: bool): Envelope {
    Manifest(ENGINE, map["type" := JString("trino"), "runtime" := RUNTIME, "secretRefs" := JList([JString("creds")])], protect)
  }

  /** The engine without them. */
  function BareEngine(): Envelope {
    Manifest(ENGINE, map["type" := JString("trino"), "runtime" := RUNTIME], false)
  }

  const TO_CREDS := Exact("secretRefs", true, CREDS)

  lemma BareNamesNothing()
    ensures NamesNothing(Credentials()) && KeyOf(Credentials()) == CREDS && !IsExternal(Credentials())
    ensures NamesNothing(BareEngine()) && KeyOf(BareEngine()) == ENGINE
  {
  }

  lemma HolderIsPlain(protect: bool)
    ensures PlainManifest(Holder(protect)) && Holder(protect).kind != CONNECTION && KeyOf(Holder(protect)) == ENGINE
    ensures Holder(protect).spec.Keys !! REF_NAMES
    ensures "secretRefs" in Holder(protect).spec && Holder(protect).spec["secretRefs"] == JList([JString("creds")])
  {
  }

  lemma HolderRefersToCredentials(protect: bool, hostOf: string -> string)
    ensures Demands(Holder(protect), hostOf) == [TO_CREDS]
  {
    var e := Holder(protect);
    HolderIsPlain(protect);
    PlainDemands(e, hostOf);
    NoRefs(e.spec);
  }

  lemma EngineHoldsCredentials(protect: bool, hostOf: string -> string, specHash: SpecHash)
    requires forall e :: specHash(e).Some?
    ensures HoldsSecret(Holding(Credentials(), Holder(protect), ManifestReferences(hostOf), TO_CREDS, specHash))
  {
    BareNamesNothing();
    NoDemands(Credentials(), hostOf);
    HolderIsPlain(protect);
    HolderRefersToCredentials(protect, hostOf);
  }

  /** Both ways of losing the credentials of an engine that stays recorded. */
  method CredentialsDeletedUnderEngine(hostOf: string -> string, specHash: SpecHash) returns (refused: Report, stale: Report)
    requires forall e :: specHash(e).Some?
    ensures refused.Applied? && Dangles(refused.records, ENGINE, CREDS)
    ensures stale.Applied? && Dangles(stale.records, ENGINE, CREDS)
  {
    EngineHoldsCredentials(true, hostOf, specHash);
    BrokerNamesNothing("a");
    NoDemands(Broker("a"), hostOf);
    BareNamesNothing();
    HolderIsPlain(true);
    refused := DeletedUnderProtected(Holding(Credentials(), Holder(true), ManifestReferences(hostOf), TO_CREDS, specHash), Broker("a"));
    EngineHoldsCredentials(false, hostOf, specHash);
    HolderIsPlain(false);
    NoDemands(BareEngine(), hostOf);
    stale := DeletedUnderStaleRecord(Holding(Credentials(), Holder(false), ManifestReferences(hostOf), TO_CREDS, specHash), BareEngine());
  }

  // ---------------------------------------------------------------- teardown under a kept external resource

  lemma ChainReach(E: Relation, a: Key, b: Key, c: Key)
    requires a != b && b != c && a != c
    requires forall x :: Direct(E, x) == if x == c then {b} else if x == b then {a} else {}
    ensures Acyclic(E) && Reaches(E, c, b) && ReachSet(E, c) == {a, b}
    ensures forall x :: Reaches(E, x, b) ==> x == c
  {
    ReachStep(E, c, b);
    ReachStep(E, b, a);
    ReachTransitive(E, c, b, a);
    forall x, y | Reaches(E, x, y) ensures (x == c && y in {a, b}) || (x == b && y == a) {
      var p :| WalkBetween(E, p, x, y);
      assert Step(E, p[0], p[1]);
      ClosedReaches(E, if x == c then {a, b} else {a}, x, y);
    }
    ReachSetExact(E, c);
  }

  /** c refers to b, b to a, and a to nothing. */
  datatype Chain = Chain(a: Envelope, b: Envelope, c: Envelope, refs: References)

  function ChainKeys(x: Chain): set<Key> {
    {KeyOf(x.a), KeyOf(x.b), KeyOf(x.c)}
  }

  ghost predicate Chained(x: Chain) {
    && KeyOf(x.a) != KeyOf(x.b) && KeyOf(x.b) != KeyOf(x.c) && KeyOf(x.a) != KeyOf(x.c)
    && AllSatisfied(ChainKeys(x), x.a, x.refs) && AllSatisfied(ChainKeys(x), x.b, x.refs) && AllSatisfied(ChainKeys(x), x.c, x.refs)
    && TargetsUpTo(ChainKeys(x), x.a, x.refs(x.a)) == {}
    && TargetsUpTo(ChainKeys(x), x.b, x.refs(x.b)) == {KeyOf(x.a)}
    && TargetsUpTo(ChainKeys(x), x.c, x.refs(x.c)) == {KeyOf(x.b)}
  }

  function ChainNodes(x: Chain): map<Key, Envelope> {
    map[KeyOf(x.a) := x.a, KeyOf(x.b) := x.b, KeyOf(x.c) := x.c]
  }

  lemma ChainNodesOf(x: Chain)
    requires Chained(x)
    ensures NodesOf([x.a, x.b, x.c]) == ChainNodes(x) && ChainNodes(x).Keys == ChainKeys(x)
  {
    PairNodes(x.a, x.b);
    assert [x.a, x.b, x.c][..2] == [x.a, x.b];
  }

  lemma ChainDeclares(x: Chain, nodes: map<Key, Envelope>)
    requires Chained(x) && nodes == ChainNodes(x) && nodes.Keys == ChainKeys(x)
    ensures forall k :: Direct(Declared(nodes, x.refs), k)
                        == if k == KeyOf(x.c) then {KeyOf(x.b)} else if k == KeyOf(x.b) then {KeyOf(x.a)} else {}
    ensures Acyclic(Declared(nodes, x.refs))
  {
    ChainReach(Declared(nodes, x.refs), KeyOf(x.a), KeyOf(x.b), KeyOf(x.c));
  }

  lemma ChainBuilds(x: Chain)
    requires Chained(x)
    ensures Buildable([x.a, x.b, x.c], x.refs)
    ensures forall k :: Direct(Declared(NodesOf([x.a, x.b, x.c]), x.refs), k)
                        == if k == KeyOf(x.c) then {KeyOf(x.b)} else if k == KeyOf(x.b) then {KeyOf(x.a)} else {}
  {
    ChainNodesOf(x);
    ChainDeclares(x, NodesOf([x.a, x.b, x.c]));
  }

  lemma ChainGraph(x: Chain, g: Graph)
    requires Chained(x) && BuiltFrom([x.a, x.b, x.c], x.refs, g)
    ensures g.nodes == ChainNodes(x)
    ensures Reaches(g.edges, KeyOf(x.c), KeyOf(x.b)) && ReachSet(g.edges, KeyOf(x.c)) == {KeyOf(x.a), KeyOf(x.b)}
    ensures forall k :: Reaches(g.edges, k, KeyOf(x.b)) ==> k == KeyOf(x.c)
  {
    ChainNodesOf(x);
    ChainBuilds(x);
    ChainReach(g.edges, KeyOf(x.a), KeyOf(x.b), KeyOf(x.c));
  }

  /** An external c on top of a managed, unprotected b, torn down without --include-external. */
  lemma KeptExternalOutcomes(x: Chain, td: Teardown)
    requires td.g.nodes == ChainNodes(x) && (forall k :: Reaches(td.g.edges, k, KeyOf(x.b)) ==> k == KeyOf(x.c))
    requires KeyOf(x.a) != KeyOf(x.b) && KeyOf(x.b) != KeyOf(x.c) && KeyOf(x.a) != KeyOf(x.c)
    requires IsExternal(x.c) && !IsExternal(x.b) && !x.b.metadata.protect && x.b.kind != ""
    requires KeyOf(x.b) in td.init && !td.init[KeyOf(x.b)].imported && !td.includeExternal && td.destroys(KeyOf(x.b))
    ensures DestroyOutcome(td, KeyOf(x.b)) == HasSucceeded
    ensures DestroyOutcome(td, KeyOf(x.c)) == Untouched
  {
    assert !Stays(td, KeyOf(x.c));
    assert !Held(td, KeyOf(x.b));
  }

  /** An external c refers to a managed, unprotected b. */
  ghost predicate ExternalOnManaged(x: Chain) {
    Chained(x) && IsExternal(x.c) && !IsExternal(x.b) && !x.b.metadata.protect && x.b.kind != ""
  }

  /** What a first deployment of the chain records. */
  ghost predicate ChainRecords(x: Chain, specHash: SpecHash, st: Recorded) {
    && st.Keys == ChainKeys(x) && (forall k :: k in st ==> !st[k].imported)
    && st[KeyOf(x.a)].lastApplied == Some(Normalized(x.a))
    && Some(st[KeyOf(x.c)].specHash) == specHash(x.c) && st[KeyOf(x.c)].dependencies == {KeyOf(x.a), KeyOf(x.b)}
  }

  method DeployChain(x: Chain, specHash: SpecHash) returns (st: Recorded)
    requires Chained(x) && forall e :: specHash(e).Some?
    ensures ChainRecords(x, specHash, st)
  {
    ChainBuilds(x);
    ghost var g;
    st, g := Deploy([x.a, x.b, x.c], x.refs, specHash);
    ChainGraph(x, g);
    forall k | k in st ensures RecordedFresh(g, specHash, st, k) {}
    assert RecordedFresh(g, specHash, st, KeyOf(x.a)) && RecordedFresh(g, specHash, st, KeyOf(x.c));
  }

  /** The plan leaves the external resource alone, and nothing shields what it depends on. */
  method DestroyUnderKeptExternal(x: Chain, specHash: SpecHash) returns (r: Results)
    requires ExternalOnManaged(x) && (forall e :: specHash(e).Some?)
    ensures Dangles(r.st, KeyOf(x.c), KeyOf(x.b))
  {
    var st := DeployChain(x, specHash);
    ChainBuilds(x);
    var built := Build([x.a, x.b, x.c], x.refs);
    var td := Teardown(built.graph, st, false, false, false, _ => true);
    var p := ComputeDestroy(td);
    ChainGraph(x, td.g);
    KeptExternalOutcomes(x, td);
    r := Destroy(td, p);
    assert KeyOf(x.b) in EntryKeys(p.entries);
  }

  /** A forwarder. */
  function Proxy(): Envelope {
    Manifest(PROXY, map["type" := JString("proxy"), "runtime" := RUNTIME], false)
  }

  /** A managed Connection that the proxy realizes. */
  function Link(): Envelope {
    Manifest(LINK, map["providerRef" := RefTo("proxy"), "target" := JString("db:5432")], false)
  }

  /** A compute engine, platform-run or external, that names the Connection. */
  function Engine(external: bool): Envelope {
    Manifest(ENGINE, map["type" := JString("trino"), "runtime" := RUNTIME, "external" := JBool(external),
                         "connectionRef" := RefTo("link")], false)
  }

  const TO_PROXY := Named("providerRef", NameRef("proxy", ""), Some({PROVIDER}))
  const TO_LINK := Named("connectionRef", NameRef("link", ""), Some({CONNECTION, SECRET_REFERENCE}))
  const ENGINE_KEYS := {PROXY, LINK, ENGINE}

  lemma LinkFindsProxy()
    ensures Satisfied(ENGINE_KEYS, Link(), TO_PROXY) && DemandTargets(ENGINE_KEYS, Link(), TO_PROXY) == {PROXY}
    ensures DemandTargets(ENGINE_KEYS, Link(), Host("db")) == {}
  {
    var named := Candidates(ENGINE_KEYS, NamespaceOr(TO_PROXY.ref, Link().metadata.namespace), "proxy", Some({PROVIDER}));
    assert named == {PROXY};
    assert IsTheOnly(named, PROXY);
  }

  lemma LinkDemands(hostOf: string -> string)
    ensures Demands(Link(), hostOf) == [TO_PROXY, Host(hostOf("db:5432"))]
  {
    PlainDemands(Link(), hostOf);
    OneRef(Link().spec, 0, "proxy");
  }

  lemma LinkResolves(hostOf: string -> string)
    requires hostOf("db:5432") == "db"
    ensures AllSatisfied(ENGINE_KEYS, Link(), ManifestReferences(hostOf))
    ensures TargetsUpTo(ENGINE_KEYS, Link(), Demands(Link(), hostOf)) == {PROXY}
  {
    LinkDemands(hostOf);
    LinkFindsProxy();
    TwoTargets(ENGINE_KEYS, Link(), TO_PROXY, Host("db"));
  }

  lemma TwoTargets(keys: set<Key>, e: Envelope, d: Demand, f: Demand)
    ensures TargetsUpTo(keys, e, [d, f]) == DemandTargets(keys, e, d) + DemandTargets(keys, e, f)
  {
    assert [d, f][..1] == [d] && [d][..0] == [];
    assert TargetsUpTo(keys, e, [d]) == DemandTargets(keys, e, d);
  }

  lemma EngineNamesLink(external: bool)
    ensures NamesOne(Engine(external), 3, "link") && KeyOf(Engine(external)) == ENGINE && IsExternal(Engine(external)) == external
    ensures Engine(external).kind == PROVIDER && "access" !in Engine(external).spec
  {
  }

  lemma EngineFindsLink(keys: set<Key>, external: bool)
    requires keys == {LINK, ENGINE} || keys == ENGINE_KEYS
    ensures Satisfied(keys, Engine(external), TO_LINK) && DemandTargets(keys, Engine(external), TO_LINK) == {LINK}
  {
    var named := Candidates(keys, NamespaceOr(TO_LINK.ref, Engine(external).metadata.namespace), "link", Some({CONNECTION, SECRET_REFERENCE}));
    assert named == {LINK};
    assert IsTheOnly(named, LINK);
  }

  lemma EngineResolves(external: bool, hostOf: string -> string)
    ensures AllSatisfied(ENGINE_KEYS, Engine(external), ManifestReferences(hostOf))
    ensures TargetsUpTo(ENGINE_KEYS, Engine(external), Demands(Engine(external), hostOf)) == {LINK}
  {
    EngineNamesLink(external);
    OneDemand(Engine(external), 3, "link", hostOf);
    EngineFindsLink(ENGINE_KEYS, external);
    assert [TO_LINK][..0] == [];
  }

  /** The proxy, the Connection on it, and the engine behind the Connection. */
  ghost predicate EngineSet(x: Chain, external: bool, hostOf: string -> string) {
    && hostOf("db:5432") == "db"
    && x.a == Proxy() && x.b == Link() && x.c == Engine(external) && x.refs == ManifestReferences(hostOf)
  }

  lemma ChainOf(x: Chain, a: Key, b: Key, c: Key)
    requires KeyOf(x.a) == a && KeyOf(x.b) == b && KeyOf(x.c) == c && a != b && b != c && a != c
    requires x.refs(x.a) == [] && AllSatisfied({a, b, c}, x.b, x.refs) && AllSatisfied({a, b, c}, x.c, x.refs)
    requires TargetsUpTo({a, b, c}, x.b, x.refs(x.b)) == {a} && TargetsUpTo({a, b, c}, x.c, x.refs(x.c)) == {b}
    ensures Chained(x)
  {
  }

  lemma LinkFacts()
    ensures KeyOf(Link()) == LINK && Link().kind == CONNECTION && !IsExternal(Link()) && !Link().metadata.protect
    ensures RefFromSpec(Link().spec, "providerRef").name != "" && ProviderKeyOf(Link()) == PROXY && "access" !in Link().spec
    ensures KeyOf(Proxy()) == PROXY && Proxy().kind == PROVIDER && NamesNothing(Proxy()) && "access" !in Proxy().spec
    ensures !IsExternal(Proxy()) && !Proxy().metadata.protect
  {
  }

  lemma EngineBehindLink(x: Chain, external: bool, hostOf: string -> string)
    requires EngineSet(x, external, hostOf)
    ensures RefersToConnection(x) && (external ==> ExternalOnManaged(x))
    ensures KeyOf(x.a) == PROXY && KeyOf(x.b) == LINK && KeyOf(x.c) == ENGINE
  {
    LinkFacts();
    NoDemands(Proxy(), hostOf);
    LinkResolves(hostOf);
    EngineResolves(external, hostOf);
    EngineNamesLink(external);
    ChainOf(x, PROXY, LINK, ENGINE);
  }

  /** Teardown removes the Connection under the external engine that stays recorded. */
  method LinkDestroyedUnderEngine(x: Chain, hostOf: string -> string, specHash: SpecHash) returns (r: Results)
    requires EngineSet(x, true, hostOf) && forall e :: specHash(e).Some?
    ensures Dangles(r.st, ENGINE, LINK)
  {
    EngineBehindLink(x, true, hostOf);
    r := DestroyUnderKeptExternal(x, specHash);
  }

  // ---------------------------------------------------------------- a clean run with a stale record

  /** c is external and stays as it was, while b, in its new form r, no longer refers to the managed a. */
  ghost predicate Rerouted(x: Chain, r: Envelope, demand: Demand) {
    && Chained(x) && IsExternal(x.c) && x.c.kind != SECRET_REFERENCE && !IsExternal(x.a) && !x.a.metadata.protect
    && KeyOf(r) == KeyOf(x.b) && RefersOnlyTo(r, x.c, x.refs, demand)
  }

  /** An external resource with a current record is passed over, whatever changes below it. */
  lemma ExternalIsPassedOver(inp: Inputs, run: Run, c: Key)
    requires Applies(inp, run) && !run.flags.healDrift && c in inp.g.nodes && c in inp.st
    requires IsExternal(inp.g.nodes[c]) && !IsSecret(inp, c) && Some(inp.st[c].specHash) == inp.specHash(inp.g.nodes[c])
    ensures !Refreshed(run, c)
  {
    PlannedEntry(inp, run, c);
    assert DirectAction(inp, c) == Noop;
    PendingUnfold(inp, c);
  }

  /** When every provider works and every undeclared record may go, a run ends clean. */
  lemma EverythingWorks(inp: Inputs, run: Run, s: Sys)
    requires Applies(inp, run) && Reachable(run, s) && Complete(run, s) && (forall k :: run.world.reconciles(k))
    requires forall k :: k in inp.st && k !in inp.g.nodes ==> Removed(inp, run, k)
    ensures s.failed == {} && s.skipped == {}
  {
    ReachableInvariant(run, s);
    forall k ensures !Breaks(run, k) && OutcomeOf(run, k) != HasFailed {
      NeverFails(inp, run, k);
    }
    forall k ensures k !in s.failed && k !in s.skipped {
      CompleteKey(run, s, k);
    }
  }

  lemma NeverFails(inp: Inputs, run: Run, k: Key)
    requires Applies(inp, run) && (forall x :: run.world.reconciles(x))
    requires k in inp.st && k !in inp.g.nodes ==> Removed(inp, run, k)
    ensures !Breaks(run, k) && OutcomeOf(run, k) != HasFailed
  {
    PlannedEntry(inp, run, k);
    if k in inp.g.nodes {
      DeclaredVerb(inp, run, k);
    } else if k in inp.st {
      UndeclaredOutcome(inp, run, k);
    }
  }

  /** The managed a is no longer declared, and the external c is declared as it is recorded, on top of a. */
  ghost predicate OutgrownBelow(inp: Inputs, a: Key, c: Key) {
    && (forall k :: k in inp.st && k !in inp.g.nodes <==> k == a)
    && inp.st[a].lastApplied.Some? && !inp.st[a].lastApplied.value.metadata.protect
    && LifecycleOf(inp.st[a].lastApplied.value, inp.st[a].imported) == Managed
    && c in inp.g.nodes && c in inp.st && IsExternal(inp.g.nodes[c]) && !IsSecret(inp, c)
    && Some(inp.st[c].specHash) == inp.specHash(inp.g.nodes[c]) && a in inp.st[c].dependencies
  }

  lemma RerouteOutgrows(x: Chain, r: Envelope, demand: Demand, inp: Inputs)
    requires Rerouted(x, r, demand) && ChainRecords(x, inp.specHash, inp.st) && BuiltFrom([r, x.c], x.refs, inp.g)
    ensures OutgrownBelow(inp, KeyOf(x.a), KeyOf(x.c))
  {
    PairGraph(r, x.c, x.refs, demand, inp.g);
  }

  lemma StaleRecordRemains(inp: Inputs, run: Run, s: Sys, a: Key, c: Key)
    requires OutgrownBelow(inp, a, c) && Applies(inp, run) && Reachable(run, s) && Complete(run, s)
    requires run.flags == NO_FLAGS && run.world == WorksExcept({})
    ensures Dangles(s.resources, c, a) && s.failed == {} && s.skipped == {}
  {
    assert Removed(inp, run, a);
    ExternalIsPassedOver(inp, run, c);
    StrandedByStaleRecord(inp, run, s, c, a);
    EverythingWorks(inp, run, s);
  }

  /** Applies a buildable set to st, every provider call succeeding. */
  method ApplyWorking(envelopes: seq<Envelope>, refs: References, st: Recorded, specHash: SpecHash)
    returns (report: Report, ghost inp: Inputs, ghost run: Run, ghost s: Sys)
    requires Buildable(envelopes, refs) && forall e :: specHash(e).Some?
    ensures BuiltFrom(envelopes, refs, inp.g) && inp.st == st && inp.specHash == specHash
    ensures Applies(inp, run) && Reachable(run, s) && Complete(run, s) && run.flags == NO_FLAGS && run.world == WorksExcept({})
    ensures report.Applied? && report.records == s.resources && report.failed == s.failed && (s.skipped == {} ==> report.skipped == [])
  {
    report, inp, run, s := Apply(envelopes, refs, st, map[], specHash, NO_FLAGS, WorksExcept({}));
    assert report.skipped == [] || report.skipped[0] in Keys(report.skipped);
  }

  /** Nothing fails and nothing is skipped, and yet the record of c goes on naming the deleted a. */
  method StaleAfterCleanRun(x: Chain, r: Envelope, specHash: SpecHash, ghost demand: Demand) returns (report: Report)
    requires Rerouted(x, r, demand) && forall e :: specHash(e).Some?
    ensures report.Applied? && report.failed == {} && report.skipped == []
    ensures Dangles(report.records, KeyOf(x.c), KeyOf(x.a))
  {
    var st := DeployChain(x, specHash);
    PairBuilds(r, x.c, x.refs, demand);
    ghost var inp, run, s;
    report, inp, run, s := ApplyWorking([r, x.c], x.refs, st, specHash);
    RerouteOutgrows(x, r, demand, inp);
    StaleRecordRemains(inp, run, s, KeyOf(x.a), KeyOf(x.c));
  }

  /** The Connection as a plain address. */
  function Address(): Envelope {
    Manifest(LINK, map["external" := JBool(true), "host" := JString("db"), "port" := JNumber(5432.0)], false)
  }

  lemma AddressNamesNothing()
    ensures NamesNothing(Address()) && KeyOf(Address()) == LINK
  {
  }

  /** The Connection of an external engine becomes a plain address and its proxy goes: the engine's record still names the proxy. */
  method ProxyDroppedUnderEngine(x: Chain, hostOf: string -> string, specHash: SpecHash) returns (report: Report)
    requires EngineSet(x, true, hostOf) && forall e :: specHash(e).Some?
    ensures report.Applied? && report.failed == {} && report.skipped == [] && Dangles(report.records, ENGINE, PROXY)
  {
    EngineBehindLink(x, true, hostOf);
    AddressReroutes(x, hostOf);
    report := StaleAfterCleanRun(x, Address(), specHash, TO_LINK);
  }

  lemma EngineOnAddress(hostOf: string -> string)
    ensures RefersOnlyTo(Address(), Engine(true), ManifestReferences(hostOf), TO_LINK)
  {
    AddressNamesNothing();
    NoDemands(Address(), hostOf);
    EngineNamesLink(true);
    OneDemand(Engine(true), 3, "link", hostOf);
    EngineFindsLink({LINK, ENGINE}, true);
  }

  lemma AddressReroutes(x: Chain, hostOf: string -> string)
    requires EngineSet(x, true, hostOf)
    ensures Rerouted(x, Address(), TO_LINK)
  {
    EngineBehindLink(x, true, hostOf);
    AddressNamesNothing();
    EngineOnAddress(hostOf);
    EngineNamesLink(true);
    LinkFacts();
  }

  // ---------------------------------------------------------------- a reference without a network

  /** A Provider c that refers to a Connection b realized on the Provider a; no wide grants. */
  ghost predicate RefersToConnection(x: Chain) {
    && Chained(x) && x.a.kind == PROVIDER && x.b.kind == CONNECTION && x.c.kind == PROVIDER
    && RefFromSpec(x.b.spec, "providerRef").name != "" && ProviderKeyOf(x.b) == KeyOf(x.a)
    && "access" !in x.a.spec && "access" !in x.b.spec && "access" !in x.c.spec
  }

  ghost predicate ChainScope(x: Chain, sc: Scope, edges: set<Edge>) {
    sc.resources == ChainNodes(x) && edges == {Edge(KeyOf(x.c), KeyOf(x.b)), Edge(KeyOf(x.b), KeyOf(x.a))}
  }

  lemma NothingElseConnects(x: Chain, sc: Scope, edges: set<Edge>)
    requires RefersToConnection(x) && ChainScope(x, sc, edges)
    ensures !Member(sc, edges - {Edge(KeyOf(x.c), KeyOf(x.b))}, KeyOf(x.c), KeyOf(x.a))
  {
    assert forall k :: k in sc.resources ==> AccessGrants(sc, sc.resources[k]) == [];
  }

  /** The two realizing Providers of such a reference have no network in common. */
  lemma NoCommonNetwork(x: Chain, f: Fnv, sc: Scope, edges: set<Edge>, netsC: seq<string>, netsA: seq<string>)
    requires RefersToConnection(x) && ChainScope(x, sc, edges) && Rendered(f) && Coherent(sc, edges) && NamesApart(x, f, sc)
    requires JoinsExactly(f, sc, edges, KeyOf(x.c), NormalizeDomain(x.c.metadata.domain), netsC)
    requires JoinsExactly(f, sc, edges, KeyOf(x.a), NormalizeDomain(x.a.metadata.domain), netsA)
    ensures !exists n :: n in netsC && n in netsA
  {
    NothingElseConnects(x, sc, edges);
    ReferenceSharesNetwork(f, sc, edges, Edge(KeyOf(x.c), KeyOf(x.b)), KeyOf(x.c), KeyOf(x.a),
      NormalizeDomain(x.c.metadata.domain), NormalizeDomain(x.a.metadata.domain), netsC, netsA);
  }

  /** No digest collides among the names of the set and of its two home networks. */
  ghost predicate NamesApart(x: Chain, f: Fnv, sc: Scope) {
    CollisionFree(f, sc, {OwnName(f, DEFAULT_TOKEN, NormalizeDomain(x.c.metadata.domain), KeyOf(x.c)),
                          OwnName(f, DEFAULT_TOKEN, NormalizeDomain(x.a.metadata.domain), KeyOf(x.a))})
  }

  /** edges are the references of g. */
  ghost predicate EdgesOfGraph(g: Graph, edges: set<Edge>) {
    forall e :: e in edges <==> Step(g.edges, e.from, e.to)
  }

  lemma ChainEdges(x: Chain, g: Graph, edges: set<Edge>)
    requires Chained(x) && BuiltFrom([x.a, x.b, x.c], x.refs, g) && EdgesOfGraph(g, edges)
    ensures edges == {Edge(KeyOf(x.c), KeyOf(x.b)), Edge(KeyOf(x.b), KeyOf(x.a))}
  {
    ChainBuilds(x);
    forall e ensures e in edges <==> e in {Edge(KeyOf(x.c), KeyOf(x.b)), Edge(KeyOf(x.b), KeyOf(x.a))} {
      assert Direct(g.edges, e.from)
          == if e.from == KeyOf(x.c) then {KeyOf(x.b)} else if e.from == KeyOf(x.b) then {KeyOf(x.a)} else {};
    }
  }

  ghost predicate WellFormedChain(x: Chain) {
    WellFormedKey(KeyOf(x.a)) && WellFormedKey(KeyOf(x.b)) && WellFormedKey(KeyOf(x.c))
  }

  lemma ChainIsCoherent(x: Chain, sc: Scope, edges: set<Edge>)
    requires RefersToConnection(x) && ChainScope(x, sc, edges) && WellFormedChain(x)
    ensures Coherent(sc, edges)
  {
  }

  /** Builds the set and computes both network lists: nothing in common. */
  method ConnectionGivesNoNetwork(x: Chain, f: Fnv, sc: Scope) returns (netsC: seq<string>, netsA: seq<string>)
    requires RefersToConnection(x) && WellFormedChain(x) && sc.resources == ChainNodes(x) && Rendered(f) && NamesApart(x, f, sc)
    ensures !exists n :: n in netsC && n in netsA
  {
    ChainBuilds(x);
    var built := Build([x.a, x.b, x.c], x.refs);
    var edges := DeriveEdges(built.graph);
    ChainEdges(x, built.graph, edges);
    ChainIsCoherent(x, sc, edges);
    netsC := DockerNetworks(f, sc, edges, x.c);
    netsA := DockerNetworks(f, sc, edges, x.a);
    NoCommonNetwork(x, f, sc, edges, netsC, netsA);
  }

  lemma NamesWellFormed()
    ensures WellFormedKey(PROXY) && WellFormedKey(LINK) && WellFormedKey(ENGINE)
  {
  }

  /** The engine and the proxy behind its Connection, for every digest without collisions among these names. */
  method EngineSharesNoNetwork(x: Chain, hostOf: string -> string, f: Fnv, sc: Scope) returns (engine: seq<string>, proxy: seq<string>)
    requires EngineSet(x, false, hostOf) && sc.resources == ChainNodes(x) && Rendered(f) && NamesApart(x, f, sc)
    ensures !exists n :: n in engine && n in proxy
  {
    EngineBehindLink(x, false, hostOf);
    NamesWellFormed();
    engine, proxy := ConnectionGivesNoNetwork(x, f, sc);
  }
}
