/** The apply command end to end: manifests to graph, graph to plan, plan to records. */
module ApplyCommand {
  import opened Resources
  import opened Reachability
  import opened DependencyGraph
  import opened GraphBuild
  import opened Planner
  import opened ApplyMachine
  import opened ApplyEngine
  import opened ApplyResults

  /** g is a graph that a build of these manifests returns. */
  ghost predicate BuiltFrom(envelopes: seq<Envelope>, refs: References, g: Graph) {
    && Accepted(g) && g.nodes == NodesOf(envelopes)
    && forall a :: Direct(g.edges, a) == Direct(Declared(NodesOf(envelopes), refs), a)
  }

  datatype Report =
    | NotBuilt(error: BuildError)
    | NotHashed
    | Applied(plan: Plan, records: Recorded, succeeded: seq<Key>, failed: set<Key>, skipped: seq<Key>)

  ghost predicate Reports(report: Report, s: Sys) {
    && report.Applied?
    && report.records == s.resources && report.failed == s.failed
    && Keys(report.succeeded) == s.succeeded && Keys(report.skipped) == s.skipped
  }

  /**
   * Builds, plans and executes sequentially. Whatever happens, the report is that of a state the
   * machine reaches; without halt-on-error it is complete, a declared resource is skipped exactly
   * when a transitive dependency failed, and a record is lost only with approval.
   */
  method Apply(envelopes: seq<Envelope>, refs: References, st: Recorded, fingerprints: map<Key, string>,
               specHash: Envelope -> Option<string>, flags: Flags, world: World)
    returns (report: Report, ghost inp: Inputs, ghost run: Run, ghost s: Sys)
    ensures report.NotBuilt? <==> !Buildable(envelopes, refs)
    ensures !report.NotBuilt? ==>
              BuiltFrom(envelopes, refs, inp.g) && inp == Inputs(inp.g, st, fingerprints, specHash)
    ensures !report.NotBuilt? ==>
              (report.NotHashed? <==> exists k :: k in inp.g.nodes && specHash(inp.g.nodes[k]).None?)
    ensures report.Applied? ==>
              && run == Run(inp.g, report.plan, st, flags, world)
              && Applies(inp, run) && Reachable(run, s) && Reports(report, s)
    ensures report.Applied? && !flags.haltOnError ==> Complete(run, s) && Contained(inp, report)
    ensures report.Applied? ==> forall k :: k in st && k !in report.records ==> DeletionApproved(inp, flags, k)
  {
    var built := Build(envelopes, refs);
    if built.Refused? {
      inp, run, s := *, *, *;
      return NotBuilt(built.error), inp, run, s;
    }
    var inputs := Inputs(built.graph, st, fingerprints, specHash);
    inp := inputs;
    var planned := ComputeWithSecretHashes(inputs);
    if planned.None? {
      run, s := *, *;
      return NotHashed, inp, run, s;
    }
    var execution := Run(built.graph, planned.value, st, flags, world);
    run := execution;
    var engine := new ApplyRun(execution);
    var halted := engine.Apply();
    s := engine.View();
    report := Applied(planned.value, engine.resources, engine.succeeded, engine.failed, engine.skipped);
    ReportedSafely(inp, run, s, report);
  }

  /** A declared resource is skipped exactly when some transitive dependency failed. */
  ghost predicate Contained(inp: Inputs, report: Report)
    requires report.Applied?
  {
    forall k :: k in inp.g.nodes ==>
      (k in report.skipped <==> exists d :: Reaches(inp.g.edges, k, d) && d in report.failed)
  }

  lemma ReportedSafely(inp: Inputs, run: Run, s: Sys, report: Report)
    requires Applies(inp, run) && Reachable(run, s) && Reports(report, s)
    ensures Complete(run, s) ==> Contained(inp, report)
    ensures forall k :: k in inp.st && k !in report.records ==> DeletionApproved(inp, run.flags, k)
  {
    if Complete(run, s) {
      FailureContainment(inp, run, s);
      forall k ensures k in report.skipped <==> k in s.skipped {
        assert k in Keys(report.skipped) <==> k in report.skipped;
      }
    }
    forall k | k in inp.st && k !in report.records ensures DeletionApproved(inp, run.flags, k) {
      NoUnapprovedDeletion(inp, run, s, k);
    }
  }

  // ---------------------------------------------------------------- a first deployment

  /** k's record is the one a successful reconcile of its manifest writes. */
  ghost predicate RecordedFresh(g: Graph, specHash: Envelope -> Option<string>, st: Recorded, k: Key)
    requires k in g.nodes
  {
    && k in st && specHash(g.nodes[k]) == Some(st[k].specHash) && !st[k].imported
    && st[k].lastApplied == Some(Normalized(g.nodes[k])) && st[k].dependencies == ReachSet(g.edges, k)
  }

  /** st holds what a first, fully successful apply of g writes. */
  ghost predicate DeployedAs(g: Graph, specHash: Envelope -> Option<string>, st: Recorded) {
    st.Keys == g.nodes.Keys && forall k :: k in g.nodes ==> RecordedFresh(g, specHash, st, k)
  }

  lemma FirstApplyRecords(inp: Inputs, run: Run, s: Sys)
    requires Applies(inp, run) && Reachable(run, s) && Complete(run, s)
    requires inp.st == map[] && (forall k :: run.world.reconciles(k))
    requires forall k :: k in inp.g.nodes ==> inp.specHash(inp.g.nodes[k]).Some?
    ensures DeployedAs(inp.g, inp.specHash, s.resources)
  {
    ReachableInvariant(run, s);
    forall k ensures !Breaks(run, k) {
      FirstApplyNeverBreaks(inp, run, k);
    }
    forall k ensures k in s.resources <==> k in inp.g.nodes {
      RecordedAtEnd(inp, run, s, k);
      FirstApplyRefreshes(inp, run, k);
    }
    forall k | k in inp.g.nodes ensures RecordedFresh(inp.g, inp.specHash, s.resources, k) {
      CompleteKey(run, s, k);
      FirstApplyRefreshes(inp, run, k);
      FirstRecord(inp, run, s.resources, k);
    }
  }

  lemma FirstRecord(inp: Inputs, run: Run, st: Recorded, k: Key)
    requires Applies(inp, run) && inp.st == map[] && k in inp.g.nodes && inp.specHash(inp.g.nodes[k]).Some?
    requires Refreshed(run, k) && Lookup(st, k) == FinalAt(run, k)
    ensures RecordedFresh(inp.g, inp.specHash, st, k)
  {
    DeclaredRecord(inp, run, k);
    PlannedEntry(inp, run, k);
    NewRecordIsFresh(inp, run, st, k);
  }

  lemma NewRecordIsFresh(inp: Inputs, run: Run, st: Recorded, k: Key)
    requires run.g == inp.g && run.init == inp.st == map[] && k in inp.g.nodes
    requires k in Entries(run) && Entries(run)[k] == ExpectedEntry(inp, k) && inp.specHash(inp.g.nodes[k]).Some?
    requires Lookup(st, k) == Some(NewRecord(run, k))
    ensures RecordedFresh(inp.g, inp.specHash, st, k)
  {
  }

  lemma FirstApplyNeverBreaks(inp: Inputs, run: Run, k: Key)
    requires Applies(inp, run) && inp.st == map[] && (forall x :: run.world.reconciles(x))
    ensures !Breaks(run, k)
  {
    PlannedEntry(inp, run, k);
    if k in inp.g.nodes {
      DeclaredVerb(inp, run, k);
    }
  }

  lemma FirstApplyRefreshes(inp: Inputs, run: Run, k: Key)
    requires Applies(inp, run) && inp.st == map[] && (forall x :: run.world.reconciles(x)) && (forall x :: !Breaks(run, x))
    ensures k in inp.g.nodes ==> Refreshed(run, k)
  {
    if k in inp.g.nodes {
      DeclaredVerb(inp, run, k);
      PendingUnfold(inp, k);
    }
  }

  /** Deploys a buildable set into empty records, every provider call succeeding. */
  method Deploy(envelopes: seq<Envelope>, refs: References, specHash: Envelope -> Option<string>)
    returns (st: Recorded, ghost g: Graph)
    requires Buildable(envelopes, refs) && forall e :: specHash(e).Some?
    ensures BuiltFrom(envelopes, refs, g) && DeployedAs(g, specHash, st)
  {
    var report, inp, run, s := Apply(envelopes, refs, map[], map[], specHash,
      Flags(false, false, false, false), World(_ => true, _ => true, _ => false, _ => ""));
    g := inp.g;
    st := report.records;
    FirstApplyRecords(inp, run, s);
  }
}
