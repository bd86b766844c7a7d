/** What an apply run and a teardown do to every key, in terms of manifests, records, flags and call outcomes. */
module RunLaws {
  import opened Resources
  import opened Reachability
  import opened DependencyGraph
  import opened Planner
  import opened ApplyMachine
  import opened ManifestFields
  import opened ApplyResults
  import opened Replan
  import opened PlanLaws
  import opened DestroyEngine

  // ---------------------------------------------------------------- apply

  /** The run calls k's provider: the plan acts on k, or healing finds a managed k drifted; an unresolvable secret has drifted. */
  ghost predicate Tries(inp: Inputs, run: Run, k: Key)
    requires k in inp.g.nodes
  {
    || ActsOn(run.plan, k)
    || (run.flags.healDrift && k in inp.st && !MarkedExternal(inp.g.nodes[k]) && !inp.st[k].imported
        && if inp.g.nodes[k].kind == "SecretReference" then !run.world.reconciles(k) else run.world.drifted(k))
  }

  ghost predicate WouldFail(inp: Inputs, run: Run, k: Key) {
    k in inp.g.nodes && Tries(inp, run, k) && !run.world.reconciles(k)
  }

  ghost predicate FailsBelow(inp: Inputs, run: Run, k: Key) {
    exists d :: Reaches(inp.g.edges, k, d) && WouldFail(inp, run, d)
  }

  lemma TriesIsActive(inp: Inputs, run: Run, k: Key)
    requires Applies(inp, run) && k in inp.g.nodes
    ensures Tries(inp, run, k) <==> Active(run, k)
    ensures WouldFail(inp, run, k) <==> Breaks(run, k)
  {
    DeclaredVerb(inp, run, k);
    PlannedEntry(inp, run, k);
    NoopUnlessPending(inp, k);
    ActsOnPending(inp, run.plan, k);
  }

  lemma FailsBelowIsTainted(inp: Inputs, run: Run, k: Key)
    requires Applies(inp, run)
    ensures FailsBelow(inp, run, k) <==> Tainted(run, k)
  {
    forall d | Reaches(inp.g.edges, k, d) ensures WouldFail(inp, run, d) <==> Breaks(run, d) {
      ReachesNodes(inp.g, k, d);
      TriesIsActive(inp, run, d);
    }
  }

  /** When a run ends: who was skipped, who failed, who succeeded, among the declared resources. */
  lemma DeclaredOutcomeLaw(inp: Inputs, run: Run, s: Sys, k: Key)
    requires Applies(inp, run) && Reachable(run, s) && Complete(run, s) && k in inp.g.nodes
    ensures k in s.skipped <==> FailsBelow(inp, run, k)
    ensures k in s.failed <==> WouldFail(inp, run, k) && !FailsBelow(inp, run, k)
    ensures k in s.succeeded <==> Tries(inp, run, k) && run.world.reconciles(k) && !FailsBelow(inp, run, k)
  {
    ReachableInvariant(run, s);
    CompleteKey(run, s, k);
    DeclaredVerb(inp, run, k);
    TriesIsActive(inp, run, k);
    FailsBelowIsTainted(inp, run, k);
  }

  /** e with its namespace filled in. */
  ghost function InItsNamespace(e: Envelope): Envelope {
    e.(metadata := e.metadata.(namespace := HomeNamespace(e)))
  }

  /** At any point of a run, what is recorded of a declared resource that has succeeded. */
  lemma RecordLaw(inp: Inputs, run: Run, s: Sys, k: Key)
    requires Applies(inp, run) && Reachable(run, s) && Hashable(inp) && k in inp.g.nodes && k in s.succeeded
    ensures k in s.resources && Some(s.resources[k].specHash) == inp.specHash(inp.g.nodes[k])
    ensures s.resources[k].lastApplied == Some(InItsNamespace(inp.g.nodes[k]))
    ensures s.resources[k].imported <==> k in inp.st && inp.st[k].imported
    ensures s.resources[k].secretHash ==
            if inp.g.nodes[k].kind != "SecretReference" then ""
            else if HasFingerprint(inp, k) then inp.fingerprints[k] else run.world.fingerprint(k)
    ensures forall d :: d in s.resources[k].dependencies <==> Reaches(inp.g.edges, k, d)
  {
    RecordsChangeWhereWritten(run, s, k);
    DeclaredVerb(inp, run, k);
    PlannedEntry(inp, run, k);
    WrittenRecord(run, s, k);
    ReachSetExact(inp.g.edges, k);
  }

  /** Such a record holds exactly the secret hashes that its dependencies have on record. */
  lemma RecordedHashesLaw(inp: Inputs, run: Run, s: Sys, k: Key, d: Key, h: string)
    requires Applies(inp, run) && Reachable(run, s) && k in inp.g.nodes && k in s.succeeded
    ensures k in s.resources
    ensures d in s.resources[k].dependencyHashes && s.resources[k].dependencyHashes[d] == h <==>
            Reaches(inp.g.edges, k, d) && h != "" && d in s.resources && s.resources[d].secretHash == h
  {
    RecordsChangeWhereWritten(run, s, k);
    DeclaredVerb(inp, run, k);
    WrittenRecord(run, s, k);
    ReachSetExact(inp.g.edges, k);
    if Reaches(inp.g.edges, k, d) {
      WrittenHashes(run, s, k, d);
    }
  }

  // ---------------------------------------------------------------- teardown

  /** The flags and the records ask for k to be torn down. */
  ghost predicate WouldDelete(td: Teardown, k: Key)
    requires k in td.g.nodes
  {
    if MarkedExternal(td.g.nodes[k]) then td.includeExternal
    else k in td.init && (td.init[k].imported ==> td.includeImported)
  }

  /** k's own teardown is permitted and works. */
  ghost predicate CanGo(td: Teardown, k: Key)
    requires k in td.g.nodes
  {
    && (MarkedExternal(td.g.nodes[k]) ==> td.allowDestructive)
    && (Unrealized(td.g.nodes[k]) || td.destroys(k))
  }

  ghost predicate HoldsBack(td: Teardown, d: Key) {
    d in td.g.nodes && WouldDelete(td, d) && (Protected(td, d) || !CanGo(td, d))
  }

  ghost predicate HeldBack(td: Teardown, k: Key) {
    exists d :: Reaches(td.g.edges, d, k) && HoldsBack(td, d)
  }

  /** The planned action of every resource. */
  lemma TeardownEntryLaw(td: Teardown, p: Plan, i: nat)
    requires TeardownPlanOf(td, p) && i < |p.entries|
    ensures var k, action := p.entries[i].key, p.entries[i].action;
            && k in td.g.nodes
            && (action == Refused <==> WouldDelete(td, k) && Protected(td, k))
            && (action == Delete <==> WouldDelete(td, k) && !Protected(td, k))
            && (action == Noop <==> !WouldDelete(td, k))
  {
  }

  lemma HoldsBackIsStays(td: Teardown, d: Key)
    ensures HoldsBack(td, d) <==> Stays(td, d)
  {
    if d in td.g.nodes {
      UnrealizedIsStateOnly(td.g.nodes[d]);
    }
  }

  /** When a teardown ends: who was destroyed, who failed or was refused, who was skipped. */
  lemma TeardownOutcomeLaw(td: Teardown, p: Plan, r: Results, k: Key)
    requires TeardownPlanOf(td, p) && TornDown(td, EntryKeys(p.entries), r) && k in td.g.nodes
    ensures k in r.succeeded <==> WouldDelete(td, k) && !Protected(td, k) && CanGo(td, k) && !HeldBack(td, k)
    ensures k in r.failed <==> WouldDelete(td, k) && (Protected(td, k) || (!CanGo(td, k) && !HeldBack(td, k)))
    ensures k in r.skipped <==> WouldDelete(td, k) && !Protected(td, k) && HeldBack(td, k)
  {
    UnrealizedIsStateOnly(td.g.nodes[k]);
    forall d ensures HoldsBack(td, d) <==> Stays(td, d) {
      HoldsBackIsStays(td, d);
    }
    assert HeldBack(td, k) <==> Held(td, k);
  }
}
