/** The sequential executor: walks the plan level by level and updates records entry by entry. */
module ApplyEngine {
  import opened Resources
  import opened Reachability
  import opened DependencyGraph
  import opened Planner
  import opened ApplyMachine

  ghost function Keys(s: seq<Key>): set<Key> {
    set k | k in s
  }

  /** One entry run to its end without interleaving. */
  ghost function Processed(run: Run, s: Sys, k: Key): Sys
    requires k in Entries(run)
  {
    var admitted := Advance(run, s, k);
    if PhaseOf(admitted, k) == Done then admitted
    else Advance(run, Advance(run, admitted, k), k)
  }

  lemma ReachOneMore(run: Run, s: Sys, k: Key)
    requires Reachable(run, s) && Enabled(run, s, k)
    ensures Reachable(run, Advance(run, s, k))
  {
    var sched :| ReachedBy(run, s, sched);
    assert (sched + [k])[..|sched|] == sched;
    assert ReachedBy(run, Advance(run, s, k), sched + [k]);
  }

  lemma AdvancePhase(run: Run, s: Sys, k: Key)
    requires k in Entries(run)
    ensures forall x :: x != k ==> PhaseOf(Advance(run, s, k), x) == PhaseOf(s, x)
    ensures match PhaseOf(s, k)
            case Waiting => PhaseOf(Advance(run, s, k), k) in {Running, Done}
            case Running => PhaseOf(Advance(run, s, k), k).Wrote?
            case _ => PhaseOf(Advance(run, s, k), k) == Done
  {
  }

  /** Running an entry to its end is one of the machine's schedules. */
  lemma ProcessedReachable(run: Run, s: Sys, i: int, k: Key)
    requires Reachable(run, s) && k in Entries(run) && PhaseOf(s, k) == Waiting
    requires At(run.plan.levels, i, k) && BarrierUpTo(run, s, i)
    ensures Reachable(run, Processed(run, s, k))
    ensures PhaseOf(Processed(run, s, k), k) == Done
    ensures forall x :: x != k ==> PhaseOf(Processed(run, s, k), x) == PhaseOf(s, x)
  {
    assert Enabled(run, s, k);
    var t := Advance(run, s, k);
    AdvancePhase(run, s, k);
    ReachOneMore(run, s, k);
    if PhaseOf(t, k) != Done {
      FinishProcessing(run, t, i, k);
    }
  }

  lemma FinishProcessing(run: Run, t: Sys, i: int, k: Key)
    requires Reachable(run, t) && k in Entries(run) && PhaseOf(t, k) == Running && At(run.plan.levels, i, k)
    ensures var u := Advance(run, Advance(run, t, k), k);
            Reachable(run, u) && PhaseOf(u, k) == Done && forall x :: x != k ==> PhaseOf(u, x) == PhaseOf(t, x)
  {
    AdvancePhase(run, t, k);
    ReachOneMore(run, t, k);
    AdvancePhase(run, Advance(run, t, k), k);
    ReachOneMore(run, Advance(run, t, k), k);
  }

  /** Entries of the levels below i, and of the first j places of level i, are done; the rest wait. */
  ghost predicate DoneUpTo(run: Run, s: Sys, i: int, j: int) {
    && (forall l, k :: At(run.plan.levels, l, k) && k in Entries(run) && l < i ==> PhaseOf(s, k) == Done)
    && (forall l, k :: At(run.plan.levels, l, k) && k in Entries(run) && l > i ==> PhaseOf(s, k) == Waiting)
    && (0 <= i < |run.plan.levels| ==>
          forall x :: 0 <= x < |run.plan.levels[i]| && run.plan.levels[i][x] in Entries(run) ==>
            PhaseOf(s, run.plan.levels[i][x]) == if x < j then Done else Waiting)
  }

  lemma DoneOneMore(run: Run, s: Sys, t: Sys, i: int, j: int)
    requires Partitioned(run.plan.levels) && DoneUpTo(run, s, i, j)
    requires 0 <= i < |run.plan.levels| && 0 <= j < |run.plan.levels[i]|
    requires var k := run.plan.levels[i][j];
             if k in Entries(run)
             then PhaseOf(t, k) == Done && forall x :: x != k ==> PhaseOf(t, x) == PhaseOf(s, x)
             else t == s
    ensures DoneUpTo(run, t, i, j + 1)
  {
    assert At(run.plan.levels, i, run.plan.levels[i][j]);
  }

  lemma DoneNextLevel(run: Run, s: Sys, i: int)
    requires 0 <= i < |run.plan.levels| && DoneUpTo(run, s, i, |run.plan.levels[i]|)
    ensures DoneUpTo(run, s, i + 1, 0)
  {
    forall k | At(run.plan.levels, i, k) && k in Entries(run) ensures PhaseOf(s, k) == Done {
      var x :| 0 <= x < |run.plan.levels[i]| && run.plan.levels[i][x] == k;
    }
    if i + 1 < |run.plan.levels| {
      var next := run.plan.levels[i + 1];
      assert forall x :: 0 <= x < |next| ==> At(run.plan.levels, i + 1, next[x]);
    }
  }

  /** k has its initial record and no result. */
  ghost predicate NotRun(run: Run, s: Sys, k: Key) {
    Lookup(s.resources, k) == Lookup(run.init, k) && k !in s.succeeded && k !in s.failed && k !in s.skipped
  }

  /** The only failure is the j-th entry of level i, and nothing scheduled after it has run. */
  ghost predicate StoppedAt(run: Run, s: Sys, i: int, j: int) {
    && 0 <= i < |run.plan.levels| && 0 <= j < |run.plan.levels[i]| && s.failed == {run.plan.levels[i][j]}
    && (forall x :: j < x < |run.plan.levels[i]| ==> NotRun(run, s, run.plan.levels[i][x]))
    && (forall l, k :: i < l && At(run.plan.levels, l, k) ==> NotRun(run, s, k))
  }

  lemma WaitingHasNotRun(run: Run, s: Sys, k: Key)
    requires WellOrdered(run) && Reachable(run, s) && (k in Entries(run) ==> PhaseOf(s, k) == Waiting)
    ensures NotRun(run, s, k)
  {
    ReachableInvariant(run, s);
    assert KeyInvariant(run, s, k);
  }

  lemma AdvanceFails(run: Run, s: Sys, k: Key)
    requires k in Entries(run)
    ensures Advance(run, s, k).failed <= s.failed + {k}
  {
  }

  lemma OnlyItsOwnFailure(run: Run, s: Sys, k: Key)
    requires k in Entries(run)
    ensures Processed(run, s, k).failed <= s.failed + {k}
  {
    var t := Advance(run, s, k);
    var u := Advance(run, t, k);
    AdvanceFails(run, s, k);
    AdvanceFails(run, t, k);
    AdvanceFails(run, u, k);
  }

  lemma StopsThere(run: Run, s: Sys, i: int, j: int)
    requires WellOrdered(run) && Reachable(run, s) && DoneUpTo(run, s, i, j + 1)
    requires 0 <= i < |run.plan.levels| && 0 <= j < |run.plan.levels[i]|
    requires s.failed != {} && s.failed <= {run.plan.levels[i][j]}
    ensures StoppedAt(run, s, i, j)
  {
    assert s.failed == {run.plan.levels[i][j]};
    forall x | j < x < |run.plan.levels[i]| ensures NotRun(run, s, run.plan.levels[i][x]) {
      WaitingHasNotRun(run, s, run.plan.levels[i][x]);
    }
    forall l, k | i < l && At(run.plan.levels, l, k) ensures NotRun(run, s, k) {
      WaitingHasNotRun(run, s, k);
    }
  }

  lemma StartsWaiting(run: Run)
    ensures Reachable(run, Init(run)) && DoneUpTo(run, Init(run), 0, 0)
  {
    assert ReachedBy(run, Init(run), []);
    assert forall k :: PhaseOf(Init(run), k) == Waiting;
  }

  lemma EndsComplete(run: Run, s: Sys)
    requires DoneUpTo(run, s, |run.plan.levels|, 0)
    ensures Complete(run, s)
  {
    forall k | Runs(run, k) ensures PhaseOf(s, k) == Done {
      var l :| At(run.plan.levels, l, k);
    }
  }

  class ApplyRun {
    const run: Run
    var resources: Recorded
    var blocked: set<Key>
    var succeeded: seq<Key>
    var failed: set<Key>
    var skipped: seq<Key>
    ghost var phase: map<Key, Phase>

    constructor (run: Run)
      ensures this.run == run && View() == Init(run)
    {
      this.run := run;
      resources, blocked := run.init, {};
      succeeded, failed, skipped := [], {}, [];
      phase := map[];
    }

    ghost function View(): Sys
      reads this
    {
      Sys(resources, blocked, Keys(succeeded), failed, Keys(skipped), phase)
    }

    /** The secret hashes of the transitive dependencies, where recorded. */
    method DependencyHashes(deps: set<Key>) returns (hashes: map<Key, string>)
      ensures hashes == map d | d in deps && RecordedSecretHash(resources, d) != "" :: RecordedSecretHash(resources, d)
    {
      hashes := map[];
      var todo := deps;
      while todo != {}
        invariant todo <= deps
        invariant hashes == map d | d in deps - todo && RecordedSecretHash(resources, d) != "" :: RecordedSecretHash(resources, d)
        decreases todo
      {
        var dep :| dep in todo;
        todo := todo - {dep};
        if RecordedSecretHash(resources, dep) != "" {
          hashes := hashes[dep := RecordedSecretHash(resources, dep)];
        }
      }
    }

    /** Reconciles one resource and records it; nothing is recorded on failure. */
    method ReconcileOne(k: Key, entry: Entry, env: Envelope) returns (ok: bool)
      requires k in Entries(run) && entry == Entries(run)[k] && EnvelopeFor(run, k) == Some(env)
      modifies this`resources
      ensures ok == run.world.reconciles(k)
      ensures !ok ==> resources == old(resources)
      ensures ok ==> resources == old(resources[k :=
                RecordWith(run, k, WasImported(resources, k), DependencyHashesFrom(run, resources, k))])
    {
      ok := run.world.reconciles(k);
      if ok {
        var secretHash := "";
        if LookupKindHandler(env) == SecretReferenceHandler {
          secretHash := if entry.secretHash != "" then entry.secretHash else run.world.fingerprint(k);
        }
        var deps := Dependencies(run.g, k);
        var hashes := DependencyHashes(deps);
        ReachSetExact(run.g.edges, k);
        assert deps == ReachSet(run.g.edges, k);
        var imported := k in resources && resources[k].imported;
        resources := resources[k := ResourceState(entry.specHash, secretHash, imported, Some(Normalized(env)), deps, hashes)];
      }
    }

    /** Deletes one resource during apply, or refuses. */
    method ApplyDeleteOne(k: Key, env: Envelope) returns (ok: bool)
      modifies this`resources
      ensures ok == (DeleteApproved(run, old(resources), k, env) && (StateOnlyDelete(env) || run.world.destroys(k)))
      ensures resources == if ok then old(resources) - {k} else old(resources)
    {
      var lifecycle := LifecycleOf(env, k in resources && resources[k].imported);
      if lifecycle == External && !run.flags.allowDestructive {
        return false;
      }
      if lifecycle == Imported && !run.flags.allowImportedDeletes {
        return false;
      }
      if !StateOnlyDelete(env) && !run.world.destroys(k) {
        return false;
      }
      resources := resources - {k};
      ok := true;
    }

    /** The admitted entry's provider work and bookkeeping. */
    method Execute(k: Key, entry: Entry, env: Envelope)
      requires k in Entries(run) && entry == Entries(run)[k] && EnvelopeFor(run, k) == Some(env)
      requires VerbOf(run, resources, k) == if entry.action == Delete then Remove else Reconcile
      requires PhaseOf(View(), k) == Running
      modifies this
      ensures View() == Advance(run, Advance(run, old(View()), k), k)
    {
      var ok;
      if entry.action == Delete {
        ok := ApplyDeleteOne(k, env);
      } else {
        ok := ReconcileOne(k, entry, env);
      }
      phase := phase[k := Wrote(ok)];
      assert View() == Advance(run, old(View()), k);
      phase := phase[k := Done];
      if !ok {
        failed := failed + {k};
        var dependents := Dependents(run.g, k);
        DependentSetExact(run.g, k);
        assert dependents == DependentSet(run.g, k);
        blocked := blocked + dependents;
      } else {
        succeeded := succeeded + [k];
        assert Keys(succeeded) == old(Keys(succeeded)) + {k};
      }
    }

    method ProcessEntry(k: Key, entry: Entry)
      requires k in Entries(run) && entry == Entries(run)[k] && PhaseOf(View(), k) == Waiting
      modifies this
      ensures View() == Processed(run, old(View()), k)
    {
      if k in blocked {
        skipped := skipped + [k];
        phase := phase[k := Done];
        assert Keys(skipped) == old(Keys(skipped)) + {k};
        return;
      }
      var found := EnvelopeFor(run, k);
      if entry.action == OrphanUnknown || entry.action == Refused || found.None? {
        failed := failed + {k};
        phase := phase[k := Done];
        return;
      }
      var env := found.value;
      if entry.action == Noop {
        if !run.flags.healDrift || k !in resources || LifecycleOf(env, resources[k].imported) != Managed
           || !Drifts(run, k, env)
        {
          phase := phase[k := Done];
          return;
        }
      }
      phase := phase[k := Running];
      assert View() == Advance(run, old(View()), k);
      Execute(k, entry, env);
    }

    /** Runs the entries of one level in order. */
    method ApplyLevel(i: nat) returns (halted: bool)
      requires WellOrdered(run) && i < |run.plan.levels|
      requires Reachable(run, View()) && DoneUpTo(run, View(), i, 0) && (run.flags.haltOnError ==> failed == {})
      modifies this
      ensures Reachable(run, View())
      ensures halted ==> run.flags.haltOnError && exists j :: StoppedAt(run, View(), i, j)
      ensures !halted ==> DoneUpTo(run, View(), i + 1, 0) && (run.flags.haltOnError ==> failed == {})
    {
      var entryByKey := EntryMap(run.plan.entries);
      var level := run.plan.levels[i];
      var j := 0;
      while j < |level|
        invariant 0 <= j <= |level|
        invariant Reachable(run, View()) && DoneUpTo(run, View(), i, j)
        invariant run.flags.haltOnError ==> failed == {}
      {
        var k := level[j];
        ghost var before := View();
        if k in entryByKey {
          assert At(run.plan.levels, i, k);
          ProcessedReachable(run, before, i, k);
          OnlyItsOwnFailure(run, before, k);
          ProcessEntry(k, entryByKey[k]);
        }
        DoneOneMore(run, before, View(), i, j);
        assert View().failed <= before.failed + {k};
        if run.flags.haltOnError && failed != {} {
          StopsThere(run, View(), i, j);
          return true;
        }
        j := j + 1;
      }
      DoneNextLevel(run, View(), i);
      halted := false;
    }

    /**
     * Walks the levels one entry at a time. What it reaches is reachable by the machine. With
     * halt-on-error it stops at the first failure, and nothing scheduled later runs; otherwise every
     * entry is run.
     */
    method Apply() returns (halted: bool)
      requires WellOrdered(run) && View() == Init(run)
      modifies this
      ensures Reachable(run, View())
      ensures halted ==> run.flags.haltOnError && exists i, j :: StoppedAt(run, View(), i, j)
      ensures !halted ==> Complete(run, View()) && (run.flags.haltOnError ==> failed == {})
    {
      StartsWaiting(run);
      var i := 0;
      while i < |run.plan.levels|
        invariant 0 <= i <= |run.plan.levels|
        invariant Reachable(run, View()) && DoneUpTo(run, View(), i, 0)
        invariant run.flags.haltOnError ==> failed == {}
      {
        halted := ApplyLevel(i);
        if halted {
          return;
        }
        i := i + 1;
      }
      EndsComplete(run, View());
      halted := false;
    }
  }
}
