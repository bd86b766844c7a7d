/** Planning again from the records an apply run leaves behind, finished or not. */
module Replan {
  import opened Resources
  import opened Reachability
  import opened DependencyGraph
  import opened Planner
  import opened ApplyMachine
  import opened ApplyResults

  /** The same manifests and fingerprints against the records of s. */
  function After(inp: Inputs, s: Sys): Inputs {
    inp.(st := s.resources)
  }

  /** k's new record, or its removal, has been saved. */
  ghost predicate Written(run: Run, s: Sys, k: Key) {
    Settled(s, k) && OutcomeOf(run, k) == HasSucceeded
  }

  /** Every declared secret came with a resolved fingerprint, as the apply path supplies them. */
  ghost predicate FingerprintsComplete(inp: Inputs) {
    forall k :: IsSecret(inp, k) ==> Fingerprint(inp, k) != ""
  }

  /** Records change exactly at the written keys. */
  lemma RecordsChangeWhereWritten(run: Run, s: Sys, k: Key)
    requires WellOrdered(run) && Reachable(run, s)
    ensures Lookup(s.resources, k) == if Written(run, s, k) then FinalAt(run, k) else Lookup(run.init, k)
    ensures k in s.succeeded ==> Written(run, s, k)
  {
    ReachableInvariant(run, s);
    assert KeyInvariant(run, s, k);
  }

  lemma ImportedKept(run: Run, st: Recorded, k: Key)
    requires k in Entries(run) && VerbOf(run, run.init, k) != Remove
    requires Lookup(st, k) == FinalAt(run, k) || Lookup(st, k) == Lookup(run.init, k)
    ensures WasImported(st, k) == WasImported(run.init, k)
  {
  }

  /** Being imported, and so the lifecycle of a declared resource, survives every write. */
  lemma LifecycleKept(inp: Inputs, run: Run, s: Sys, k: Key)
    requires Applies(inp, run) && Reachable(run, s) && k in inp.g.nodes
    ensures WasImported(s.resources, k) == WasImported(inp.st, k)
    ensures LifecycleIn(After(inp, s), k) == LifecycleIn(inp, k)
    ensures IsManaged(After(inp, s), k) == IsManaged(inp, k)
  {
    RecordsChangeWhereWritten(run, s, k);
    DeclaredVerb(inp, run, k);
    ImportedKept(run, s.resources, k);
  }

  // ---------------------------------------------------------------- written keys are up to date

  /** A secret below a written key holds its supplied fingerprint. */
  lemma SecretBelowMatches(inp: Inputs, run: Run, k: Key, d: Key)
    requires Applies(inp, run) && Step(inp.g.edges, k, d)
    requires OutcomeOf(run, k) == HasSucceeded
    requires IsSecret(inp, d) && Fingerprint(inp, d) != ""
    ensures FinalSecretHash(run, d) == Fingerprint(inp, d)
  {
    DeclaredVerb(inp, run, d);
    PlannedEntry(inp, run, d);
    ReachStep(inp.g.edges, k, d);
    BelowSucceeded(run, k, d);
  }

  /** A written record holds the secret hashes that its dependencies now have. */
  lemma WrittenHashes(run: Run, s: Sys, k: Key, d: Key)
    requires WellOrdered(run) && Reachable(run, s) && Written(run, s, k)
    requires VerbOf(run, run.init, k) == Reconcile && Reaches(run.g.edges, k, d)
    ensures RecordedDependencyHash(s.resources, k, d) == FinalSecretHash(run, d) == RecordedSecretHash(s.resources, d)
  {
    ReachableInvariant(run, s);
    assert KeyInvariant(run, s, k);
    var i :| At(run.plan.levels, i, k);
    DependenciesSettled(run, s, i, k);
    ReachSetExact(run.g.edges, k);
    assert Lookup(s.resources, k) == Some(NewRecord(run, k));
  }

  lemma WrittenHashCurrent(inp: Inputs, run: Run, s: Sys, k: Key, d: Key)
    requires WellOrdered(run) && run.g == inp.g && Reachable(run, s) && Written(run, s, k)
    requires VerbOf(run, run.init, k) == Reconcile && Reaches(inp.g.edges, k, d)
    requires IsSecret(inp, d) && Fingerprint(inp, d) != "" ==> FinalSecretHash(run, d) == Fingerprint(inp, d)
    ensures !DependencySecretChanged(After(inp, s), k, d)
  {
    WrittenHashes(run, s, k, d);
  }

  lemma WrittenSecretCurrent(inp: Inputs, run: Run, s: Sys, k: Key, d: Key)
    requires Applies(inp, run) && Reachable(run, s) && k in inp.g.nodes && Written(run, s, k)
    requires Step(inp.g.edges, k, d)
    ensures !DependencySecretChanged(After(inp, s), k, d)
  {
    DeclaredVerb(inp, run, k);
    ReachStep(inp.g.edges, k, d);
    if IsSecret(inp, d) && Fingerprint(inp, d) != "" {
      SecretBelowMatches(inp, run, k, d);
    }
    WrittenHashCurrent(inp, run, s, k, d);
  }

  /** A record with the current hashes calls for nothing. */
  lemma FreshRecordIsNoop(inp: Inputs, k: Key)
    requires k in inp.g.nodes && k in inp.st && inp.st[k].specHash == HashOf(inp, k)
    requires IsSecret(inp, k) && Fingerprint(inp, k) != "" ==> inp.st[k].secretHash == Fingerprint(inp, k)
    ensures DirectAction(inp, k) == Noop
  {
  }

  lemma WrittenRecord(run: Run, s: Sys, k: Key)
    requires WellOrdered(run) && Reachable(run, s) && Written(run, s, k) && VerbOf(run, run.init, k) != Remove
    ensures EnvelopeFor(run, k).Some? && Lookup(s.resources, k) == Some(NewRecord(run, k))
  {
    RecordsChangeWhereWritten(run, s, k);
  }

  lemma WrittenIsFresh(inp: Inputs, run: Run, s: Sys, k: Key)
    requires Applies(inp, run) && Reachable(run, s) && k in inp.g.nodes && Written(run, s, k)
    ensures DirectAction(After(inp, s), k) == Noop
  {
    DeclaredVerb(inp, run, k);
    PlannedEntry(inp, run, k);
    WrittenRecord(run, s, k);
    FreshlyRecorded(inp, run, s.resources, k);
  }

  lemma FreshlyRecorded(inp: Inputs, run: Run, st: Recorded, k: Key)
    requires run.g == inp.g && k in inp.g.nodes && k in Entries(run) && Entries(run)[k] == ExpectedEntry(inp, k)
    requires Lookup(st, k) == Some(NewRecord(run, k))
    ensures DirectAction(inp.(st := st), k) == Noop
  {
    FreshRecordIsNoop(inp.(st := st), k);
  }

  /** What a run has written, the next plan finds unchanged. */
  lemma WrittenNotSeed(inp: Inputs, run: Run, s: Sys, k: Key)
    requires Applies(inp, run) && Reachable(run, s) && k in inp.g.nodes && Written(run, s, k)
    ensures !Seed(After(inp, s), k)
  {
    WrittenIsFresh(inp, run, s, k);
    forall d | d in Direct(inp.g.edges, k) ensures !DependencySecretChanged(After(inp, s), k, d) {
      WrittenSecretCurrent(inp, run, s, k, d);
    }
  }

  /** A resource's own comparison reads only its own record. */
  lemma SameRecordSameAction(inp: Inputs, st: Recorded, k: Key)
    requires k in inp.g.nodes && Lookup(st, k) == Lookup(inp.st, k)
    ensures DirectAction(inp.(st := st), k) == DirectAction(inp, k)
    ensures forall d :: RecordedDependencyHash(st, k, d) == RecordedDependencyHash(inp.st, k, d)
  {
  }

  lemma UnwrittenDirectAction(inp: Inputs, run: Run, s: Sys, k: Key)
    requires Applies(inp, run) && Reachable(run, s) && k in inp.g.nodes && !Written(run, s, k)
    ensures DirectAction(After(inp, s), k) == DirectAction(inp, k)
    ensures forall d :: RecordedDependencyHash(s.resources, k, d) == RecordedDependencyHash(inp.st, k, d)
  {
    RecordsChangeWhereWritten(run, s, k);
    SameRecordSameAction(inp, s.resources, k);
  }

  // ---------------------------------------------------------------- what survives a partial apply

  /** The hash a dependent of the secret d is compared with once the run has got to s. */
  ghost function HashAfter(inp: Inputs, run: Run, s: Sys, d: Key): string {
    if Fingerprint(inp, d) != "" then Fingerprint(inp, d)
    else if Written(run, s, d) then FinalSecretHash(run, d)
    else RecordedSecretHash(inp.st, d)
  }

  /** k depends directly on a secret whose hash is not the one k's record holds. */
  ghost predicate SecretMoved(inp: Inputs, run: Run, s: Sys, k: Key) {
    exists d :: d in Direct(inp.g.edges, k) && IsSecret(inp, d)
                && HashAfter(inp, run, s, d) != "" && RecordedDependencyHash(inp.st, k, d) != HashAfter(inp, run, s, d)
  }

  /** Not written yet, and changed by its own record or by a secret it names directly. */
  ghost predicate UnfinishedSeed(inp: Inputs, run: Run, s: Sys, k: Key) {
    && k in inp.g.nodes && !Written(run, s, k)
    && (DirectAction(inp, k) != Noop || (IsManaged(inp, k) && SecretMoved(inp, run, s, k)))
  }

  lemma CurrentHashAfter(inp: Inputs, run: Run, s: Sys, d: Key)
    requires WellOrdered(run) && run.init == inp.st && Reachable(run, s)
    ensures CurrentSecretHash(After(inp, s), d) == HashAfter(inp, run, s, d)
  {
    RecordsChangeWhereWritten(run, s, d);
    HashOfLookup(s.resources, d);
    HashOfLookup(inp.st, d);
  }

  /** What is directly changed for the next plan, read off the first plan's inputs. */
  lemma SeedAfterPrefix(inp: Inputs, run: Run, s: Sys, k: Key)
    requires Applies(inp, run) && Reachable(run, s)
    ensures Seed(After(inp, s), k) <==> UnfinishedSeed(inp, run, s, k)
  {
    if k in inp.g.nodes && Written(run, s, k) {
      WrittenNotSeed(inp, run, s, k);
    } else if k in inp.g.nodes {
      UnwrittenDirectAction(inp, run, s, k);
      LifecycleKept(inp, run, s, k);
      forall d ensures CurrentSecretHash(After(inp, s), d) == HashAfter(inp, run, s, d) {
        CurrentHashAfter(inp, run, s, d);
      }
    }
  }

  /** With complete fingerprints, as the apply command supplies them, these are the seeds not yet written. */
  lemma UnfinishedSeedIsSeed(inp: Inputs, run: Run, s: Sys, k: Key)
    requires FingerprintsComplete(inp)
    ensures UnfinishedSeed(inp, run, s, k) <==> Seed(inp, k) && !Written(run, s, k)
  {
  }

  /** A chain of managed resources down to one that is directly changed and not written yet. */
  ghost predicate UnfinishedChain(inp: Inputs, run: Run, s: Sys, p: seq<Key>, k: Key) {
    && Walk(inp.g.edges, p) && p[0] == k
    && UnfinishedSeed(inp, run, s, p[|p| - 1])
    && forall i :: 0 <= i < |p| - 1 ==> IsManaged(inp, p[i])
  }

  /** The next plan's cascade chains are exactly the unfinished ones. */
  lemma ChainsAfterPrefix(inp: Inputs, run: Run, s: Sys, p: seq<Key>, k: Key)
    requires Applies(inp, run) && Reachable(run, s)
    ensures CascadeFrom(After(inp, s), p, k) <==> UnfinishedChain(inp, run, s, p, k)
  {
    if Walk(inp.g.edges, p) {
      SeedAfterPrefix(inp, run, s, p[|p| - 1]);
      forall i | 0 <= i < |p| - 1 ensures IsManaged(After(inp, s), p[i]) == IsManaged(inp, p[i]) {
        if p[i] in inp.g.nodes {
          LifecycleKept(inp, run, s, p[i]);
        }
      }
    }
  }

  /**
   * After any prefix of a run, the next plan reconciles a declared resource exactly when a chain of
   * managed resources leads from it to a directly changed resource the run has not written yet.
   */
  lemma ReplanAfterPrefix(inp: Inputs, run: Run, s: Sys, k: Key)
    requires Applies(inp, run) && Reachable(run, s)
    ensures Pending(After(inp, s), k) <==> exists p :: UnfinishedChain(inp, run, s, p, k)
  {
    forall p ensures CascadeFrom(After(inp, s), p, k) <==> UnfinishedChain(inp, run, s, p, k) {
      ChainsAfterPrefix(inp, run, s, p, k);
    }
  }

  /** The next plan passes over every declared resource, finished or not, exactly when nothing directly changed is left. */
  lemma CascadeIsForgotten(inp: Inputs, run: Run, s: Sys)
    requires Applies(inp, run) && Reachable(run, s)
    ensures (forall k :: k in inp.g.nodes ==> PlannedAction(After(inp, s), k) == Noop)
            <==> forall k :: !UnfinishedSeed(inp, run, s, k)
  {
    forall k ensures !Pending(After(inp, s), k) ==> !UnfinishedSeed(inp, run, s, k) {
      PendingUnfold(After(inp, s), k);
      SeedAfterPrefix(inp, run, s, k);
    }
    forall k | k in inp.g.nodes ensures PlannedAction(After(inp, s), k) == Noop <==> !Pending(After(inp, s), k) {
      NoopUnlessPending(After(inp, s), k);
    }
    forall k | Pending(After(inp, s), k) ensures exists x :: UnfinishedSeed(inp, run, s, x) {
      ReplanAfterPrefix(inp, run, s, k);
    }
  }

  /** Work that a record calls for is never forgotten: unfinished, it is listed again. */
  lemma UnfinishedIsListedAgain(inp: Inputs, run: Run, s: Sys, k: Key)
    requires Applies(inp, run) && Reachable(run, s) && !Written(run, s, k)
    ensures k in inp.g.nodes && DirectAction(inp, k) != Noop ==>
              PlannedAction(After(inp, s), k) == PlannedAction(inp, k) != Noop
    ensures UnfinishedSeed(inp, run, s, k) ==> Pending(After(inp, s), k)
    ensures FingerprintsComplete(inp) && Seed(inp, k) ==> Pending(After(inp, s), k)
    ensures k in inp.st && k !in inp.g.nodes ==>
              k in s.resources && ExpectedEntry(After(inp, s), k) == ExpectedEntry(inp, k)
  {
    RecordsChangeWhereWritten(run, s, k);
    if k in inp.g.nodes {
      UnwrittenDirectAction(inp, run, s, k);
      SeedAfterPrefix(inp, run, s, k);
      PendingUnfold(After(inp, s), k);
      if FingerprintsComplete(inp) {
        UnfinishedSeedIsSeed(inp, run, s, k);
      }
    }
  }

  // ---------------------------------------------------------------- the fixed point

  /** A run that ended with nothing failed and nothing skipped. */
  ghost predicate Clean(run: Run, s: Sys) {
    Reachable(run, s) && Complete(run, s) && s.failed == {} && s.skipped == {}
  }

  lemma CleanOutcome(inp: Inputs, run: Run, s: Sys, k: Key)
    requires Applies(inp, run) && Clean(run, s)
    ensures k in inp.g.nodes && Pending(inp, k) ==> Written(run, s, k)
    ensures k in inp.st && k !in inp.g.nodes ==> k !in s.resources
  {
    ReachableInvariant(run, s);
    CompleteKey(run, s, k);
    RecordsChangeWhereWritten(run, s, k);
    PlannedEntry(inp, run, k);
    if k in inp.g.nodes {
      DeclaredVerb(inp, run, k);
    }
  }

  /** A secret is written only because the plan asked for it. */
  lemma WrittenSecretWasPending(inp: Inputs, run: Run, s: Sys, e: Key)
    requires Applies(inp, run) && IsSecret(inp, e) && Written(run, s, e)
    ensures Pending(inp, e)
  {
    PlannedEntry(inp, run, e);
    NoopUnlessPending(inp, e);
  }

  /** What a secret's dependent compares with is unchanged unless the secret was pending. */
  lemma SameCurrentSecret(inp: Inputs, run: Run, s: Sys, e: Key)
    requires Applies(inp, run) && Reachable(run, s) && IsSecret(inp, e) && !Pending(inp, e)
    ensures CurrentSecretHash(After(inp, s), e) == CurrentSecretHash(inp, e)
  {
    if Written(run, s, e) {
      WrittenSecretWasPending(inp, run, s, e);
    }
    RecordsChangeWhereWritten(run, s, e);
  }

  lemma NoSeedAfterClean(inp: Inputs, run: Run, s: Sys, d: Key)
    requires Applies(inp, run) && Clean(run, s)
    ensures !Seed(After(inp, s), d)
  {
    if Written(run, s, d) && d in inp.g.nodes {
      WrittenNotSeed(inp, run, s, d);
    } else if d in inp.g.nodes {
      CleanOutcome(inp, run, s, d);
      UnwrittenDirectAction(inp, run, s, d);
      LifecycleKept(inp, run, s, d);
      PendingUnfold(inp, d);
      forall e | IsManaged(inp, d) && e in Direct(inp.g.edges, d) ensures !DependencySecretChanged(After(inp, s), d, e) {
        if IsSecret(inp, e) {
          SameCurrentSecret(inp, run, s, e);
        }
      }
    }
  }

  lemma OnlyDeclaredRemain(inp: Inputs, run: Run, s: Sys)
    requires Applies(inp, run) && Clean(run, s)
    ensures forall k :: k in s.resources ==> k in inp.g.nodes
  {
    forall k | k in s.resources ensures k in inp.g.nodes {
      CleanOutcome(inp, run, s, k);
      RecordsChangeWhereWritten(run, s, k);
      PlannedEntry(inp, run, k);
    }
  }

  /**
   * Plan/apply fixed point: after a run with nothing failed and nothing skipped, planning the same
   * manifests and fingerprints again gives only no-ops, and schedules exactly the declared keys.
   */
  lemma FixedPoint(inp: Inputs, run: Run, s: Sys, next: Plan)
    requires Applies(inp, run) && Clean(run, s) && PlanOf(After(inp, s), next)
    ensures forall i :: 0 <= i < |next.entries| ==> next.entries[i].action == Noop
    ensures forall k :: Scheduled(next.levels, k) <==> k in inp.g.nodes
  {
    var again := After(inp, s);
    OnlyDeclaredRemain(inp, run, s);
    forall i | 0 <= i < |next.entries| ensures next.entries[i].action == Noop {
      var k := next.entries[i].key;
      NoopUnlessPending(again, k);
      if p :| CascadeFrom(again, p, k) {
        NoSeedAfterClean(inp, run, s, p[|p| - 1]);
      }
    }
  }

  /** The next plan without any fingerprints, as the plan command computes it. */
  function Blind(inp: Inputs, s: Sys): Inputs {
    After(inp, s).(fingerprints := map[])
  }

  /** A secret that calls for nothing is recorded under its fingerprint, so leaving fingerprints out changes no comparison. */
  lemma SameHashWithoutFingerprint(inp: Inputs, d: Key)
    requires IsSecret(inp, d) && DirectAction(inp, d) == Noop
    ensures CurrentSecretHash(inp.(fingerprints := map[]), d) == CurrentSecretHash(inp, d)
  {
  }

  lemma NoSeedWithoutFingerprints(inp: Inputs, k: Key)
    requires forall x :: !Seed(inp, x)
    ensures !Seed(inp.(fingerprints := map[]), k)
  {
    var blind := inp.(fingerprints := map[]);
    if k in inp.g.nodes {
      assert !Seed(inp, k);
      assert DirectAction(inp, k) == Noop;
      assert DirectAction(blind, k) == Noop;
      forall d | IsManaged(inp, k) && d in Direct(inp.g.edges, k) ensures !DependencySecretChanged(blind, k, d) {
        if IsSecret(inp, d) {
          assert !Seed(inp, d);
          SameHashWithoutFingerprint(inp, d);
          assert !DependencySecretChanged(inp, k, d);
        }
      }
    }
  }

  /** After a clean run the plan command, which resolves no secret, shows only no-ops on exactly the declared keys. */
  lemma FixedPointWithoutFingerprints(inp: Inputs, run: Run, s: Sys, next: Plan)
    requires Applies(inp, run) && Clean(run, s) && PlanOf(Blind(inp, s), next)
    ensures forall i :: 0 <= i < |next.entries| ==> next.entries[i].action == Noop
    ensures forall k :: Scheduled(next.levels, k) <==> k in inp.g.nodes
  {
    forall k ensures !Seed(After(inp, s), k) {
      NoSeedAfterClean(inp, run, s, k);
    }
    OnlyDeclaredRemain(inp, run, s);
    forall i | 0 <= i < |next.entries| ensures next.entries[i].action == Noop {
      var k := next.entries[i].key;
      NoopUnlessPending(Blind(inp, s), k);
      if p :| CascadeFrom(Blind(inp, s), p, k) {
        NoSeedWithoutFingerprints(After(inp, s), p[|p| - 1]);
      }
    }
  }

  // ---------------------------------------------------------------- what a clean run leaves behind

  lemma CleanRecords(inp: Inputs, run: Run, s: Sys, k: Key)
    requires Applies(inp, run) && Clean(run, s)
    ensures EndsUnrecorded(inp, run, k) <==> k !in inp.g.nodes
    ensures KeepsRecord(inp, run, k) <==> k in inp.st && k in inp.g.nodes && !Refreshed(run, k)
  {
    ReachableInvariant(run, s);
    RecordedAtEnd(inp, run, s, k);
    CleanOutcome(inp, run, s, k);
    RecordsChangeWhereWritten(run, s, k);
    if k in inp.g.nodes && k !in inp.st {
      MissingIsCreated(inp, run, s, k);
    }
  }

  lemma MissingIsCreated(inp: Inputs, run: Run, s: Sys, k: Key)
    requires Applies(inp, run) && Clean(run, s) && k in inp.g.nodes && k !in inp.st
    ensures Refreshed(run, k)
  {
    assert DirectAction(inp, k) != Noop;
    PendingUnfold(inp, k);
    CleanOutcome(inp, run, s, k);
    DeclaredVerb(inp, run, k);
  }

  /**
   * Even a clean run can leave a record that names a dropped dependency: exactly the record of a
   * declared resource that was not reconciled, naming a key that is no longer declared.
   */
  lemma DanglesAfterClean(inp: Inputs, run: Run, s: Sys, d: Key, k: Key)
    requires Applies(inp, run) && Clean(run, s)
    ensures Dangles(s.resources, d, k) <==>
            d in inp.st && d in inp.g.nodes && !Refreshed(run, d) && k in inp.st[d].dependencies && k !in inp.g.nodes
  {
    DanglesExactly(inp, run, s, d, k);
    CleanRecords(inp, run, s, d);
    CleanRecords(inp, run, s, k);
  }
}
