/** Applying a computed plan: failure containment, approvals, and records that outlive what they depend on. */
module ApplyResults {
  import opened Resources
  import opened Reachability
  import opened DependencyGraph
  import opened Planner
  import opened ManifestFields
  import opened ApplyMachine

  /** run executes a plan computed from inp. */
  ghost predicate Applies(inp: Inputs, run: Run) {
    && Accepted(inp.g) && PlanOf(inp, run.plan)
    && run.g == inp.g && run.init == inp.st
  }

  lemma {:induction false} EntryMapExact(entries: seq<Entry>, k: Key)
    ensures k in EntryMap(entries) <==> exists i :: 0 <= i < |entries| && entries[i].key == k
    ensures k in EntryMap(entries) ==> exists i :: 0 <= i < |entries| && entries[i].key == k && EntryMap(entries)[k] == entries[i]
  {
    if entries != [] {
      var n := |entries| - 1;
      EntryMapExact(entries[..n], k);
      assert forall i :: 0 <= i < n ==> entries[..n][i] == entries[i];
    }
  }

  /** Every declared or recorded key runs, with the entry its inputs call for. */
  lemma PlannedEntry(inp: Inputs, run: Run, k: Key)
    requires Applies(inp, run)
    ensures Runs(run, k) <==> k in inp.g.nodes || k in inp.st
    ensures k in Entries(run) ==> Runs(run, k)
    ensures Runs(run, k) ==> Entries(run)[k] == ExpectedEntry(inp, k)
  {
    var entries := run.plan.entries;
    EntryMapExact(entries, k);
    FlattenMembers(run.plan.levels, k);
    assert forall i :: 0 <= i < |entries| ==> EntryKeys(entries)[i] == entries[i].key;
    if k in Flatten(run.plan.levels) {
      var i :| 0 <= i < |entries| && EntryKeys(entries)[i] == k;
      assert entries[i].key == k;
    }
  }

  /** A declared resource always reaches its provider when its plan entry asks for work. */
  lemma DeclaredVerb(inp: Inputs, run: Run, k: Key)
    requires Applies(inp, run) && k in inp.g.nodes
    ensures Runs(run, k)
    ensures VerbOf(run, run.init, k) in {Idle, Reconcile}
    ensures Pending(inp, k) ==> VerbOf(run, run.init, k) == Reconcile
  {
    PlannedEntry(inp, run, k);
    NoopUnlessPending(inp, k);
  }

  // ---------------------------------------------------------------- failure containment

  /**
   * When a run ends, a declared resource is skipped exactly when some transitive dependency failed,
   * every planned key has one outcome, and keys without one keep their record.
   */
  lemma FailureContainment(inp: Inputs, run: Run, s: Sys)
    requires Applies(inp, run) && Reachable(run, s) && Complete(run, s)
    ensures forall k :: k in inp.g.nodes ==>
              (k in s.skipped <==> exists d :: Reaches(inp.g.edges, k, d) && d in s.failed)
    ensures s.succeeded !! s.failed && s.succeeded !! s.skipped && s.failed !! s.skipped
    ensures forall k :: (k in inp.g.nodes || k in inp.st) && k !in s.succeeded + s.failed + s.skipped ==>
              k in inp.g.nodes && PlannedAction(inp, k) == Noop && Lookup(s.resources, k) == Lookup(inp.st, k)
    ensures forall k :: k in s.failed + s.skipped ==> Lookup(s.resources, k) == Lookup(inp.st, k)
  {
    ReachableInvariant(run, s);
    forall k ensures KeyInvariant(run, s, k) {}
    forall k | k in inp.g.nodes
      ensures k in s.skipped <==> exists d :: Reaches(inp.g.edges, k, d) && d in s.failed
    {
      SkippedIffDependencyFailed(inp, run, s, k);
    }
    forall k | (k in inp.g.nodes || k in inp.st) && k !in s.succeeded + s.failed + s.skipped
      ensures k in inp.g.nodes && PlannedAction(inp, k) == Noop && Lookup(s.resources, k) == Lookup(inp.st, k)
    {
      UntouchedIsNoop(inp, run, s, k);
    }
    forall k | k in s.failed + s.skipped ensures Lookup(s.resources, k) == Lookup(inp.st, k) {
      assert KeyInvariant(run, s, k);
    }
    forall k ensures !(k in s.succeeded && k in s.failed) && !(k in s.succeeded && k in s.skipped)
                     && !(k in s.failed && k in s.skipped) {
      assert KeyInvariant(run, s, k);
    }
  }

  lemma SkippedIffDependencyFailed(inp: Inputs, run: Run, s: Sys, k: Key)
    requires Applies(inp, run) && Invariant(run, s) && Complete(run, s) && k in inp.g.nodes
    ensures k in s.skipped <==> exists d :: Reaches(inp.g.edges, k, d) && d in s.failed
  {
    DeclaredVerb(inp, run, k);
    CompleteKey(run, s, k);
    if Tainted(run, k) {
      var m := TaintHasFailedRoot(run, s, k);
    }
    if d :| Reaches(inp.g.edges, k, d) && d in s.failed {
      FailedDependencyBreaks(inp, run, s, k, d);
    }
  }

  lemma TaintHasFailedRoot(run: Run, s: Sys, k: Key) returns (m: Key)
    requires WellOrdered(run) && Invariant(run, s) && Complete(run, s) && Tainted(run, k)
    ensures Reaches(run.g.edges, k, m) && m in s.failed
  {
    m := MinimalReached(run.g.edges, (iset d | Breaks(run, d)), k);
    assert !Tainted(run, m);
    CompleteKey(run, s, m);
  }

  lemma FailedDependencyBreaks(inp: Inputs, run: Run, s: Sys, k: Key, d: Key)
    requires Applies(inp, run) && Invariant(run, s) && Complete(run, s)
    requires Reaches(inp.g.edges, k, d) && d in s.failed
    ensures Breaks(run, d)
  {
    ReachesNodes(inp.g, k, d);
    DeclaredVerb(inp, run, d);
    CompleteKey(run, s, d);
  }

  /** Nothing below a key that succeeded would fail. */
  lemma BelowSucceeded(run: Run, k: Key, d: Key)
    requires !Tainted(run, k) && Reaches(run.g.edges, k, d)
    ensures !Breaks(run, d) && !Tainted(run, d)
  {
    if Tainted(run, d) {
      var e :| Reaches(run.g.edges, d, e) && Breaks(run, e);
      ReachTransitive(run.g.edges, k, d, e);
    }
  }

  lemma UntouchedIsNoop(inp: Inputs, run: Run, s: Sys, k: Key)
    requires Applies(inp, run) && Invariant(run, s) && Complete(run, s)
    requires k in inp.g.nodes || k in inp.st
    requires k !in s.succeeded + s.failed + s.skipped
    ensures k in inp.g.nodes && PlannedAction(inp, k) == Noop && Lookup(s.resources, k) == Lookup(inp.st, k)
  {
    PlannedEntry(inp, run, k);
    CompleteKey(run, s, k);
    if k in inp.g.nodes {
      DeclaredVerb(inp, run, k);
      NoopUnlessPending(inp, k);
    }
  }

  // ---------------------------------------------------------------- approvals

  /** The declared reasons for which authoritative apply may delete a record. */
  ghost predicate DeletionApproved(inp: Inputs, flags: Flags, k: Key) {
    && k in inp.st && k !in inp.g.nodes
    && inp.st[k].lastApplied.Some?
    && !inp.st[k].lastApplied.value.metadata.protect
    && (MarkedExternal(inp.st[k].lastApplied.value) ==> flags.allowDestructive)
    && (inp.st[k].imported && !MarkedExternal(inp.st[k].lastApplied.value) ==> flags.allowImportedDeletes)
  }

  /** At every point of every run, a key is gone from the records only with approval. */
  lemma NoUnapprovedDeletion(inp: Inputs, run: Run, s: Sys, k: Key)
    requires Applies(inp, run) && Reachable(run, s)
    requires k in inp.st && k !in s.resources
    ensures DeletionApproved(inp, run.flags, k)
    ensures k in Entries(run) && Entries(run)[k].action == Delete
  {
    ReachableInvariant(run, s);
    assert KeyInvariant(run, s, k);
    PlannedEntry(inp, run, k);
    if k in inp.g.nodes {
      DeclaredVerb(inp, run, k);
    }
  }

  /** k is approved for deletion, and forgetting it or its provider's destroy works. */
  ghost predicate Removed(inp: Inputs, run: Run, k: Key) {
    && DeletionApproved(inp, run.flags, k)
    && (Unrealized(inp.st[k].lastApplied.value) || run.world.destroys(k))
  }

  /** Undeclared keys have no edges, so nothing taints them. */
  lemma UndeclaredOutcome(inp: Inputs, run: Run, k: Key)
    requires Applies(inp, run) && k in inp.st && k !in inp.g.nodes
    ensures OutcomeOf(run, k) == if Removed(inp, run, k) then HasSucceeded else HasFailed
    ensures FinalAt(run, k) == if Removed(inp, run, k) then None else Some(inp.st[k])
  {
    PlannedEntry(inp, run, k);
    if inp.st[k].lastApplied.Some? {
      UnrealizedIsStateOnly(inp.st[k].lastApplied.value);
    }
    if Tainted(run, k) {
      var d :| Reaches(run.g.edges, k, d) && Breaks(run, d);
      ReachesNodes(run.g, k, d);
    }
  }

  /** The kind table forgets a record without a provider call exactly for what nothing realizes. */
  lemma UnrealizedIsStateOnly(e: Envelope)
    ensures StateOnlyDelete(e) <==> Unrealized(e)
  {
    ReferenceSet(e, "providerRef");
  }

  /**
   * Authoritative deletes succeed on their own merits: what becomes of a key's dependents plays no
   * part, so a refused or failed delete does not protect what it depends on.
   */
  lemma ApplyDeletesExactly(inp: Inputs, run: Run, s: Sys, k: Key)
    requires Applies(inp, run) && Reachable(run, s) && Complete(run, s)
    requires k in inp.st && k !in inp.g.nodes
    ensures k !in s.resources <==> Removed(inp, run, k)
    ensures k in s.resources ==> s.resources[k] == inp.st[k] && k in s.failed
  {
    ReachableInvariant(run, s);
    CompleteKey(run, s, k);
    UndeclaredOutcome(inp, run, k);
  }

  // ---------------------------------------------------------------- records that outlive their dependencies

  /** d is recorded as depending on k, and k is not recorded. */
  predicate Dangles(st: Recorded, d: Key, k: Key) {
    d in st && k in st[d].dependencies && k !in st
  }

  /** d is reconciled: there is work, no transitive dependency fails, and its own reconcile works. */
  ghost predicate Refreshed(run: Run, d: Key) {
    Runs(run, d) && VerbOf(run, run.init, d) == Reconcile && !Tainted(run, d) && run.world.reconciles(d)
  }

  /** d keeps the record it had: not refreshed when declared, not removed when no longer declared. */
  ghost predicate KeepsRecord(inp: Inputs, run: Run, d: Key) {
    d in inp.st && if d in inp.g.nodes then !Refreshed(run, d) else !Removed(inp, run, d)
  }

  /** k ends up unrecorded: removed, or never there and not created. */
  ghost predicate EndsUnrecorded(inp: Inputs, run: Run, k: Key) {
    if k in inp.st then Removed(inp, run, k) else !(k in inp.g.nodes && Refreshed(run, k))
  }

  lemma DeclaredRecord(inp: Inputs, run: Run, k: Key)
    requires Applies(inp, run) && k in inp.g.nodes
    ensures FinalAt(run, k) == if Refreshed(run, k) then Some(NewRecord(run, k)) else Lookup(inp.st, k)
    ensures EnvelopeFor(run, k).Some?
  {
    DeclaredVerb(inp, run, k);
  }

  lemma RecordedAtEnd(inp: Inputs, run: Run, s: Sys, k: Key)
    requires Applies(inp, run) && Invariant(run, s) && Complete(run, s)
    ensures k !in s.resources <==> EndsUnrecorded(inp, run, k)
    ensures KeepsRecord(inp, run, k) ==> k in s.resources && s.resources[k] == inp.st[k]
    ensures k in s.resources && !KeepsRecord(inp, run, k) ==>
              k in inp.g.nodes && Refreshed(run, k) && s.resources[k].dependencies == ReachSet(inp.g.edges, k)
  {
    CompleteKey(run, s, k);
    PlannedEntry(inp, run, k);
    if k in inp.g.nodes {
      DeclaredRecord(inp, run, k);
    } else if k in inp.st {
      UndeclaredOutcome(inp, run, k);
    }
  }

  /** Everything a refreshed resource depends on is recorded in the end. */
  lemma RefreshedRestsOnRecorded(inp: Inputs, run: Run, d: Key, k: Key)
    requires Applies(inp, run) && Refreshed(run, d) && Reaches(inp.g.edges, d, k)
    ensures !EndsUnrecorded(inp, run, k)
  {
    ReachesNodes(inp.g, d, k);
    DeclaredVerb(inp, run, k);
    NoopUnlessPending(inp, k);
    PendingUnfold(inp, k);
    BelowSucceeded(run, d, k);
  }

  /**
   * Which records outlive what they depend on, after any complete run: exactly the old records that
   * are kept and name a key that ends up unrecorded. A fresh record never does.
   */
  lemma DanglesExactly(inp: Inputs, run: Run, s: Sys, d: Key, k: Key)
    requires Applies(inp, run) && Reachable(run, s) && Complete(run, s)
    ensures Dangles(s.resources, d, k) <==>
            KeepsRecord(inp, run, d) && k in inp.st[d].dependencies && EndsUnrecorded(inp, run, k)
  {
    ReachableInvariant(run, s);
    RecordedAtEnd(inp, run, s, d);
    RecordedAtEnd(inp, run, s, k);
    if Dangles(s.resources, d, k) && !KeepsRecord(inp, run, d) {
      ReachSetExact(inp.g.edges, d);
      RefreshedRestsOnRecorded(inp, run, d, k);
    }
  }

  /** A delete that is refused or fails leaves d recorded while the k it depends on is deleted. */
  lemma StrandedByKeptDelete(inp: Inputs, run: Run, s: Sys, d: Key, k: Key)
    requires Applies(inp, run) && Reachable(run, s) && Complete(run, s)
    requires d in inp.st && d !in inp.g.nodes && k in inp.st && k in inp.st[d].dependencies
    ensures Dangles(s.resources, d, k) <==> Removed(inp, run, k) && !Removed(inp, run, d)
  {
    DanglesExactly(inp, run, s, d, k);
  }

  /** A declared d that is not refreshed keeps naming the k it no longer refers to, while k is deleted. */
  lemma StrandedByStaleRecord(inp: Inputs, run: Run, s: Sys, d: Key, k: Key)
    requires Applies(inp, run) && Reachable(run, s) && Complete(run, s)
    requires d in inp.st && d in inp.g.nodes && k in inp.st && k in inp.st[d].dependencies
    ensures Dangles(s.resources, d, k) <==> Removed(inp, run, k) && !Refreshed(run, d)
  {
    DanglesExactly(inp, run, s, d, k);
  }
}
