/** Executing a plan as a state machine; every reachable state is described in closed form. */
module ApplyMachine {
  import opened Resources
  import opened Reachability
  import opened DependencyGraph
  import opened Planner

  datatype Flags = Flags(
    haltOnError: bool, healDrift: bool, allowDestructive: bool, allowImportedDeletes: bool)

  /**
   * Outcomes of calls into providers and the secret store, as functions of the key. A secret
   * reference reconciles exactly when the store resolves it.
   */
  datatype World = World(
    reconciles: Key -> bool,
    destroys: Key -> bool,
    drifted: Key -> bool,
    fingerprint: Key -> string)

  datatype Run = Run(g: Graph, plan: Plan, init: Recorded, flags: Flags, world: World)

  // ---------------------------------------------------------------- kind dispatch

  datatype Handler = SecretReferenceHandler | ExternalNoProvider | ExternalWithProvider | ProviderDriven

  function LookupKindHandler(e: Envelope): Handler {
    if e.kind == SECRET_REFERENCE then SecretReferenceHandler
    else if IsExternal(e) && RefFromSpec(e.spec, "providerRef").name == "" then ExternalNoProvider
    else if IsExternal(e) then ExternalWithProvider
    else ProviderDriven
  }

  /** Deleting means only forgetting the record: nothing in the platform realizes the resource. */
  predicate StateOnlyDelete(e: Envelope) {
    LookupKindHandler(e) in {SecretReferenceHandler, ExternalNoProvider}
  }

  // ---------------------------------------------------------------- what one entry does

  function EntryMap(entries: seq<Entry>): map<Key, Entry> {
    if entries == [] then map[]
    else EntryMap(entries[..|entries| - 1])[entries[|entries| - 1].key := entries[|entries| - 1]]
  }

  function Entries(run: Run): map<Key, Entry> {
    EntryMap(run.plan.entries)
  }

  /** The manifest an entry acts on: the declared one, else the last applied one. */
  function EnvelopeFor(run: Run, k: Key): Option<Envelope> {
    if k in run.g.nodes then Some(run.g.nodes[k])
    else if k in run.init then run.init[k].lastApplied
    else None
  }

  /**
   * What the probe before healing reports. A secret is probed against no recorded hash, so it drifts
   * exactly when it cannot be resolved, which is when reconciling it fails too.
   */
  predicate Drifts(run: Run, k: Key, env: Envelope) {
    if env.kind == SECRET_REFERENCE then !run.world.reconciles(k) else run.world.drifted(k)
  }

  datatype Verb = RefuseOutright | Idle | Reconcile | Remove

  /** What an admitted entry does, read from the current records st. */
  function VerbOf(run: Run, st: Recorded, k: Key): Verb
    requires k in Entries(run)
  {
    var action := Entries(run)[k].action;
    var env := EnvelopeFor(run, k);
    if action == OrphanUnknown || action == Refused || env.None? then RefuseOutright
    else if action == Noop then
      if run.flags.healDrift && k in st && LifecycleOf(env.value, st[k].imported) == Managed && Drifts(run, k, env.value)
      then Reconcile else Idle
    else if action == Delete then Remove
    else Reconcile
  }

  /** Deleting during apply needs the lifecycle's own approval. */
  predicate DeleteApproved(run: Run, st: Recorded, k: Key, env: Envelope) {
    match LifecycleOf(env, WasImported(st, k))
    case External => run.flags.allowDestructive
    case Imported => run.flags.allowImportedDeletes
    case Managed => true
  }

  predicate Works(run: Run, st: Recorded, k: Key)
    requires k in Entries(run)
  {
    match VerbOf(run, st, k)
    case Reconcile => run.world.reconciles(k)
    case Remove =>
      var env := EnvelopeFor(run, k).value;
      DeleteApproved(run, st, k, env) && (StateOnlyDelete(env) || run.world.destroys(k))
    case _ => true
  }

  function NewSecretHash(run: Run, k: Key): string
    requires k in Entries(run) && EnvelopeFor(run, k).Some?
  {
    if EnvelopeFor(run, k).value.kind != SECRET_REFERENCE then ""
    else if Entries(run)[k].secretHash != "" then Entries(run)[k].secretHash
    else run.world.fingerprint(k)
  }

  function Normalized(e: Envelope): Envelope {
    e.(metadata := e.metadata.(namespace := NormalizeNamespace(e.metadata.namespace)))
  }

  /** The record a reconcile writes, given the secret hashes of the dependencies. */
  ghost function RecordWith(run: Run, k: Key, imported: bool, hashes: map<Key, string>): ResourceState
    requires k in Entries(run) && EnvelopeFor(run, k).Some?
  {
    ResourceState(
      Entries(run)[k].specHash, NewSecretHash(run, k), imported,
      Some(Normalized(EnvelopeFor(run, k).value)), ReachSet(run.g.edges, k), hashes)
  }

  ghost function DependencyHashesFrom(run: Run, st: Recorded, k: Key): map<Key, string> {
    map d | d in ReachSet(run.g.edges, k) && RecordedSecretHash(st, d) != "" :: RecordedSecretHash(st, d)
  }

  // ---------------------------------------------------------------- the machine

  // Each plan entry takes up to three atomic steps: admission, provider work with its state write, and
  // bookkeeping. Entries of one level interleave freely; a level starts when the levels before it are done.

  datatype Phase = Waiting | Running | Wrote(ok: bool) | Done

  datatype Sys = Sys(
    resources: Recorded,
    blocked: set<Key>,
    succeeded: set<Key>,
    failed: set<Key>,
    skipped: set<Key>,
    phase: map<Key, Phase>)

  function PhaseOf(s: Sys, k: Key): Phase {
    if k in s.phase then s.phase[k] else Waiting
  }

  function Init(run: Run): Sys {
    Sys(run.init, {}, {}, {}, {}, map[])
  }

  ghost function DependentSet(g: Graph, k: Key): set<Key> {
    set x | x in g.edges && Reaches(g.edges, x, k)
  }

  /** Admission: skip a blocked entry, refuse or pass over what needs no work, else start. */
  ghost function Admit(run: Run, s: Sys, k: Key): Sys
    requires k in Entries(run)
  {
    if k in s.blocked then s.(skipped := s.skipped + {k}, phase := s.phase[k := Done])
    else
      match VerbOf(run, s.resources, k)
      case RefuseOutright => s.(failed := s.failed + {k}, phase := s.phase[k := Done])
      case Idle => s.(phase := s.phase[k := Done])
      case _ => s.(phase := s.phase[k := Running])
  }

  /** The provider call; on success the record is written or removed, and saved. */
  ghost function Work(run: Run, s: Sys, k: Key): Sys
    requires k in Entries(run)
  {
    if !Works(run, s.resources, k) then s.(phase := s.phase[k := Wrote(false)])
    else if VerbOf(run, s.resources, k) == Reconcile then
      var rs := RecordWith(run, k, WasImported(s.resources, k), DependencyHashesFrom(run, s.resources, k));
      s.(resources := s.resources[k := rs], phase := s.phase[k := Wrote(true)])
    else
      s.(resources := s.resources - {k}, phase := s.phase[k := Wrote(true)])
  }

  /** Bookkeeping: a failure blocks every transitive dependent. */
  ghost function Conclude(run: Run, s: Sys, k: Key, ok: bool): Sys {
    if ok then s.(succeeded := s.succeeded + {k}, phase := s.phase[k := Done])
    else s.(failed := s.failed + {k}, blocked := s.blocked + DependentSet(run.g, k), phase := s.phase[k := Done])
  }

  ghost function Advance(run: Run, s: Sys, k: Key): Sys
    requires k in Entries(run)
  {
    match PhaseOf(s, k)
    case Waiting => Admit(run, s, k)
    case Running => Work(run, s, k)
    case Wrote(ok) => Conclude(run, s, k, ok)
    case Done => s
  }

  /** k has an entry and is listed in a level. */
  ghost predicate Runs(run: Run, k: Key) {
    k in Entries(run) && Scheduled(run.plan.levels, k)
  }

  /** Every entry listed before level i is done. */
  ghost predicate BarrierUpTo(run: Run, s: Sys, i: int) {
    forall j, x :: j < i && At(run.plan.levels, j, x) && x in Entries(run) ==> PhaseOf(s, x) == Done
  }

  ghost predicate Enabled(run: Run, s: Sys, k: Key) {
    && k in Entries(run)
    && PhaseOf(s, k) != Done
    && exists i :: At(run.plan.levels, i, k) && (PhaseOf(s, k) == Waiting ==> BarrierUpTo(run, s, i))
  }

  /** The state after the entries named by sched move, one atomic step each. */
  ghost function Exec(run: Run, sched: seq<Key>): Sys {
    if sched == [] then Init(run)
    else
      var n := |sched| - 1;
      var s := Exec(run, sched[..n]);
      if sched[n] in Entries(run) then Advance(run, s, sched[n]) else s
  }

  ghost predicate Legal(run: Run, sched: seq<Key>) {
    sched == [] || (Legal(run, sched[..|sched| - 1]) && Enabled(run, Exec(run, sched[..|sched| - 1]), sched[|sched| - 1]))
  }

  ghost predicate ReachedBy(run: Run, s: Sys, sched: seq<Key>) {
    Legal(run, sched) && Exec(run, sched) == s
  }

  ghost predicate Reachable(run: Run, s: Sys) {
    exists sched :: ReachedBy(run, s, sched)
  }

  ghost predicate Complete(run: Run, s: Sys) {
    forall k :: Runs(run, k) ==> PhaseOf(s, k) == Done
  }

  /** What executing a plan relies on; computed plans satisfy it. */
  ghost predicate WellOrdered(run: Run) {
    && Closed(run.g) && Acyclic(run.g.edges)
    && Partitioned(run.plan.levels) && Ordered(run.g, run.plan.levels)
  }

  // ---------------------------------------------------------------- the outcome in closed form

  ghost predicate Active(run: Run, k: Key) {
    k in Entries(run) && VerbOf(run, run.init, k) in {Reconcile, Remove}
  }

  /** Would fail if it were tried. */
  ghost predicate Breaks(run: Run, k: Key) {
    Runs(run, k) && Active(run, k) && !Works(run, run.init, k)
  }

  /** Some transitive dependency would fail if it were tried. */
  ghost predicate Tainted(run: Run, k: Key) {
    exists d :: Reaches(run.g.edges, k, d) && Breaks(run, d)
  }

  datatype Outcome = WasSkipped | HasFailed | HasSucceeded | Untouched

  ghost function OutcomeOf(run: Run, k: Key): Outcome {
    if !Runs(run, k) then Untouched
    else if Tainted(run, k) then WasSkipped
    else if VerbOf(run, run.init, k) == RefuseOutright || Breaks(run, k) then HasFailed
    else if Active(run, k) then HasSucceeded
    else Untouched
  }

  ghost function FinalSecretHash(run: Run, k: Key): string {
    if OutcomeOf(run, k) != HasSucceeded then RecordedSecretHash(run.init, k)
    else if VerbOf(run, run.init, k) == Reconcile then NewSecretHash(run, k)
    else ""
  }

  ghost function NewRecord(run: Run, k: Key): ResourceState
    requires k in Entries(run) && EnvelopeFor(run, k).Some?
  {
    RecordWith(run, k, WasImported(run.init, k),
      map d | d in ReachSet(run.g.edges, k) && FinalSecretHash(run, d) != "" :: FinalSecretHash(run, d))
  }

  /** What is recorded for k once k is done. */
  ghost function FinalAt(run: Run, k: Key): Option<ResourceState> {
    if OutcomeOf(run, k) != HasSucceeded then Lookup(run.init, k)
    else if VerbOf(run, run.init, k) == Reconcile then Some(NewRecord(run, k))
    else None
  }

  // ---------------------------------------------------------------- the invariant

  /** k has been written, or has finished without a write. */
  predicate Settled(s: Sys, k: Key) {
    PhaseOf(s, k).Wrote? || PhaseOf(s, k).Done?
  }

  ghost predicate KeyInvariant(run: Run, s: Sys, k: Key) {
    && Lookup(s.resources, k) == (if Settled(s, k) then FinalAt(run, k) else Lookup(run.init, k))
    && (k in s.succeeded <==> PhaseOf(s, k).Done? && OutcomeOf(run, k) == HasSucceeded)
    && (k in s.failed <==> PhaseOf(s, k).Done? && OutcomeOf(run, k) == HasFailed)
    && (k in s.skipped <==> PhaseOf(s, k).Done? && OutcomeOf(run, k) == WasSkipped)
    && (k in s.phase ==> s.phase[k] != Waiting && Runs(run, k))
    && (PhaseOf(s, k).Running? || PhaseOf(s, k).Wrote? ==> Active(run, k) && !Tainted(run, k))
    && (PhaseOf(s, k).Wrote? ==> PhaseOf(s, k).ok == Works(run, run.init, k))
  }

  ghost predicate BlockedInvariant(run: Run, s: Sys) {
    forall x :: x in s.blocked <==> exists d :: d in s.failed && Breaks(run, d) && Reaches(run.g.edges, x, d)
  }

  ghost predicate BarrierInvariant(run: Run, s: Sys) {
    forall i, k :: At(run.plan.levels, i, k) && PhaseOf(s, k) != Waiting ==> BarrierUpTo(run, s, i)
  }

  ghost predicate Invariant(run: Run, s: Sys) {
    && (forall k :: KeyInvariant(run, s, k))
    && BlockedInvariant(run, s)
    && BarrierInvariant(run, s)
  }

  // ---------------------------------------------------------------- main results

  /** Any two complete schedules end in the same state: parallel execution refines the sequential loop. */
  lemma InterleavingsAgree(run: Run, s: Sys, t: Sys)
    requires WellOrdered(run)
    requires Reachable(run, s) && Complete(run, s) && Reachable(run, t) && Complete(run, t)
    ensures s == t
  {
    ReachableInvariant(run, s);
    ReachableInvariant(run, t);
    forall k
      ensures Lookup(s.resources, k) == Lookup(t.resources, k) && Lookup(s.phase, k) == Lookup(t.phase, k)
      ensures (k in s.succeeded <==> k in t.succeeded) && (k in s.failed <==> k in t.failed)
      ensures k in s.skipped <==> k in t.skipped
    {
      CompleteKey(run, s, k);
      CompleteKey(run, t, k);
    }
    SameLookups(s.resources, t.resources);
    SameLookups(s.phase, t.phase);
    assert s.failed == t.failed;
    assert s.blocked == t.blocked;
  }

  /** The final fate of every key, whatever the schedule. */
  lemma CompleteKey(run: Run, s: Sys, k: Key)
    requires Invariant(run, s) && Complete(run, s)
    ensures Lookup(s.resources, k) == FinalAt(run, k)
    ensures k in s.succeeded <==> OutcomeOf(run, k) == HasSucceeded
    ensures k in s.failed <==> OutcomeOf(run, k) == HasFailed
    ensures k in s.skipped <==> OutcomeOf(run, k) == WasSkipped
    ensures Lookup(s.phase, k) == if Runs(run, k) then Some(Done) else None
  {
    assert KeyInvariant(run, s, k);
  }

  /** The level barriers never deadlock: while some entry is unfinished, some entry can move. */
  lemma {:induction false} NeverStuck(run: Run, s: Sys, i: nat, k: Key) returns (x: Key)
    requires At(run.plan.levels, i, k) && k in Entries(run) && PhaseOf(s, k) != Done
    ensures Enabled(run, s, x)
    decreases i
  {
    x := k;
    if PhaseOf(s, k) == Waiting && !BarrierUpTo(run, s, i) {
      var j, y :| j < i && At(run.plan.levels, j, y) && y in Entries(run) && PhaseOf(s, y) != Done;
      x := NeverStuck(run, s, j, y);
    }
  }

  lemma ReachableInvariant(run: Run, s: Sys)
    requires WellOrdered(run) && Reachable(run, s)
    ensures Invariant(run, s)
  {
    var sched :| ReachedBy(run, s, sched);
    LegalKeepsInvariant(run, sched);
  }

  lemma {:induction false} LegalKeepsInvariant(run: Run, sched: seq<Key>)
    requires WellOrdered(run) && Legal(run, sched)
    ensures Invariant(run, Exec(run, sched))
  {
    if sched == [] {
      InitInvariant(run);
    } else {
      LegalKeepsInvariant(run, sched[..|sched| - 1]);
      AdvanceKeepsInvariant(run, Exec(run, sched[..|sched| - 1]), sched[|sched| - 1]);
    }
  }

  /** Every atomic step of every entry keeps the invariant. */
  lemma AdvanceKeepsInvariant(run: Run, s: Sys, k: Key)
    requires WellOrdered(run) && Invariant(run, s) && Enabled(run, s, k)
    ensures Invariant(run, Advance(run, s, k))
  {
    var i :| At(run.plan.levels, i, k) && (PhaseOf(s, k) == Waiting ==> BarrierUpTo(run, s, i));
    match PhaseOf(s, k)
    case Waiting => AdmitKeepsInvariant(run, s, i, k);
    case Running => WorkKeepsInvariant(run, s, i, k);
    case Wrote(_) => ConcludeKeepsInvariant(run, s, i, k);
  }

  /** At admission, being blocked means exactly that a transitive dependency would fail. */
  lemma BlockedIffTainted(run: Run, s: Sys, i: int, k: Key)
    requires WellOrdered(run) && Invariant(run, s)
    requires At(run.plan.levels, i, k) && BarrierUpTo(run, s, i)
    ensures k in s.blocked <==> Tainted(run, k)
  {
    if Tainted(run, k) {
      var m := MinimalReached(run.g.edges, (iset d | Breaks(run, d)), k);
      var j :| At(run.plan.levels, j, m);
      assert !Tainted(run, m);
      assert PhaseOf(s, m) == Done;
      assert KeyInvariant(run, s, m);
      assert m in s.failed;
    }
  }

  /** When an entry works, its dependencies already hold their final secret hashes. */
  lemma DependenciesSettled(run: Run, s: Sys, i: int, k: Key)
    requires WellOrdered(run) && Invariant(run, s)
    requires At(run.plan.levels, i, k) && BarrierUpTo(run, s, i)
    ensures forall d :: Reaches(run.g.edges, k, d) ==> RecordedSecretHash(s.resources, d) == FinalSecretHash(run, d)
  {
    forall d | Reaches(run.g.edges, k, d) ensures RecordedSecretHash(s.resources, d) == FinalSecretHash(run, d) {
      assert KeyInvariant(run, s, d);
      if Runs(run, d) {
        var j :| At(run.plan.levels, j, d);
        assert PhaseOf(s, d) == Done;
      }
      HashOfLookup(s.resources, d);
      HashOfLookup(run.init, d);
    }
  }

  // ---------------------------------------------------------------- step by step

  lemma InitInvariant(run: Run)
    ensures Invariant(run, Init(run))
  {
  }

  /** An entry reads only its own record, so its verb and result are fixed by the initial records. */
  lemma ReadsOwnRecord(run: Run, st: Recorded, k: Key)
    requires k in Entries(run) && Lookup(st, k) == Lookup(run.init, k)
    ensures VerbOf(run, st, k) == VerbOf(run, run.init, k)
    ensures Works(run, st, k) == Works(run, run.init, k)
    ensures WasImported(st, k) == WasImported(run.init, k)
  {
  }

  lemma HashOfLookup(st: Recorded, d: Key)
    ensures RecordedSecretHash(st, d) == (match Lookup(st, d) case Some(rs) => rs.secretHash case None => "")
  {
  }

  /** A step of k leaves every other key as it was. */
  ghost predicate OnlyAt(s: Sys, t: Sys, k: Key) {
    forall x :: x != k ==>
      && Lookup(t.resources, x) == Lookup(s.resources, x)
      && (x in t.phase <==> x in s.phase) && PhaseOf(t, x) == PhaseOf(s, x)
      && (x in t.succeeded <==> x in s.succeeded)
      && (x in t.failed <==> x in s.failed)
      && (x in t.skipped <==> x in s.skipped)
  }

  lemma OnlyAtKeepsKeys(run: Run, s: Sys, t: Sys, k: Key)
    requires (forall x :: KeyInvariant(run, s, x)) && OnlyAt(s, t, k) && KeyInvariant(run, t, k)
    ensures forall x :: KeyInvariant(run, t, x)
  {
    forall x ensures KeyInvariant(run, t, x) {
      assert KeyInvariant(run, s, x);
    }
  }

  lemma AdmitOwnKey(run: Run, s: Sys, k: Key)
    requires KeyInvariant(run, s, k) && Runs(run, k) && PhaseOf(s, k) == Waiting
    requires k in s.blocked <==> Tainted(run, k)
    ensures KeyInvariant(run, Admit(run, s, k), k) && OnlyAt(s, Admit(run, s, k), k)
  {
    ReadsOwnRecord(run, s.resources, k);
  }

  lemma AdmitKeepsInvariant(run: Run, s: Sys, i: int, k: Key)
    requires WellOrdered(run) && Invariant(run, s) && k in Entries(run) && PhaseOf(s, k) == Waiting
    requires At(run.plan.levels, i, k) && BarrierUpTo(run, s, i)
    ensures Invariant(run, Admit(run, s, k))
  {
    BlockedIffTainted(run, s, i, k);
    assert KeyInvariant(run, s, k);
    AdmitOwnKey(run, s, k);
    OnlyAtKeepsKeys(run, s, Admit(run, s, k), k);
    AdmitKeepsBlocked(run, s, k);
    BarrierKept(run, s, Admit(run, s, k), k, i);
  }

  /** An entry that fails at admission never reached its provider, and blocks nothing. */
  lemma AdmitKeepsBlocked(run: Run, s: Sys, k: Key)
    requires Invariant(run, s) && k in Entries(run) && PhaseOf(s, k) == Waiting
    ensures BlockedInvariant(run, Admit(run, s, k))
  {
    var t := Admit(run, s, k);
    assert KeyInvariant(run, s, k);
    ReadsOwnRecord(run, s.resources, k);
    assert forall d :: d in t.failed && Breaks(run, d) <==> d in s.failed && Breaks(run, d);
  }

  lemma WorkOwnKey(run: Run, s: Sys, k: Key)
    requires KeyInvariant(run, s, k) && Runs(run, k) && PhaseOf(s, k) == Running
    requires forall d :: Reaches(run.g.edges, k, d) ==> RecordedSecretHash(s.resources, d) == FinalSecretHash(run, d)
    ensures KeyInvariant(run, Work(run, s, k), k) && OnlyAt(s, Work(run, s, k), k)
  {
    ReadsOwnRecord(run, s.resources, k);
    SettledHashes(run, s.resources, k);
  }

  lemma SettledHashes(run: Run, st: Recorded, k: Key)
    requires k in Entries(run) && EnvelopeFor(run, k).Some?
    requires forall d :: Reaches(run.g.edges, k, d) ==> RecordedSecretHash(st, d) == FinalSecretHash(run, d)
    ensures NewRecord(run, k) == RecordWith(run, k, WasImported(run.init, k), DependencyHashesFrom(run, st, k))
  {
    ReachSetExact(run.g.edges, k);
    assert DependencyHashesFrom(run, st, k)
        == map d | d in ReachSet(run.g.edges, k) && FinalSecretHash(run, d) != "" :: FinalSecretHash(run, d);
  }

  lemma WorkKeepsInvariant(run: Run, s: Sys, i: int, k: Key)
    requires WellOrdered(run) && Invariant(run, s) && k in Entries(run) && PhaseOf(s, k) == Running
    requires At(run.plan.levels, i, k)
    ensures Invariant(run, Work(run, s, k))
  {
    DependenciesSettled(run, s, i, k);
    assert KeyInvariant(run, s, k);
    WorkOwnKey(run, s, k);
    OnlyAtKeepsKeys(run, s, Work(run, s, k), k);
    BarrierKept(run, s, Work(run, s, k), k, i);
  }

  lemma ConcludeKeepsInvariant(run: Run, s: Sys, i: int, k: Key)
    requires WellOrdered(run) && Invariant(run, s) && k in Entries(run) && PhaseOf(s, k).Wrote?
    requires At(run.plan.levels, i, k)
    ensures Invariant(run, Conclude(run, s, k, PhaseOf(s, k).ok))
  {
    var t := Conclude(run, s, k, PhaseOf(s, k).ok);
    assert KeyInvariant(run, s, k);
    ConcludeOwnKey(run, s, k);
    OnlyAtKeepsKeys(run, s, t, k);
    ConcludeKeepsBlocked(run, s, k);
    BarrierKept(run, s, t, k, i);
  }

  lemma DependentSetExact(g: Graph, k: Key)
    ensures forall x :: x in DependentSet(g, k) <==> Reaches(g.edges, x, k)
  {
    forall x | Reaches(g.edges, x, k) ensures x in DependentSet(g, k) {
      ReachTarget(g.edges, x, k);
    }
  }

  lemma ConcludeOwnKey(run: Run, s: Sys, k: Key)
    requires KeyInvariant(run, s, k) && PhaseOf(s, k).Wrote?
    ensures KeyInvariant(run, Conclude(run, s, k, PhaseOf(s, k).ok), k)
    ensures OnlyAt(s, Conclude(run, s, k, PhaseOf(s, k).ok), k)
  {
  }

  /** A provider failure blocks exactly the dependents of what failed. */
  lemma ConcludeKeepsBlocked(run: Run, s: Sys, k: Key)
    requires KeyInvariant(run, s, k) && BlockedInvariant(run, s) && PhaseOf(s, k).Wrote?
    ensures BlockedInvariant(run, Conclude(run, s, k, PhaseOf(s, k).ok))
  {
    DependentSetExact(run.g, k);
    if !PhaseOf(s, k).ok {
      assert Breaks(run, k);
    }
  }

  /** Advancing k, whose barrier has been passed, breaks no barrier. */
  lemma BarrierKept(run: Run, s: Sys, t: Sys, k: Key, i: int)
    requires WellOrdered(run) && BarrierInvariant(run, s)
    requires At(run.plan.levels, i, k) && BarrierUpTo(run, s, i)
    requires PhaseOf(s, k) != Done && PhaseOf(t, k) != Waiting
    requires forall x :: x != k ==> PhaseOf(t, x) == PhaseOf(s, x)
    ensures BarrierInvariant(run, t)
  {
    forall j, x | At(run.plan.levels, j, x) && PhaseOf(t, x) != Waiting ensures BarrierUpTo(run, t, j) {
      if x != k {
        assert BarrierUpTo(run, s, j);
      }
    }
  }

  lemma SameLookups<T>(a: map<Key, T>, b: map<Key, T>)
    requires forall k :: Lookup(a, k) == Lookup(b, k)
    ensures a == b
  {
    forall k ensures k in a <==> k in b {
      assert Lookup(a, k) == Lookup(b, k);
    }
    forall k | k in a ensures a[k] == b[k] {
      assert Lookup(a, k) == Lookup(b, k);
    }
  }
}
