/** Teardown: planning in reverse dependency order and executing without pulling dependencies from under survivors. */
module DestroyEngine {
  import opened Resources
  import opened Reachability
  import opened DependencyGraph
  import opened Planner
  import opened ManifestFields
  import opened ApplyMachine

  /** What a teardown is planned from and run against. */
  datatype Teardown = Teardown(
    g: Graph,
    init: Recorded,
    includeExternal: bool,
    includeImported: bool,
    allowDestructive: bool,
    destroys: Key -> bool)

  // ---------------------------------------------------------------- planning

  /** The manifest decides when there is one, the last applied manifest otherwise. */
  predicate IsProtected(e: Envelope, prior: Option<ResourceState>) {
    if e.kind != "" then e.metadata.protect
    else prior.Some? && prior.value.lastApplied.Some? && prior.value.lastApplied.value.metadata.protect
  }

  function UnprotectedAction(td: Teardown, k: Key): Action
    requires k in td.g.nodes
  {
    match LifecycleOf(td.g.nodes[k], WasImported(td.init, k))
    case External => if td.includeExternal then Delete else Noop
    case Imported => if td.includeImported then Delete else Noop
    case Managed => if k in td.init then Delete else Noop
  }

  function TeardownEntry(td: Teardown, k: Key): Entry
    requires k in td.g.nodes
  {
    var action := UnprotectedAction(td, k);
    Entry(k, if action == Delete && IsProtected(td.g.nodes[k], Lookup(td.init, k)) then Refused else action, "", "")
  }

  /** Every node once, dependents strictly before what they depend on. */
  ghost predicate TeardownOrder(td: Teardown, keys: seq<Key>) {
    && NoRepeats(keys)
    && (forall k :: k in keys <==> k in td.g.nodes)
    && DependentsBefore(td.g, keys)
  }

  ghost predicate TeardownPlanOf(td: Teardown, p: Plan) {
    && EntryKeys(p.entries) == Flatten(p.levels)
    && TeardownOrder(td, EntryKeys(p.entries))
    && (forall i :: 0 <= i < |p.entries| ==>
          p.entries[i].key in td.g.nodes && p.entries[i] == TeardownEntry(td, p.entries[i].key))
  }

  ghost predicate DependentsBefore(g: Graph, keys: seq<Key>) {
    forall i, j :: 0 <= i < |keys| && 0 <= j < |keys| && Reaches(g.edges, keys[i], keys[j]) ==> i < j
  }

  ghost predicate ScheduledFrom(levels: seq<seq<Key>>, i: int, k: Key) {
    exists j :: j >= i && At(levels, j, k)
  }

  /** The keys of the levels from i on, dependents first. */
  ghost predicate ListedFrom(g: Graph, levels: seq<seq<Key>>, i: int, keys: seq<Key>) {
    && NoRepeats(keys)
    && (forall k :: k in keys <==> ScheduledFrom(levels, i, k))
    && DependentsBefore(g, keys)
  }

  ghost predicate TeardownEntriesOf(td: Teardown, keys: seq<Key>, entries: seq<Entry>) {
    && |entries| == |keys|
    && forall i :: 0 <= i < |keys| ==> keys[i] in td.g.nodes && entries[i] == TeardownEntry(td, keys[i])
  }

  method TeardownLevel(td: Teardown, level: seq<Key>, ghost above: seq<Key>, entries0: seq<Entry>)
    returns (entries: seq<Entry>)
    requires (forall k :: k in level ==> k in td.g.nodes) && TeardownEntriesOf(td, above, entries0)
    ensures TeardownEntriesOf(td, above + level, entries)
  {
    entries := entries0;
    var j := 0;
    while j < |level|
      invariant 0 <= j <= |level|
      invariant TeardownEntriesOf(td, above + level[..j], entries)
    {
      entries := entries + [TeardownEntry(td, level[j])];
      assert above + level[..j + 1] == (above + level[..j]) + [level[j]];
      j := j + 1;
    }
    assert level[..j] == level;
  }

  method ComputeDestroy(td: Teardown) returns (p: Plan)
    requires Accepted(td.g)
    ensures TeardownPlanOf(td, p)
  {
    var levels := TopologicalLevels(td.g);
    var reversed: seq<seq<Key>>, entries: seq<Entry> := [], [];
    var i := |levels|;
    while i > 0
      invariant 0 <= i <= |levels|
      invariant TeardownEntriesOf(td, Flatten(reversed), entries)
      invariant ListedFrom(td.g, levels, i, Flatten(reversed))
    {
      i := i - 1;
      LevelInNodes(td.g, levels, i);
      entries := TeardownLevel(td, levels[i], Flatten(reversed), entries);
      ListLevel(td.g, levels, i, Flatten(reversed));
      FlattenSnoc(reversed, levels[i]);
      reversed := reversed + [levels[i]];
    }
    ListedAll(td, levels, Flatten(reversed));
    PlanReady(td, reversed, entries);
    p := Plan(entries, reversed);
  }

  lemma PlanReady(td: Teardown, levels: seq<seq<Key>>, entries: seq<Entry>)
    requires TeardownEntriesOf(td, Flatten(levels), entries) && TeardownOrder(td, Flatten(levels))
    ensures TeardownPlanOf(td, Plan(entries, levels))
  {
    assert EntryKeys(entries) == Flatten(levels);
  }

  lemma FlattenSnoc(levels: seq<seq<Key>>, level: seq<Key>)
    ensures Flatten(levels + [level]) == Flatten(levels) + level
  {
    assert (levels + [level])[..|levels|] == levels;
  }

  lemma ListedAll(td: Teardown, levels: seq<seq<Key>>, keys: seq<Key>)
    requires TopologicalLevelsOf(td.g, levels) && ListedFrom(td.g, levels, 0, keys)
    ensures TeardownOrder(td, keys)
  {
    forall k ensures k in keys <==> k in td.g.nodes {
      if k in td.g.nodes {
        var d :| At(levels, d, k);
      }
    }
  }

  lemma LevelInNodes(g: Graph, levels: seq<seq<Key>>, i: nat)
    requires TopologicalLevelsOf(g, levels) && i < |levels|
    ensures forall k :: k in levels[i] ==> k in g.nodes
  {
    assert forall k :: k in levels[i] ==> At(levels, i, k);
  }

  /** Listing level i after the levels above it keeps dependents first. */
  lemma ListLevel(g: Graph, levels: seq<seq<Key>>, i: nat, above: seq<Key>)
    requires TopologicalLevelsOf(g, levels) && i < |levels| && ListedFrom(g, levels, i + 1, above)
    ensures ListedFrom(g, levels, i, above + levels[i])
  {
    var all := above + levels[i];
    forall k ensures k in all <==> ScheduledFrom(levels, i, k) {
      assert k in levels[i] <==> At(levels, i, k);
    }
    forall x, y | 0 <= x < |above| && 0 <= y < |levels[i]|
      ensures above[x] != levels[i][y] && !Reaches(g.edges, levels[i][y], above[x])
    {
      assert above[x] in above && At(levels, i, levels[i][y]);
      var j :| j >= i + 1 && At(levels, j, above[x]);
      LevelsRespectDependencies(g, levels, i, j, levels[i][y], above[x]);
    }
    forall x, y | 0 <= x < |levels[i]| && 0 <= y < |levels[i]| ensures !Reaches(g.edges, levels[i][x], levels[i][y]) {
      assert At(levels, i, levels[i][x]) && At(levels, i, levels[i][y]);
      LevelsRespectDependencies(g, levels, i, i, levels[i][x], levels[i][y]);
    }
  }

  // ---------------------------------------------------------------- execution in closed form

  /** Tearing k down would succeed if it were tried. */
  predicate DestroyWorks(td: Teardown, k: Key)
    requires k in td.g.nodes
  {
    var env := td.g.nodes[k];
    && (LifecycleOf(env, WasImported(td.init, k)) == External ==> td.allowDestructive)
    && (StateOnlyDelete(env) || td.destroys(k))
  }

  /** Refused, or would fail if it were tried. */
  ghost predicate Stays(td: Teardown, k: Key) {
    && k in td.g.nodes
    && match TeardownEntry(td, k).action
       case Refused => true
       case Delete => !DestroyWorks(td, k)
       case _ => false
  }

  /** Some transitive dependent stays. */
  ghost predicate Held(td: Teardown, k: Key) {
    exists d :: Reaches(td.g.edges, d, k) && Stays(td, d)
  }

  ghost function DestroyOutcome(td: Teardown, k: Key): Outcome
    requires k in td.g.nodes
  {
    match TeardownEntry(td, k).action
    case Refused => HasFailed
    case Delete => if Held(td, k) then WasSkipped else if DestroyWorks(td, k) then HasSucceeded else HasFailed
    case _ => Untouched
  }

  datatype Results = Results(succeeded: seq<Key>, failed: set<Key>, skipped: seq<Key>, st: Recorded)

  /** How far a teardown has got: its results and what it has blocked. */
  datatype Progress = Progress(results: Results, blocked: set<Key>)

  function NothingDone(td: Teardown): Progress {
    Progress(Results([], {}, [], td.init), {})
  }

  /** A failure blocks everything k depends on. */
  ghost function FailEntry(td: Teardown, s: Progress, k: Key): Progress {
    Progress(s.results.(failed := s.results.failed + {k}), s.blocked + ReachSet(td.g.edges, k))
  }

  /** One entry as the executor takes it: refuse, pass over, skip, fail, or delete and save. */
  ghost function DestroyStep(td: Teardown, entry: Entry, s: Progress): Progress {
    var k, r := entry.key, s.results;
    if entry.action == Refused then FailEntry(td, s, k)
    else if entry.action != Delete || k !in td.g.nodes then s
    else if k in s.blocked then s.(results := r.(skipped := r.skipped + [k]))
    else if LifecycleOf(td.g.nodes[k], WasImported(r.st, k)) == External && !td.allowDestructive then FailEntry(td, s, k)
    else if StateOnlyDelete(td.g.nodes[k]) || td.destroys(k) then
      s.(results := r.(st := r.st - {k}, succeeded := r.succeeded + [k]))
    else FailEntry(td, s, k)
  }

  /** The executor after its first n entries: every point at which a teardown can be cut short. */
  ghost function DestroyedUpTo(td: Teardown, entries: seq<Entry>, n: nat): Progress
    requires n <= |entries|
  {
    if n == 0 then NothingDone(td) else DestroyStep(td, entries[n - 1], DestroyedUpTo(td, entries, n - 1))
  }

  /** The results of a teardown after the entries of `done`. */
  ghost predicate TornDown(td: Teardown, done: seq<Key>, r: Results) {
    && (forall k :: k in done ==> k in td.g.nodes)
    && (forall k :: k in r.succeeded <==> k in done && DestroyOutcome(td, k) == HasSucceeded)
    && (forall k :: k in r.failed <==> k in done && DestroyOutcome(td, k) == HasFailed)
    && (forall k :: k in r.skipped <==> k in done && DestroyOutcome(td, k) == WasSkipped)
    && r.st == td.init - set k | k in r.succeeded
  }

  /** Blocking so far: everything a failed key depends on. */
  ghost predicate BlockedBelow(td: Teardown, failed: set<Key>, blocked: set<Key>) {
    forall x :: x in blocked <==> exists d :: d in failed && Reaches(td.g.edges, d, x)
  }

  /** If some dependent of k stays, one does that no staying dependent holds back. */
  lemma HeldHasRoot(td: Teardown, k: Key) returns (m: Key)
    requires Acyclic(td.g.edges) && Held(td, k)
    ensures Reaches(td.g.edges, m, k) && Stays(td, m) && !Held(td, m)
  {
    var R := Transpose(td.g.edges);
    TransposeAcyclic(td.g.edges);
    forall a, b ensures Reaches(R, a, b) <==> Reaches(td.g.edges, b, a) {
      TransposeReaches(td.g.edges, a, b);
    }
    m := MinimalReached(R, (iset d | Stays(td, d)), k);
  }

  /** When k's turn comes, it is blocked exactly when some dependent stays. */
  lemma BlockedIffHeld(td: Teardown, keys: seq<Key>, i: nat, failed: set<Key>, blocked: set<Key>)
    requires Accepted(td.g) && TeardownOrder(td, keys) && i < |keys|
    requires forall k :: k in failed <==> k in keys[..i] && DestroyOutcome(td, k) == HasFailed
    requires BlockedBelow(td, failed, blocked)
    ensures keys[i] in blocked <==> Held(td, keys[i])
  {
    var k := keys[i];
    if Held(td, k) {
      var m := HeldHasRoot(td, k);
      assert m in keys;
      var j :| 0 <= j < |keys| && keys[j] == m;
      assert keys[..i][j] == m;
      assert m in failed;
    }
  }

  /** The results after k's entry, given what it came to. */
  ghost predicate ResultsNext(td: Teardown, k: Key, before: Results, after: Results)
    requires k in td.g.nodes
  {
    match DestroyOutcome(td, k)
    case HasFailed => after == before.(failed := before.failed + {k})
    case WasSkipped => after == before.(skipped := before.skipped + [k])
    case HasSucceeded => after == before.(succeeded := before.succeeded + [k], st := before.st - {k})
    case Untouched => after == before
  }

  lemma TornDownNext(td: Teardown, done: seq<Key>, k: Key, before: Results, after: Results)
    requires TornDown(td, done, before) && k !in done && k in td.g.nodes && ResultsNext(td, k, before, after)
    ensures TornDown(td, done + [k], after)
  {
  }

  /** An entry comes to what the closed form says when it is blocked exactly if some dependent stays. */
  lemma StepAsExpected(td: Teardown, entry: Entry, s: Progress)
    requires entry.key in td.g.nodes && entry == TeardownEntry(td, entry.key)
    requires entry.key in s.blocked <==> Held(td, entry.key)
    requires Lookup(s.results.st, entry.key) == Lookup(td.init, entry.key) && BlockedBelow(td, s.results.failed, s.blocked)
    ensures ResultsNext(td, entry.key, s.results, DestroyStep(td, entry, s).results)
    ensures BlockedBelow(td, DestroyStep(td, entry, s).results.failed, DestroyStep(td, entry, s).blocked)
  {
    ReachSetExact(td.g.edges, entry.key);
  }

  /** The n-th entry is a fresh key of the graph. */
  lemma EntryIsFresh(td: Teardown, p: Plan, n: nat)
    requires TeardownPlanOf(td, p) && n < |p.entries|
    ensures EntryKeys(p.entries)[..n + 1] == EntryKeys(p.entries)[..n] + [p.entries[n].key]
    ensures p.entries[n].key !in EntryKeys(p.entries)[..n]
  {
    var keys := EntryKeys(p.entries);
    assert keys[n] == p.entries[n].key;
    assert forall j :: 0 <= j < n ==> keys[j] != keys[n];
  }

  /** The results and the blocked set are what the closed form says after the entries of `done`. */
  ghost predicate OnCourse(td: Teardown, done: seq<Key>, s: Progress) {
    TornDown(td, done, s.results) && BlockedBelow(td, s.results.failed, s.blocked)
  }

  lemma NextEntry(td: Teardown, p: Plan, n: nat, s: Progress, t: Progress)
    requires Accepted(td.g) && TeardownPlanOf(td, p) && n < |p.entries|
    requires OnCourse(td, EntryKeys(p.entries)[..n], s) && t == DestroyStep(td, p.entries[n], s)
    ensures OnCourse(td, EntryKeys(p.entries)[..n + 1], t)
  {
    var keys := EntryKeys(p.entries);
    EntryIsFresh(td, p, n);
    BlockedIffHeld(td, keys, n, s.results.failed, s.blocked);
    StepAsExpected(td, p.entries[n], s);
    TornDownNext(td, keys[..n], keys[n], s.results, t.results);
  }

  /** After every prefix of a teardown the results are the closed form's, restricted to the entries taken. */
  lemma {:induction false} EveryPrefixOnCourse(td: Teardown, p: Plan, n: nat)
    requires Accepted(td.g) && TeardownPlanOf(td, p) && n <= |p.entries|
    ensures OnCourse(td, EntryKeys(p.entries)[..n], DestroyedUpTo(td, p.entries, n))
  {
    if n == 0 {
      assert EntryKeys(p.entries)[..0] == [];
    } else {
      var m: nat := n - 1;
      EveryPrefixOnCourse(td, p, m);
      NextEntry(td, p, m, DestroyedUpTo(td, p.entries, m), DestroyedUpTo(td, p.entries, n));
    }
  }

  /** Takes the entries of any plan, one by one. */
  method TakeEntries(td: Teardown, entries: seq<Entry>) returns (r: Results)
    ensures r == DestroyedUpTo(td, entries, |entries|).results
  {
    r := Results([], {}, [], td.init);
    var blocked: set<Key> := {};
    var i := 0;
    while i < |entries|
      invariant 0 <= i <= |entries|
      invariant Progress(r, blocked) == DestroyedUpTo(td, entries, i)
    {
      r, blocked := DestroyEntry(td, entries[i], r, blocked);
      i := i + 1;
    }
  }

  /**
   * Executes a teardown plan. No destroyed resource has a dependent that was refused, failed or was
   * skipped, and the records lose exactly the destroyed keys.
   */
  method Destroy(td: Teardown, p: Plan) returns (r: Results)
    requires Accepted(td.g) && TeardownPlanOf(td, p)
    ensures r == DestroyedUpTo(td, p.entries, |p.entries|).results && TornDown(td, EntryKeys(p.entries), r)
    ensures forall k, d :: k in r.succeeded && Reaches(td.g.edges, d, k) ==> d !in r.failed && d !in r.skipped
    ensures r.st == td.init - set k | k in r.succeeded
  {
    r := TakeEntries(td, p.entries);
    EveryPrefixOnCourse(td, p, |p.entries|);
    assert EntryKeys(p.entries)[..|p.entries|] == EntryKeys(p.entries);
    forall k, d | k in r.succeeded && Reaches(td.g.edges, d, k) ensures d !in r.failed && d !in r.skipped {
      NothingStranded(td, k, d);
    }
  }

  method DestroyEntry(td: Teardown, entry: Entry, r0: Results, blocked0: set<Key>) returns (r: Results, blocked: set<Key>)
    ensures Progress(r, blocked) == DestroyStep(td, entry, Progress(r0, blocked0))
  {
    var k := entry.key;
    r, blocked := r0, blocked0;
    if entry.action != Delete && entry.action != Refused {
      return;
    }
    var failed := entry.action == Refused;
    if !failed {
      if k !in td.g.nodes {
        return;
      }
      var env := td.g.nodes[k];
      if k in blocked {
        r := r.(skipped := r.skipped + [k]);
        return;
      }
      if LifecycleOf(env, k in r.st && r.st[k].imported) == External && !td.allowDestructive {
        failed := true;
      } else if StateOnlyDelete(env) || td.destroys(k) {
        r := r.(st := r.st - {k}, succeeded := r.succeeded + [k]);
      } else {
        failed := true;
      }
    }
    if failed {
      r := r.(failed := r.failed + {k});
      var deps := Dependencies(td.g, k);
      ReachSetExact(td.g.edges, k);
      assert deps == ReachSet(td.g.edges, k);
      blocked := blocked + deps;
    }
  }

  lemma NothingStranded(td: Teardown, k: Key, d: Key)
    requires Closed(td.g) && k in td.g.nodes && DestroyOutcome(td, k) == HasSucceeded && Reaches(td.g.edges, d, k)
    ensures d in td.g.nodes && DestroyOutcome(td, d) !in {HasFailed, WasSkipped}
  {
    ReachesNodes(td.g, d, k);
    assert !Stays(td, d);
    if Held(td, d) {
      var e :| Reaches(td.g.edges, e, d) && Stays(td, e);
      ReachTransitive(td.g.edges, e, d, k);
    }
  }

  /** The plan leaves k alone: the lifecycle needs a flag that was not given. */
  ghost predicate LeftAlone(td: Teardown, k: Key) {
    && k in td.g.nodes
    && if MarkedExternal(td.g.nodes[k]) then !td.includeExternal
       else k in td.init && td.init[k].imported && !td.includeImported
  }

  /** Who survives on top of a destroyed resource: exactly the recorded resources the plan leaves alone. */
  lemma SurvivorsWereLeftAlone(td: Teardown, keys: seq<Key>, r: Results, k: Key, d: Key)
    requires Accepted(td.g) && TeardownOrder(td, keys) && TornDown(td, keys, r)
    requires k in r.succeeded && Reaches(td.g.edges, d, k)
    ensures d in r.st <==> d in td.init && LeftAlone(td, d)
  {
    NothingStranded(td, k, d);
  }

  /** The manifest protects k; for a manifest without a kind, the last applied one does. */
  ghost predicate Protected(td: Teardown, k: Key)
    requires k in td.g.nodes
  {
    if td.g.nodes[k].kind != "" then td.g.nodes[k].metadata.protect
    else k in td.init && td.init[k].lastApplied.Some? && td.init[k].lastApplied.value.metadata.protect
  }

  /** What the manifest and the flags must say before a teardown may forget k. */
  ghost predicate DestroyApproved(td: Teardown, k: Key) {
    && k in td.init && k in td.g.nodes && !Protected(td, k)
    && (MarkedExternal(td.g.nodes[k]) ==> td.includeExternal && td.allowDestructive)
    && (td.init[k].imported && !MarkedExternal(td.g.nodes[k]) ==> td.includeImported)
  }

  /** Wherever a teardown is cut short, a key is gone only with approval. */
  lemma NoUnapprovedDestroy(td: Teardown, p: Plan, n: nat, k: Key)
    requires Accepted(td.g) && TeardownPlanOf(td, p) && n <= |p.entries|
    requires k in td.init && k !in DestroyedUpTo(td, p.entries, n).results.st
    ensures DestroyApproved(td, k)
  {
    EveryPrefixOnCourse(td, p, n);
  }
}
