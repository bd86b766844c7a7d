/** The diff engine: desired manifests against recorded state, in dependency order. */
module Planner {
  import opened Resources
  import opened Reachability
  import opened DependencyGraph

  datatype Action = Create | Update | Configure | Noop | Delete | OrphanUnknown | Refused

  datatype Entry = Entry(key: Key, action: Action, specHash: string, secretHash: string)

  datatype Plan = Plan(entries: seq<Entry>, levels: seq<seq<Key>>)

  /**
   * What a plan is computed from. specHash is any hash of an envelope (None when it cannot be
   * encoded); fingerprints are the resolved secret hashes, possibly incomplete.
   */
  datatype Inputs = Inputs(
    g: Graph,
    st: Recorded,
    fingerprints: map<Key, string>,
    specHash: Envelope -> Option<string>)

  // ---------------------------------------------------------------- comparing one resource with its record

  function HashOf(inp: Inputs, k: Key): string
    requires k in inp.g.nodes
  {
    match inp.specHash(inp.g.nodes[k]) case Some(h) => h case None => ""
  }

  function Fingerprint(inp: Inputs, k: Key): string {
    if k in inp.fingerprints then inp.fingerprints[k] else ""
  }

  predicate IsSecret(inp: Inputs, k: Key) {
    k in inp.g.nodes && inp.g.nodes[k].kind == SECRET_REFERENCE
  }

  function EntrySecretHash(inp: Inputs, k: Key): string {
    if IsSecret(inp, k) then Fingerprint(inp, k) else ""
  }

  function LifecycleIn(inp: Inputs, k: Key): Lifecycle
    requires k in inp.g.nodes
  {
    LifecycleOf(inp.g.nodes[k], WasImported(inp.st, k))
  }

  predicate SecretMaterialChanged(inp: Inputs, k: Key) {
    && IsSecret(inp, k) && k in inp.st && Fingerprint(inp, k) != ""
    && (inp.st[k].secretHash == "" || inp.st[k].secretHash != Fingerprint(inp, k))
  }

  function RecordedSecretHash(st: Recorded, k: Key): string {
    if k in st then st[k].secretHash else ""
  }

  function RecordedDependencyHash(st: Recorded, k: Key, dep: Key): string {
    if k in st && dep in st[k].dependencyHashes then st[k].dependencyHashes[dep] else ""
  }

  /** The hash a dependent should have recorded for the secret dep; "" when nothing is known. */
  function CurrentSecretHash(inp: Inputs, dep: Key): string {
    if Fingerprint(inp, dep) != "" then Fingerprint(inp, dep) else RecordedSecretHash(inp.st, dep)
  }

  predicate DependencySecretChanged(inp: Inputs, k: Key, dep: Key) {
    && IsSecret(inp, dep)
    && CurrentSecretHash(inp, dep) != ""
    && RecordedDependencyHash(inp.st, k, dep) != CurrentSecretHash(inp, dep)
  }

  /** The action a resource's own record calls for, before any cascade. */
  function DirectAction(inp: Inputs, k: Key): Action
    requires k in inp.g.nodes
  {
    if LifecycleIn(inp, k) == External then
      if k !in inp.st || inp.st[k].specHash != HashOf(inp, k) || SecretMaterialChanged(inp, k)
      then Configure else Noop
    else if k !in inp.st then Create
    else if inp.st[k].specHash != HashOf(inp, k) then Update
    else if SecretMaterialChanged(inp, k) then Update
    else Noop
  }

  // ---------------------------------------------------------------- the cascade

  ghost predicate IsManaged(inp: Inputs, k: Key) {
    k in inp.g.nodes && LifecycleIn(inp, k) == Managed
  }

  /** Changed by its own record or by the fingerprint of a secret it names directly. */
  ghost predicate Seed(inp: Inputs, k: Key) {
    && k in inp.g.nodes
    && (DirectAction(inp, k) != Noop
        || (IsManaged(inp, k) && exists d :: d in Direct(inp.g.edges, k) && DependencySecretChanged(inp, k, d)))
  }

  /** A chain of dependencies through managed resources down to a seed. */
  ghost predicate CascadeChain(inp: Inputs, p: seq<Key>) {
    && Walk(inp.g.edges, p)
    && Seed(inp, p[|p| - 1])
    && forall i :: 0 <= i < |p| - 1 ==> IsManaged(inp, p[i])
  }

  ghost predicate CascadeFrom(inp: Inputs, p: seq<Key>, k: Key) {
    CascadeChain(inp, p) && p[0] == k
  }

  /** Must be reconciled: some cascade chain starts here. */
  ghost predicate Pending(inp: Inputs, k: Key) {
    exists p :: CascadeFrom(inp, p, k)
  }

  /** One unfolding of the cascade: what the planner's single pass computes at k. */
  lemma PendingUnfold(inp: Inputs, k: Key)
    ensures Pending(inp, k) <==>
            Seed(inp, k) || (IsManaged(inp, k) && exists d :: d in Direct(inp.g.edges, k) && Pending(inp, d))
  {
    if Seed(inp, k) {
      assert CascadeFrom(inp, [k], k);
    }
    if IsManaged(inp, k) && exists d :: d in Direct(inp.g.edges, k) && Pending(inp, d) {
      var d :| d in Direct(inp.g.edges, k) && Pending(inp, d);
      var p :| CascadeFrom(inp, p, d);
      assert Step(inp.g.edges, k, d);
      assert CascadeFrom(inp, [k] + p, k);
    }
    if Pending(inp, k) && !Seed(inp, k) {
      var p :| CascadeFrom(inp, p, k);
      assert Step(inp.g.edges, p[0], p[1]);
      assert CascadeFrom(inp, p[1..], p[1]);
    }
  }

  /** S holds every seed and every managed resource with a direct dependency in S. */
  ghost predicate CascadeClosed(inp: Inputs, S: iset<Key>) {
    && (forall k :: Seed(inp, k) ==> k in S)
    && (forall k, d :: IsManaged(inp, k) && d in Direct(inp.g.edges, k) && d in S ==> k in S)
  }

  /** The resources to reconcile are the least cascade-closed set. */
  lemma CascadeIsLeastFixpoint(inp: Inputs)
    ensures CascadeClosed(inp, iset k | Pending(inp, k))
    ensures forall S: iset<Key>, k :: CascadeClosed(inp, S) && Pending(inp, k) ==> k in S
  {
    forall k ensures Seed(inp, k) ==> Pending(inp, k) {
      PendingUnfold(inp, k);
    }
    forall k, d | IsManaged(inp, k) && d in Direct(inp.g.edges, k) && Pending(inp, d) ensures Pending(inp, k) {
      PendingUnfold(inp, k);
    }
    forall S: iset<Key>, k | CascadeClosed(inp, S) && Pending(inp, k) ensures k in S {
      var p :| CascadeFrom(inp, p, k);
      ChainInside(inp, S, p);
    }
  }

  lemma {:induction false} ChainInside(inp: Inputs, S: iset<Key>, p: seq<Key>)
    requires CascadeClosed(inp, S) && CascadeChain(inp, p)
    ensures p[0] in S
  {
    if |p| > 1 {
      assert Step(inp.g.edges, p[0], p[1]);
      ChainInside(inp, S, p[1..]);
    }
  }

  ghost function PlannedAction(inp: Inputs, k: Key): Action
    requires k in inp.g.nodes
  {
    if DirectAction(inp, k) != Noop then DirectAction(inp, k)
    else if Pending(inp, k) then Update
    else Noop
  }

  lemma NoopUnlessPending(inp: Inputs, k: Key)
    requires k in inp.g.nodes
    ensures PlannedAction(inp, k) == Noop <==> !Pending(inp, k)
    ensures PlannedAction(inp, k) in {Create, Update, Configure, Noop}
  {
    PendingUnfold(inp, k);
  }

  // ---------------------------------------------------------------- what a plan is

  /** What authoritative apply does with a recorded resource that no manifest declares. */
  function DeleteAction(rs: ResourceState): Action {
    match rs.lastApplied
    case None => OrphanUnknown
    case Some(e) => if e.metadata.protect then Refused else Delete
  }

  ghost function ExpectedEntry(inp: Inputs, k: Key): Entry
    requires k in inp.g.nodes || k in inp.st
  {
    if k in inp.g.nodes
    then Entry(k, PlannedAction(inp, k), HashOf(inp, k), EntrySecretHash(inp, k))
    else Entry(k, DeleteAction(inp.st[k]), "", "")
  }

  ghost predicate Scheduled(levels: seq<seq<Key>>, k: Key) {
    exists i :: At(levels, i, k)
  }

  function Flatten(levels: seq<seq<Key>>): seq<Key> {
    if levels == [] then [] else Flatten(levels[..|levels| - 1]) + levels[|levels| - 1]
  }

  ghost function EntryKeys(entries: seq<Entry>): seq<Key> {
    seq(|entries|, i requires 0 <= i < |entries| => entries[i].key)
  }

  /** Every key is in one level, at one place. */
  ghost predicate Partitioned(levels: seq<seq<Key>>) {
    && (forall i :: 0 <= i < |levels| ==> NoRepeats(levels[i]))
    && (forall i, j, k :: At(levels, i, k) && At(levels, j, k) ==> i == j)
  }

  /** Dependencies come in strictly earlier levels. */
  ghost predicate Ordered(g: Graph, levels: seq<seq<Key>>) {
    forall i, j, a, b :: At(levels, i, a) && At(levels, j, b) && Reaches(g.edges, a, b) ==> j < i
  }

  ghost predicate DeletesLast(g: Graph, levels: seq<seq<Key>>) {
    forall i, j, a, b :: At(levels, i, a) && At(levels, j, b) && a !in g.nodes && b in g.nodes ==> j < i
  }

  ghost predicate EntriesExpected(inp: Inputs, entries: seq<Entry>) {
    forall i :: 0 <= i < |entries| ==>
      && (entries[i].key in inp.g.nodes || entries[i].key in inp.st)
      && entries[i] == ExpectedEntry(inp, entries[i].key)
  }

  /** The plan the inputs call for. */
  ghost predicate PlanOf(inp: Inputs, p: Plan) {
    && Partitioned(p.levels)
    && (forall k :: Scheduled(p.levels, k) <==> k in inp.g.nodes || k in inp.st)
    && Ordered(inp.g, p.levels)
    && DeletesLast(inp.g, p.levels)
    && EntryKeys(p.entries) == Flatten(p.levels)
    && EntriesExpected(inp, p.entries)
  }

  lemma {:induction false} FlattenMembers(levels: seq<seq<Key>>, k: Key)
    ensures k in Flatten(levels) <==> Scheduled(levels, k)
  {
    if levels != [] {
      var n := |levels| - 1;
      FlattenMembers(levels[..n], k);
      assert forall i :: 0 <= i < n ==> (At(levels[..n], i, k) <==> At(levels, i, k));
      assert At(levels, n, k) <==> k in levels[n];
    }
  }

  lemma {:induction false} FlattenAppend(a: seq<seq<Key>>, b: seq<seq<Key>>)
    ensures Flatten(a + b) == Flatten(a) + Flatten(b)
  {
    if b == [] {
      assert a + b == a;
    } else {
      assert (a + b)[..|a + b| - 1] == a + b[..|b| - 1];
      FlattenAppend(a, b[..|b| - 1]);
    }
  }

  // ---------------------------------------------------------------- authoritative deletes

  /** The recorded dependencies among the keys to delete. */
  ghost function AbsentRelation(absent: Recorded): Relation {
    map k | k in absent :: absent[k].dependencies * absent.Keys
  }

  /** What a visit relies on when the recorded relation is acyclic. */
  ghost predicate SoundVisit(E: Relation, k: Key, depth: map<Key, nat>, visiting: set<Key>) {
    && Acyclic(E)
    && (forall x :: x in visiting ==> Reaches(E, x, k))
    && (forall x :: x in depth ==> DepthAt(E, depth, x))
  }

  lemma SoundDeeper(E: Relation, k: Key, dep: Key, depth: map<Key, nat>, visiting: set<Key>)
    requires Step(E, k, dep)
    ensures SoundVisit(E, k, depth, visiting) ==> SoundVisit(E, dep, depth, visiting + {k}) && dep !in visiting + {k}
  {
    ReachStep(E, k, dep);
    forall x | Reaches(E, x, k) ensures Reaches(E, x, dep) {
      ReachTransitive(E, x, k, dep);
    }
  }

  ghost predicate Extends(before: map<Key, nat>, after: map<Key, nat>) {
    before.Keys <= after.Keys && forall x :: x in before ==> after[x] == before[x]
  }

  /** k's finished successors, and the depth they give it so far. */
  ghost predicate DepthSoFar(E: Relation, k: Key, depth: map<Key, nat>, d: nat, todo: set<Key>) {
    && (forall x :: x in Direct(E, k) - todo ==> x in depth && depth[x] < d)
    && (d == 0 || exists x :: x in Direct(E, k) && x in depth && depth[x] + 1 == d)
  }

  /** A visit to k in progress, with the successors in todo still to come. */
  ghost predicate Visiting(E: Relation, k: Key, depth: map<Key, nat>, visiting: set<Key>, d: nat, todo: set<Key>) {
    SoundVisit(E, k, depth, visiting) && DepthSoFar(E, k, depth, d, todo)
  }

  /** Coming back from a successor, whose depth may raise k's. */
  lemma BackFromSuccessor(E: Relation, k: Key, dep: Key, before: map<Key, nat>, after: map<Key, nat>, visiting: set<Key>, d: nat, todo: set<Key>)
    requires dep in Direct(E, k) && Extends(before, after)
    ensures Visiting(E, k, before, visiting, d, todo + {dep}) && SoundVisit(E, dep, after, visiting + {k}) && dep in after ==>
              Visiting(E, k, after, visiting, if after[dep] + 1 > d then after[dep] + 1 else d, todo)
  {
  }

  lemma FinishVisit(E: Relation, k: Key, before: map<Key, nat>, visiting: set<Key>, d: nat)
    requires k !in before
    ensures Visiting(E, k, before, visiting, d, {}) ==> SoundVisit(E, k, before[k := d], visiting)
  {
    if Visiting(E, k, before, visiting, d, {}) {
      FinishDepth(E, before, before[k := d], k, d);
    }
  }

  /**
   * Memoised depth over the recorded dependencies, which may be cyclic: a key met while it is being
   * visited counts 0. On an acyclic relation the table holds longest-chain lengths.
   */
  method VisitAbsent(absent: Recorded, k: Key, depth0: map<Key, nat>, visiting: set<Key>, ghost sound: bool)
    returns (d: nat, depth: map<Key, nat>)
    requires k in absent && depth0.Keys <= absent.Keys && visiting <= absent.Keys && depth0.Keys !! visiting
    requires sound ==> SoundVisit(AbsentRelation(absent), k, depth0, visiting) && k !in visiting
    ensures Extends(depth0, depth) && depth.Keys <= absent.Keys && depth.Keys !! visiting
    ensures k !in visiting ==> k in depth && depth[k] == d
    ensures sound ==> SoundVisit(AbsentRelation(absent), k, depth, visiting)
    decreases absent.Keys - depth0.Keys - visiting
  {
    ghost var E := AbsentRelation(absent);
    depth := depth0;
    if k in depth {
      return depth[k], depth;
    }
    if k in visiting {
      return 0, depth;
    }
    var visiting' := visiting + {k};
    d := 0;
    var todo := absent[k].dependencies;
    while todo != {}
      invariant todo <= absent[k].dependencies
      invariant Extends(depth0, depth) && depth.Keys <= absent.Keys && depth.Keys !! visiting'
      invariant sound ==> Visiting(E, k, depth, visiting, d, todo)
      decreases todo
    {
      var dep :| dep in todo;
      ghost var before := depth;
      todo := todo - {dep};
      if dep in absent {
        assert dep in Direct(E, k);
        SoundDeeper(E, k, dep, depth, visiting);
        var e;
        e, depth := VisitAbsent(absent, dep, depth, visiting', sound);
        BackFromSuccessor(E, k, dep, before, depth, visiting, d, todo);
        if e + 1 > d {
          d := e + 1;
        }
      }
    }
    FinishVisit(E, k, depth, visiting, d);
    depth := depth[k := d];
  }

  /** Depths of all keys to delete. */
  method AbsentDepths(absent: Recorded) returns (depth: map<Key, nat>, maxDepth: nat)
    ensures depth.Keys == absent.Keys
    ensures forall x :: x in depth ==> depth[x] <= maxDepth
    ensures Acyclic(AbsentRelation(absent)) ==>
              forall x :: x in depth ==> LongestChain(AbsentRelation(absent), x, depth[x])
  {
    ghost var E := AbsentRelation(absent);
    depth, maxDepth := map[], 0;
    var rest := absent.Keys;
    while rest != {}
      invariant rest <= absent.Keys && absent.Keys - rest <= depth.Keys <= absent.Keys
      invariant forall x :: x in absent.Keys - rest ==> depth[x] <= maxDepth
      invariant Acyclic(E) ==> forall x :: x in depth ==> DepthAt(E, depth, x)
      decreases rest
    {
      var k :| k in rest;
      rest := rest - {k};
      var d;
      d, depth := VisitAbsent(absent, k, depth, {}, Acyclic(E));
      if d > maxDepth {
        maxDepth := d;
      }
    }
    if Acyclic(E) {
      forall x | x in depth ensures LongestChain(E, x, depth[x]) {
        DepthTableIsLongestChain(E, depth, x);
      }
    }
  }

  /** Every key to delete is in one level; dependents are strictly before what they depend on. */
  ghost predicate DeleteLevelsOf(absent: Recorded, levels: seq<seq<Key>>) {
    && Partitioned(levels)
    && (forall k :: Scheduled(levels, k) <==> k in absent)
    && (forall i :: 0 <= i < |levels| ==> levels[i] != [] && (Distinguishable(absent.Keys) ==> SortedKeys(levels[i])))
    && (Acyclic(AbsentRelation(absent)) ==> DependentsFirst(AbsentRelation(absent), levels))
  }

  ghost predicate DependentsFirst(E: Relation, levels: seq<seq<Key>>) {
    forall i, j, a, b :: At(levels, i, a) && At(levels, j, b) && Reaches(E, a, b) ==> i < j
  }

  /** Levels in strictly falling depth. */
  ghost predicate Falling(levels: seq<seq<Key>>, depth: map<Key, nat>) {
    && (forall i, k :: At(levels, i, k) ==> k in depth)
    && (forall i, j, a, b :: i < j && At(levels, i, a) && At(levels, j, b) ==> depth[a] > depth[b])
    && (forall i, a, b :: At(levels, i, a) && At(levels, i, b) ==> depth[a] == depth[b])
  }

  lemma FallingIsDependentsFirst(E: Relation, levels: seq<seq<Key>>, depth: map<Key, nat>)
    requires Falling(levels, depth)
    requires forall x :: x in depth ==> LongestChain(E, x, depth[x])
    ensures DependentsFirst(E, levels)
  {
    forall i, j, a, b | At(levels, i, a) && At(levels, j, b) && Reaches(E, a, b) ensures i < j {
      DepthFalls(E, a, b, depth[a], depth[b]);
    }
  }

  /** Turns depth groups around, dropping the empty ones. */
  method DeepestFirst(groups: seq<seq<Key>>, ghost depth: map<Key, nat>) returns (levels: seq<seq<Key>>)
    requires forall d :: 0 <= d < |groups| ==> NoRepeats(groups[d])
    requires forall k :: k in depth ==> At(groups, depth[k], k)
    requires forall d, k :: At(groups, d, k) ==> k in depth && depth[k] == d
    ensures Partitioned(levels) && Falling(levels, depth)
    ensures forall k :: Scheduled(levels, k) <==> k in depth
    ensures forall i :: 0 <= i < |levels| ==> levels[i] != [] && levels[i] in groups
  {
    levels := [];
    var d := |groups|;
    while d > 0
      invariant 0 <= d <= |groups|
      invariant Falling(levels, depth)
      invariant forall i :: 0 <= i < |levels| ==> levels[i] != [] && levels[i] in groups && NoRepeats(levels[i])
      invariant forall i, k :: At(levels, i, k) ==> depth[k] >= d
      invariant forall k :: k in depth && depth[k] >= d ==> Scheduled(levels, k)
    {
      d := d - 1;
      if groups[d] != [] {
        ghost var before := levels;
        levels := levels + [groups[d]];
        assert forall i, k :: At(levels, i, k) <==> At(before, i, k) || (i == |before| && At(groups, d, k));
        forall k | k in depth && depth[k] >= d ensures Scheduled(levels, k) {
          if depth[k] == d {
            assert At(levels, |before|, k);
          } else {
            var i :| At(before, i, k);
            assert At(levels, i, k);
          }
        }
      }
    }
  }

  function DeleteEntry(absent: Recorded, k: Key): Entry
    requires k in absent
  {
    Entry(k, DeleteAction(absent[k]), "", "")
  }

  ghost predicate DeleteEntriesOf(absent: Recorded, keys: seq<Key>, entries: seq<Entry>) {
    && |entries| == |keys|
    && forall i :: 0 <= i < |keys| ==> keys[i] in absent && entries[i] == DeleteEntry(absent, keys[i])
  }

  method DeleteEntries(absent: Recorded, levels: seq<seq<Key>>) returns (entries: seq<Entry>)
    requires forall i, k :: At(levels, i, k) ==> k in absent
    ensures DeleteEntriesOf(absent, Flatten(levels), entries)
  {
    entries := [];
    var i := 0;
    while i < |levels|
      invariant 0 <= i <= |levels|
      invariant DeleteEntriesOf(absent, Flatten(levels[..i]), entries)
    {
      var level := levels[i];
      ghost var below := Flatten(levels[..i]);
      var j := 0;
      while j < |level|
        invariant 0 <= j <= |level|
        invariant DeleteEntriesOf(absent, below + level[..j], entries)
      {
        assert At(levels, i, level[j]);
        assert below + level[..j + 1] == (below + level[..j]) + [level[j]];
        entries := entries + [DeleteEntry(absent, level[j])];
        j := j + 1;
      }
      assert levels[..i + 1][..i] == levels[..i] && level[..j] == level;
      i := i + 1;
    }
    assert levels[..i] == levels;
  }

  method ComputeApplyDeletes(desired: set<Key>, st: Recorded) returns (levels: seq<seq<Key>>, entries: seq<Entry>)
    ensures DeleteLevelsOf(st - desired, levels)
    ensures DeleteEntriesOf(st - desired, Flatten(levels), entries)
  {
    var absent := st - desired;
    levels, entries := [], [];
    if absent == map[] {
      return;
    }
    var depth, maxDepth := AbsentDepths(absent);
    var groups := GroupByDepth(depth, maxDepth);
    levels := DeepestFirst(groups, depth);
    if Acyclic(AbsentRelation(absent)) {
      FallingIsDependentsFirst(AbsentRelation(absent), levels, depth);
    }
    forall i, k | At(levels, i, k) ensures k in absent {
      assert Scheduled(levels, k);
    }
    entries := DeleteEntries(absent, levels);
  }

  // ---------------------------------------------------------------- the planning pass

  /** Plans one resource, given which of its direct dependencies change. */
  method PlanEntry(inp: Inputs, k: Key, changed: set<Key>) returns (entry: Entry)
    requires k in inp.g.nodes
    requires forall d :: d in Direct(inp.g.edges, k) ==> (d in changed <==> Pending(inp, d))
    ensures entry == ExpectedEntry(inp, k)
  {
    PendingUnfold(inp, k);
    var lifecycle := LifecycleOf(inp.g.nodes[k], k in inp.st && inp.st[k].imported);
    entry := Entry(k, DirectAction(inp, k), HashOf(inp, k), EntrySecretHash(inp, k));
    if entry.action == Noop && lifecycle == Managed {
      var todo := Direct(inp.g.edges, k);
      while todo != {}
        invariant todo <= Direct(inp.g.edges, k)
        invariant forall d :: d in Direct(inp.g.edges, k) - todo ==> d !in changed && !DependencySecretChanged(inp, k, d)
        invariant entry.action == Noop
        decreases todo
      {
        var dep :| dep in todo;
        todo := todo - {dep};
        if dep in changed || DependencySecretChanged(inp, k, dep) {
          entry := entry.(action := Update);
          return;
        }
      }
    }
  }

  ghost predicate DesiredEntriesOf(inp: Inputs, keys: seq<Key>, entries: seq<Entry>) {
    && |entries| == |keys|
    && forall i :: 0 <= i < |keys| ==> keys[i] in inp.g.nodes && entries[i] == ExpectedEntry(inp, keys[i])
  }

  /** `changed` holds exactly the pending keys among those already planned. */
  ghost predicate ChangedIs(inp: Inputs, planned: seq<Key>, changed: set<Key>) {
    && (forall k :: k in planned && Pending(inp, k) ==> k in changed)
    && (forall k :: k in changed ==> k in planned && Pending(inp, k))
  }

  ghost predicate AllHashed(inp: Inputs, keys: seq<Key>) {
    forall k :: k in keys ==> k in inp.g.nodes && inp.specHash(inp.g.nodes[k]).Some?
  }

  /** Plans one level, in whatever order it is listed. */
  method PlanLevel(inp: Inputs, level: seq<Key>, ghost below: seq<Key>, entries0: seq<Entry>, changed0: set<Key>)
    returns (entries: seq<Entry>, changed: set<Key>, failed: Option<Key>)
    requires forall k :: k in level ==> k in inp.g.nodes && forall d :: d in Direct(inp.g.edges, k) ==> d in below
    requires DesiredEntriesOf(inp, below, entries0) && ChangedIs(inp, below, changed0) && AllHashed(inp, below)
    ensures failed.Some? ==> failed.value in inp.g.nodes && inp.specHash(inp.g.nodes[failed.value]).None?
    ensures failed.None? ==>
              && DesiredEntriesOf(inp, below + level, entries)
              && ChangedIs(inp, below + level, changed) && AllHashed(inp, below + level)
  {
    entries, changed := entries0, changed0;
    var j := 0;
    while j < |level|
      invariant 0 <= j <= |level|
      invariant DesiredEntriesOf(inp, below + level[..j], entries)
      invariant ChangedIs(inp, below + level[..j], changed) && AllHashed(inp, below + level[..j])
    {
      var k := level[j];
      if inp.specHash(inp.g.nodes[k]).None? {
        return entries, changed, Some(k);
      }
      assert forall d :: d in Direct(inp.g.edges, k) ==> d in below + level[..j];
      var entry := PlanEntry(inp, k, changed);
      NoopUnlessPending(inp, k);
      if entry.action != Noop {
        changed := changed + {k};
      }
      entries := entries + [entry];
      assert below + level[..j + 1] == (below + level[..j]) + [k];
      j := j + 1;
    }
    assert level[..j] == level;
    failed := None;
  }

  /** The single pass over the levels. */
  method PlanDesired(inp: Inputs, levels: seq<seq<Key>>) returns (entries: seq<Entry>, failed: Option<Key>)
    requires Closed(inp.g) && TopologicalLevelsOf(inp.g, levels)
    ensures failed.Some? ==> failed.value in inp.g.nodes && inp.specHash(inp.g.nodes[failed.value]).None?
    ensures failed.None? ==> DesiredEntriesOf(inp, Flatten(levels), entries) && AllHashed(inp, Flatten(levels))
  {
    entries := [];
    var changed := {};
    var i := 0;
    while i < |levels|
      invariant 0 <= i <= |levels|
      invariant DesiredEntriesOf(inp, Flatten(levels[..i]), entries)
      invariant ChangedIs(inp, Flatten(levels[..i]), changed) && AllHashed(inp, Flatten(levels[..i]))
    {
      LevelRestsOnBelow(inp.g, levels, i);
      entries, changed, failed := PlanLevel(inp, levels[i], Flatten(levels[..i]), entries, changed);
      if failed.Some? {
        return;
      }
      assert levels[..i + 1][..i] == levels[..i];
      i := i + 1;
    }
    assert levels[..i] == levels;
    failed := None;
  }

  lemma DependencyBelow(g: Graph, levels: seq<seq<Key>>, i: nat, k: Key, d: Key)
    requires Closed(g) && TopologicalLevelsOf(g, levels)
    requires At(levels, i, k) && Step(g.edges, k, d)
    ensures d in Flatten(levels[..i])
  {
    assert d in Targets(g.edges);
    var j :| At(levels, j, d);
    ReachStep(g.edges, k, d);
    LevelsRespectDependencies(g, levels, i, j, k, d);
    assert At(levels[..i], j, d);
    FlattenMembers(levels[..i], d);
  }

  lemma LevelRestsOnBelow(g: Graph, levels: seq<seq<Key>>, i: nat)
    requires Closed(g) && TopologicalLevelsOf(g, levels) && i < |levels|
    ensures forall k :: k in levels[i] ==> k in g.nodes && forall d :: d in Direct(g.edges, k) ==> d in Flatten(levels[..i])
  {
    forall k | k in levels[i] ensures k in g.nodes && forall d :: d in Direct(g.edges, k) ==> d in Flatten(levels[..i]) {
      assert At(levels, i, k);
      forall d | d in Direct(g.edges, k) ensures d in Flatten(levels[..i]) {
        DependencyBelow(g, levels, i, k, d);
      }
    }
  }

  /** The desired levels followed by the delete levels, key by key. */
  lemma JoinedAt(levels: seq<seq<Key>>, deletes: seq<seq<Key>>)
    ensures forall i, k :: At(levels + deletes, i, k) <==> At(levels, i, k) || At(deletes, i - |levels|, k)
  {
  }

  lemma DeletesAreAbsent(absent: Recorded, deletes: seq<seq<Key>>, i: int, k: Key)
    requires DeleteLevelsOf(absent, deletes) && At(deletes, i, k)
    ensures k in absent
  {
    assert Scheduled(deletes, k);
  }

  lemma PlanSchedules(inp: Inputs, levels: seq<seq<Key>>, deletes: seq<seq<Key>>, k: Key)
    requires TopologicalLevelsOf(inp.g, levels) && DeleteLevelsOf(inp.st - inp.g.nodes.Keys, deletes)
    ensures Scheduled(levels + deletes, k) <==> k in inp.g.nodes || k in inp.st
  {
    JoinedAt(levels, deletes);
    if Scheduled(levels + deletes, k) {
      var i :| At(levels + deletes, i, k);
      if At(deletes, i - |levels|, k) {
        DeletesAreAbsent(inp.st - inp.g.nodes.Keys, deletes, i - |levels|, k);
      }
    }
    if k in inp.g.nodes {
      var i :| At(levels, i, k);
      assert At(levels + deletes, i, k);
    } else if k in inp.st {
      assert Scheduled(deletes, k);
      var i :| At(deletes, i, k);
      assert At(levels + deletes, i + |levels|, k);
    }
  }

  lemma PlanIsOrdered(inp: Inputs, levels: seq<seq<Key>>, deletes: seq<seq<Key>>)
    requires Closed(inp.g)
    requires TopologicalLevelsOf(inp.g, levels) && DeleteLevelsOf(inp.st - inp.g.nodes.Keys, deletes)
    ensures Partitioned(levels + deletes)
    ensures Ordered(inp.g, levels + deletes) && DeletesLast(inp.g, levels + deletes)
  {
    var n, all := |levels|, levels + deletes;
    JoinedAt(levels, deletes);
    forall i, k | At(all, i, k)
      ensures if i < n then At(levels, i, k) && k in inp.g.nodes else At(deletes, i - n, k) && k !in inp.g.nodes
    {
      if i >= n {
        DeletesAreAbsent(inp.st - inp.g.nodes.Keys, deletes, i - n, k);
      }
    }
    forall i, j, k | At(all, i, k) && At(all, j, k) ensures i == j {
      if i < n && j < n {
        LevelsRespectDependencies(inp.g, levels, i, j, k, k);
      } else {
        assert At(deletes, i - n, k) && At(deletes, j - n, k);
      }
    }
    forall i, j, a, b | At(all, i, a) && At(all, j, b) && Reaches(inp.g.edges, a, b) ensures j < i {
      ReachesNodes(inp.g, a, b);
      LevelsRespectDependencies(inp.g, levels, i, j, a, b);
    }
  }

  /** Deletes come dependents first whenever the recorded dependencies allow any such order. */
  ghost predicate DeletesReversed(inp: Inputs, p: Plan) {
    var E := AbsentRelation(inp.st - inp.g.nodes.Keys);
    Acyclic(E) ==> DependentsFirst(E, p.levels)
  }

  lemma DeletesStayReversed(inp: Inputs, levels: seq<seq<Key>>, deletes: seq<seq<Key>>, entries: seq<Entry>)
    requires TopologicalLevelsOf(inp.g, levels) && DeleteLevelsOf(inp.st - inp.g.nodes.Keys, deletes)
    ensures DeletesReversed(inp, Plan(entries, levels + deletes))
  {
    var E := AbsentRelation(inp.st - inp.g.nodes.Keys);
    if Acyclic(E) {
      JoinedAt(levels, deletes);
      forall i, j, a, b | At(levels + deletes, i, a) && At(levels + deletes, j, b) && Reaches(E, a, b) ensures i < j {
        ReachTarget(E, a, b);
        assert At(deletes, i - |levels|, a) && At(deletes, j - |levels|, b);
      }
    }
  }

  lemma ExpectedKeys(inp: Inputs, keys: seq<Key>, entries: seq<Entry>)
    requires |entries| == |keys|
    requires forall i :: 0 <= i < |keys| ==> (keys[i] in inp.g.nodes || keys[i] in inp.st) && entries[i] == ExpectedEntry(inp, keys[i])
    ensures EntryKeys(entries) == keys && EntriesExpected(inp, entries)
  {
    assert forall i :: 0 <= i < |entries| ==> entries[i].key == keys[i];
  }

  lemma EntriesJoin(inp: Inputs, a: seq<Entry>, b: seq<Entry>)
    requires EntriesExpected(inp, a) && EntriesExpected(inp, b)
    ensures EntryKeys(a + b) == EntryKeys(a) + EntryKeys(b) && EntriesExpected(inp, a + b)
  {
  }

  /** Computes the plan, or fails exactly when some spec cannot be hashed. */
  method ComputeWithSecretHashes(inp: Inputs) returns (p: Option<Plan>)
    requires Accepted(inp.g)
    ensures p.None? <==> exists k :: k in inp.g.nodes && inp.specHash(inp.g.nodes[k]).None?
    ensures p.Some? ==> PlanOf(inp, p.value) && DeletesReversed(inp, p.value)
  {
    var levels := TopologicalLevels(inp.g);
    var entries, failed := PlanDesired(inp, levels);
    if failed.Some? {
      return None;
    }
    forall k | k in inp.g.nodes ensures inp.specHash(inp.g.nodes[k]).Some? {
      ghost var i :| At(levels, i, k);
      FlattenMembers(levels, k);
    }
    var deleteLevels, deleteEntries := ComputeApplyDeletes(inp.g.nodes.Keys, inp.st);
    PlanIsOrdered(inp, levels, deleteLevels);
    forall k ensures Scheduled(levels + deleteLevels, k) <==> k in inp.g.nodes || k in inp.st {
      PlanSchedules(inp, levels, deleteLevels, k);
    }
    DeletesStayReversed(inp, levels, deleteLevels, entries + deleteEntries);
    FlattenAppend(levels, deleteLevels);
    ExpectedKeys(inp, Flatten(levels), entries);
    ExpectedKeys(inp, Flatten(deleteLevels), deleteEntries);
    EntriesJoin(inp, entries, deleteEntries);
    p := Some(Plan(entries + deleteEntries, levels + deleteLevels));
  }
}
