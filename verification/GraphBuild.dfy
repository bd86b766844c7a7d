/** Building the dependency graph from manifests: reference resolution, ambiguity and cycle rejection. */
module GraphBuild {
  import opened Resources
  import opened Reachability
  import opened DependencyGraph

  // ---------------------------------------------------------------- what a manifest refers to

  /** One reference a manifest declares, in the form in which it is resolved. */
  datatype Demand =
    | Named(field: string, ref: NameRef, kinds: Option<set<string>>)  // by name, among the allowed kinds
    | Exact(field: string, valid: bool, target: Key)                  // names one key outright
    | Host(host: string)                                              // may name a runtime object, or nothing in the set

  const REF_FIELDS: seq<(string, Option<set<string>>)> := [
    ("providerRef", Some({PROVIDER})),
    ("sourceRef", None),
    ("targetRef", None),
    ("connectionRef", Some({CONNECTION, SECRET_REFERENCE})),
    ("secretRef", Some({SECRET_REFERENCE})),
    ("warehouseRef", Some({"Dataset"})),
    ("via", Some({PROVIDER}))]

  const CONFIG_REF_FIELDS: seq<(string, Option<set<string>>)> := [
    ("catalogRef", Some({"Catalog"})),
    ("warehouseProviderRef", Some({PROVIDER}))]

  predicate IsLabelChar(c: char) {
    'a' <= c <= 'z' || '0' <= c <= '9'
  }

  predicate IsDnsLabel(s: string) {
    && 1 <= |s| <= 63
    && IsLabelChar(s[0]) && IsLabelChar(s[|s| - 1])
    && forall i :: 0 <= i < |s| ==> IsLabelChar(s[i]) || s[i] == '-'
  }

  predicate ValidRef(ref: NameRef) {
    IsDnsLabel(ref.name) && (ref.namespace != "" ==> IsDnsLabel(ref.namespace))
  }

  function FieldDemands(spec: Spec, fields: seq<(string, Option<set<string>>)>): seq<Demand> {
    if fields == [] then []
    else
      var ref := RefFromSpec(spec, fields[0].0);
      (if ref.name == "" then [] else [Named(fields[0].0, ref, fields[0].1)])
      + FieldDemands(spec, fields[1..])
  }

  function SecretDemands(from: Key, items: seq<Json>): seq<Demand> {
    if items == [] then []
    else
      (if items[0].JString? && items[0].text != "" then
         [Exact("secretRefs", IsDnsLabel(items[0].text), Key(from.namespace, SECRET_REFERENCE, items[0].text))]
       else [])
      + SecretDemands(from, items[1..])
  }

  function ObserverDemands(e: Envelope): seq<Demand> {
    seq(|e.metadata.observers|, i requires 0 <= i < |e.metadata.observers| =>
      var obs := e.metadata.observers[i];
      Exact("observers", ValidRef(obs), RefKey(obs, e.metadata.namespace, PROVIDER)))
  }

  /** A managed Connection's target host; hostOf splits "host:port". */
  function TargetDemands(e: Envelope, hostOf: string -> string): seq<Demand> {
    var target := StringField(e.spec, "target");
    if e.kind == CONNECTION && !IsExternal(e) && target != "" then [Host(hostOf(target))] else []
  }

  /** Everything a manifest refers to, in the order in which it is resolved. */
  function Demands(e: Envelope, hostOf: string -> string): seq<Demand> {
    FieldDemands(e.spec, REF_FIELDS)
    + FieldDemands(ObjectField(e.spec, "configuration"), CONFIG_REF_FIELDS)
    + FieldDemands(ObjectField(e.spec, "tls"), [("secretRef", Some({SECRET_REFERENCE}))])
    + (if "secretRefs" in e.spec && e.spec["secretRefs"].JList? then
         SecretDemands(KeyOf(e), e.spec["secretRefs"].items) else [])
    + ObserverDemands(e)
    + TargetDemands(e, hostOf)
  }

  /** How references are read off a manifest. */
  type References = Envelope -> seq<Demand>

  function ManifestReferences(hostOf: string -> string): References {
    e => Demands(e, hostOf)
  }

  // ---------------------------------------------------------------- resolution

  function Candidates(keys: set<Key>, namespace: string, name: string, kinds: Option<set<string>>): set<Key> {
    set k | k in keys && k.namespace == namespace && k.name == name && (kinds.None? || k.kind in kinds.value)
  }

  ghost predicate IsTheOnly(s: set<Key>, k: Key) {
    s == {k}
  }

  ghost predicate Satisfied(keys: set<Key>, e: Envelope, demand: Demand) {
    match demand
    case Named(_, ref, kinds) =>
      ValidRef(ref)
      && exists to :: IsTheOnly(Candidates(keys, NamespaceOr(ref, e.metadata.namespace), ref.name, kinds), to)
    case Exact(_, valid, target) => valid && target in keys
    case Host(_) => true
  }

  function DemandTargets(keys: set<Key>, e: Envelope, demand: Demand): set<Key> {
    match demand
    case Named(_, ref, kinds) => Candidates(keys, NamespaceOr(ref, e.metadata.namespace), ref.name, kinds)
    case Exact(_, _, target) => {target} * keys
    case Host(host) => Candidates(keys, NormalizeNamespace(e.metadata.namespace), host, None) - {KeyOf(e)}
  }

  function TargetsUpTo(keys: set<Key>, e: Envelope, demands: seq<Demand>): set<Key> {
    if demands == [] then {}
    else TargetsUpTo(keys, e, demands[..|demands| - 1]) + DemandTargets(keys, e, demands[|demands| - 1])
  }

  /** The reference relation the manifests declare. */
  function Declared(nodes: map<Key, Envelope>, refs: References): Relation {
    map k | k in nodes :: TargetsUpTo(nodes.Keys, nodes[k], refs(nodes[k]))
  }

  ghost predicate DistinctKeys(envelopes: seq<Envelope>) {
    forall i, j :: 0 <= i < j < |envelopes| ==> KeyOf(envelopes[i]) != KeyOf(envelopes[j])
  }

  function NodesOf(envelopes: seq<Envelope>): map<Key, Envelope> {
    if envelopes == [] then map[]
    else NodesOf(envelopes[..|envelopes| - 1])[KeyOf(envelopes[|envelopes| - 1]) := envelopes[|envelopes| - 1]]
  }

  ghost predicate AllSatisfied(keys: set<Key>, e: Envelope, refs: References) {
    forall i :: 0 <= i < |refs(e)| ==> Satisfied(keys, e, refs(e)[i])
  }

  /** The manifest sets that have a dependency graph. */
  ghost predicate Buildable(envelopes: seq<Envelope>, refs: References) {
    && DistinctKeys(envelopes)
    && (forall i :: 0 <= i < |envelopes| ==> AllSatisfied(NodesOf(envelopes).Keys, envelopes[i], refs))
    && Acyclic(Declared(NodesOf(envelopes), refs))
  }

  /** Two envelopes share the key k. */
  ghost predicate Repeated(envelopes: seq<Envelope>, k: Key) {
    exists i, j :: 0 <= i < j < |envelopes| && KeyOf(envelopes[i]) == KeyOf(envelopes[j]) == k
  }

  /** The reference of e that stops the build: the first one that cannot be resolved. */
  ghost predicate FirstUnmet(keys: set<Key>, e: Envelope, refs: References, demand: Demand) {
    exists i :: 0 <= i < |refs(e)| && refs(e)[i] == demand && !Satisfied(keys, e, demand)
                && forall j :: 0 <= j < i ==> Satisfied(keys, e, refs(e)[j])
  }

  function FieldOf(demand: Demand): string {
    if demand.Host? then "target" else demand.field
  }

  /** The i-th envelope is the first with an unresolvable reference, in this field. */
  ghost predicate FaultAt(envelopes: seq<Envelope>, keys: set<Key>, refs: References, i: int, field: string) {
    && 0 <= i < |envelopes|
    && (forall j :: 0 <= j < i ==> AllSatisfied(keys, envelopes[j], refs))
    && exists demand :: FirstUnmet(keys, envelopes[i], refs, demand) && FieldOf(demand) == field
  }

  ghost predicate Faulty(envelopes: seq<Envelope>, keys: set<Key>, refs: References, error: BuildError) {
    error.BadReference? && exists i :: FaultAt(envelopes, keys, refs, i, error.field) && KeyOf(envelopes[i]) == error.from
  }

  datatype BuildError =
    | DuplicateResource(key: Key)
    | BadReference(from: Key, field: string)
    | DependencyCycle(cycle: seq<Key>)

  /** The error names a fault the manifests have. */
  ghost predicate NamesFault(envelopes: seq<Envelope>, refs: References, error: BuildError) {
    match error
    case DuplicateResource(k) => Repeated(envelopes, k)
    case BadReference(_, _) => DistinctKeys(envelopes) && Faulty(envelopes, NodesOf(envelopes).Keys, refs, error)
    case DependencyCycle(cycle) => ClosedWalk(Declared(NodesOf(envelopes), refs), cycle)
  }

  datatype BuildResult = Built(graph: Graph) | Refused(error: BuildError)

  type NameIndex = map<(string, string), set<Key>>

  function Indexed(byName: NameIndex, namespace: string, name: string): set<Key> {
    if (namespace, name) in byName then byName[(namespace, name)] else {}
  }

  ghost predicate IndexOf(byName: NameIndex, keys: set<Key>) {
    forall ns, n :: Indexed(byName, ns, n) == Candidates(keys, ns, n, None)
  }

  lemma {:induction false} NodesKeyed(envelopes: seq<Envelope>)
    ensures Keyed(NodesOf(envelopes))
  {
    if envelopes != [] {
      NodesKeyed(envelopes[..|envelopes| - 1]);
    }
  }

  lemma {:induction false} NodesMembers(envelopes: seq<Envelope>, k: Key)
    ensures k in NodesOf(envelopes) <==> exists i :: 0 <= i < |envelopes| && KeyOf(envelopes[i]) == k
  {
    if envelopes != [] {
      var n := |envelopes| - 1;
      NodesMembers(envelopes[..n], k);
      assert forall i :: 0 <= i < n ==> envelopes[..n][i] == envelopes[i];
    }
  }

  lemma {:induction false} NodesFiled(envelopes: seq<Envelope>, i: nat)
    requires DistinctKeys(envelopes) && i < |envelopes|
    ensures KeyOf(envelopes[i]) in NodesOf(envelopes) && NodesOf(envelopes)[KeyOf(envelopes[i])] == envelopes[i]
  {
    var n := |envelopes| - 1;
    if i < n {
      NodesFiled(envelopes[..n], i);
    }
  }

  /** Filing the next envelope either repeats a key or extends the nodes. */
  lemma FileNext(envelopes: seq<Envelope>, i: nat)
    requires i < |envelopes| && DistinctKeys(envelopes[..i])
    ensures KeyOf(envelopes[i]) in NodesOf(envelopes[..i]) ==> Repeated(envelopes, KeyOf(envelopes[i]))
    ensures KeyOf(envelopes[i]) !in NodesOf(envelopes[..i]) ==> DistinctKeys(envelopes[..i + 1])
    ensures NodesOf(envelopes[..i + 1]) == NodesOf(envelopes[..i])[KeyOf(envelopes[i]) := envelopes[i]]
  {
    var filed := envelopes[..i];
    assert envelopes[..i + 1] == filed + [envelopes[i]];
    assert (filed + [envelopes[i]])[..i] == filed;
    NodesMembers(filed, KeyOf(envelopes[i]));
    if KeyOf(envelopes[i]) in NodesOf(filed) {
      var j :| 0 <= j < |filed| && KeyOf(filed[j]) == KeyOf(envelopes[i]);
      assert KeyOf(envelopes[j]) == KeyOf(envelopes[i]);
    }
  }

  lemma IndexNext(before: NameIndex, after: NameIndex, keys: set<Key>, k: Key)
    requires IndexOf(before, keys)
    requires after == before[(k.namespace, k.name) := Indexed(before, k.namespace, k.name) + {k}]
    ensures IndexOf(after, keys + {k})
  {
    forall ns, n ensures Indexed(after, ns, n) == Candidates(keys + {k}, ns, n, None) {
      assert Indexed(before, ns, n) == Candidates(keys, ns, n, None);
    }
  }

  /** Files every envelope under its key and indexes the keys by namespace and name. */
  method FileEnvelopes(envelopes: seq<Envelope>)
    returns (nodes: map<Key, Envelope>, byName: NameIndex, duplicate: Option<Key>)
    ensures duplicate.None? <==> DistinctKeys(envelopes)
    ensures duplicate.Some? ==> Repeated(envelopes, duplicate.value)
    ensures duplicate.None? ==> nodes == NodesOf(envelopes) && IndexOf(byName, nodes.Keys)
  {
    nodes, byName := map[], map[];
    var i := 0;
    while i < |envelopes|
      invariant 0 <= i <= |envelopes|
      invariant nodes == NodesOf(envelopes[..i]) && DistinctKeys(envelopes[..i])
      invariant IndexOf(byName, nodes.Keys)
    {
      var k := KeyOf(envelopes[i]);
      FileNext(envelopes, i);
      if k in nodes {
        return nodes, byName, Some(k);
      }
      ghost var before, keys := byName, nodes.Keys;
      nodes := nodes[k := envelopes[i]];
      byName := byName[(k.namespace, k.name) := Indexed(byName, k.namespace, k.name) + {k}];
      IndexNext(before, byName, keys, k);
      assert nodes.Keys == keys + {k};
      i := i + 1;
    }
    assert envelopes[..|envelopes|] == envelopes;
    duplicate := None;
  }

  /** Resolves one demand against the index, or reports why it cannot. */
  method Resolve(keys: set<Key>, byName: NameIndex, e: Envelope, demand: Demand)
    returns (ok: bool, targets: set<Key>)
    requires IndexOf(byName, keys)
    ensures ok <==> Satisfied(keys, e, demand)
    ensures ok ==> targets == DemandTargets(keys, e, demand)
  {
    match demand {
      case Named(_, ref, kinds) =>
        var named := Indexed(byName, NamespaceOr(ref, e.metadata.namespace), ref.name);
        targets := set k | k in named && (kinds.None? || k.kind in kinds.value);
        assert targets == Candidates(keys, NamespaceOr(ref, e.metadata.namespace), ref.name, kinds);
        ok := ValidRef(ref) && |targets| == 1;
        if ok {
          var to :| to in targets;
          assert |targets - {to}| == 0;
          assert IsTheOnly(targets, to);
        }
      case Exact(_, valid, target) =>
        ok, targets := valid && target in keys, {target};
      case Host(host) =>
        ok, targets := true, Indexed(byName, NormalizeNamespace(e.metadata.namespace), host) - {KeyOf(e)};
    }
  }

  /** All edges of one envelope, in the order its references are declared. */
  method EdgesOf(keys: set<Key>, byName: NameIndex, e: Envelope, refs: References)
    returns (bad: Option<Demand>, targets: set<Key>)
    requires IndexOf(byName, keys)
    ensures bad.None? <==> AllSatisfied(keys, e, refs)
    ensures bad.Some? ==> FirstUnmet(keys, e, refs, bad.value)
    ensures bad.None? ==> targets == TargetsUpTo(keys, e, refs(e))
  {
    var demands := refs(e);
    targets := {};
    var i := 0;
    while i < |demands|
      invariant 0 <= i <= |demands|
      invariant targets == TargetsUpTo(keys, e, demands[..i])
      invariant forall j :: 0 <= j < i ==> Satisfied(keys, e, demands[j])
    {
      var ok, more := Resolve(keys, byName, e, demands[i]);
      if !ok {
        return Some(demands[i]), targets;
      }
      assert demands[..i + 1][..i] == demands[..i];
      targets := targets + more;
      i := i + 1;
    }
    assert demands[..|demands|] == demands;
    bad := None;
  }

  lemma {:induction false} TargetsInKeys(keys: set<Key>, e: Envelope, demands: seq<Demand>)
    ensures TargetsUpTo(keys, e, demands) <= keys
  {
    if demands != [] {
      TargetsInKeys(keys, e, demands[..|demands| - 1]);
    }
  }

  /** A relation with more edges reaches more. */
  lemma MoreEdgesReachMore(E: Relation, F: Relation, a: Key, b: Key)
    requires forall x, y :: Step(E, x, y) ==> Step(F, x, y)
    requires Reaches(E, a, b)
    ensures Reaches(F, a, b)
  {
    var p :| WalkBetween(E, p, a, b);
    assert WalkBetween(F, p, a, b);
  }

  lemma SameStepsSameCycles(E: Relation, F: Relation)
    requires forall a :: Direct(E, a) == Direct(F, a)
    ensures Acyclic(E) <==> Acyclic(F)
  {
    forall k ensures Reaches(E, k, k) <==> Reaches(F, k, k) {
      if Reaches(E, k, k) {
        MoreEdgesReachMore(E, F, k, k);
      }
      if Reaches(F, k, k) {
        MoreEdgesReachMore(F, E, k, k);
      }
    }
  }

  /** The declared relation, read off the envelopes instead of the nodes. */
  ghost predicate DeclaredBy(envelopes: seq<Envelope>, keys: set<Key>, declared: Relation, refs: References) {
    && (forall i :: 0 <= i < |envelopes| ==>
          Direct(declared, KeyOf(envelopes[i])) == TargetsUpTo(keys, envelopes[i], refs(envelopes[i])))
    && (forall k :: k in declared ==> exists i :: 0 <= i < |envelopes| && KeyOf(envelopes[i]) == k)
  }

  lemma DeclaredByEnvelopes(envelopes: seq<Envelope>, refs: References)
    requires DistinctKeys(envelopes)
    ensures DeclaredBy(envelopes, NodesOf(envelopes).Keys, Declared(NodesOf(envelopes), refs), refs)
  {
    forall i | 0 <= i < |envelopes|
      ensures Direct(Declared(NodesOf(envelopes), refs), KeyOf(envelopes[i]))
           == TargetsUpTo(NodesOf(envelopes).Keys, envelopes[i], refs(envelopes[i]))
    {
      NodesFiled(envelopes, i);
    }
    forall k | k in NodesOf(envelopes) ensures exists i :: 0 <= i < |envelopes| && KeyOf(envelopes[i]) == k {
      NodesMembers(envelopes, k);
    }
  }

  /** The edges of the keys done so far, and of no others. */
  ghost predicate Connected(declared: Relation, edges: Relation, done: set<Key>) {
    forall a :: Direct(edges, a) == if a in done then Direct(declared, a) else {}
  }

  lemma ConnectNext(declared: Relation, edges: Relation, done: set<Key>, k: Key)
    requires Connected(declared, edges, done)
    ensures Connected(declared, if Direct(declared, k) != {} then edges[k := Direct(declared, k)] else edges, done + {k})
  {
    var after := if Direct(declared, k) != {} then edges[k := Direct(declared, k)] else edges;
    forall a ensures Direct(after, a) == if a in done + {k} then Direct(declared, a) else {} {
      assert Direct(edges, a) == if a in done then Direct(declared, a) else {};
    }
  }

  lemma ConnectedAll(declared: Relation, edges: Relation, done: set<Key>)
    requires Connected(declared, edges, done) && declared.Keys <= done
    ensures forall a :: Direct(edges, a) == Direct(declared, a)
  {
  }

  /** Resolves the references of every envelope. */
  method ConnectAll(envelopes: seq<Envelope>, keys: set<Key>, byName: NameIndex, refs: References, ghost declared: Relation)
    returns (bad: Option<BuildError>, edges: Relation)
    requires IndexOf(byName, keys) && DeclaredBy(envelopes, keys, declared, refs)
    ensures bad.None? <==> forall i :: 0 <= i < |envelopes| ==> AllSatisfied(keys, envelopes[i], refs)
    ensures bad.Some? ==> Faulty(envelopes, keys, refs, bad.value)
    ensures bad.None? ==> forall a :: Direct(edges, a) == Direct(declared, a)
    ensures edges.Keys <= declared.Keys
  {
    edges := map[];
    ghost var done: set<Key> := {};
    var i := 0;
    while i < |envelopes|
      invariant 0 <= i <= |envelopes|
      invariant forall j :: 0 <= j < i ==> AllSatisfied(keys, envelopes[j], refs)
      invariant edges.Keys <= declared.Keys
      invariant forall j :: 0 <= j < i ==> KeyOf(envelopes[j]) in done
      invariant Connected(declared, edges, done)
    {
      var e := envelopes[i];
      var unmet, targets := EdgesOf(keys, byName, e, refs);
      if unmet.Some? {
        assert FaultAt(envelopes, keys, refs, i, FieldOf(unmet.value));
        return Some(BadReference(KeyOf(e), FieldOf(unmet.value))), edges;
      }
      assert targets == Direct(declared, KeyOf(e));
      ConnectNext(declared, edges, done, KeyOf(e));
      if targets != {} {
        edges := edges[KeyOf(e) := targets];
      }
      done := done + {KeyOf(e)};
      i := i + 1;
    }
    ConnectedAll(declared, edges, done);
    bad := None;
  }

  lemma DeclaredStaysInside(nodes: map<Key, Envelope>, edges: Relation, refs: References)
    requires forall a :: Direct(edges, a) == Direct(Declared(nodes, refs), a)
    ensures Targets(edges) <= nodes.Keys
  {
    forall d | d in Targets(edges) ensures d in nodes {
      var k :| k in edges && d in edges[k];
      assert d in Direct(edges, k);
      TargetsInKeys(nodes.Keys, nodes[k], refs(nodes[k]));
    }
  }

  /**
   * Builds the graph exactly for the buildable sets: the edges are the declared references, every
   * reference resolves to one node. A refusal names a real fault: a repeated key, the first
   * unresolvable reference, or a cycle of declared references.
   */
  method Build(envelopes: seq<Envelope>, refs: References) returns (r: BuildResult)
    ensures r.Built? <==> Buildable(envelopes, refs)
    ensures r.Built? ==> Accepted(r.graph) && r.graph.nodes == NodesOf(envelopes)
    ensures r.Built? ==> forall a :: Direct(r.graph.edges, a) == Direct(Declared(NodesOf(envelopes), refs), a)
    ensures r.Refused? ==> NamesFault(envelopes, refs, r.error)
  {
    var nodes, byName, duplicate := FileEnvelopes(envelopes);
    if duplicate.Some? {
      return Refused(DuplicateResource(duplicate.value));
    }
    DeclaredByEnvelopes(envelopes, refs);
    var bad, edges := ConnectAll(envelopes, nodes.Keys, byName, refs, Declared(nodes, refs));
    if bad.Some? {
      return Refused(bad.value);
    }
    NodesKeyed(envelopes);
    DeclaredStaysInside(nodes, edges, refs);
    SameStepsSameCycles(edges, Declared(nodes, refs));
    var g := Graph(nodes, edges);
    var cycle := FindCycle(g);
    if cycle.Some? {
      return Refused(DependencyCycle(cycle.value));
    }
    r := Built(g);
  }
}
