/** Graph-scoped access: which realizing containers may reach which, compiled from references and grants. */
module GraphAccess {
  import opened Resources
  import opened Reachability
  import opened DependencyGraph

  // ---------------------------------------------------------------- label selectors and grants

  datatype Operator = In | NotIn | Exists | DoesNotExist | UnknownOperator

  datatype Requirement = Requirement(key: string, operator: Operator, values: seq<string>)

  datatype Selector = Selector(matchLabels: map<string, string>, matchExpressions: seq<Requirement>)

  predicate RequirementMet(r: Requirement, labels: map<string, string>) {
    match r.operator
    case In => r.key in labels && labels[r.key] in r.values
    case NotIn => r.key !in labels || labels[r.key] !in r.values
    case Exists => r.key in labels
    case DoesNotExist => r.key !in labels
    case UnknownOperator => false
  }

  /** A missing label reads as the empty string in the equality part. */
  predicate Selects(s: Selector, labels: map<string, string>) {
    && (forall k :: k in s.matchLabels ==> (if k in labels then labels[k] else "") == s.matchLabels[k])
    && (forall i :: 0 <= i < |s.matchExpressions| ==> RequirementMet(s.matchExpressions[i], labels))
  }

  datatype Grant = Grant(namespace: string, selector: Option<Selector>)

  /** The manifest set, the decoding of selector blocks, and the LabelScopedAccess gate. */
  datatype Scope = Scope(
    resources: map<Key, Envelope>,
    decodeSelector: Spec -> Option<Selector>,
    labelScoped: bool)

  function GrantsIn(sc: Scope, items: seq<Json>): seq<Grant> {
    if items == [] then []
    else
      var rest := GrantsIn(sc, items[1..]);
      if !items[0].JObject? || StringField(items[0].fields, "namespace") == "" then rest
      else
        var block := items[0].fields;
        var selector := if "selector" in block && block["selector"].JObject?
                        then sc.decodeSelector(block["selector"].fields) else None;
        [Grant(NormalizeNamespace(StringField(block, "namespace")), selector)] + rest
  }

  function AccessGrants(sc: Scope, e: Envelope): seq<Grant> {
    if "access" in e.spec && e.spec["access"].JList? then GrantsIn(sc, e.spec["access"].items) else []
  }

  predicate GrantAdmits(sc: Scope, grant: Grant, candidate: Envelope) {
    match grant.selector
    case None => true
    case Some(s) => sc.labelScoped && Selects(s, candidate.metadata.labels)
  }

  // ---------------------------------------------------------------- containers

  /** The Provider or Connection whose runtime container realizes k. */
  function ContainerOf(sc: Scope, k: Key): Key {
    if k !in sc.resources || sc.resources[k].kind == PROVIDER || sc.resources[k].kind == CONNECTION then k
    else
      var ref := RefFromSpec(sc.resources[k].spec, "providerRef");
      if ref.name == "" then k else RefKey(ref, sc.resources[k].metadata.namespace, PROVIDER)
  }

  predicate IsContainer(sc: Scope, k: Key) {
    k in sc.resources && ContainerOf(sc, k) == k
  }

  /** k's runtime presence is p: p itself, or realized on it. */
  predicate RealizedBy(sc: Scope, k: Key, p: Key) {
    k == p || ContainerOf(sc, k) == p
  }

  method ContainerMembers(sc: Scope, self: Key) returns (out: set<Key>)
    ensures forall k :: k in out <==> RealizedBy(sc, k, self)
  {
    out := {self};
    var todo := sc.resources.Keys;
    while todo != {}
      invariant todo <= sc.resources.Keys && self in out
      invariant forall k :: k in out <==> k == self || (k in sc.resources && k !in todo && ContainerOf(sc, k) == self)
      decreases todo
    {
      var k :| k in todo;
      todo := todo - {k};
      if ContainerOf(sc, k) == self {
        out := out + {k};
      }
    }
  }

  // ---------------------------------------------------------------- who may dial whom

  datatype Edge = Edge(from: Key, to: Key)

  ghost predicate ReferenceEdge(sc: Scope, edges: set<Edge>, e: Edge, p: Key, q: Key) {
    e in edges && RealizedBy(sc, e.from, p) && ContainerOf(sc, e.to) == q
  }

  /** q is a container the grant, declared on p's side, opens. */
  ghost predicate Covers(sc: Scope, grant: Grant, p: Key, q: Key) {
    && q != p && q in sc.resources
    && q.namespace == grant.namespace && GrantAdmits(sc, grant, sc.resources[q])
    && exists c :: c in sc.resources && ContainerOf(sc, c) == q
  }

  ghost predicate CoveredByOne(sc: Scope, grants: seq<Grant>, p: Key, q: Key) {
    exists i :: 0 <= i < |grants| && Covers(sc, grants[i], p, q)
  }

  /** A grant declared on k, which p realizes, opens q to p. */
  ghost predicate GrantDials(sc: Scope, k: Key, p: Key, q: Key) {
    k in sc.resources && RealizedBy(sc, k, p) && CoveredByOne(sc, AccessGrants(sc, sc.resources[k]), p, q)
  }

  /** p may dial q, as seen from p. */
  ghost predicate Egress(sc: Scope, edges: set<Edge>, p: Key, q: Key) {
    p != q && ((exists e :: ReferenceEdge(sc, edges, e, p, q)) || (exists k :: GrantDials(sc, k, p, q)))
  }

  ghost predicate ReferencedEdge(sc: Scope, edges: set<Edge>, e: Edge, q: Key, p: Key) {
    e in edges && RealizedBy(sc, e.to, q) && ContainerOf(sc, e.from) == p
  }

  /** An absent envelope has no labels. */
  function EnvelopeOrZero(sc: Scope, k: Key): Envelope {
    if k in sc.resources then sc.resources[k]
    else Envelope("", "", Metadata("", "", map[], map[], [], false, ""), map[])
  }

  ghost predicate AdmittedByOne(sc: Scope, grants: seq<Grant>, q: Key) {
    exists i :: 0 <= i < |grants| && grants[i].namespace == q.namespace && GrantAdmits(sc, grants[i], EnvelopeOrZero(sc, q))
  }

  /** A grant declared on k, which p realizes, names q's namespace and admits q. */
  ghost predicate GrantReceived(sc: Scope, k: Key, q: Key, p: Key) {
    k in sc.resources && ContainerOf(sc, k) == p && AdmittedByOne(sc, AccessGrants(sc, sc.resources[k]), q)
  }

  /** p may dial q, as seen from q. */
  ghost predicate Ingress(sc: Scope, edges: set<Edge>, q: Key, p: Key) {
    p != q && ((exists e :: ReferencedEdge(sc, edges, e, q, p)) || (exists k :: GrantReceived(sc, k, q, p)))
  }

  method AddGrantedContainers(sc: Scope, grant: Grant, self: Key, out0: set<Key>) returns (out: set<Key>)
    ensures forall q :: q in out <==> (q in out0 || Covers(sc, grant, self, q))
  {
    out := out0;
    var todo := sc.resources.Keys;
    while todo != {}
      invariant todo <= sc.resources.Keys
      invariant out0 <= out && forall q :: q in out ==> q in out0 || Covers(sc, grant, self, q)
      invariant forall c :: c in sc.resources.Keys - todo && Covers(sc, grant, self, ContainerOf(sc, c)) ==> ContainerOf(sc, c) in out
      decreases todo
    {
      var candidate :| candidate in todo;
      todo := todo - {candidate};
      var c := ContainerOf(sc, candidate);
      if c != self && c.namespace == grant.namespace && c in sc.resources && GrantAdmits(sc, grant, sc.resources[c]) {
        out := out + {c};
      }
    }
  }

  method EgressPeers(sc: Scope, edges: set<Edge>, self: Key) returns (peers: seq<Key>)
    ensures NoRepeats(peers)
    ensures forall q :: q in peers <==> Egress(sc, edges, self, q)
  {
    var members := ContainerMembers(sc, self);
    var out := ReferenceTargets(sc, edges, members, self);
    ghost var dialed := out;
    var todo := members;
    while todo != {}
      invariant todo <= members
      invariant forall q :: q in out <==> (q in dialed || exists k :: k !in todo && GrantDials(sc, k, self, q))
      decreases todo
    {
      var k :| k in todo;
      ghost var before := out;
      todo := todo - {k};
      if k in sc.resources {
        out := GrantTargets(sc, AccessGrants(sc, sc.resources[k]), self, out);
      }
      assert forall q :: q in out <==> (q in before || GrantDials(sc, k, self, q));
    }
    peers := SortedListing(out);
  }

  /** Containers at the far end of references made from the members. */
  method ReferenceTargets(sc: Scope, edges: set<Edge>, members: set<Key>, self: Key) returns (out: set<Key>)
    requires forall k :: k in members <==> RealizedBy(sc, k, self)
    ensures forall q :: q in out <==> q != self && exists e :: ReferenceEdge(sc, edges, e, self, q)
  {
    out := {};
    var todo := edges;
    while todo != {}
      invariant todo <= edges
      invariant forall q :: q in out <==> q != self && exists e :: e !in todo && ReferenceEdge(sc, edges, e, self, q)
      decreases todo
    {
      var e :| e in todo;
      todo := todo - {e};
      if e.from in members && ContainerOf(sc, e.to) != self {
        out := out + {ContainerOf(sc, e.to)};
      }
    }
  }

  method GrantTargets(sc: Scope, grants: seq<Grant>, self: Key, out0: set<Key>) returns (out: set<Key>)
    ensures forall q :: q in out <==> (q in out0 || CoveredByOne(sc, grants, self, q))
  {
    out := out0;
    var i := 0;
    while i < |grants|
      invariant 0 <= i <= |grants|
      invariant forall q :: q in out <==> (q in out0 || exists j :: 0 <= j < i && Covers(sc, grants[j], self, q))
    {
      out := AddGrantedContainers(sc, grants[i], self, out);
      i := i + 1;
    }
  }

  method IngressPeers(sc: Scope, edges: set<Edge>, self: Key) returns (peers: seq<Key>)
    ensures NoRepeats(peers)
    ensures forall p :: p in peers <==> Ingress(sc, edges, self, p)
  {
    var members := ContainerMembers(sc, self);
    var out := ReferenceSources(sc, edges, members, self);
    ghost var dialing := out;
    var todo := sc.resources.Keys;
    while todo != {}
      invariant todo <= sc.resources.Keys
      invariant forall p :: p in out <==>
                  (p in dialing || (p != self && exists k :: k !in todo && GrantReceived(sc, k, self, p)))
      decreases todo
    {
      var k :| k in todo;
      ghost var before := out;
      todo := todo - {k};
      var c := ContainerOf(sc, k);
      var admits := AnyAdmits(sc, AccessGrants(sc, sc.resources[k]), self);
      if c != self && admits {
        out := out + {c};
      }
      assert forall p :: p in out <==> (p in before || (p != self && GrantReceived(sc, k, self, p)));
    }
    peers := SortedListing(out);
  }

  method ReferenceSources(sc: Scope, edges: set<Edge>, members: set<Key>, self: Key) returns (out: set<Key>)
    requires forall k :: k in members <==> RealizedBy(sc, k, self)
    ensures forall p :: p in out <==> p != self && exists e :: ReferencedEdge(sc, edges, e, self, p)
  {
    out := {};
    var todo := edges;
    while todo != {}
      invariant todo <= edges
      invariant forall p :: p in out <==> p != self && exists e :: e !in todo && ReferencedEdge(sc, edges, e, self, p)
      decreases todo
    {
      var e :| e in todo;
      todo := todo - {e};
      if e.to in members && ContainerOf(sc, e.from) != self {
        out := out + {ContainerOf(sc, e.from)};
      }
    }
  }

  method AnyAdmits(sc: Scope, grants: seq<Grant>, self: Key) returns (yes: bool)
    ensures yes <==> AdmittedByOne(sc, grants, self)
  {
    yes := false;
    var i := 0;
    while i < |grants|
      invariant 0 <= i <= |grants|
      invariant yes <==> exists j :: 0 <= j < i && grants[j].namespace == self.namespace
                                     && GrantAdmits(sc, grants[j], EnvelopeOrZero(sc, self))
    {
      if grants[i].namespace == self.namespace && GrantAdmits(sc, grants[i], EnvelopeOrZero(sc, self)) {
        yes := true;
      }
      i := i + 1;
    }
  }

  ghost predicate Member(sc: Scope, edges: set<Edge>, p: Key, q: Key) {
    Egress(sc, edges, p, q) || Ingress(sc, edges, p, q)
  }

  method MembershipEdges(sc: Scope, edges: set<Edge>, self: Key) returns (peers: seq<Key>)
    ensures NoRepeats(peers)
    ensures forall q :: q in peers <==> Member(sc, edges, self, q)
  {
    var egress := EgressPeers(sc, edges, self);
    var ingress := IngressPeers(sc, edges, self);
    var out := (set q | q in egress) + (set q | q in ingress);
    peers := SortedListing(out);
  }

  // ---------------------------------------------------------------- the two endpoints agree

  /** The dialing side and the dialed side compile the same access, independently. */
  lemma EgressIngressDual(sc: Scope, edges: set<Edge>, p: Key, q: Key)
    requires IsContainer(sc, p) && IsContainer(sc, q)
    ensures Egress(sc, edges, p, q) <==> Ingress(sc, edges, q, p)
  {
    if Egress(sc, edges, p, q) {
      if e :| ReferenceEdge(sc, edges, e, p, q) {
        assert ReferencedEdge(sc, edges, e, q, p);
      } else {
        var k :| GrantDials(sc, k, p, q);
        var grants := AccessGrants(sc, sc.resources[k]);
        var i :| 0 <= i < |grants| && Covers(sc, grants[i], p, q);
        assert GrantReceived(sc, k, q, p);
      }
    }
    if Ingress(sc, edges, q, p) {
      if e :| ReferencedEdge(sc, edges, e, q, p) {
        assert ReferenceEdge(sc, edges, e, p, q);
      } else {
        var k :| GrantReceived(sc, k, q, p);
        var grants := AccessGrants(sc, sc.resources[k]);
        var i :| 0 <= i < |grants| && grants[i].namespace == q.namespace && GrantAdmits(sc, grants[i], EnvelopeOrZero(sc, q));
        assert Covers(sc, grants[i], p, q);
        assert GrantDials(sc, k, p, q);
      }
    }
  }

  lemma MembershipSymmetric(sc: Scope, edges: set<Edge>, p: Key, q: Key)
    requires IsContainer(sc, p) && IsContainer(sc, q)
    ensures Member(sc, edges, p, q) <==> Member(sc, edges, q, p)
    ensures Member(sc, edges, p, q) <==> Ingress(sc, edges, p, q) || Ingress(sc, edges, q, p)
  {
    EgressIngressDual(sc, edges, p, q);
    EgressIngressDual(sc, edges, q, p);
  }

  // ---------------------------------------------------------------- access edges from the graph

  /** The declared references as access requests. */
  method DeriveEdges(g: Graph) returns (edges: set<Edge>)
    ensures forall e :: e in edges <==> Step(g.edges, e.from, e.to)
  {
    edges := {};
    var froms := g.edges.Keys;
    while froms != {}
      invariant froms <= g.edges.Keys
      invariant forall e :: e in edges <==> e.from !in froms && Step(g.edges, e.from, e.to)
      decreases froms
    {
      var from :| from in froms;
      froms := froms - {from};
      edges := edges + set to | to in g.edges[from] :: Edge(from, to);
    }
  }

  type Capable = Envelope -> bool

  function ProviderKeyOf(e: Envelope): Key {
    RefKey(RefFromSpec(e.spec, "providerRef"), e.metadata.namespace, PROVIDER)
  }

  /** A managed Connection realized by a mediation-capable Provider of the set. */
  predicate IsMediated(sc: Scope, capable: Capable, k: Key) {
    && k in sc.resources && sc.resources[k].kind == CONNECTION && !IsExternal(sc.resources[k])
    && RefFromSpec(sc.resources[k].spec, "providerRef").name != ""
    && ProviderKeyOf(sc.resources[k]) in sc.resources
    && capable(sc.resources[ProviderKeyOf(sc.resources[k])])
  }

  datatype MediatedConnection = MediatedConnection(connection: Key, consumers: set<Key>, targets: set<Key>)

  ghost predicate Mediates(g: Graph, sc: Scope, capable: Capable, mc: MediatedConnection) {
    && IsMediated(sc, capable, mc.connection)
    && (forall x :: x in mc.consumers <==> Step(g.edges, x, mc.connection))
    && (forall x :: x in mc.targets <==> Step(g.edges, mc.connection, x) && x.kind != PROVIDER && x.kind != SECRET_REFERENCE)
  }

  ghost predicate Lists(out: seq<MediatedConnection>, k: Key) {
    exists i :: 0 <= i < |out| && out[i].connection == k
  }

  lemma ListsAppend(out: seq<MediatedConnection>, mc: MediatedConnection)
    ensures forall k :: Lists(out + [mc], k) <==> Lists(out, k) || k == mc.connection
  {
    var more := out + [mc];
    assert more[|out|] == mc;
    forall k | Lists(out, k) ensures Lists(more, k) {
      var i :| 0 <= i < |out| && out[i].connection == k;
      assert more[i].connection == k;
    }
  }

  method DescribeMediated(g: Graph, reverse: Relation, sc: Scope, capable: Capable, k: Key) returns (mc: MediatedConnection)
    requires IsMediated(sc, capable, k) && forall a, b :: Step(reverse, b, a) <==> Step(g.edges, a, b)
    ensures mc.connection == k && Mediates(g, sc, capable, mc)
  {
    var targets := set x | x in Direct(g.edges, k) && x.kind != PROVIDER && x.kind != SECRET_REFERENCE;
    mc := MediatedConnection(k, Direct(reverse, k), targets);
    assert forall x :: x in mc.consumers <==> Step(reverse, k, x);
  }

  method CompileMediatedConnections(g: Graph, sc: Scope, capable: Capable) returns (out: seq<MediatedConnection>)
    ensures forall i :: 0 <= i < |out| ==> Mediates(g, sc, capable, out[i])
    ensures forall k :: Lists(out, k) <==> IsMediated(sc, capable, k)
  {
    var reverse := Reverse(g.edges);
    var keys := SortedListing(sc.resources.Keys);
    out := [];
    var n := 0;
    while n < |keys|
      invariant 0 <= n <= |keys|
      invariant forall i :: 0 <= i < |out| ==> Mediates(g, sc, capable, out[i])
      invariant forall k :: Lists(out, k) <==> k in keys[..n] && IsMediated(sc, capable, k)
    {
      var k := keys[n];
      assert keys[..n + 1] == keys[..n] + [k];
      if IsMediated(sc, capable, k) {
        var mc := DescribeMediated(g, reverse, sc, capable, k);
        ListsAppend(out, mc);
        out := out + [mc];
      }
      n := n + 1;
    }
    assert keys[..n] == keys;
  }

  /** A dependent's Provider container and the Provider that tunnels the Connection it depends on. */
  ghost predicate TunnelEdge(g: Graph, sc: Scope, capable: Capable, conn: Key, dep: Key, e: Edge) {
    && IsMediated(sc, capable, conn) && Reaches(g.edges, dep, conn)
    && e.to == KeyOf(sc.resources[ProviderKeyOf(sc.resources[conn])])
    && e.from == ContainerOf(sc, dep) && e.from != e.to
    && e.from in sc.resources && sc.resources[e.from].kind == PROVIDER
  }

  method MediatedConsumerEdges(g: Graph, sc: Scope, capable: Capable) returns (out: set<Edge>)
    ensures forall e :: e in out <==> exists conn, dep :: TunnelEdge(g, sc, capable, conn, dep, e)
  {
    var mediated := CompileMediatedConnections(g, sc, capable);
    out := {};
    var i := 0;
    while i < |mediated|
      invariant 0 <= i <= |mediated|
      invariant forall e :: e in out ==> exists conn, dep :: TunnelEdge(g, sc, capable, conn, dep, e)
      invariant forall j, dep, e :: 0 <= j < i && TunnelEdge(g, sc, capable, mediated[j].connection, dep, e) ==> e in out
    {
      var conn := mediated[i].connection;
      assert Mediates(g, sc, capable, mediated[i]);
      var found := TunnelEdges(g, sc, capable, conn);
      out := out + found;
      i := i + 1;
    }
    forall e, conn, dep | TunnelEdge(g, sc, capable, conn, dep, e) ensures e in out {
      assert Lists(mediated, conn);
      ghost var j :| 0 <= j < |mediated| && mediated[j].connection == conn;
    }
  }

  method TunnelEdges(g: Graph, sc: Scope, capable: Capable, conn: Key) returns (out: set<Edge>)
    requires IsMediated(sc, capable, conn)
    ensures forall e :: e in out <==> exists dep :: TunnelEdge(g, sc, capable, conn, dep, e)
  {
    var tunneler := KeyOf(sc.resources[ProviderKeyOf(sc.resources[conn])]);
    var todo := Dependents(g, conn);
    out := {};
    while todo != {}
      invariant forall x :: x in todo ==> Reaches(g.edges, x, conn)
      invariant forall e :: e in out <==> exists dep :: dep !in todo && TunnelEdge(g, sc, capable, conn, dep, e)
      decreases todo
    {
      var dep :| dep in todo;
      ghost var before := out;
      todo := todo - {dep};
      var container := ContainerOf(sc, dep);
      if container != tunneler && container in sc.resources && sc.resources[container].kind == PROVIDER {
        out := out + {Edge(container, tunneler)};
      }
      assert forall e :: e in out <==> e in before || TunnelEdge(g, sc, capable, conn, dep, e);
    }
  }

  /**
   * Whatever reaches a mediated Connection through any chain of references can dial the Connection's
   * tunneler: both containers list each other once the synthetic edges are in.
   */
  lemma MediatedConsumersMeet(g: Graph, sc: Scope, capable: Capable, edges: set<Edge>, conn: Key, dep: Key)
    requires Keyed(sc.resources)
    requires forall e :: (exists c, d :: TunnelEdge(g, sc, capable, c, d, e)) ==> e in edges
    requires IsMediated(sc, capable, conn) && Reaches(g.edges, dep, conn)
    requires ContainerOf(sc, dep) in sc.resources && sc.resources[ContainerOf(sc, dep)].kind == PROVIDER
    requires ContainerOf(sc, dep) != ProviderKeyOf(sc.resources[conn])
    ensures var consumer, tunneler := ContainerOf(sc, dep), ProviderKeyOf(sc.resources[conn]);
            && Egress(sc, edges, consumer, tunneler) && Ingress(sc, edges, tunneler, consumer)
            && Member(sc, edges, consumer, tunneler) && Member(sc, edges, tunneler, consumer)
  {
    var consumer, tunneler := ContainerOf(sc, dep), ProviderKeyOf(sc.resources[conn]);
    var e := Edge(consumer, tunneler);
    assert TunnelEdge(g, sc, capable, conn, dep, e);
    assert ReferenceEdge(sc, edges, e, consumer, tunneler);
    EgressIngressDual(sc, edges, consumer, tunneler);
  }
}
