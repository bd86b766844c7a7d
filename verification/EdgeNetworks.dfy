/** Realizing graph-scoped access on Docker: exclusive home networks joined by one network per edge. */
module EdgeNetworks {
  import opened Resources
  import opened Reachability
  import opened DependencyGraph
  import opened GraphBuild
  import opened GraphAccess

  const DEFAULT_TOKEN := "datascape"

  /** FNV digests rendered in lower-case hexadecimal. */
  datatype Fnv = Fnv(h64: string -> string, h32: string -> string)

  predicate IsHex(c: char) {
    '0' <= c <= '9' || 'a' <= c <= 'f'
  }

  ghost predicate Rendered(f: Fnv) {
    && (forall s :: |f.h64(s)| == 16 && forall i :: 0 <= i < 16 ==> IsHex(f.h64(s)[i]))
    && (forall s :: |f.h32(s)| == 8 && forall i :: 0 <= i < 8 ==> IsHex(f.h32(s)[i]))
  }

  /** No two of these strings share a digest. */
  ghost predicate NoCollisions(h: string -> string, strings: set<string>) {
    forall s, t :: s in strings && t in strings && h(s) == h(t) ==> s == t
  }

  // ---------------------------------------------------------------- names

  function TruncateName(f: Fnv, name: string): string {
    if |name| <= 63 then name else name[..54] + "-" + f.h32(name)
  }

  function NetworkName(f: Fnv, base: string, domain: string): string {
    if NormalizeDomain(domain) == DEFAULT_DOMAIN then base else TruncateName(f, base + "-" + NormalizeDomain(domain))
  }

  /** The home network's name before it is cut to length. */
  function OwnName(f: Fnv, base: string, domain: string, owner: Key): string {
    NetworkName(f, base, domain) + "-own-" + f.h64(KeyString(owner))
  }

  function PrivateNetworkName(f: Fnv, base: string, domain: string, owner: Key): string {
    TruncateName(f, OwnName(f, base, domain, owner))
  }

  function EdgeKey(a: string, b: string): string {
    if StringLess(b, a) then b + "|" + a else a + "|" + b
  }

  function EdgeNetworkName(f: Fnv, a: Key, b: Key): string {
    "access-" + f.h64(EdgeKey(KeyString(a), KeyString(b)))
  }

  lemma EdgeKeySymmetric(a: string, b: string)
    ensures EdgeKey(a, b) == EdgeKey(b, a)
  {
    StringLessTotal(a, b);
  }

  /** The canonical key determines the unordered pair. */
  lemma EdgeKeyInjective(a: string, b: string, x: string, y: string)
    requires FreeOf(a, '|') && FreeOf(b, '|') && FreeOf(x, '|') && FreeOf(y, '|')
    requires EdgeKey(a, b) == EdgeKey(x, y)
    ensures (a == x && b == y) || (a == y && b == x)
  {
    var (lo, hi) := if StringLess(b, a) then (b, a) else (a, b);
    var (lo', hi') := if StringLess(y, x) then (y, x) else (x, y);
    SplitUnique(lo, lo', hi, hi', '|');
  }

  lemma SameEdgeNetwork(f: Fnv, strings: set<string>, a: Key, b: Key, x: Key, y: Key)
    requires WellFormedKey(a) && WellFormedKey(b) && WellFormedKey(x) && WellFormedKey(y)
    requires NoCollisions(f.h64, strings)
    requires EdgeKey(KeyString(a), KeyString(b)) in strings && EdgeKey(KeyString(x), KeyString(y)) in strings
    requires EdgeNetworkName(f, a, b) == EdgeNetworkName(f, x, y)
    ensures (a == x && b == y) || (a == y && b == x)
  {
    var m, n := EdgeNetworkName(f, a, b), EdgeNetworkName(f, x, y);
    assert m[7..] == f.h64(EdgeKey(KeyString(a), KeyString(b)));
    assert n[7..] == f.h64(EdgeKey(KeyString(x), KeyString(y)));
    EdgeKeyInjective(KeyString(a), KeyString(b), KeyString(x), KeyString(y));
    if KeyString(a) == KeyString(x) && KeyString(b) == KeyString(y) {
      KeyStringInjective(a, x);
      KeyStringInjective(b, y);
    } else {
      KeyStringInjective(a, y);
      KeyStringInjective(b, x);
    }
  }

  /**
   * Truncation keeps names apart that end in different digests: a cut name has its dash where a whole
   * one of the same length has a hexadecimal digit.
   */
  lemma TruncationKeepsApart(f: Fnv, x: string, y: string, hx: string, hy: string)
    requires Rendered(f) && |hx| == |hy| == 16 && hx != hy && IsHex(hx[7]) && IsHex(hy[7])
    requires NoCollisions(f.h32, {x + hx, y + hy})
    ensures TruncateName(f, x + hx) != TruncateName(f, y + hy)
  {
    var m, n := x + hx, y + hy;
    assert m[|x|..] == hx && n[|y|..] == hy;
    var s, t := TruncateName(f, m), TruncateName(f, n);
    if |m| > 63 && |n| > 63 {
      assert s[55..] == f.h32(m) && t[55..] == f.h32(n);
    } else if |m| > 63 {
      assert s[54] == '-';
      assert |n| == 63 ==> n[54] == hy[7];
    } else if |n| > 63 {
      assert t[54] == '-';
      assert |m| == 63 ==> m[54] == hx[7];
    }
  }

  lemma HomeNetworksDiffer(f: Fnv, base: string, d: string, e: string, p: Key, q: Key)
    requires Rendered(f) && WellFormedKey(p) && WellFormedKey(q) && p != q
    requires NoCollisions(f.h64, {KeyString(p), KeyString(q)})
    requires NoCollisions(f.h32, {OwnName(f, base, d, p), OwnName(f, base, e, q)})
    ensures PrivateNetworkName(f, base, d, p) != PrivateNetworkName(f, base, e, q)
  {
    var hp, hq := f.h64(KeyString(p)), f.h64(KeyString(q));
    assert hp != hq by {
      if KeyString(p) == KeyString(q) {
        KeyStringInjective(p, q);
      }
    }
    TruncationKeepsApart(f, NetworkName(f, base, d) + "-own-", NetworkName(f, base, e) + "-own-", hp, hq);
  }

  lemma HomeIsNoEdgeNetwork(f: Fnv, domain: string, owner: Key, a: Key, b: Key)
    ensures PrivateNetworkName(f, DEFAULT_TOKEN, domain, owner) != EdgeNetworkName(f, a, b)
  {
    var own := OwnName(f, DEFAULT_TOKEN, domain, owner);
    assert NetworkName(f, DEFAULT_TOKEN, domain)[0] == 'd';
    assert own[0] == 'd' && TruncateName(f, own)[0] == 'd';
    assert EdgeNetworkName(f, a, b)[0] == 'a';
  }

  // ---------------------------------------------------------------- the decorating runtime

  /** One realizing Provider's view of the runtime, with the GraphScopedAccess gate on. */
  datatype DomainRuntime = DomainRuntime(
    token: string,
    pinned: bool,
    domain: string,
    namespaced: bool,
    self: Key,
    peers: seq<Key>,
    ingressPeers: seq<Key>)

  function NetworkToken(configured: string): (string, bool) {
    if configured != "" then (configured, true) else (DEFAULT_TOKEN, false)
  }

  method NewDomainRuntime(sc: Scope, edges: set<Edge>, provider: Envelope, configured: string, kubernetes: bool)
    returns (d: DomainRuntime)
    ensures (d.token, d.pinned) == NetworkToken(configured) && d.self == KeyOf(provider) && d.namespaced == kubernetes
    ensures d.domain == NormalizeDomain(provider.metadata.domain)
    ensures forall q :: q in d.peers <==> Member(sc, edges, d.self, q)
    ensures forall q :: q in d.ingressPeers <==> Ingress(sc, edges, d.self, q)
  {
    var (token, pinned) := NetworkToken(configured);
    var self := KeyOf(provider);
    var peers := MembershipEdges(sc, edges, self);
    var ingressPeers := IngressPeers(sc, edges, self);
    d := DomainRuntime(token, pinned, NormalizeDomain(provider.metadata.domain), kubernetes, self, peers, ingressPeers);
  }

  function Translate(d: DomainRuntime, f: Fnv, name: string): string {
    if d.pinned || name != d.token then name
    else if !d.namespaced then PrivateNetworkName(f, name, d.domain, d.self)
    else NetworkName(f, name, d.domain)
  }

  ghost predicate IsEdgeNetworkOf(d: DomainRuntime, f: Fnv, n: string) {
    exists peer :: peer in d.peers && n == EdgeNetworkName(f, d.self, peer)
  }

  /** The networks a container joins: its requested ones, translated, and on Docker one per peer. */
  method ContainerNetworks(d: DomainRuntime, f: Fnv, requested: seq<string>) returns (nets: seq<string>)
    ensures forall n :: n in nets <==>
              ((exists r :: r in requested && n == Translate(d, f, r)) || (!d.namespaced && IsEdgeNetworkOf(d, f, n)))
  {
    nets := [];
    var i := 0;
    while i < |requested|
      invariant 0 <= i <= |requested|
      invariant forall n :: n in nets <==> exists j :: 0 <= j < i && n == Translate(d, f, requested[j])
    {
      nets := nets + [Translate(d, f, requested[i])];
      i := i + 1;
    }
    ghost var home := nets;
    assert forall n :: n in home <==> exists r :: r in requested && n == Translate(d, f, r);
    if !d.namespaced {
      i := 0;
      while i < |d.peers|
        invariant 0 <= i <= |d.peers|
        invariant forall n :: n in nets <==> (n in home || exists j :: 0 <= j < i && n == EdgeNetworkName(f, d.self, d.peers[j]))
      {
        var name := EdgeNetworkName(f, d.self, d.peers[i]);
        if name !in nets {
          nets := nets + [name];
        }
        i := i + 1;
      }
    }
  }

  // ---------------------------------------------------------------- two endpoints agree on networks

  /** The networks of a Provider's container on Docker, with an unpinned home network. */
  ghost predicate JoinsExactly(f: Fnv, sc: Scope, edges: set<Edge>, p: Key, domain: string, nets: seq<string>) {
    forall n :: n in nets <==>
      (n == PrivateNetworkName(f, DEFAULT_TOKEN, domain, p) || exists x :: Member(sc, edges, p, x) && n == EdgeNetworkName(f, p, x))
  }

  /** Building a Provider's runtime view and asking for its home network joins exactly those networks. */
  method DockerNetworks(f: Fnv, sc: Scope, edges: set<Edge>, provider: Envelope) returns (nets: seq<string>)
    ensures JoinsExactly(f, sc, edges, KeyOf(provider), NormalizeDomain(provider.metadata.domain), nets)
  {
    var d := NewDomainRuntime(sc, edges, provider, "", false);
    nets := ContainerNetworks(d, f, [d.token]);
    assert d.token in [d.token];
  }

  function EdgeKeys(keys: set<Key>): set<string> {
    set a, b | a in keys && b in keys :: EdgeKey(KeyString(a), KeyString(b))
  }

  /** References and containers stay inside the manifest set, whose keys are well formed. */
  ghost predicate Coherent(sc: Scope, edges: set<Edge>) {
    && (forall k :: k in sc.resources ==> WellFormedKey(k) && ContainerOf(sc, k) in sc.resources)
    && (forall e :: e in edges ==> e.from in sc.resources && e.to in sc.resources)
  }

  lemma PeersInside(sc: Scope, edges: set<Edge>, p: Key, q: Key)
    requires Coherent(sc, edges) && Member(sc, edges, p, q)
    ensures q in sc.resources
  {
  }

  /** Runtime views, and so network lists, belong to Providers. */
  predicate IsProvider(sc: Scope, p: Key) {
    p in sc.resources && sc.resources[p].kind == PROVIDER
  }

  /** No digest collides among the names this manifest set gives rise to. */
  ghost predicate CollisionFree(f: Fnv, sc: Scope, own: set<string>) {
    && NoCollisions(f.h64, EdgeKeys(sc.resources.Keys))
    && NoCollisions(f.h64, set k | k in sc.resources :: KeyString(k))
    && NoCollisions(f.h32, own)
  }

  /**
   * Two realizing Providers, each computing its own network list, end up on a common Docker network
   * exactly when access connects them; Docker reachability is the symmetric closure of the
   * Kubernetes ingress relation.
   */
  lemma SharedNetworkIffMember(f: Fnv, sc: Scope, edges: set<Edge>, p: Key, q: Key, d: string, e: string, netsP: seq<string>, netsQ: seq<string>)
    requires Rendered(f) && Coherent(sc, edges)
    requires CollisionFree(f, sc, {OwnName(f, DEFAULT_TOKEN, d, p), OwnName(f, DEFAULT_TOKEN, e, q)})
    requires IsProvider(sc, p) && IsProvider(sc, q) && p != q
    requires JoinsExactly(f, sc, edges, p, d, netsP) && JoinsExactly(f, sc, edges, q, e, netsQ)
    ensures (exists n :: n in netsP && n in netsQ) <==> Member(sc, edges, p, q)
    ensures (exists n :: n in netsP && n in netsQ) <==> Ingress(sc, edges, p, q) || Ingress(sc, edges, q, p)
  {
    MembershipSymmetric(sc, edges, p, q);
    if Member(sc, edges, p, q) {
      EdgeKeySymmetric(KeyString(p), KeyString(q));
      var n := EdgeNetworkName(f, p, q);
      assert n == EdgeNetworkName(f, q, p);
      assert n in netsP && n in netsQ;
    }
    if n :| n in netsP && n in netsQ {
      CommonNetworkIsEdge(f, sc, edges, p, q, d, e, n);
    }
  }

  lemma CommonNetworkIsEdge(f: Fnv, sc: Scope, edges: set<Edge>, p: Key, q: Key, d: string, e: string, n: string)
    requires Rendered(f) && Coherent(sc, edges)
    requires CollisionFree(f, sc, {OwnName(f, DEFAULT_TOKEN, d, p), OwnName(f, DEFAULT_TOKEN, e, q)})
    requires IsProvider(sc, p) && IsProvider(sc, q) && p != q
    requires n == PrivateNetworkName(f, DEFAULT_TOKEN, d, p) || exists x :: Member(sc, edges, p, x) && n == EdgeNetworkName(f, p, x)
    requires n == PrivateNetworkName(f, DEFAULT_TOKEN, e, q) || exists y :: Member(sc, edges, q, y) && n == EdgeNetworkName(f, q, y)
    ensures Member(sc, edges, p, q)
  {
    HomeNetworksDiffer(f, DEFAULT_TOKEN, d, e, p, q);
    if n == PrivateNetworkName(f, DEFAULT_TOKEN, d, p) {
      var y :| Member(sc, edges, q, y) && n == EdgeNetworkName(f, q, y);
      HomeIsNoEdgeNetwork(f, d, p, q, y);
    } else {
      var x :| Member(sc, edges, p, x) && n == EdgeNetworkName(f, p, x);
      HomeIsNoEdgeNetwork(f, e, q, p, x);
      var y :| Member(sc, edges, q, y) && n == EdgeNetworkName(f, q, y);
      PeersInside(sc, edges, p, x);
      PeersInside(sc, edges, q, y);
      SameEdgeNetwork(f, EdgeKeys(sc.resources.Keys), p, x, q, y);
    }
  }

  // ---------------------------------------------------------------- what one reference gives

  /** The Provider whose runtime view creates k's container: itself, or the one it names; a Connection runs on its Provider too. */
  function Realizer(sc: Scope, k: Key): Key {
    if k !in sc.resources || sc.resources[k].kind == PROVIDER then k
    else
      var ref := RefFromSpec(sc.resources[k].spec, "providerRef");
      if ref.name == "" then k else RefKey(ref, sc.resources[k].metadata.namespace, PROVIDER)
  }

  predicate IsConnection(sc: Scope, k: Key) {
    k in sc.resources && sc.resources[k].kind == CONNECTION
  }

  /** Membership through everything but e, or through e in one direction or the other. */
  lemma MemberThrough(sc: Scope, edges: set<Edge>, e: Edge, p: Key, q: Key)
    requires e in edges && p != q
    ensures Member(sc, edges, p, q) <==>
            || Member(sc, edges - {e}, p, q)
            || ReferenceEdge(sc, edges, e, p, q) || ReferencedEdge(sc, edges, e, p, q)
  {
    forall d | d != e ensures ReferenceEdge(sc, edges, d, p, q) <==> ReferenceEdge(sc, edges - {e}, d, p, q) {}
    forall d | d != e ensures ReferencedEdge(sc, edges, d, p, q) <==> ReferencedEdge(sc, edges - {e}, d, p, q) {}
    if Egress(sc, edges, p, q) && !Egress(sc, edges - {e}, p, q) {
      var d :| ReferenceEdge(sc, edges, d, p, q);
    }
    if Ingress(sc, edges, p, q) && !Ingress(sc, edges - {e}, p, q) {
      var d :| ReferencedEdge(sc, edges, d, p, q);
    }
    if Egress(sc, edges - {e}, p, q) {
      if d :| ReferenceEdge(sc, edges - {e}, d, p, q) {
        assert ReferenceEdge(sc, edges, d, p, q);
      }
    }
    if Ingress(sc, edges - {e}, p, q) {
      if d :| ReferencedEdge(sc, edges - {e}, d, p, q) {
        assert ReferencedEdge(sc, edges, d, p, q);
      }
    }
  }

  /**
   * Exactly when a declared reference leaves its two realizing Providers on a common Docker network:
   * when neither end is a Connection, which has a network of its own with whoever refers to it that
   * its Provider does not join, or when something else connects the two Providers.
   */
  lemma ReferenceSharesNetwork(f: Fnv, sc: Scope, edges: set<Edge>, e: Edge, p: Key, q: Key, d: string, c: string, netsP: seq<string>, netsQ: seq<string>)
    requires Rendered(f) && Coherent(sc, edges) && e in edges
    requires CollisionFree(f, sc, {OwnName(f, DEFAULT_TOKEN, d, p), OwnName(f, DEFAULT_TOKEN, c, q)})
    requires IsProvider(sc, p) && IsProvider(sc, q) && p != q && Realizer(sc, e.from) == p && Realizer(sc, e.to) == q
    requires JoinsExactly(f, sc, edges, p, d, netsP) && JoinsExactly(f, sc, edges, q, c, netsQ)
    ensures (exists n :: n in netsP && n in netsQ) <==>
            (!IsConnection(sc, e.from) && !IsConnection(sc, e.to)) || Member(sc, edges - {e}, p, q)
  {
    SharedNetworkIffMember(f, sc, edges, p, q, d, c, netsP, netsQ);
    MemberThrough(sc, edges, e, p, q);
  }

  /** The network of a reference to a Connection is joined by the referring Provider alone. */
  lemma ConnectionNetworkIsLonely(f: Fnv, sc: Scope, edges: set<Edge>, p: Key, conn: Key, q: Key, d: string, netsQ: seq<string>)
    requires Rendered(f) && Coherent(sc, edges) && CollisionFree(f, sc, {})
    requires IsProvider(sc, p) && IsConnection(sc, conn) && Member(sc, edges, p, conn)
    requires IsProvider(sc, q) && JoinsExactly(f, sc, edges, q, d, netsQ)
    ensures EdgeNetworkName(f, p, conn) in netsQ <==> q == p
  {
    if q != p && EdgeNetworkName(f, p, conn) in netsQ {
      HomeIsNoEdgeNetwork(f, d, q, p, conn);
      var y :| Member(sc, edges, q, y) && EdgeNetworkName(f, p, conn) == EdgeNetworkName(f, q, y);
      PeersInside(sc, edges, q, y);
      SameEdgeNetwork(f, EdgeKeys(sc.resources.Keys), p, conn, q, y);
    }
  }

  // ---------------------------------------------------------------- from manifests

  /** A resource that names a Provider is realized by one of the set. */
  lemma ProviderRefResolves(e: Envelope, keys: set<Key>, hostOf: string -> string)
    requires AllSatisfied(keys, e, ManifestReferences(hostOf))
    requires RefFromSpec(e.spec, "providerRef").name != ""
    ensures ProviderKeyOf(e) in keys
  {
    var ref := RefFromSpec(e.spec, "providerRef");
    var demand := Named("providerRef", ref, Some({PROVIDER}));
    assert FieldDemands(e.spec, REF_FIELDS)[0] == demand;
    assert ManifestReferences(hostOf)(e) == Demands(e, hostOf);
    assert Demands(e, hostOf)[0] == demand;
    assert Satisfied(keys, e, demand);
    var to :| IsTheOnly(Candidates(keys, NamespaceOr(ref, e.metadata.namespace), ref.name, Some({PROVIDER})), to);
    assert to in Candidates(keys, NamespaceOr(ref, e.metadata.namespace), ref.name, Some({PROVIDER}));
  }

  lemma ContainersInside(envelopes: seq<Envelope>, hostOf: string -> string, sc: Scope, k: Key)
    requires Buildable(envelopes, ManifestReferences(hostOf)) && sc.resources == NodesOf(envelopes) && k in sc.resources
    ensures ContainerOf(sc, k) in sc.resources
  {
    NodesMembers(envelopes, k);
    var i :| 0 <= i < |envelopes| && KeyOf(envelopes[i]) == k;
    NodesFiled(envelopes, i);
    if RefFromSpec(envelopes[i].spec, "providerRef").name != "" {
      ProviderRefResolves(envelopes[i], sc.resources.Keys, hostOf);
    }
  }

  /** Every buildable manifest set with well-formed keys is coherent, synthetic tunnel edges included. */
  lemma BuiltSetsAreCoherent(envelopes: seq<Envelope>, hostOf: string -> string, g: Graph, sc: Scope, capable: Capable, edges: set<Edge>)
    requires Buildable(envelopes, ManifestReferences(hostOf))
    requires sc.resources == NodesOf(envelopes) == g.nodes && Closed(g)
    requires forall k :: k in sc.resources ==> WellFormedKey(k)
    requires forall e :: e in edges ==> Step(g.edges, e.from, e.to) || exists c, d :: TunnelEdge(g, sc, capable, c, d, e)
    ensures Coherent(sc, edges)
  {
    forall k | k in sc.resources ensures ContainerOf(sc, k) in sc.resources {
      ContainersInside(envelopes, hostOf, sc, k);
    }
    NodesKeyed(envelopes);
    forall e | e in edges ensures e.from in sc.resources && e.to in sc.resources {
      EdgeInside(g, sc, capable, e);
    }
  }

  lemma EdgeInside(g: Graph, sc: Scope, capable: Capable, e: Edge)
    requires Closed(g) && sc.resources == g.nodes && Keyed(g.nodes)
    requires Step(g.edges, e.from, e.to) || exists c, d :: TunnelEdge(g, sc, capable, c, d, e)
    ensures e.from in sc.resources && e.to in sc.resources
  {
    if Step(g.edges, e.from, e.to) {
      ReachStep(g.edges, e.from, e.to);
      ReachesNodes(g, e.from, e.to);
    }
  }
}
