/** Who may dial whom, in terms of provider references, declared references and spec.access grants. */
module AccessLaws {
  import opened Resources
  import opened Reachability
  import opened DependencyGraph
  import opened ManifestFields
  import opened GraphAccess
  import opened EdgeNetworks

  // ---------------------------------------------------------------- containers

  /** p is the container of k: the Provider k names; k itself when it is a Provider or a Connection or names none. */
  ghost predicate RunsOn(sc: Scope, k: Key, p: Key) {
    if k !in sc.resources || sc.resources[k].kind in {"Provider", "Connection"} || (forall t :: !Names(sc.resources[k], "providerRef", t))
    then p == k
    else p.kind == "Provider" && Names(sc.resources[k], "providerRef", p)
  }

  lemma ContainerLaw(sc: Scope, k: Key, p: Key)
    ensures ContainerOf(sc, k) == p <==> RunsOn(sc, k, p)
  {
    if k in sc.resources {
      ReferenceSet(sc.resources[k], "providerRef");
      ReferenceRead(sc.resources[k].spec, "providerRef", sc.resources[k].metadata.namespace, p);
    }
  }

  // ---------------------------------------------------------------- grants

  ghost predicate LabelIs(labels: map<string, string>, key: string, value: string) {
    key in labels && labels[key] == value
  }

  ghost predicate MeetsExpression(r: Requirement, labels: map<string, string>) {
    match r.operator
    case In => exists v :: v in r.values && LabelIs(labels, r.key, v)
    case NotIn => forall v :: v in r.values ==> !LabelIs(labels, r.key, v)
    case Exists => r.key in labels
    case DoesNotExist => r.key !in labels
    case UnknownOperator => false
  }

  /** Every matchLabels pair and every expression is met; a pair with an empty value is met by a missing label too. */
  ghost predicate MeetsSelector(s: Selector, labels: map<string, string>) {
    && (forall key :: key in s.matchLabels ==>
          LabelIs(labels, key, s.matchLabels[key]) || (key !in labels && s.matchLabels[key] == ""))
    && (forall r :: r in s.matchExpressions ==> MeetsExpression(r, labels))
  }

  lemma SelectorLaw(s: Selector, labels: map<string, string>)
    ensures Selects(s, labels) <==> MeetsSelector(s, labels)
  {
    forall r ensures RequirementMet(r, labels) <==> MeetsExpression(r, labels) {
      if r.operator == In && r.key in labels && labels[r.key] in r.values {
        assert LabelIs(labels, r.key, labels[r.key]);
      }
    }
    assert forall i :: 0 <= i < |s.matchExpressions| ==> s.matchExpressions[i] in s.matchExpressions;
  }

  /** The item of spec.access opens namespace; a selector block narrows it, unless it cannot be decoded. */
  ghost predicate GrantItem(sc: Scope, item: Json, namespace: string, selector: Option<Selector>) {
    && item.JObject? && namespace != "" && TextAt(item.fields, "namespace", namespace)
    && ((selector == None && forall block :: !BlockAt(item.fields, "selector", block))
        || exists block :: BlockAt(item.fields, "selector", block) && selector == sc.decodeSelector(block))
  }

  ghost predicate DeclaresGrant(sc: Scope, e: Envelope, namespace: string, selector: Option<Selector>) {
    && "access" in e.spec && e.spec["access"].JList?
    && exists item :: item in e.spec["access"].items && GrantItem(sc, item, namespace, selector)
  }

  lemma GrantItemLaw(sc: Scope, item: Json, namespace: string, selector: Option<Selector>)
    ensures GrantItem(sc, item, namespace, selector) <==> Grant(namespace, selector) in GrantsIn(sc, [item])
  {
    assert [item][1..] == [] && GrantsIn(sc, []) == [];
    if item.JObject? && "selector" in item.fields && item.fields["selector"].JObject? {
      assert BlockAt(item.fields, "selector", item.fields["selector"].fields);
    }
  }

  lemma {:induction false} GrantsLaw(sc: Scope, items: seq<Json>, namespace: string, selector: Option<Selector>)
    ensures Grant(namespace, selector) in GrantsIn(sc, items) <==> exists item :: item in items && GrantItem(sc, item, namespace, selector)
  {
    if items != [] {
      GrantsLaw(sc, items[1..], namespace, selector);
      GrantItemLaw(sc, items[0], namespace, selector);
      assert [items[0]][1..] == [] && GrantsIn(sc, []) == [];
      assert GrantsIn(sc, items) == GrantsIn(sc, [items[0]]) + GrantsIn(sc, items[1..]);
      assert forall item :: item in items <==> item == items[0] || item in items[1..];
    }
  }

  lemma DeclaresGrantLaw(sc: Scope, e: Envelope, namespace: string, selector: Option<Selector>)
    ensures DeclaresGrant(sc, e, namespace, selector) <==> Grant(namespace, selector) in AccessGrants(sc, e)
  {
    if "access" in e.spec && e.spec["access"].JList? {
      GrantsLaw(sc, e.spec["access"].items, namespace, selector);
    }
  }

  /**
   * A grant opens q: it names q's namespace and has no selector, or it has one, the LabelScopedAccess
   * gate is on, and q's labels meet it.
   */
  ghost predicate Opens(sc: Scope, namespace: string, selector: Option<Selector>, q: Key)
    requires q in sc.resources
  {
    q.namespace == namespace && (selector.None? || (sc.labelScoped && MeetsSelector(selector.value, sc.resources[q].metadata.labels)))
  }

  ghost predicate GrantedBy(sc: Scope, k: Key, p: Key, q: Key)
    requires q in sc.resources
  {
    && k in sc.resources && RunsOn(sc, k, p)
    && exists namespace, selector :: DeclaresGrant(sc, sc.resources[k], namespace, selector) && Opens(sc, namespace, selector, q)
  }

  ghost predicate ReferredBy(sc: Scope, e: Edge, p: Key, q: Key) {
    RunsOn(sc, e.from, p) && RunsOn(sc, e.to, q)
  }

  ghost predicate ContainerKey(sc: Scope, p: Key) {
    p in sc.resources && RunsOn(sc, p, p)
  }

  lemma GrantDialsLaw(sc: Scope, k: Key, p: Key, q: Key)
    requires ContainerKey(sc, p) && ContainerKey(sc, q) && p != q
    ensures GrantDials(sc, k, p, q) <==> GrantedBy(sc, k, p, q)
  {
    ContainerLaw(sc, k, p);
    ContainerLaw(sc, p, p);
    ContainerLaw(sc, q, q);
    if k in sc.resources {
      var grants := AccessGrants(sc, sc.resources[k]);
      forall grant: Grant ensures grant in grants <==> DeclaresGrant(sc, sc.resources[k], grant.namespace, grant.selector) {
        DeclaresGrantLaw(sc, sc.resources[k], grant.namespace, grant.selector);
      }
      forall grant: Grant ensures Covers(sc, grant, p, q) <==> Opens(sc, grant.namespace, grant.selector, q) {
        if grant.selector.Some? {
          SelectorLaw(grant.selector.value, sc.resources[q].metadata.labels);
        }
      }
      if CoveredByOne(sc, grants, p, q) {
        var i :| 0 <= i < |grants| && Covers(sc, grants[i], p, q);
        assert grants[i] in grants;
      }
      if GrantedBy(sc, k, p, q) {
        var namespace, selector :| DeclaresGrant(sc, sc.resources[k], namespace, selector) && Opens(sc, namespace, selector, q);
        var grant := Grant(namespace, selector);
        assert grant in grants;
        var i :| 0 <= i < |grants| && grants[i] == grant;
      }
    }
  }

  /** p may dial q exactly through a declared reference between their members, or through a grant a member of p declares. */
  lemma EgressLaw(sc: Scope, edges: set<Edge>, p: Key, q: Key)
    requires ContainerKey(sc, p) && ContainerKey(sc, q) && p != q
    ensures Egress(sc, edges, p, q) <==>
            (exists e :: e in edges && ReferredBy(sc, e, p, q)) || (exists k :: GrantedBy(sc, k, p, q))
    ensures Ingress(sc, edges, q, p) <==> Egress(sc, edges, p, q)
  {
    ContainerLaw(sc, p, p);
    ContainerLaw(sc, q, q);
    EgressIngressDual(sc, edges, p, q);
    forall e: Edge ensures ReferenceEdge(sc, edges, e, p, q) <==> e in edges && ReferredBy(sc, e, p, q) {
      ContainerLaw(sc, e.from, p);
      ContainerLaw(sc, e.to, q);
    }
    forall k ensures GrantDials(sc, k, p, q) <==> GrantedBy(sc, k, p, q) {
      GrantDialsLaw(sc, k, p, q);
    }
  }

  // ---------------------------------------------------------------- mediation

  /** The Connection conn is managed and t is the mediation-capable Provider of the set that it names. */
  ghost predicate MediatedBy(sc: Scope, capable: Capable, conn: Key, t: Key) {
    && conn in sc.resources && sc.resources[conn].kind == "Connection" && !MarkedExternal(sc.resources[conn])
    && t.kind == "Provider" && Names(sc.resources[conn], "providerRef", t) && t in sc.resources && capable(sc.resources[t])
  }

  lemma MediatedLaw(sc: Scope, capable: Capable, conn: Key)
    ensures IsMediated(sc, capable, conn) <==> exists t :: MediatedBy(sc, capable, conn, t)
    ensures IsMediated(sc, capable, conn) ==> MediatedBy(sc, capable, conn, ProviderKeyOf(sc.resources[conn]))
  {
    if conn in sc.resources {
      var e := sc.resources[conn];
      forall t: Key ensures Names(e, "providerRef", t) && t.kind == "Provider" <==>
                            RefFromSpec(e.spec, "providerRef").name != "" && t == ProviderKeyOf(e) {
        ReferenceRead(e.spec, "providerRef", e.metadata.namespace, t);
      }
      if IsMediated(sc, capable, conn) {
        assert MediatedBy(sc, capable, conn, ProviderKeyOf(e));
      }
    }
  }

  /** The synthetic edges: from each Provider whose containers reach a mediated Connection to that Connection's Provider. */
  lemma TunnelLaw(g: Graph, sc: Scope, capable: Capable, conn: Key, dep: Key, e: Edge)
    requires Keyed(sc.resources)
    ensures TunnelEdge(g, sc, capable, conn, dep, e) <==>
            MediatedBy(sc, capable, conn, e.to) && Reaches(g.edges, dep, conn) && RunsOn(sc, dep, e.from) && e.from != e.to
            && e.from in sc.resources && sc.resources[e.from].kind == "Provider"
  {
    MediatedLaw(sc, capable, conn);
    ContainerLaw(sc, dep, e.from);
    if conn in sc.resources {
      ReferenceRead(sc.resources[conn].spec, "providerRef", sc.resources[conn].metadata.namespace, e.to);
    }
  }

  // ---------------------------------------------------------------- network names

  /** Names are cut to 63 characters, and only when they are longer. */
  lemma NamesFit(f: Fnv, name: string)
    requires Rendered(f)
    ensures |TruncateName(f, name)| <= 63
    ensures TruncateName(f, name) == name <==> |name| <= 63
  {
  }

  /** The home network of an owner and the network of a pair are named after digests of their keys. */
  lemma DigestNamesLaw(f: Fnv, owner: Key, a: Key, b: Key)
    requires Rendered(f) && !StringLess(KeyString(b), KeyString(a))
    ensures PrivateNetworkName(f, "datascape", "", owner) == "datascape-own-" + f.h64(KeyString(owner))
    ensures EdgeNetworkName(f, a, b) == "access-" + f.h64(KeyString(a) + "|" + KeyString(b))
  {
    assert "datascape" + "-own-" == "datascape-own-";
  }

  /** The default domain shares the base network; another domain has its own, as long as the name fits. */
  lemma DomainNetworkLaw(f: Fnv, base: string, domain: string)
    ensures domain in {"", "default"} ==> NetworkName(f, base, domain) == base
    ensures domain !in {"", "default"} && |base| + |domain| < 63 ==> NetworkName(f, base, domain) == base + "-" + domain
  {
  }

  /**
   * A configured network is joined as it is; without one the token is "datascape", and only that name
   * is replaced: by the domain's network on Kubernetes and by the owner's exclusive one on Docker.
   */
  lemma RequestedNetworkLaw(d: DomainRuntime, f: Fnv, configured: string, name: string)
    requires (d.token, d.pinned) == NetworkToken(configured)
    ensures configured != "" || name != "datascape" ==> Translate(d, f, name) == name
    ensures configured == "" && name == "datascape" && d.namespaced ==> Translate(d, f, name) == NetworkName(f, name, d.domain)
    ensures configured == "" && name == "datascape" && !d.namespaced ==> Translate(d, f, name) == PrivateNetworkName(f, name, d.domain, d.self)
  {
  }
}
