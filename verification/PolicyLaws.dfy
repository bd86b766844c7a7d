/** When enforcement and audit act on a flow or a grant, in terms of the envelopes. */
module PolicyLaws {
  import opened Resources
  import opened DependencyGraph
  import opened GraphBuild
  import opened ManifestFields
  import opened GraphAccess
  import opened AccessLaws
  import opened PolicyVerdicts

  // ---------------------------------------------------------------- flows

  /** e names, by this field, a declared resource of one of the kinds, and n is its manifest. */
  ghost predicate NamesNode(gov: Governance, e: Envelope, field: string, kinds: Option<set<string>>, n: Envelope) {
    exists t :: t in gov.g.nodes && gov.g.nodes[t] == n && Names(e, field, t) && (kinds.None? || t.kind in kinds.value)
  }

  /** Data flows from `from` to `to`: a Binding from its source to its target, any other resource to the Connection it names. */
  ghost predicate Flows(gov: Governance, e: Envelope, from: Envelope, to: Envelope) {
    if e.kind == "Binding"
    then NamesNode(gov, e, "sourceRef", None, from) && NamesNode(gov, e, "targetRef", None, to)
    else from == e && to.kind == "Connection" && NamesNode(gov, e, "connectionRef", Some({"Connection", "SecretReference"}), to)
  }

  lemma CandidateLaw(nodes: map<Key, Envelope>, e: Envelope, field: string, kinds: Option<set<string>>, t: Key)
    ensures t in RefCandidates(nodes, e, field, kinds) <==> t in nodes && Names(e, field, t) && (kinds.None? || t.kind in kinds.value)
  {
    ReferenceRead(e.spec, field, e.metadata.namespace, t);
  }

  lemma ResolvedLaw(gov: Governance, e: Envelope, field: string, kinds: Option<set<string>>, n: Envelope)
    requires Unambiguous(gov.g.nodes, e, field, kinds)
    ensures ResolvedNode(gov.g.nodes, e, field, kinds) == Some(n) <==> NamesNode(gov, e, field, kinds, n)
  {
    forall t ensures t in RefCandidates(gov.g.nodes, e, field, kinds) <==>
                     t in gov.g.nodes && Names(e, field, t) && (kinds.None? || t.kind in kinds.value) {
      CandidateLaw(gov.g.nodes, e, field, kinds, t);
    }
  }

  /** The edge that stands for a flow. */
  ghost function FlowEdge(e: Envelope, from: Envelope, to: Envelope): CrossEdge {
    CrossEdge(e, from, to, DomainOf(from), DomainOf(to))
  }

  lemma EdgeOfFlow(gov: Governance, e: Envelope, x: CrossEdge)
    requires FlowRefsUnambiguous(gov.g.nodes, e)
    ensures x in CrossEdgesOf(gov.g.nodes, e) <==> Flows(gov, e, x.from, x.to) && x == FlowEdge(e, x.from, x.to)
  {
    ResolvedLaw(gov, e, "sourceRef", None, x.from);
    ResolvedLaw(gov, e, "targetRef", None, x.to);
    ResolvedLaw(gov, e, "connectionRef", CONNECTION_REF_KINDS, x.to);
  }

  lemma {:induction false} EdgesOfFlows(gov: Governance, envelopes: seq<Envelope>, x: CrossEdge)
    requires forall i :: 0 <= i < |envelopes| ==> FlowRefsUnambiguous(gov.g.nodes, envelopes[i])
    ensures x in CrossEdges(gov.g.nodes, envelopes) <==>
            x.owner in envelopes && Flows(gov, x.owner, x.from, x.to) && x == FlowEdge(x.owner, x.from, x.to)
  {
    if envelopes != [] {
      var n := |envelopes| - 1;
      EdgesOfFlows(gov, envelopes[..n], x);
      EdgeOfFlow(gov, envelopes[n], x);
      assert forall e :: e in envelopes <==> e in envelopes[..n] || e == envelopes[n];
    }
  }

  // ---------------------------------------------------------------- rules

  /** The rule speaks about data flowing from `from` to `to`: by their domains, or by their labels behind the gate. */
  ghost predicate SpeaksOf(gov: Governance, rule: Rule, from: Envelope, to: Envelope) {
    match rule.kind
    case CrossDomain(a, b) => DomainOf(from) == a && DomainOf(to) == b
    case EdgeLabels(a, b) =>
      gov.sc.labelScoped && MeetsSelector(a, from.metadata.labels) && MeetsSelector(b, to.metadata.labels)
    case _ => false
  }

  lemma SpeaksOfLaw(gov: Governance, rule: Rule, e: Envelope, from: Envelope, to: Envelope)
    ensures MatchesEdge(gov, rule, FlowEdge(e, from, to)) <==> SpeaksOf(gov, rule, from, to)
  {
    if rule.kind.EdgeLabels? {
      SelectorLaw(rule.kind.fromLabels, from.metadata.labels);
      SelectorLaw(rule.kind.toLabels, to.metadata.labels);
    }
  }

  /** An edge rule fires on a resource exactly when data it declares to flow is what the rule speaks of. */
  lemma FlowRuleLaw(gov: Governance, rule: Rule, k: Key)
    requires WellGoverned(gov) && (rule.kind.CrossDomain? || rule.kind.EdgeLabels?)
    ensures Fires(gov, CrossEdges(gov.g.nodes, gov.envelopes), rule, k) <==>
            exists e, from, to :: e in gov.envelopes && OwnKey(e) == k && Flows(gov, e, from, to) && SpeaksOf(gov, rule, from, to)
  {
    var edges := CrossEdges(gov.g.nodes, gov.envelopes);
    if Fires(gov, edges, rule, k) {
      var i :| 0 <= i < |edges| && MatchesEdge(gov, rule, edges[i]) && KeyOf(edges[i].owner) == k;
      EdgesOfFlows(gov, gov.envelopes, edges[i]);
      SpeaksOfLaw(gov, rule, edges[i].owner, edges[i].from, edges[i].to);
    }
    if e, from, to :| e in gov.envelopes && OwnKey(e) == k && Flows(gov, e, from, to) && SpeaksOf(gov, rule, from, to) {
      EdgesOfFlows(gov, gov.envelopes, FlowEdge(e, from, to));
      SpeaksOfLaw(gov, rule, e, from, to);
      var i :| 0 <= i < |edges| && edges[i] == FlowEdge(e, from, to);
    }
  }

  /** A grant rule fires on a resource exactly when it declares a grant to the rule's namespace. */
  lemma GrantRuleLaw(gov: Governance, edges: seq<CrossEdge>, rule: Rule, k: Key)
    requires rule.kind.GrantTo?
    ensures Fires(gov, edges, rule, k) <==>
            exists e, selector :: e in gov.envelopes && OwnKey(e) == k && DeclaresGrant(gov.sc, e, rule.kind.namespace, selector)
  {
    if Fires(gov, edges, rule, k) {
      var i :| 0 <= i < |gov.envelopes| && KeyOf(gov.envelopes[i]) == k && GrantFires(gov, rule, i);
      var j, grant :| GrantAt(gov, i, j, grant) && MatchesGrant(rule, grant);
      DeclaresGrantLaw(gov.sc, gov.envelopes[i], grant.namespace, grant.selector);
    }
    if e, selector :| e in gov.envelopes && OwnKey(e) == k && DeclaresGrant(gov.sc, e, rule.kind.namespace, selector) {
      DeclaresGrantLaw(gov.sc, e, rule.kind.namespace, selector);
      var i :| 0 <= i < |gov.envelopes| && gov.envelopes[i] == e;
      var grant := Grant(rule.kind.namespace, selector);
      var j :| 0 <= j < |AccessGrants(gov.sc, e)| && AccessGrants(gov.sc, e)[j] == grant;
      assert GrantAt(gov, i, j, grant);
    }
  }

  // ---------------------------------------------------------------- exemptions and verdicts

  /** The last rule of this id is exemptible. */
  ghost predicate AllowsExemption(rules: seq<Rule>, id: string) {
    exists i :: 0 <= i < |rules| && rules[i].id == id && rules[i].exemptible && forall j :: i < j < |rules| ==> rules[j].id != id
  }

  lemma {:induction false} ExemptibleLaw(rules: seq<Rule>, id: string)
    ensures id in Exemptible(rules) && Exemptible(rules)[id] <==> AllowsExemption(rules, id)
  {
    if rules != [] {
      var n := |rules| - 1;
      ExemptibleLaw(rules[..n], id);
      assert forall i :: 0 <= i < n ==> rules[..n][i] == rules[i];
    }
  }

  ghost predicate Claims(gov: Governance, e: Envelope, id: string) {
    exists x :: x in gov.parseExemptions(e.metadata.annotations) && x.ruleID == id
  }

  lemma {:induction false} FirstReasonLaw(claimed: seq<Exemption>, id: string)
    ensures FirstReason(claimed, id).Some? <==> exists x :: x in claimed && x.ruleID == id
    ensures FirstReason(claimed, id).Some? ==>
              exists i :: 0 <= i < |claimed| && claimed[i] == Exemption(id, FirstReason(claimed, id).value)
                          && forall j :: 0 <= j < i ==> claimed[j].ruleID != id
  {
    if claimed != [] && claimed[0].ruleID != id {
      FirstReasonLaw(claimed[1..], id);
      assert forall x :: x in claimed <==> x == claimed[0] || x in claimed[1..];
      assert forall i :: 0 <= i < |claimed| - 1 ==> claimed[1..][i] == claimed[i + 1];
      if FirstReason(claimed, id).Some? {
        var i :| 0 <= i < |claimed[1..]| && claimed[1..][i] == Exemption(id, FirstReason(claimed, id).value)
                 && forall j :: 0 <= j < i ==> claimed[1..][j].ruleID != id;
        assert claimed[i + 1] == Exemption(id, FirstReason(claimed, id).value);
        assert forall j :: 0 < j < i + 1 ==> claimed[j] == claimed[1..][j - 1];
      }
    }
  }

  /** An exemption is live exactly when the rule allows one and the resource claims one. */
  lemma LiveLaw(gov: Governance, e: Envelope, id: string)
    ensures LiveExemption(gov, e, id).Some? <==> AllowsExemption(gov.rules, id) && Claims(gov, e, id)
  {
    ExemptibleLaw(gov.rules, id);
    FirstReasonLaw(gov.parseExemptions(e.metadata.annotations), id);
  }

  /** The audit denies a flow exactly when a deny rule speaks of it from which its declarer is not exempt. */
  lemma FlowVerdictLaw(gov: Governance, e: Envelope, from: Envelope, to: Envelope, row: Row)
    requires EdgeRow(gov, FlowEdge(e, from, to), row)
    ensures row.owner == OwnKey(e)
    ensures row.verdict == Denied <==>
            exists r :: r in gov.rules && r.effect == Deny && SpeaksOf(gov, r, from, to)
                        && !(AllowsExemption(gov.rules, r.id) && Claims(gov, e, r.id))
  {
    forall r ensures MatchesEdge(gov, r, FlowEdge(e, from, to)) <==> SpeaksOf(gov, r, from, to) {
      SpeaksOfLaw(gov, r, e, from, to);
    }
    forall r: Rule ensures StandingDeny(gov, e, r) <==>
                           r.effect == Deny && !(AllowsExemption(gov.rules, r.id) && Claims(gov, e, r.id)) {
      LiveLaw(gov, e, r.id);
    }
  }

  /** The audit denies a grant exactly when a deny rule names its namespace from which its declarer is not exempt. */
  lemma GrantVerdictLaw(gov: Governance, e: Envelope, grant: Grant, row: Row)
    requires GrantRow(gov, e, grant, row)
    ensures row.owner == OwnKey(e)
    ensures row.verdict == Denied <==>
            exists r :: r in gov.rules && r.effect == Deny && r.kind == GrantTo(grant.namespace)
                        && !(AllowsExemption(gov.rules, r.id) && Claims(gov, e, r.id))
  {
    forall r: Rule ensures StandingDeny(gov, e, r) <==>
                           r.effect == Deny && !(AllowsExemption(gov.rules, r.id) && Claims(gov, e, r.id)) {
      LiveLaw(gov, e, r.id);
    }
  }

  /** A decision of enforcement is lifted exactly when its rule allows an exemption and its resource claims one. */
  lemma DecisionLaw(gov: Governance, edges: seq<CrossEdge>, d: Decision)
    requires WellGoverned(gov) && Decides(gov, edges, d)
    ensures d.exempted <==> AllowsExemption(gov.rules, d.ruleID) && exists e :: e in gov.envelopes && OwnKey(e) == d.resource && Claims(gov, e, d.ruleID)
  {
    var nodes := NodesOf(gov.envelopes);
    NodesMembers(gov.envelopes, d.resource);
    if d.resource in nodes {
      LiveLaw(gov, nodes[d.resource], d.ruleID);
    }
    forall i | 0 <= i < |gov.envelopes| ensures OwnKey(gov.envelopes[i]) in nodes && nodes[OwnKey(gov.envelopes[i])] == gov.envelopes[i] {
      NodesFiled(gov.envelopes, i);
    }
  }

  /** The audit has a row for every flow and only for flows, in the order of the edges. */
  lemma AuditedFlows(gov: Governance, e: Envelope, from: Envelope, to: Envelope)
    requires WellGoverned(gov)
    ensures FlowEdge(e, from, to) in CrossEdges(gov.g.nodes, gov.envelopes) <==> e in gov.envelopes && Flows(gov, e, from, to)
    ensures forall x :: x in CrossEdges(gov.g.nodes, gov.envelopes) ==> x == FlowEdge(x.owner, x.from, x.to)
  {
    EdgesOfFlows(gov, gov.envelopes, FlowEdge(e, from, to));
    forall x | x in CrossEdges(gov.g.nodes, gov.envelopes) ensures x == FlowEdge(x.owner, x.from, x.to) {
      EdgesOfFlows(gov, gov.envelopes, x);
    }
  }
}
