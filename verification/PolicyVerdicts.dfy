/** Two separately written policy evaluators: enforcement decisions and the audit of every declared edge. */
module PolicyVerdicts {
  import opened Resources
  import opened DependencyGraph
  import opened GraphBuild
  import opened GraphAccess

  // ---------------------------------------------------------------- rules and inputs

  datatype Effect = Deny | Warn

  /**
   * What a rule looks at. A field assertion selects resources, by label selector or otherwise, and
   * says of each whether it holds; evaluating it can fail. Plan rules have no say before planning.
   */
  datatype RuleKind =
    | FieldAssert(byLabels: bool, selects: Envelope -> bool, holds: Envelope -> Option<bool>)
    | OnFinding(code: string)
    | CrossDomain(from: string, to: string)
    | EdgeLabels(fromLabels: Selector, toLabels: Selector)
    | GrantTo(namespace: string)
    | OnPlan

  datatype Rule = Rule(id: string, kind: RuleKind, effect: Effect, exemptible: bool)

  /** A lint finding on a resource. */
  datatype Finding = Finding(code: string, resource: Key)

  datatype Exemption = Exemption(ruleID: string, reason: string)

  datatype Decision = Decision(ruleID: string, effect: Effect, resource: Key, exempted: bool, exemptReason: string)

  /** Rules of all policies in order, the manifests, their graph, and how exemption annotations parse. */
  datatype Governance = Governance(
    rules: seq<Rule>,
    envelopes: seq<Envelope>,
    g: Graph,
    sc: Scope,
    findings: seq<Finding>,
    parseExemptions: map<string, string> -> seq<Exemption>)

  // ---------------------------------------------------------------- resolving references again

  const BINDING := "Binding"
  const CONNECTION_REF_KINDS: Option<set<string>> := Some({CONNECTION, SECRET_REFERENCE})

  function RefCandidates(nodes: map<Key, Envelope>, from: Envelope, field: string, kinds: Option<set<string>>): set<Key> {
    var ref := RefFromSpec(from.spec, field);
    if ref.name == "" then {} else Candidates(nodes.Keys, NamespaceOr(ref, from.metadata.namespace), ref.name, kinds)
  }

  ghost predicate Unambiguous(nodes: map<Key, Envelope>, from: Envelope, field: string, kinds: Option<set<string>>) {
    forall a, b :: a in RefCandidates(nodes, from, field, kinds) && b in RefCandidates(nodes, from, field, kinds) ==> a == b
  }

  /** The node a reference names. */
  ghost function ResolvedNode(nodes: map<Key, Envelope>, from: Envelope, field: string, kinds: Option<set<string>>): Option<Envelope> {
    if k :| k in RefCandidates(nodes, from, field, kinds) then Some(nodes[k]) else None
  }

  /** Scans the nodes in whatever order the map yields them. */
  method ResolveRef(nodes: map<Key, Envelope>, from: Envelope, field: string, kinds: Option<set<string>>)
    returns (r: Option<Envelope>)
    requires Keyed(nodes)
    ensures r.Some? <==> RefCandidates(nodes, from, field, kinds) != {}
    ensures Unambiguous(nodes, from, field, kinds) ==> r == ResolvedNode(nodes, from, field, kinds)
  {
    var ref := RefFromSpec(from.spec, field);
    if ref.name == "" {
      return None;
    }
    var ns := NamespaceOr(ref, from.metadata.namespace);
    ghost var candidates := RefCandidates(nodes, from, field, kinds);
    var todo := nodes.Keys;
    while todo != {}
      invariant todo <= nodes.Keys
      invariant candidates <= todo
      decreases todo
    {
      var k :| k in todo;
      var e := nodes[k];
      if e.metadata.name == ref.name && NormalizeNamespace(e.metadata.namespace) == ns && (kinds.None? || e.kind in kinds.value) {
        assert k in candidates;
        return Some(e);
      }
      todo := todo - {k};
    }
    r := None;
  }

  datatype CrossEdge = CrossEdge(owner: Envelope, from: Envelope, to: Envelope, fromDomain: string, toDomain: string)

  function EdgeBetween(owner: Envelope, from: Envelope, to: Envelope): CrossEdge {
    CrossEdge(owner, from, to, NormalizeDomain(from.metadata.domain), NormalizeDomain(to.metadata.domain))
  }

  ghost function CrossEdgesOf(nodes: map<Key, Envelope>, e: Envelope): seq<CrossEdge> {
    if e.kind == BINDING then
      var from, to := ResolvedNode(nodes, e, "sourceRef", None), ResolvedNode(nodes, e, "targetRef", None);
      if from.Some? && to.Some? then [EdgeBetween(e, from.value, to.value)] else []
    else
      var to := ResolvedNode(nodes, e, "connectionRef", CONNECTION_REF_KINDS);
      if to.Some? && to.value.kind == CONNECTION then [EdgeBetween(e, e, to.value)] else []
  }

  /** Every data-flow edge the manifests declare. */
  ghost function CrossEdges(nodes: map<Key, Envelope>, envelopes: seq<Envelope>): seq<CrossEdge> {
    if envelopes == [] then []
    else CrossEdges(nodes, envelopes[..|envelopes| - 1]) + CrossEdgesOf(nodes, envelopes[|envelopes| - 1])
  }

  ghost predicate FlowRefsUnambiguous(nodes: map<Key, Envelope>, e: Envelope) {
    && Unambiguous(nodes, e, "sourceRef", None)
    && Unambiguous(nodes, e, "targetRef", None)
    && Unambiguous(nodes, e, "connectionRef", CONNECTION_REF_KINDS)
  }

  ghost predicate WellGoverned(gov: Governance) {
    && Keyed(gov.g.nodes) && DistinctKeys(gov.envelopes) && gov.g.nodes == NodesOf(gov.envelopes)
    && (forall i :: 0 <= i < |gov.envelopes| ==> FlowRefsUnambiguous(gov.g.nodes, gov.envelopes[i]))
  }

  method CrossDomainEdges(gov: Governance) returns (edges: seq<CrossEdge>)
    requires WellGoverned(gov)
    ensures edges == CrossEdges(gov.g.nodes, gov.envelopes)
  {
    edges := [];
    var i := 0;
    while i < |gov.envelopes|
      invariant 0 <= i <= |gov.envelopes|
      invariant edges == CrossEdges(gov.g.nodes, gov.envelopes[..i])
    {
      var e := gov.envelopes[i];
      assert gov.envelopes[..i + 1][..i] == gov.envelopes[..i];
      if e.kind == BINDING {
        var from := ResolveRef(gov.g.nodes, e, "sourceRef", None);
        var to := ResolveRef(gov.g.nodes, e, "targetRef", None);
        if from.Some? && to.Some? {
          edges := edges + [EdgeBetween(e, from.value, to.value)];
        }
      } else {
        var to := ResolveRef(gov.g.nodes, e, "connectionRef", CONNECTION_REF_KINDS);
        if to.Some? && to.value.kind == CONNECTION {
          edges := edges + [EdgeBetween(e, e, to.value)];
        }
      }
      i := i + 1;
    }
    assert gov.envelopes[..i] == gov.envelopes;
  }

  // ---------------------------------------------------------------- the graph already resolved them

  lemma {:induction false} DemandOfField(spec: Spec, fields: seq<(string, Option<set<string>>)>, j: nat)
    requires j < |fields| && RefFromSpec(spec, fields[j].0).name != ""
    ensures Named(fields[j].0, RefFromSpec(spec, fields[j].0), fields[j].1) in FieldDemands(spec, fields)
  {
    if j > 0 {
      DemandOfField(spec, fields[1..], j - 1);
    }
  }

  lemma FieldSatisfied(keys: set<Key>, e: Envelope, hostOf: string -> string, j: nat, demand: Demand)
    requires AllSatisfied(keys, e, ManifestReferences(hostOf)) && j < |REF_FIELDS|
    requires demand == Named(REF_FIELDS[j].0, RefFromSpec(e.spec, REF_FIELDS[j].0), REF_FIELDS[j].1) && demand.ref.name != ""
    ensures Satisfied(keys, e, demand)
  {
    DemandOfField(e.spec, REF_FIELDS, j);
    var front := FieldDemands(e.spec, REF_FIELDS);
    var i :| 0 <= i < |front| && front[i] == demand;
    assert ManifestReferences(hostOf)(e) == Demands(e, hostOf);
    assert Demands(e, hostOf)[i] == front[i];
  }

  lemma FieldUnambiguous(nodes: map<Key, Envelope>, e: Envelope, hostOf: string -> string, j: nat)
    requires AllSatisfied(nodes.Keys, e, ManifestReferences(hostOf)) && j < |REF_FIELDS|
    ensures Unambiguous(nodes, e, REF_FIELDS[j].0, REF_FIELDS[j].1)
  {
    var demand := Named(REF_FIELDS[j].0, RefFromSpec(e.spec, REF_FIELDS[j].0), REF_FIELDS[j].1);
    if demand.ref.name != "" {
      FieldSatisfied(nodes.Keys, e, hostOf, j, demand);
    }
  }

  /** On a built graph, re-resolving a reference finds the one node the build resolved, in any map order. */
  lemma BuiltGraphsAreWellGoverned(gov: Governance, hostOf: string -> string)
    requires Buildable(gov.envelopes, ManifestReferences(hostOf)) && gov.g.nodes == NodesOf(gov.envelopes)
    ensures WellGoverned(gov)
  {
    NodesKeyed(gov.envelopes);
    forall i | 0 <= i < |gov.envelopes| ensures FlowRefsUnambiguous(gov.g.nodes, gov.envelopes[i]) {
      FieldUnambiguous(gov.g.nodes, gov.envelopes[i], hostOf, 1);
      FieldUnambiguous(gov.g.nodes, gov.envelopes[i], hostOf, 2);
      FieldUnambiguous(gov.g.nodes, gov.envelopes[i], hostOf, 3);
    }
  }

  // ---------------------------------------------------------------- what matching means

  ghost predicate MatchesEdge(gov: Governance, rule: Rule, edge: CrossEdge) {
    match rule.kind
    case CrossDomain(from, to) => edge.fromDomain == from && edge.toDomain == to
    case EdgeLabels(from, to) =>
      gov.sc.labelScoped && Selects(from, edge.from.metadata.labels) && Selects(to, edge.to.metadata.labels)
    case _ => false
  }

  ghost predicate MatchesGrant(rule: Rule, grant: Grant) {
    rule.kind.GrantTo? && rule.kind.namespace == grant.namespace
  }

  /** The last rule of an id decides whether that id is exemptible. */
  ghost function Exemptible(rules: seq<Rule>): map<string, bool> {
    if rules == [] then map[]
    else Exemptible(rules[..|rules| - 1])[rules[|rules| - 1].id := rules[|rules| - 1].exemptible]
  }

  method ExemptibleByID(rules: seq<Rule>) returns (byID: map<string, bool>)
    ensures byID == Exemptible(rules)
  {
    byID := map[];
    var i := 0;
    while i < |rules|
      invariant 0 <= i <= |rules| && byID == Exemptible(rules[..i])
    {
      assert rules[..i + 1][..i] == rules[..i];
      byID := byID[rules[i].id := rules[i].exemptible];
      i := i + 1;
    }
    assert rules[..i] == rules;
  }

  ghost function FirstReason(exemptions: seq<Exemption>, ruleID: string): Option<string> {
    if exemptions == [] then None
    else if exemptions[0].ruleID == ruleID then Some(exemptions[0].reason)
    else FirstReason(exemptions[1..], ruleID)
  }

  /** owner's live exemption from a rule: claimed by annotation and allowed by the rule. */
  ghost function LiveExemption(gov: Governance, owner: Envelope, ruleID: string): Option<string> {
    if ruleID in Exemptible(gov.rules) && Exemptible(gov.rules)[ruleID]
    then FirstReason(gov.parseExemptions(owner.metadata.annotations), ruleID)
    else None
  }

  // ---------------------------------------------------------------- enforcement

  /** The j-th grant of the i-th envelope. */
  predicate GrantAt(gov: Governance, i: int, j: int, grant: Grant) {
    && 0 <= i < |gov.envelopes|
    && 0 <= j < |AccessGrants(gov.sc, gov.envelopes[i])| && AccessGrants(gov.sc, gov.envelopes[i])[j] == grant
  }

  /** The i-th envelope declares a grant the rule matches. */
  ghost predicate GrantFires(gov: Governance, rule: Rule, i: int) {
    exists j, grant :: GrantAt(gov, i, j, grant) && MatchesGrant(rule, grant)
  }

  /** A selected resource does not meet the assertion; rules by label selector count only behind their gate. */
  ghost predicate Violates(gov: Governance, rule: Rule, e: Envelope)
    requires rule.kind.FieldAssert?
  {
    (rule.kind.byLabels ==> gov.sc.labelScoped) && rule.kind.selects(e) && rule.kind.holds(e) == Some(false)
  }

  /** Evaluating the assertion on a selected resource fails. */
  ghost predicate Undecided(gov: Governance, rule: Rule, e: Envelope) {
    && rule.kind.FieldAssert? && (rule.kind.byLabels ==> gov.sc.labelScoped)
    && rule.kind.selects(e) && rule.kind.holds(e).None?
  }

  ghost predicate FailsToDecide(gov: Governance, rule: Rule) {
    exists i :: 0 <= i < |gov.envelopes| && Undecided(gov, rule, gov.envelopes[i])
  }

  /** rule fires on the resource with key k. */
  ghost predicate Fires(gov: Governance, edges: seq<CrossEdge>, rule: Rule, k: Key) {
    match rule.kind
    case FieldAssert(_, _, _) =>
      exists i :: 0 <= i < |gov.envelopes| && KeyOf(gov.envelopes[i]) == k && Violates(gov, rule, gov.envelopes[i])
    case OnFinding(code) => exists i :: 0 <= i < |gov.findings| && gov.findings[i] == Finding(code, k)
    case GrantTo(_) => exists i :: 0 <= i < |gov.envelopes| && KeyOf(gov.envelopes[i]) == k && GrantFires(gov, rule, i)
    case OnPlan => false
    case _ => exists i :: 0 <= i < |edges| && MatchesEdge(gov, rule, edges[i]) && KeyOf(edges[i].owner) == k
  }

  method EvaluateFieldAssert(gov: Governance, rule: Rule) returns (fired: Option<seq<Key>>)
    requires rule.kind.FieldAssert? && (rule.kind.byLabels ==> gov.sc.labelScoped)
    ensures fired.None? <==> FailsToDecide(gov, rule)
    ensures fired.Some? ==> forall k :: k in fired.value <==> Fires(gov, [], rule, k)
  {
    var out := [];
    var i := 0;
    while i < |gov.envelopes|
      invariant 0 <= i <= |gov.envelopes|
      invariant forall x :: 0 <= x < i ==> !Undecided(gov, rule, gov.envelopes[x])
      invariant forall k :: k in out <==>
                  exists x :: 0 <= x < i && KeyOf(gov.envelopes[x]) == k && Violates(gov, rule, gov.envelopes[x])
    {
      var e := gov.envelopes[i];
      if rule.kind.selects(e) {
        var satisfied := rule.kind.holds(e);
        if satisfied.None? {
          assert Undecided(gov, rule, gov.envelopes[i]);
          return None;
        }
        if !satisfied.value {
          out := out + [KeyOf(e)];
        }
      }
      i := i + 1;
    }
    fired := Some(out);
  }

  method EvaluateFinding(gov: Governance, rule: Rule) returns (fired: seq<Key>)
    requires rule.kind.OnFinding?
    ensures forall k :: k in fired <==> Fires(gov, [], rule, k)
  {
    fired := [];
    var i := 0;
    while i < |gov.findings|
      invariant 0 <= i <= |gov.findings|
      invariant forall k :: k in fired <==> exists x :: 0 <= x < i && gov.findings[x] == Finding(rule.kind.code, k)
    {
      if gov.findings[i].code == rule.kind.code {
        fired := fired + [gov.findings[i].resource];
      }
      i := i + 1;
    }
  }

  method EvaluateCrossDomain(gov: Governance, edges: seq<CrossEdge>, rule: Rule) returns (fired: seq<Key>)
    requires rule.kind.CrossDomain?
    ensures forall k :: k in fired <==> Fires(gov, edges, rule, k)
  {
    fired := [];
    var i := 0;
    while i < |edges|
      invariant 0 <= i <= |edges|
      invariant forall k :: k in fired <==> exists j :: 0 <= j < i && MatchesEdge(gov, rule, edges[j]) && KeyOf(edges[j].owner) == k
    {
      var edge := edges[i];
      i := i + 1;
      if edge.fromDomain != rule.kind.from || edge.toDomain != rule.kind.to {
        continue;
      }
      fired := fired + [KeyOf(edge.owner)];
    }
  }

  /** Called only behind the label gate. */
  method EvaluateEdgeSelector(gov: Governance, edges: seq<CrossEdge>, rule: Rule) returns (fired: seq<Key>)
    requires rule.kind.EdgeLabels? && gov.sc.labelScoped
    ensures forall k :: k in fired <==> Fires(gov, edges, rule, k)
  {
    fired := [];
    var i := 0;
    while i < |edges|
      invariant 0 <= i <= |edges|
      invariant forall k :: k in fired <==> exists j :: 0 <= j < i && MatchesEdge(gov, rule, edges[j]) && KeyOf(edges[j].owner) == k
    {
      var edge := edges[i];
      i := i + 1;
      if !Selects(rule.kind.fromLabels, edge.from.metadata.labels) || !Selects(rule.kind.toLabels, edge.to.metadata.labels) {
        continue;
      }
      fired := fired + [KeyOf(edge.owner)];
    }
  }

  method EvaluateGrant(gov: Governance, rule: Rule) returns (fired: seq<Key>)
    requires rule.kind.GrantTo?
    ensures forall k :: k in fired <==> Fires(gov, [], rule, k)
  {
    fired := [];
    var i := 0;
    while i < |gov.envelopes|
      invariant 0 <= i <= |gov.envelopes|
      invariant forall k :: k in fired <==> exists x :: 0 <= x < i && KeyOf(gov.envelopes[x]) == k && GrantFires(gov, rule, x)
    {
      var e := gov.envelopes[i];
      var grants := AccessGrants(gov.sc, e);
      ghost var before := fired;
      ghost var hit := false;
      var j := 0;
      while j < |grants|
        invariant 0 <= j <= |grants|
        invariant hit <==> exists y :: 0 <= y < j && MatchesGrant(rule, grants[y])
        invariant forall k :: k in fired <==> (k in before || (k == KeyOf(e) && hit))
      {
        if grants[j].namespace == rule.kind.namespace {
          fired := fired + [KeyOf(e)];
          hit := true;
        }
        j := j + 1;
      }
      assert hit <==> GrantFires(gov, rule, i) by {
        assert forall y :: 0 <= y < |grants| ==> GrantAt(gov, i, y, grants[y]);
      }
      i := i + 1;
    }
  }

  /** The resources one rule fires on: the dispatch by kind, with the gate in front of label rules. */
  method EvaluateRule(gov: Governance, rule: Rule) returns (fired: Option<seq<Key>>)
    requires WellGoverned(gov)
    ensures fired.None? <==> FailsToDecide(gov, rule)
    ensures fired.Some? ==> forall k :: k in fired.value <==> Fires(gov, CrossEdges(gov.g.nodes, gov.envelopes), rule, k)
  {
    var keys: seq<Key> := [];
    match rule.kind {
      case FieldAssert(byLabels, _, _) =>
        if !byLabels || gov.sc.labelScoped {
          fired := EvaluateFieldAssert(gov, rule);
          return;
        }
      case OnFinding(_) => keys := EvaluateFinding(gov, rule);
      case CrossDomain(_, _) =>
        var edges := CrossDomainEdges(gov);
        keys := EvaluateCrossDomain(gov, edges, rule);
      case EdgeLabels(_, _) =>
        if gov.sc.labelScoped {
          var edges := CrossDomainEdges(gov);
          keys := EvaluateEdgeSelector(gov, edges, rule);
        }
      case GrantTo(_) => keys := EvaluateGrant(gov, rule);
      case OnPlan =>
    }
    fired := Some(keys);
  }

  /** A decision some rule produces, with the exemption its resource holds. */
  ghost predicate Decides(gov: Governance, edges: seq<CrossEdge>, d: Decision) {
    && (exists i :: 0 <= i < |gov.rules| && gov.rules[i].id == d.ruleID && gov.rules[i].effect == d.effect
                    && Fires(gov, edges, gov.rules[i], d.resource))
    && d == Exempted(gov, d.ruleID, d.effect, d.resource)
  }

  ghost function Exempted(gov: Governance, ruleID: string, effect: Effect, resource: Key): Decision {
    var byKey := NodesOf(gov.envelopes);
    var reason := if resource in byKey then LiveExemption(gov, byKey[resource], ruleID) else None;
    Decision(ruleID, effect, resource, reason.Some?, if reason.Some? then reason.value else "")
  }

  method ApplyExemptions(gov: Governance, decisions0: seq<Decision>) returns (decisions: seq<Decision>)
    requires forall i :: 0 <= i < |decisions0| ==> !decisions0[i].exempted && decisions0[i].exemptReason == ""
    ensures |decisions| == |decisions0|
    ensures forall i :: 0 <= i < |decisions| ==>
              decisions[i] == Exempted(gov, decisions0[i].ruleID, decisions0[i].effect, decisions0[i].resource)
  {
    var exemptible := ExemptibleByID(gov.rules);
    var byKey := NodesOf(gov.envelopes);
    decisions := decisions0;
    var i := 0;
    while i < |decisions|
      invariant 0 <= i <= |decisions| == |decisions0|
      invariant forall j :: i <= j < |decisions| ==> decisions[j] == decisions0[j]
      invariant forall j :: 0 <= j < i ==>
                  decisions[j] == Exempted(gov, decisions0[j].ruleID, decisions0[j].effect, decisions0[j].resource)
    {
      var d := decisions[i];
      if d.ruleID in exemptible && exemptible[d.ruleID] && d.resource in byKey {
        var claimed := gov.parseExemptions(byKey[d.resource].metadata.annotations);
        var reason := FindReason(claimed, d.ruleID);
        if reason.Some? {
          decisions := decisions[i := d.(exempted := true, exemptReason := reason.value)];
        }
      }
      i := i + 1;
    }
  }

  method FindReason(claimed: seq<Exemption>, ruleID: string) returns (reason: Option<string>)
    ensures reason == FirstReason(claimed, ruleID)
  {
    var i := 0;
    while i < |claimed|
      invariant 0 <= i <= |claimed|
      invariant FirstReason(claimed, ruleID) == FirstReason(claimed[i..], ruleID)
    {
      if claimed[i].ruleID == ruleID {
        return Some(claimed[i].reason);
      }
      assert claimed[i..][1..] == claimed[i + 1..];
      i := i + 1;
    }
    reason := None;
  }

  /** Enforcement: the decisions of every rule, exemptions applied, unless some assertion cannot be evaluated. */
  method RunRules(gov: Governance) returns (r: Option<seq<Decision>>)
    requires WellGoverned(gov)
    ensures r.None? <==> exists i :: 0 <= i < |gov.rules| && FailsToDecide(gov, gov.rules[i])
    ensures r.Some? ==> forall d :: d in r.value <==> Decides(gov, CrossEdges(gov.g.nodes, gov.envelopes), d)
  {
    ghost var edges := CrossEdges(gov.g.nodes, gov.envelopes);
    var raw: seq<Decision> := [];
    var i := 0;
    while i < |gov.rules|
      invariant 0 <= i <= |gov.rules|
      invariant forall x :: 0 <= x < i ==> !FailsToDecide(gov, gov.rules[x])
      invariant forall x :: 0 <= x < |raw| ==> RawFrom(gov, edges, i, raw[x])
      invariant forall d :: RawFrom(gov, edges, i, d) ==> d in raw
    {
      var rule := gov.rules[i];
      var evaluated := EvaluateRule(gov, rule);
      if evaluated.None? {
        return None;
      }
      var fired := evaluated.value;
      var more := seq(|fired|, j requires 0 <= j < |fired| => Decision(rule.id, rule.effect, fired[j], false, ""));
      RawNext(gov, edges, i, fired, raw, more);
      raw := raw + more;
      i := i + 1;
    }
    var decisions := ApplyExemptions(gov, raw);
    forall d ensures d in decisions <==> Decides(gov, edges, d) {
      ExemptedExactly(gov, edges, raw, decisions, d);
    }
    r := Some(decisions);
  }

  /** A decision, before exemptions, of one of the first n rules. */
  ghost predicate RawFrom(gov: Governance, edges: seq<CrossEdge>, n: int, d: Decision) {
    && !d.exempted && d.exemptReason == ""
    && exists i :: 0 <= i < n <= |gov.rules| && gov.rules[i].id == d.ruleID && gov.rules[i].effect == d.effect
                   && Fires(gov, edges, gov.rules[i], d.resource)
  }

  lemma RawNext(gov: Governance, edges: seq<CrossEdge>, n: nat, fired: seq<Key>, raw: seq<Decision>, more: seq<Decision>)
    requires n < |gov.rules| && forall k :: k in fired <==> Fires(gov, edges, gov.rules[n], k)
    requires forall x :: 0 <= x < |raw| ==> RawFrom(gov, edges, n, raw[x])
    requires forall d :: RawFrom(gov, edges, n, d) ==> d in raw
    requires |more| == |fired| && forall j :: 0 <= j < |fired| ==> more[j] == Decision(gov.rules[n].id, gov.rules[n].effect, fired[j], false, "")
    ensures forall x :: 0 <= x < |raw + more| ==> RawFrom(gov, edges, n + 1, (raw + more)[x])
    ensures forall d :: RawFrom(gov, edges, n + 1, d) ==> d in raw + more
  {
    forall x | 0 <= x < |raw + more| ensures RawFrom(gov, edges, n + 1, (raw + more)[x]) {
      if x < |raw| {
        assert RawFrom(gov, edges, n, raw[x]);
      } else {
        assert fired[x - |raw|] in fired;
      }
    }
    forall d | RawFrom(gov, edges, n + 1, d) ensures d in raw + more {
      if !RawFrom(gov, edges, n, d) {
        var j :| 0 <= j < |fired| && fired[j] == d.resource;
        assert more[j] == d;
      }
    }
  }

  lemma ExemptedExactly(gov: Governance, edges: seq<CrossEdge>, raw: seq<Decision>, decisions: seq<Decision>, d: Decision)
    requires |decisions| == |raw|
    requires forall x :: 0 <= x < |raw| ==> RawFrom(gov, edges, |gov.rules|, raw[x])
    requires forall r :: RawFrom(gov, edges, |gov.rules|, r) ==> r in raw
    requires forall x :: 0 <= x < |raw| ==> decisions[x] == Exempted(gov, raw[x].ruleID, raw[x].effect, raw[x].resource)
    ensures d in decisions <==> Decides(gov, edges, d)
  {
    if d in decisions {
      var x :| 0 <= x < |decisions| && decisions[x] == d;
      assert RawFrom(gov, edges, |gov.rules|, raw[x]);
    }
    if Decides(gov, edges, d) {
      var r := Decision(d.ruleID, d.effect, d.resource, false, "");
      assert RawFrom(gov, edges, |gov.rules|, r);
      var x :| 0 <= x < |raw| && raw[x] == r;
      assert decisions[x] == d;
    }
  }

  // ---------------------------------------------------------------- the audit

  datatype Verdict = Permitted | Denied

  datatype Justification = NoMatchingDeny | ByGrant | ByExemption | ByDenyRule

  datatype Row = Row(owner: Key, verdict: Verdict, justification: Justification, ruleID: string, exemptReason: string)

  ghost predicate OrderedById(s: seq<Rule>) {
    forall i, j :: 0 <= i < j < |s| ==> !StringLess(s[j].id, s[i].id)
  }

  function InsertRule(s: seq<Rule>, r: Rule): (t: seq<Rule>)
    ensures forall x :: x in t <==> x in s || x == r
  {
    if s == [] then [r]
    else if StringLess(r.id, s[0].id) then [r] + s
    else
      assert forall x :: x in s <==> x == s[0] || x in s[1..];
      [s[0]] + InsertRule(s[1..], r)
  }

  lemma NotLessTransitive(a: string, b: string, c: string)
    requires !StringLess(b, a) && !StringLess(c, b)
    ensures !StringLess(c, a)
  {
    StringLessTotal(a, b);
    StringLessTotal(b, c);
    if StringLess(c, a) {
      if a != b {
        StringLessTransitive(c, a, b);
      }
    }
  }

  lemma {:induction false} InsertRuleOrdered(s: seq<Rule>, r: Rule)
    requires OrderedById(s)
    ensures OrderedById(InsertRule(s, r))
  {
    if s != [] {
      if StringLess(r.id, s[0].id) {
        StringLessTotal(r.id, s[0].id);
        forall i | 0 <= i < |s| ensures !StringLess(s[i].id, r.id) {
          if i > 0 {
            NotLessTransitive(r.id, s[0].id, s[i].id);
          }
        }
      } else {
        InsertRuleOrdered(s[1..], r);
        var rest := InsertRule(s[1..], r);
        forall i | 0 <= i < |rest| ensures !StringLess(rest[i].id, s[0].id) {
          assert rest[i] in rest;
        }
      }
    }
  }

  method SortById(s: seq<Rule>) returns (t: seq<Rule>)
    ensures OrderedById(t) && forall r :: r in t <==> r in s
  {
    t := [];
    var i := 0;
    while i < |s|
      invariant 0 <= i <= |s| && OrderedById(t)
      invariant forall r :: r in t <==> r in s[..i]
    {
      InsertRuleOrdered(t, s[i]);
      t := InsertRule(t, s[i]);
      assert s[..i + 1] == s[..i] + [s[i]];
      i := i + 1;
    }
    assert s[..i] == s;
  }

  /** rule denies and owner holds no live exemption from it. */
  ghost predicate StandingDeny(gov: Governance, owner: Envelope, rule: Rule) {
    rule.effect == Deny && LiveExemption(gov, owner, rule.id).None?
  }

  ghost predicate LiftedDeny(gov: Governance, owner: Envelope, rule: Rule) {
    rule.effect == Deny && LiveExemption(gov, owner, rule.id).Some?
  }

  /** Deny wins: the least standing deny decides, then the least lifted one, then the default stands. */
  ghost predicate Resolved(gov: Governance, matching: seq<Rule>, owner: Envelope, base: Row, row: Row) {
    if exists r :: r in matching && StandingDeny(gov, owner, r) then
      && row == base.(verdict := Denied, justification := ByDenyRule, ruleID := row.ruleID)
      && (exists r :: r in matching && StandingDeny(gov, owner, r) && r.id == row.ruleID)
      && (forall r :: r in matching && StandingDeny(gov, owner, r) ==> !StringLess(r.id, row.ruleID))
    else if exists r :: r in matching && LiftedDeny(gov, owner, r) then
      && row == base.(verdict := Permitted, justification := ByExemption, ruleID := row.ruleID, exemptReason := row.exemptReason)
      && (exists r :: r in matching && LiftedDeny(gov, owner, r) && r.id == row.ruleID
                      && LiveExemption(gov, owner, r.id) == Some(row.exemptReason))
      && (forall r :: r in matching && LiftedDeny(gov, owner, r) ==> !StringLess(r.id, row.ruleID))
    else
      row == base
  }

  /** The audit's own exemption lookup. */
  method ExemptionFor(gov: Governance, owner: Envelope, ruleID: string, exemptibleByID: map<string, bool>) returns (reason: Option<string>)
    requires exemptibleByID == Exemptible(gov.rules)
    ensures reason == LiveExemption(gov, owner, ruleID)
  {
    if ruleID !in exemptibleByID || !exemptibleByID[ruleID] {
      return None;
    }
    var claimed := gov.parseExemptions(owner.metadata.annotations);
    for i := 0 to |claimed|
      invariant FirstReason(claimed, ruleID) == FirstReason(claimed[i..], ruleID)
    {
      if claimed[i].ruleID == ruleID {
        return Some(claimed[i].reason);
      }
      assert claimed[i..][1..] == claimed[i + 1..];
    }
    reason := None;
  }

  method ResolveVerdict(gov: Governance, matching0: seq<Rule>, owner: Envelope, exemptibleByID: map<string, bool>, base: Row) returns (row: Row)
    requires exemptibleByID == Exemptible(gov.rules)
    ensures Resolved(gov, matching0, owner, base, row)
  {
    var matching := SortById(matching0);
    var exempted: Option<Rule> := None;
    var exemptedReason := "";
    var i := 0;
    while i < |matching|
      invariant 0 <= i <= |matching|
      invariant forall j :: 0 <= j < i ==> !StandingDeny(gov, owner, matching[j])
      invariant exempted.None? ==> forall j :: 0 <= j < i ==> !LiftedDeny(gov, owner, matching[j])
      invariant exempted.Some? ==> LeastLifted(gov, owner, matching, exempted.value, exemptedReason)
    {
      var rule := matching[i];
      if rule.effect == Deny {
        var reason := ExemptionFor(gov, owner, rule.id, exemptibleByID);
        if reason.None? {
          LeastStanding(gov, owner, matching0, matching, i);
          return base.(verdict := Denied, justification := ByDenyRule, ruleID := rule.id);
        }
        if exempted.None? {
          exempted, exemptedReason := Some(rule), reason.value;
          StringLessTotal(rule.id, rule.id);
        }
      }
      i := i + 1;
    }
    assert forall r :: r in matching0 ==> r in matching && !StandingDeny(gov, owner, r);
    row := base;
    if exempted.Some? {
      row := base.(verdict := Permitted, justification := ByExemption, ruleID := exempted.value.id, exemptReason := exemptedReason);
      assert exempted.value in matching0;
      assert forall r :: r in matching0 && LiftedDeny(gov, owner, r) ==> r in matching && !StringLess(r.id, exempted.value.id);
    }
  }

  /** rule is the lifted deny of least id, for this reason. */
  ghost predicate LeastLifted(gov: Governance, owner: Envelope, matching: seq<Rule>, rule: Rule, reason: string) {
    && rule in matching && rule.effect == Deny && LiveExemption(gov, owner, rule.id) == Some(reason)
    && forall j :: 0 <= j < |matching| && LiftedDeny(gov, owner, matching[j]) ==> !StringLess(matching[j].id, rule.id)
  }

  lemma LeastStanding(gov: Governance, owner: Envelope, matching0: seq<Rule>, matching: seq<Rule>, i: nat)
    requires OrderedById(matching) && (forall r :: r in matching <==> r in matching0) && i < |matching|
    requires StandingDeny(gov, owner, matching[i]) && forall j :: 0 <= j < i ==> !StandingDeny(gov, owner, matching[j])
    ensures matching[i] in matching0
    ensures forall r :: r in matching0 && StandingDeny(gov, owner, r) ==> !StringLess(r.id, matching[i].id)
  {
    assert matching[i] in matching;
    StringLessTotal(matching[i].id, matching[i].id);
    forall r | r in matching0 && StandingDeny(gov, owner, r) ensures !StringLess(r.id, matching[i].id) {
      var j :| 0 <= j < |matching| && matching[j] == r;
    }
  }

  /** The audit's own matching: exact domain pairs, and label selectors behind the gate. */
  method MatchingEdgeRules(gov: Governance, edge: CrossEdge) returns (out: seq<Rule>)
    ensures forall r :: r in out <==> r in gov.rules && MatchesEdge(gov, r, edge)
  {
    out := [];
    var i := 0;
    while i < |gov.rules|
      invariant 0 <= i <= |gov.rules|
      invariant forall r :: r in out <==> r in gov.rules[..i] && MatchesEdge(gov, r, edge)
    {
      var rule := gov.rules[i];
      assert gov.rules[..i + 1] == gov.rules[..i] + [rule];
      i := i + 1;
      if !rule.kind.CrossDomain? && !rule.kind.EdgeLabels? {
        continue;
      }
      if rule.kind.CrossDomain? {
        if edge.fromDomain == rule.kind.from && edge.toDomain == rule.kind.to {
          out := out + [rule];
        }
        continue;
      }
      if !gov.sc.labelScoped {
        continue;
      }
      if Selects(rule.kind.fromLabels, edge.from.metadata.labels) && Selects(rule.kind.toLabels, edge.to.metadata.labels) {
        out := out + [rule];
      }
    }
    assert gov.rules[..i] == gov.rules;
  }

  method MatchingGrantRules(gov: Governance, namespace: string) returns (out: seq<Rule>)
    ensures forall r, grant: Grant :: grant.namespace == namespace ==> (r in out <==> r in gov.rules && MatchesGrant(r, grant))
  {
    out := [];
    var i := 0;
    while i < |gov.rules|
      invariant 0 <= i <= |gov.rules|
      invariant forall r :: r in out <==> r in gov.rules[..i] && r.kind.GrantTo? && r.kind.namespace == namespace
    {
      var rule := gov.rules[i];
      if rule.kind.GrantTo? && rule.kind.namespace == namespace {
        out := out + [rule];
      }
      assert gov.rules[..i + 1] == gov.rules[..i] + [rule];
      i := i + 1;
    }
    assert gov.rules[..i] == gov.rules;
  }

  ghost predicate MatchingEdge(gov: Governance, edge: CrossEdge, matching: seq<Rule>) {
    forall r :: r in matching <==> r in gov.rules && MatchesEdge(gov, r, edge)
  }

  ghost predicate MatchingGrant(gov: Governance, grant: Grant, matching: seq<Rule>) {
    forall r :: r in matching <==> r in gov.rules && MatchesGrant(r, grant)
  }

  /** The audit row of an edge: deny wins over all the rules that match it, by least id; no deny at all is the default. */
  ghost predicate EdgeRow(gov: Governance, edge: CrossEdge, row: Row) {
    exists matching :: MatchingEdge(gov, edge, matching)
                       && Resolved(gov, matching, edge.owner, Row(KeyOf(edge.owner), Permitted, NoMatchingDeny, "", ""), row)
  }

  ghost predicate GrantRow(gov: Governance, owner: Envelope, grant: Grant, row: Row) {
    exists matching :: MatchingGrant(gov, grant, matching)
                       && Resolved(gov, matching, owner, Row(KeyOf(owner), Permitted, ByGrant, "", ""), row)
  }

  /** One row per declared edge and one per declared grant, in declaration order. */
  method Audit(gov: Governance) returns (edgeRows: seq<Row>, grantRows: seq<seq<Row>>)
    requires WellGoverned(gov)
    ensures |edgeRows| == |CrossEdges(gov.g.nodes, gov.envelopes)|
    ensures forall i :: 0 <= i < |edgeRows| ==> EdgeRow(gov, CrossEdges(gov.g.nodes, gov.envelopes)[i], edgeRows[i])
    ensures |grantRows| == |gov.envelopes|
    ensures forall i :: 0 <= i < |gov.envelopes| ==> GrantRowsOf(gov, gov.envelopes[i], grantRows[i])
  {
    var exemptibleByID := ExemptibleByID(gov.rules);
    var edges := CrossDomainEdges(gov);
    edgeRows := AuditEdges(gov, edges, exemptibleByID);
    grantRows := AuditAllGrants(gov, exemptibleByID);
  }

  method AuditEdges(gov: Governance, edges: seq<CrossEdge>, exemptibleByID: map<string, bool>) returns (rows: seq<Row>)
    requires exemptibleByID == Exemptible(gov.rules)
    ensures |rows| == |edges| && forall i :: 0 <= i < |edges| ==> EdgeRow(gov, edges[i], rows[i])
  {
    rows := [];
    while |rows| < |edges|
      invariant |rows| <= |edges|
      invariant forall i :: 0 <= i < |rows| ==> EdgeRow(gov, edges[i], rows[i])
    {
      var edge := edges[|rows|];
      var matching := MatchingEdgeRules(gov, edge);
      assert MatchingEdge(gov, edge, matching);
      var row := ResolveVerdict(gov, matching, edge.owner, exemptibleByID, Row(KeyOf(edge.owner), Permitted, NoMatchingDeny, "", ""));
      rows := rows + [row];
    }
  }

  method AuditAllGrants(gov: Governance, exemptibleByID: map<string, bool>) returns (rows: seq<seq<Row>>)
    requires exemptibleByID == Exemptible(gov.rules)
    ensures |rows| == |gov.envelopes|
    ensures forall i :: 0 <= i < |gov.envelopes| ==> GrantRowsOf(gov, gov.envelopes[i], rows[i])
  {
    rows := [];
    while |rows| < |gov.envelopes|
      invariant |rows| <= |gov.envelopes|
      invariant forall i :: 0 <= i < |rows| ==> GrantRowsOf(gov, gov.envelopes[i], rows[i])
    {
      var more := AuditGrants(gov, gov.envelopes[|rows|], exemptibleByID);
      rows := rows + [more];
    }
  }

  ghost predicate GrantRowsOf(gov: Governance, owner: Envelope, rows: seq<Row>) {
    var grants := AccessGrants(gov.sc, owner);
    |rows| == |grants| && forall j :: 0 <= j < |grants| ==> GrantRow(gov, owner, grants[j], rows[j])
  }

  method AuditGrants(gov: Governance, owner: Envelope, exemptibleByID: map<string, bool>) returns (rows: seq<Row>)
    requires exemptibleByID == Exemptible(gov.rules)
    ensures GrantRowsOf(gov, owner, rows)
  {
    var grants := AccessGrants(gov.sc, owner);
    rows := [];
    while |rows| < |grants|
      invariant |rows| <= |grants|
      invariant forall j :: 0 <= j < |rows| ==> GrantRow(gov, owner, grants[j], rows[j])
    {
      var grant := grants[|rows|];
      var matching := MatchingGrantRules(gov, grant.namespace);
      assert MatchingGrant(gov, grant, matching);
      var row := ResolveVerdict(gov, matching, owner, exemptibleByID, Row(KeyOf(owner), Permitted, ByGrant, "", ""));
      rows := rows + [row];
    }
  }

  // ---------------------------------------------------------------- the two evaluators agree

  /** Enforcement blocks: an unexempted deny on owner's key from this rule. */
  ghost predicate Blocks(decisions: seq<Decision>, rule: Rule, owner: Key) {
    exists d :: d in decisions && d.ruleID == rule.id && d.effect == Deny && !d.exempted && d.resource == owner
  }

  lemma {:induction false} EdgeOwnersDeclared(nodes: map<Key, Envelope>, envelopes: seq<Envelope>, i: nat)
    requires i < |CrossEdges(nodes, envelopes)|
    ensures CrossEdges(nodes, envelopes)[i].owner in envelopes
  {
    var n := |envelopes| - 1;
    if i < |CrossEdges(nodes, envelopes[..n])| {
      EdgeOwnersDeclared(nodes, envelopes[..n], i);
      assert CrossEdges(nodes, envelopes)[i] == CrossEdges(nodes, envelopes[..n])[i];
    }
  }

  /** Whether a firing rule blocks its owner is what the audit's exemption lookup says. */
  lemma BlocksIffStanding(gov: Governance, edges: seq<CrossEdge>, decisions: seq<Decision>, owner: Envelope, rule: Rule)
    requires WellGoverned(gov) && owner in gov.envelopes && rule in gov.rules && rule.effect == Deny
    requires forall d :: d in decisions <==> Decides(gov, edges, d)
    requires Fires(gov, edges, rule, KeyOf(owner))
    ensures Blocks(decisions, rule, KeyOf(owner)) <==> StandingDeny(gov, owner, rule)
  {
    var i :| 0 <= i < |gov.envelopes| && gov.envelopes[i] == owner;
    NodesFiled(gov.envelopes, i);
    var d := Exempted(gov, rule.id, Deny, KeyOf(owner));
    assert Decides(gov, edges, d);
    assert d in decisions;
  }

  /** A declared edge is Denied in the audit exactly when enforcement blocks its owner by a rule matching the edge. */
  lemma AuditAgreesOnEdges(gov: Governance, edges: seq<CrossEdge>, decisions: seq<Decision>, i: nat, row: Row)
    requires WellGoverned(gov) && edges == CrossEdges(gov.g.nodes, gov.envelopes) && i < |edges|
    requires forall d :: d in decisions <==> Decides(gov, edges, d)
    requires EdgeRow(gov, edges[i], row)
    ensures row.verdict == Denied <==>
            exists r :: r in gov.rules && r.effect == Deny && MatchesEdge(gov, r, edges[i]) && Blocks(decisions, r, row.owner)
  {
    EdgeOwnersDeclared(gov.g.nodes, gov.envelopes, i);
    forall r | r in gov.rules && r.effect == Deny && MatchesEdge(gov, r, edges[i])
      ensures Blocks(decisions, r, row.owner) <==> StandingDeny(gov, edges[i].owner, r)
    {
      BlocksIffStanding(gov, edges, decisions, edges[i].owner, r);
    }
  }

  /** The same for grants. */
  lemma AuditAgreesOnGrants(gov: Governance, edges: seq<CrossEdge>, decisions: seq<Decision>, i: nat, j: nat, grant: Grant, row: Row)
    requires WellGoverned(gov) && GrantAt(gov, i, j, grant)
    requires forall d :: d in decisions <==> Decides(gov, edges, d)
    requires GrantRow(gov, gov.envelopes[i], grant, row)
    ensures row.verdict == Denied <==>
            exists r :: r in gov.rules && r.effect == Deny && MatchesGrant(r, grant) && Blocks(decisions, r, row.owner)
  {
    forall r | r in gov.rules && r.effect == Deny && MatchesGrant(r, grant)
      ensures Blocks(decisions, r, row.owner) <==> StandingDeny(gov, gov.envelopes[i], r)
    {
      assert GrantFires(gov, r, i);
      BlocksIffStanding(gov, edges, decisions, gov.envelopes[i], r);
    }
  }
}
