/** Which references a manifest makes and what they resolve to, in terms of its fields. */
module ReferenceLaws {
  import opened Resources
  import opened Reachability
  import opened DependencyGraph
  import opened GraphBuild
  import opened ManifestFields

  // ---------------------------------------------------------------- what a manifest refers to

  /** The kinds a reference field of the spec may name. */
  ghost predicate SpecFieldAdmits(field: string, kind: string) {
    || field in {"sourceRef", "targetRef"}
    || (field in {"providerRef", "via"} && kind == "Provider")
    || (field == "connectionRef" && kind in {"Connection", "SecretReference"})
    || (field == "secretRef" && kind == "SecretReference")
    || (field == "warehouseRef" && kind == "Dataset")
  }

  ghost predicate ConfigurationFieldAdmits(field: string, kind: string) {
    (field == "catalogRef" && kind == "Catalog") || (field == "warehouseProviderRef" && kind == "Provider")
  }

  ghost predicate ByField(e: Envelope, t: Key) {
    exists f :: SpecFieldAdmits(f, t.kind) && Names(e, f, t)
  }

  ghost predicate ByConfiguration(e: Envelope, t: Key) {
    exists f, block :: BlockAt(e.spec, "configuration", block) && ConfigurationFieldAdmits(f, t.kind)
                       && FieldNames(block, f, HomeNamespace(e), t)
  }

  ghost predicate ByTls(e: Envelope, t: Key) {
    exists block :: BlockAt(e.spec, "tls", block) && t.kind == "SecretReference"
                    && FieldNames(block, "secretRef", HomeNamespace(e), t)
  }

  ghost predicate BySecretRefs(e: Envelope, t: Key) {
    && "secretRefs" in e.spec && e.spec["secretRefs"].JList? && t.name != "" && JString(t.name) in e.spec["secretRefs"].items
    && t.kind == "SecretReference" && t.namespace == HomeNamespace(e)
  }

  ghost predicate ByObserver(e: Envelope, t: Key) {
    exists i :: 0 <= i < |e.metadata.observers| && e.metadata.observers[i].name == t.name && t.kind == "Provider"
                && t.namespace == if e.metadata.observers[i].namespace != "" then e.metadata.observers[i].namespace else HomeNamespace(e)
  }

  /** A managed Connection's target host is the name of another resource of its namespace. */
  ghost predicate ByTarget(e: Envelope, hostOf: string -> string, t: Key) {
    && e.kind == "Connection" && !MarkedExternal(e) && t != OwnKey(e) && t.namespace == HomeNamespace(e)
    && exists target :: TextAt(e.spec, "target", target) && target != "" && hostOf(target) == t.name
  }

  ghost predicate RefersTo(e: Envelope, hostOf: string -> string, t: Key) {
    || ByField(e, t) || ByConfiguration(e, t) || ByTls(e, t)
    || BySecretRefs(e, t) || ByObserver(e, t) || ByTarget(e, hostOf, t)
  }

  // ---------------------------------------------------------------- the demands say the same

  ghost predicate Targeted(keys: set<Key>, e: Envelope, demands: seq<Demand>, t: Key) {
    exists i :: 0 <= i < |demands| && t in DemandTargets(keys, e, demands[i])
  }

  lemma {:induction false} TargetsAreTargeted(keys: set<Key>, e: Envelope, demands: seq<Demand>, t: Key)
    ensures t in TargetsUpTo(keys, e, demands) <==> Targeted(keys, e, demands, t)
  {
    if demands != [] {
      var n := |demands| - 1;
      TargetsAreTargeted(keys, e, demands[..n], t);
      assert forall i :: 0 <= i < n ==> demands[..n][i] == demands[i];
    }
  }

  lemma TargetedJoin(keys: set<Key>, e: Envelope, a: seq<Demand>, b: seq<Demand>, t: Key)
    ensures Targeted(keys, e, a + b, t) <==> Targeted(keys, e, a, t) || Targeted(keys, e, b, t)
  {
    assert forall i :: 0 <= i < |a| ==> (a + b)[i] == a[i];
    assert forall i :: 0 <= i < |b| ==> (a + b)[|a| + i] == b[i];
    assert forall i :: |a| <= i < |a + b| ==> (a + b)[i] == b[i - |a|];
  }

  /** Some of the listed fields names t and admits its kind. */
  ghost predicate SomeFieldNames(fields: Spec, listed: seq<(string, Option<set<string>>)>, home: string, t: Key) {
    exists j :: 0 <= j < |listed| && (listed[j].1.None? || t.kind in listed[j].1.value) && FieldNames(fields, listed[j].0, home, t)
  }

  lemma {:induction false} FieldTargets(keys: set<Key>, e: Envelope, fields: Spec, listed: seq<(string, Option<set<string>>)>, t: Key)
    requires t in keys
    ensures Targeted(keys, e, FieldDemands(fields, listed), t) <==> SomeFieldNames(fields, listed, HomeNamespace(e), t)
  {
    if listed != [] {
      FieldTargets(keys, e, fields, listed[1..], t);
      var ref := RefFromSpec(fields, listed[0].0);
      var head := if ref.name == "" then [] else [Named(listed[0].0, ref, listed[0].1)];
      TargetedJoin(keys, e, head, FieldDemands(fields, listed[1..]), t);
      ReferenceRead(fields, listed[0].0, e.metadata.namespace, t);
      assert Targeted(keys, e, head, t) <==> head != [] && t in DemandTargets(keys, e, head[0]);
      assert forall j :: 0 <= j < |listed| - 1 ==> listed[1..][j] == listed[j + 1];
      assert SomeFieldNames(fields, listed, HomeNamespace(e), t) <==>
             ((listed[0].1.None? || t.kind in listed[0].1.value) && FieldNames(fields, listed[0].0, HomeNamespace(e), t))
             || SomeFieldNames(fields, listed[1..], HomeNamespace(e), t);
    }
  }

  lemma SpecFieldTargets(e: Envelope, t: Key)
    ensures SomeFieldNames(e.spec, REF_FIELDS, HomeNamespace(e), t) <==> ByField(e, t)
  {
    if ByField(e, t) {
      var f :| SpecFieldAdmits(f, t.kind) && Names(e, f, t);
      var j := if f == "providerRef" then 0 else if f == "sourceRef" then 1 else if f == "targetRef" then 2
               else if f == "connectionRef" then 3 else if f == "secretRef" then 4 else if f == "warehouseRef" then 5 else 6;
      assert REF_FIELDS[j].0 == f && (REF_FIELDS[j].1.None? || t.kind in REF_FIELDS[j].1.value);
    }
    if SomeFieldNames(e.spec, REF_FIELDS, HomeNamespace(e), t) {
      var j :| 0 <= j < |REF_FIELDS| && (REF_FIELDS[j].1.None? || t.kind in REF_FIELDS[j].1.value)
               && FieldNames(e.spec, REF_FIELDS[j].0, HomeNamespace(e), t);
      assert SpecFieldAdmits(REF_FIELDS[j].0, t.kind) && Names(e, REF_FIELDS[j].0, t);
    }
  }

  lemma ConfigurationTargets(e: Envelope, t: Key)
    ensures SomeFieldNames(ObjectField(e.spec, "configuration"), CONFIG_REF_FIELDS, HomeNamespace(e), t) <==> ByConfiguration(e, t)
  {
    var block := ObjectField(e.spec, "configuration");
    if ByConfiguration(e, t) {
      var f, b :| BlockAt(e.spec, "configuration", b) && ConfigurationFieldAdmits(f, t.kind) && FieldNames(b, f, HomeNamespace(e), t);
      assert b == block;
      assert CONFIG_REF_FIELDS[if f == "catalogRef" then 0 else 1].0 == f;
    }
    if SomeFieldNames(block, CONFIG_REF_FIELDS, HomeNamespace(e), t) {
      var j :| 0 <= j < |CONFIG_REF_FIELDS| && (CONFIG_REF_FIELDS[j].1.None? || t.kind in CONFIG_REF_FIELDS[j].1.value)
               && FieldNames(block, CONFIG_REF_FIELDS[j].0, HomeNamespace(e), t);
      assert BlockAt(e.spec, "configuration", block) && ConfigurationFieldAdmits(CONFIG_REF_FIELDS[j].0, t.kind);
    }
  }

  const TLS_FIELDS: seq<(string, Option<set<string>>)> := [("secretRef", Some({SECRET_REFERENCE}))]

  lemma TlsTargets(e: Envelope, t: Key)
    ensures SomeFieldNames(ObjectField(e.spec, "tls"), TLS_FIELDS, HomeNamespace(e), t) <==> ByTls(e, t)
  {
    var block := ObjectField(e.spec, "tls");
    if ByTls(e, t) {
      var b :| BlockAt(e.spec, "tls", b) && t.kind == "SecretReference" && FieldNames(b, "secretRef", HomeNamespace(e), t);
      assert b == block && TLS_FIELDS[0].0 == "secretRef";
    }
    if SomeFieldNames(block, TLS_FIELDS, HomeNamespace(e), t) {
      assert BlockAt(e.spec, "tls", block);
    }
  }

  lemma {:induction false} SecretTargets(keys: set<Key>, e: Envelope, from: Key, items: seq<Json>, t: Key)
    requires t in keys
    ensures Targeted(keys, e, SecretDemands(from, items), t) <==>
            t.name != "" && JString(t.name) in items && t.kind == "SecretReference" && t.namespace == from.namespace
  {
    if items != [] {
      SecretTargets(keys, e, from, items[1..], t);
      var head := if items[0].JString? && items[0].text != "" then
                    [Exact("secretRefs", IsDnsLabel(items[0].text), Key(from.namespace, SECRET_REFERENCE, items[0].text))] else [];
      TargetedJoin(keys, e, head, SecretDemands(from, items[1..]), t);
      assert Targeted(keys, e, head, t) <==> head != [] && t in DemandTargets(keys, e, head[0]);
      assert JString(t.name) in items <==> items[0] == JString(t.name) || JString(t.name) in items[1..];
    }
  }

  lemma ObserverTargets(keys: set<Key>, e: Envelope, t: Key)
    requires t in keys
    ensures Targeted(keys, e, ObserverDemands(e), t) <==> ByObserver(e, t)
  {
    var demands := ObserverDemands(e);
    forall i | 0 <= i < |demands| ensures t in DemandTargets(keys, e, demands[i]) <==>
      e.metadata.observers[i].name == t.name && t.kind == "Provider"
      && t.namespace == if e.metadata.observers[i].namespace != "" then e.metadata.observers[i].namespace else HomeNamespace(e)
    {
      assert demands[i].Exact?;
    }
  }

  lemma HostTargets(keys: set<Key>, e: Envelope, hostOf: string -> string, t: Key)
    requires t in keys
    ensures Targeted(keys, e, TargetDemands(e, hostOf), t) <==> ByTarget(e, hostOf, t)
  {
    var target := StringField(e.spec, "target");
    var demands := TargetDemands(e, hostOf);
    assert Targeted(keys, e, demands, t) <==> demands != [] && t in DemandTargets(keys, e, demands[0]);
    if demands != [] {
      assert TextAt(e.spec, "target", target);
    }
  }

  /** The demands of the secretRefs list. */
  function SecretPart(e: Envelope): seq<Demand> {
    if "secretRefs" in e.spec && e.spec["secretRefs"].JList? then SecretDemands(KeyOf(e), e.spec["secretRefs"].items) else []
  }

  lemma SecretListTargets(keys: set<Key>, e: Envelope, t: Key)
    requires t in keys
    ensures Targeted(keys, e, SecretPart(e), t) <==> BySecretRefs(e, t)
  {
    if "secretRefs" in e.spec && e.spec["secretRefs"].JList? {
      SecretTargets(keys, e, KeyOf(e), e.spec["secretRefs"].items, t);
    }
  }

  lemma DemandsAreReferences(keys: set<Key>, e: Envelope, hostOf: string -> string, t: Key)
    requires t in keys
    ensures t in TargetsUpTo(keys, e, Demands(e, hostOf)) <==> RefersTo(e, hostOf, t)
  {
    var a := FieldDemands(e.spec, REF_FIELDS);
    var b := FieldDemands(ObjectField(e.spec, "configuration"), CONFIG_REF_FIELDS);
    var c := FieldDemands(ObjectField(e.spec, "tls"), TLS_FIELDS);
    var d := SecretPart(e);
    var o, h := ObserverDemands(e), TargetDemands(e, hostOf);
    assert Demands(e, hostOf) == a + b + c + d + o + h;
    TargetsAreTargeted(keys, e, Demands(e, hostOf), t);
    TargetedJoin(keys, e, a, b, t);
    TargetedJoin(keys, e, a + b, c, t);
    TargetedJoin(keys, e, a + b + c, d, t);
    TargetedJoin(keys, e, a + b + c + d, o, t);
    TargetedJoin(keys, e, a + b + c + d + o, h, t);
    FieldTargets(keys, e, e.spec, REF_FIELDS, t);
    SpecFieldTargets(e, t);
    FieldTargets(keys, e, ObjectField(e.spec, "configuration"), CONFIG_REF_FIELDS, t);
    ConfigurationTargets(e, t);
    FieldTargets(keys, e, ObjectField(e.spec, "tls"), TLS_FIELDS, t);
    TlsTargets(e, t);
    SecretListTargets(keys, e, t);
    ObserverTargets(keys, e, t);
    HostTargets(keys, e, hostOf, t);
  }

  ghost predicate DeclaredKey(envelopes: seq<Envelope>, t: Key) {
    exists j :: 0 <= j < |envelopes| && OwnKey(envelopes[j]) == t
  }

  lemma DeclaredKeyIsNode(envelopes: seq<Envelope>, t: Key)
    ensures DeclaredKey(envelopes, t) <==> t in NodesOf(envelopes)
  {
    NodesMembers(envelopes, t);
    assert forall j :: 0 <= j < |envelopes| ==> OwnKey(envelopes[j]) == KeyOf(envelopes[j]);
  }

  lemma DeclaredEdges(envelopes: seq<Envelope>, refs: References, i: nat)
    requires DistinctKeys(envelopes) && i < |envelopes|
    ensures Direct(Declared(NodesOf(envelopes), refs), OwnKey(envelopes[i]))
         == TargetsUpTo(NodesOf(envelopes).Keys, envelopes[i], refs(envelopes[i]))
  {
    NodesFiled(envelopes, i);
    assert OwnKey(envelopes[i]) == KeyOf(envelopes[i]);
  }

  lemma ReferenceTargets(keys: set<Key>, e: Envelope, hostOf: string -> string, refs: References, t: Key)
    requires refs == ManifestReferences(hostOf) && t in keys
    ensures t in TargetsUpTo(keys, e, refs(e)) <==> RefersTo(e, hostOf, t)
  {
    DemandsAreReferences(keys, e, hostOf, t);
  }

  /** On a built set, there is an edge from a manifest exactly to each declared resource it refers to. */
  lemma EdgesLaw(envelopes: seq<Envelope>, hostOf: string -> string, refs: References, g: Graph, i: nat, t: Key)
    requires DistinctKeys(envelopes) && i < |envelopes| && refs == ManifestReferences(hostOf)
    requires forall a :: Direct(g.edges, a) == Direct(Declared(NodesOf(envelopes), refs), a)
    ensures Step(g.edges, OwnKey(envelopes[i]), t) <==> DeclaredKey(envelopes, t) && RefersTo(envelopes[i], hostOf, t)
  {
    DeclaredEdges(envelopes, refs, i);
    DeclaredKeyIsNode(envelopes, t);
    TargetsInKeys(NodesOf(envelopes).Keys, envelopes[i], refs(envelopes[i]));
    if t in NodesOf(envelopes) {
      ReferenceTargets(NodesOf(envelopes).Keys, envelopes[i], hostOf, refs, t);
    }
  }

  // ---------------------------------------------------------------- which references can be resolved

  /** At most 63 lower-case letters, digits and dashes, with no dash at either end. */
  ghost predicate IsLabel(s: string) {
    && 0 < |s| < 64 && s[0] != '-' && s[|s| - 1] != '-'
    && forall c :: c in s ==> c == '-' || !(c < '0' || '9' < c < 'a' || 'z' < c)
  }

  lemma LabelLaw(s: string)
    ensures IsDnsLabel(s) <==> IsLabel(s)
  {
    assert forall i :: 0 <= i < |s| ==> s[i] in s;
  }

  /** t is the only declared resource of an admitted kind that the field names. */
  ghost predicate OnlyTarget(keys: set<Key>, fields: Spec, field: string, home: string, admits: string -> bool, t: Key) {
    && t in keys && admits(t.kind) && FieldNames(fields, field, home, t)
    && forall u :: u in keys && admits(u.kind) && FieldNames(fields, field, home, u) ==> u == t
  }

  ghost predicate Labelled(fields: Spec, field: string) {
    exists block :: && BlockAt(fields, field, block)
                    && (forall text :: TextAt(block, "name", text) ==> IsLabel(text))
                    && (forall text :: TextAt(block, "namespace", text) && text != "" ==> IsLabel(text))
  }

  /** A set reference field is made of labels and names one declared resource of an admitted kind. */
  ghost predicate FieldSound(keys: set<Key>, fields: Spec, field: string, home: string, admits: string -> bool) {
    (exists t :: FieldNames(fields, field, home, t)) ==>
      Labelled(fields, field) && exists t :: OnlyTarget(keys, fields, field, home, admits, t)
  }

  ghost predicate AllMet(keys: set<Key>, e: Envelope, demands: seq<Demand>) {
    forall i :: 0 <= i < |demands| ==> Satisfied(keys, e, demands[i])
  }

  lemma AllMetJoin(keys: set<Key>, e: Envelope, a: seq<Demand>, b: seq<Demand>)
    ensures AllMet(keys, e, a + b) <==> AllMet(keys, e, a) && AllMet(keys, e, b)
  {
    assert forall i :: 0 <= i < |a| ==> (a + b)[i] == a[i];
    assert forall i :: 0 <= i < |b| ==> (a + b)[|a| + i] == b[i];
  }

  lemma LabelledLaw(fields: Spec, field: string)
    requires RefFromSpec(fields, field).name != ""
    ensures Labelled(fields, field) <==> ValidRef(RefFromSpec(fields, field))
  {
    var ref := RefFromSpec(fields, field);
    LabelLaw(ref.name);
    LabelLaw(ref.namespace);
    var block := fields[field].fields;
    assert BlockAt(fields, field, block) && TextAt(block, "name", ref.name);
    if ref.namespace != "" {
      assert TextAt(block, "namespace", ref.namespace);
    }
  }

  /** One reference field, as the build resolves it. */
  lemma FieldSatisfiedLaw(keys: set<Key>, e: Envelope, fields: Spec, field: string, kinds: Option<set<string>>, admits: string -> bool)
    requires forall k :: admits(k) <==> kinds.None? || k in kinds.value
    ensures FieldSound(keys, fields, field, HomeNamespace(e), admits) <==>
            (RefFromSpec(fields, field).name != "" ==> Satisfied(keys, e, Named(field, RefFromSpec(fields, field), kinds)))
  {
    var ref, home := RefFromSpec(fields, field), HomeNamespace(e);
    forall t ensures FieldNames(fields, field, home, t) <==>
                     ref.name != "" && t.name == ref.name && t.namespace == NamespaceOr(ref, e.metadata.namespace) {
      ReferenceRead(fields, field, e.metadata.namespace, t);
    }
    if ref.name != "" {
      LabelledLaw(fields, field);
      assert FieldNames(fields, field, home, Key(NamespaceOr(ref, e.metadata.namespace), "", ref.name));
      var found := Candidates(keys, NamespaceOr(ref, e.metadata.namespace), ref.name, kinds);
      assert forall t :: t in found <==> t in keys && admits(t.kind) && FieldNames(fields, field, home, t);
      forall t ensures IsTheOnly(found, t) <==> OnlyTarget(keys, fields, field, home, admits, t) {
        if OnlyTarget(keys, fields, field, home, admits, t) {
          assert found == {t};
        }
        if IsTheOnly(found, t) {
          assert t in found;
        }
      }
    }
  }

  ghost predicate FieldMet(keys: set<Key>, e: Envelope, fields: Spec, listed: (string, Option<set<string>>)) {
    RefFromSpec(fields, listed.0).name != "" ==> Satisfied(keys, e, Named(listed.0, RefFromSpec(fields, listed.0), listed.1))
  }

  lemma {:induction false} FieldsMet(keys: set<Key>, e: Envelope, fields: Spec, listed: seq<(string, Option<set<string>>)>)
    ensures AllMet(keys, e, FieldDemands(fields, listed)) <==>
            forall j :: 0 <= j < |listed| ==> FieldMet(keys, e, fields, listed[j])
  {
    if listed != [] {
      FieldsMet(keys, e, fields, listed[1..]);
      var ref := RefFromSpec(fields, listed[0].0);
      var head := if ref.name == "" then [] else [Named(listed[0].0, ref, listed[0].1)];
      AllMetJoin(keys, e, head, FieldDemands(fields, listed[1..]));
      assert AllMet(keys, e, head) <==> (head != [] ==> Satisfied(keys, e, head[0]));
      assert forall j :: 0 <= j < |listed| - 1 ==> listed[1..][j] == listed[j + 1];
      assert forall j :: 0 < j < |listed| ==> listed[j] == listed[1..][j - 1];
    }
  }

  ghost function SpecAdmits(field: string): string -> bool {
    kind => SpecFieldAdmits(field, kind)
  }

  ghost function ConfigurationAdmits(field: string): string -> bool {
    kind => ConfigurationFieldAdmits(field, kind)
  }

  ghost predicate SpecFieldSound(keys: set<Key>, e: Envelope, field: string) {
    FieldSound(keys, e.spec, field, HomeNamespace(e), SpecAdmits(field))
  }

  ghost predicate SpecFieldsSound(keys: set<Key>, e: Envelope) {
    && SpecFieldSound(keys, e, "providerRef") && SpecFieldSound(keys, e, "sourceRef") && SpecFieldSound(keys, e, "targetRef")
    && SpecFieldSound(keys, e, "connectionRef") && SpecFieldSound(keys, e, "secretRef")
    && SpecFieldSound(keys, e, "warehouseRef") && SpecFieldSound(keys, e, "via")
  }

  lemma SpecFieldLaw(keys: set<Key>, e: Envelope, j: nat)
    requires j < |REF_FIELDS|
    ensures FieldMet(keys, e, e.spec, REF_FIELDS[j]) <==> SpecFieldSound(keys, e, REF_FIELDS[j].0)
  {
    FieldSatisfiedLaw(keys, e, e.spec, REF_FIELDS[j].0, REF_FIELDS[j].1, SpecAdmits(REF_FIELDS[j].0));
  }

  lemma SpecFieldsLaw(keys: set<Key>, e: Envelope)
    ensures AllMet(keys, e, FieldDemands(e.spec, REF_FIELDS)) <==> SpecFieldsSound(keys, e)
  {
    FieldsMet(keys, e, e.spec, REF_FIELDS);
    forall j | 0 <= j < |REF_FIELDS|
      ensures FieldMet(keys, e, e.spec, REF_FIELDS[j]) <==> SpecFieldSound(keys, e, REF_FIELDS[j].0)
    {
      SpecFieldLaw(keys, e, j);
    }
    assert REF_FIELDS[0].0 == "providerRef" && REF_FIELDS[1].0 == "sourceRef" && REF_FIELDS[2].0 == "targetRef";
    assert REF_FIELDS[3].0 == "connectionRef" && REF_FIELDS[4].0 == "secretRef" && REF_FIELDS[5].0 == "warehouseRef";
    assert REF_FIELDS[6].0 == "via" && |REF_FIELDS| == 7;
  }

  ghost predicate ConfigurationSound(keys: set<Key>, e: Envelope) {
    forall block :: BlockAt(e.spec, "configuration", block) ==>
      && FieldSound(keys, block, "catalogRef", HomeNamespace(e), ConfigurationAdmits("catalogRef"))
      && FieldSound(keys, block, "warehouseProviderRef", HomeNamespace(e), ConfigurationAdmits("warehouseProviderRef"))
  }

  lemma ConfigurationLaw(keys: set<Key>, e: Envelope)
    ensures AllMet(keys, e, FieldDemands(ObjectField(e.spec, "configuration"), CONFIG_REF_FIELDS)) <==> ConfigurationSound(keys, e)
  {
    var block := ObjectField(e.spec, "configuration");
    FieldsMet(keys, e, block, CONFIG_REF_FIELDS);
    FieldSatisfiedLaw(keys, e, block, "catalogRef", Some({"Catalog"}), ConfigurationAdmits("catalogRef"));
    FieldSatisfiedLaw(keys, e, block, "warehouseProviderRef", Some({PROVIDER}), ConfigurationAdmits("warehouseProviderRef"));
    assert CONFIG_REF_FIELDS[0] == ("catalogRef", Some({"Catalog"}));
    assert CONFIG_REF_FIELDS[1] == ("warehouseProviderRef", Some({PROVIDER}));
    assert forall b :: BlockAt(e.spec, "configuration", b) ==> b == block;
    assert (exists b :: BlockAt(e.spec, "configuration", b)) ==> BlockAt(e.spec, "configuration", block);
  }

  ghost predicate TlsSound(keys: set<Key>, e: Envelope) {
    forall block :: BlockAt(e.spec, "tls", block) ==>
      FieldSound(keys, block, "secretRef", HomeNamespace(e), SpecAdmits("secretRef"))
  }

  lemma TlsLaw(keys: set<Key>, e: Envelope)
    ensures AllMet(keys, e, FieldDemands(ObjectField(e.spec, "tls"), TLS_FIELDS)) <==> TlsSound(keys, e)
  {
    var block := ObjectField(e.spec, "tls");
    FieldsMet(keys, e, block, TLS_FIELDS);
    FieldSatisfiedLaw(keys, e, block, "secretRef", Some({SECRET_REFERENCE}), SpecAdmits("secretRef"));
    assert TLS_FIELDS[0] == ("secretRef", Some({SECRET_REFERENCE}));
    assert forall b :: BlockAt(e.spec, "tls", b) ==> b == block;
    assert (exists b :: BlockAt(e.spec, "tls", b)) ==> BlockAt(e.spec, "tls", block);
  }

  ghost predicate SecretSound(keys: set<Key>, home: string, item: Json) {
    item.JString? && item.text != "" ==> IsLabel(item.text) && Key(home, "SecretReference", item.text) in keys
  }

  lemma {:induction false} SecretsLaw(keys: set<Key>, e: Envelope, from: Key, items: seq<Json>)
    ensures AllMet(keys, e, SecretDemands(from, items)) <==> forall i :: 0 <= i < |items| ==> SecretSound(keys, from.namespace, items[i])
  {
    if items != [] {
      SecretsLaw(keys, e, from, items[1..]);
      var head := if items[0].JString? && items[0].text != "" then
                    [Exact("secretRefs", IsDnsLabel(items[0].text), Key(from.namespace, SECRET_REFERENCE, items[0].text))] else [];
      AllMetJoin(keys, e, head, SecretDemands(from, items[1..]));
      if items[0].JString? {
        LabelLaw(items[0].text);
      }
      assert AllMet(keys, e, head) <==> (head != [] ==> Satisfied(keys, e, head[0]));
      assert forall i :: 0 <= i < |items| - 1 ==> items[1..][i] == items[i + 1];
      assert forall i :: 0 < i < |items| ==> items[i] == items[1..][i - 1];
    }
  }

  ghost predicate SecretListSound(keys: set<Key>, e: Envelope) {
    "secretRefs" in e.spec && e.spec["secretRefs"].JList? ==>
      forall i :: 0 <= i < |e.spec["secretRefs"].items| ==> SecretSound(keys, HomeNamespace(e), e.spec["secretRefs"].items[i])
  }

  lemma SecretListLaw(keys: set<Key>, e: Envelope)
    ensures AllMet(keys, e, SecretPart(e)) <==> SecretListSound(keys, e)
  {
    if "secretRefs" in e.spec && e.spec["secretRefs"].JList? {
      SecretsLaw(keys, e, KeyOf(e), e.spec["secretRefs"].items);
    }
  }

  ghost predicate ObserversSound(keys: set<Key>, e: Envelope) {
    forall i :: 0 <= i < |e.metadata.observers| ==>
      var o := e.metadata.observers[i];
      && IsLabel(o.name) && (o.namespace != "" ==> IsLabel(o.namespace))
      && Key(if o.namespace != "" then o.namespace else HomeNamespace(e), "Provider", o.name) in keys
  }

  lemma ObserversLaw(keys: set<Key>, e: Envelope)
    ensures AllMet(keys, e, ObserverDemands(e)) <==> ObserversSound(keys, e)
  {
    forall i | 0 <= i < |e.metadata.observers|
      ensures Satisfied(keys, e, ObserverDemands(e)[i]) <==>
              var o := e.metadata.observers[i];
              && IsLabel(o.name) && (o.namespace != "" ==> IsLabel(o.namespace))
              && Key(if o.namespace != "" then o.namespace else HomeNamespace(e), "Provider", o.name) in keys
    {
      LabelLaw(e.metadata.observers[i].name);
      LabelLaw(e.metadata.observers[i].namespace);
    }
  }

  /**
   * The references of a manifest can be resolved exactly when every set reference field is made of
   * labels and names one declared resource of an admitted kind, and every listed secret and observer
   * is a label and is declared. A target host need not name anything.
   */
  lemma ResolvableLaw(keys: set<Key>, e: Envelope, hostOf: string -> string, refs: References)
    requires refs == ManifestReferences(hostOf)
    ensures AllSatisfied(keys, e, refs) <==>
            SpecFieldsSound(keys, e) && ConfigurationSound(keys, e) && TlsSound(keys, e)
            && SecretListSound(keys, e) && ObserversSound(keys, e)
  {
    var a := FieldDemands(e.spec, REF_FIELDS);
    var b := FieldDemands(ObjectField(e.spec, "configuration"), CONFIG_REF_FIELDS);
    var c := FieldDemands(ObjectField(e.spec, "tls"), TLS_FIELDS);
    var d, o, h := SecretPart(e), ObserverDemands(e), TargetDemands(e, hostOf);
    assert refs(e) == a + b + c + d + o + h;
    assert AllSatisfied(keys, e, refs) <==> AllMet(keys, e, a + b + c + d + o + h);
    AllMetJoin(keys, e, a, b);
    AllMetJoin(keys, e, a + b, c);
    AllMetJoin(keys, e, a + b + c, d);
    AllMetJoin(keys, e, a + b + c + d, o);
    AllMetJoin(keys, e, a + b + c + d + o, h);
    SpecFieldsLaw(keys, e);
    ConfigurationLaw(keys, e);
    TlsLaw(keys, e);
    SecretListLaw(keys, e);
    ObserversLaw(keys, e);
  }
}
