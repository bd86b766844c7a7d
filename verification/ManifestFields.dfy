/** Reading manifest fields directly: what a manifest says, stated without the helpers that act on it. */
module ManifestFields {
  import opened Resources

  /** spec.external is true. */
  ghost predicate MarkedExternal(e: Envelope) {
    "external" in e.spec && e.spec["external"] == JBool(true)
  }

  /** The manifest's own namespace, "default" when it names none. */
  ghost function HomeNamespace(e: Envelope): string {
    if e.metadata.namespace == "" then "default" else e.metadata.namespace
  }

  ghost function OwnKey(e: Envelope): Key {
    Key(HomeNamespace(e), e.kind, e.metadata.name)
  }

  /** The manifest's domain, "default" when it names none. */
  ghost function DomainOf(e: Envelope): string {
    if e.metadata.domain == "" then "default" else e.metadata.domain
  }

  ghost predicate TextAt(fields: Spec, field: string, text: string) {
    field in fields && fields[field] == JString(text)
  }

  ghost predicate BlockAt(fields: Spec, field: string, block: Spec) {
    field in fields && fields[field] == JObject(block)
  }

  /** A reference block names t: by its name, in the namespace it gives or else in home. */
  ghost predicate BlockNames(block: Spec, home: string, t: Key) {
    && t.name != "" && TextAt(block, "name", t.name)
    && ((t.namespace != "" && TextAt(block, "namespace", t.namespace))
        || (t.namespace == home && forall text :: TextAt(block, "namespace", text) ==> text == ""))
  }

  /** The reference field of these fields names t. */
  ghost predicate FieldNames(fields: Spec, field: string, home: string, t: Key) {
    exists block :: BlockAt(fields, field, block) && BlockNames(block, home, t)
  }

  /** e names t by spec.<field>. */
  ghost predicate Names(e: Envelope, field: string, t: Key) {
    FieldNames(e.spec, field, HomeNamespace(e), t)
  }

  /** Nothing in the platform realizes e: a secret reference, or an external resource that names no Provider. */
  ghost predicate Unrealized(e: Envelope) {
    e.kind == "SecretReference" || (MarkedExternal(e) && forall t :: !Names(e, "providerRef", t))
  }

  /** What the helpers read off a reference field, in these terms. */
  lemma ReferenceRead(fields: Spec, field: string, namespace: string, t: Key)
    ensures var ref := RefFromSpec(fields, field);
            FieldNames(fields, field, if namespace == "" then "default" else namespace, t)
            <==> ref.name != "" && t.name == ref.name && t.namespace == NamespaceOr(ref, namespace)
  {
    var ref := RefFromSpec(fields, field);
    var home := if namespace == "" then "default" else namespace;
    if field in fields && fields[field].JObject? {
      var block := fields[field].fields;
      assert BlockAt(fields, field, block);
      assert forall text :: TextAt(block, "namespace", text) ==> StringField(block, "namespace") == text;
      assert forall text :: TextAt(block, "name", text) ==> StringField(block, "name") == text;
      if StringField(block, "namespace") != "" {
        assert TextAt(block, "namespace", StringField(block, "namespace"));
      }
      if StringField(block, "name") != "" {
        assert TextAt(block, "name", StringField(block, "name"));
      }
    }
  }

  /** A reference field is set exactly when it names something. */
  lemma ReferenceSet(e: Envelope, field: string)
    ensures (exists t :: Names(e, field, t)) <==> RefFromSpec(e.spec, field).name != ""
  {
    var ref := RefFromSpec(e.spec, field);
    forall t ensures Names(e, field, t) ==> ref.name != "" {
      ReferenceRead(e.spec, field, e.metadata.namespace, t);
    }
    if ref.name != "" {
      var t := Key(NamespaceOr(ref, e.metadata.namespace), "", ref.name);
      ReferenceRead(e.spec, field, e.metadata.namespace, t);
      assert Names(e, field, t);
    }
  }
}
