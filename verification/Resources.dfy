/** The common resource envelope: keys, references, lifecycles and recorded state. */
module Resources {

  datatype Option<+T> = None | Some(value: T)

  datatype Key = Key(namespace: string, kind: string, name: string)

  /** A decoded manifest value; spec blocks are JSON objects. */
  datatype Json =
    | JNull
    | JBool(flag: bool)
    | JNumber(number: real)
    | JString(text: string)
    | JList(items: seq<Json>)
    | JObject(fields: map<string, Json>)

  type Spec = map<string, Json>

  datatype NameRef = NameRef(name: string, namespace: string)

  datatype Metadata = Metadata(
    name: string,
    namespace: string,
    labels: map<string, string>,
    annotations: map<string, string>,
    observers: seq<NameRef>,
    protect: bool,
    domain: string)

  datatype Envelope = Envelope(apiVersion: string, kind: string, metadata: Metadata, spec: Spec)

  datatype Lifecycle = Managed | External | Imported

  /** One recorded resource. Live status and provider facts are opaque to planning and are left out. */
  datatype ResourceState = ResourceState(
    specHash: string,
    secretHash: string,
    imported: bool,
    lastApplied: Option<Envelope>,
    dependencies: set<Key>,
    dependencyHashes: map<Key, string>)

  type Recorded = map<Key, ResourceState>

  const SECRET_REFERENCE := "SecretReference"
  const PROVIDER := "Provider"
  const CONNECTION := "Connection"
  const DEFAULT_NAMESPACE := "default"
  const DEFAULT_DOMAIN := "default"

  function NormalizeNamespace(namespace: string): string {
    if namespace == "" then DEFAULT_NAMESPACE else namespace
  }

  function NormalizeDomain(domain: string): string {
    if domain == "" then DEFAULT_DOMAIN else domain
  }

  function KeyOf(e: Envelope): Key {
    Key(NormalizeNamespace(e.metadata.namespace), e.kind, e.metadata.name)
  }

  function NamespaceOr(ref: NameRef, namespace: string): string {
    if ref.namespace != "" then ref.namespace else NormalizeNamespace(namespace)
  }

  function RefKey(ref: NameRef, namespace: string, kind: string): Key {
    Key(NamespaceOr(ref, namespace), kind, ref.name)
  }

  function StringField(fields: Spec, field: string): string {
    if field in fields && fields[field].JString? then fields[field].text else ""
  }

  function ObjectField(fields: Spec, field: string): Spec {
    if field in fields && fields[field].JObject? then fields[field].fields else map[]
  }

  /** The zero reference stands for a field that is unset or is not an object. */
  function RefFromSpec(spec: Spec, field: string): NameRef {
    var ref := ObjectField(spec, field);
    NameRef(StringField(ref, "name"), StringField(ref, "namespace"))
  }

  predicate IsExternal(e: Envelope) {
    "external" in e.spec && e.spec["external"] == JBool(true)
  }

  function LifecycleOf(e: Envelope, imported: bool): Lifecycle {
    if IsExternal(e) then External else if imported then Imported else Managed
  }

  predicate WasImported(st: Recorded, k: Key) {
    k in st && st[k].imported
  }

  function Lookup<T>(m: map<Key, T>, k: Key): Option<T> {
    if k in m then Some(m[k]) else None
  }

  /** Every envelope of a manifest set is filed under its own key. */
  predicate Keyed(resources: map<Key, Envelope>) {
    forall k :: k in resources ==> KeyOf(resources[k]) == k
  }

  // ---------------------------------------------------------------- rendered keys

  function KeyString(k: Key): string {
    NormalizeNamespace(k.namespace) + "/" + k.kind + "/" + k.name
  }

  predicate FreeOf(s: string, c: char) {
    c !in s
  }

  /** What manifest validation guarantees of a key: a normalized namespace and no separator characters. */
  predicate WellFormedKey(k: Key) {
    && k.namespace != ""
    && FreeOf(k.namespace, '/') && FreeOf(k.kind, '/')
    && FreeOf(k.namespace, '|') && FreeOf(k.kind, '|') && FreeOf(k.name, '|')
  }

  /** Two strings split at the first separator agree on both sides. */
  lemma SplitUnique(a: string, b: string, x: string, y: string, c: char)
    requires FreeOf(a, c) && FreeOf(b, c)
    requires a + [c] + x == b + [c] + y
    ensures a == b && x == y
  {
    var s := a + [c] + x;
    var t := b + [c] + y;
    assert s[|a|] == c && t[|b|] == c;
    assert |a| == |b|;
    assert a == s[..|a|] && b == t[..|b|];
    assert x == s[|a| + 1..] && y == t[|b| + 1..];
  }

  lemma KeyStringInjective(a: Key, b: Key)
    requires WellFormedKey(a) && WellFormedKey(b)
    requires KeyString(a) == KeyString(b)
    ensures a == b
  {
    assert KeyString(a) == a.namespace + ['/'] + (a.kind + ['/'] + a.name);
    assert KeyString(b) == b.namespace + ['/'] + (b.kind + ['/'] + b.name);
    SplitUnique(a.namespace, b.namespace, a.kind + ['/'] + a.name, b.kind + ['/'] + b.name, '/');
    SplitUnique(a.kind, b.kind, a.name, b.name, '/');
  }

  // ---------------------------------------------------------------- byte order

  /** Lexicographic order on strings, the order Go's `<` gives. */
  predicate StringLess(a: string, b: string) {
    if b == "" then false
    else if a == "" then true
    else if a[0] != b[0] then a[0] < b[0]
    else StringLess(a[1..], b[1..])
  }

  lemma {:induction false} StringLessTotal(a: string, b: string)
    ensures StringLess(a, b) || a == b || StringLess(b, a)
    ensures !(StringLess(a, b) && StringLess(b, a))
  {
    if a != "" && b != "" && a[0] == b[0] {
      StringLessTotal(a[1..], b[1..]);
      if a[1..] == b[1..] {
        assert a == [a[0]] + a[1..] && b == [b[0]] + b[1..];
      }
    }
  }

  lemma {:induction false} StringLessTransitive(a: string, b: string, c: string)
    requires StringLess(a, b) && StringLess(b, c)
    ensures StringLess(a, c)
  {
    if a != "" && a[0] == b[0] == c[0] {
      StringLessTransitive(a[1..], b[1..], c[1..]);
    }
  }

  predicate KeyLess(a: Key, b: Key) {
    StringLess(KeyString(a), KeyString(b))
  }

  ghost predicate SortedKeys(s: seq<Key>) {
    forall i, j :: 0 <= i < j < |s| ==> KeyLess(s[i], s[j])
  }

  /** Keys whose renderings are pairwise different, so that sorting by rendering is deterministic. */
  ghost predicate Distinguishable(keys: set<Key>) {
    forall a, b :: a in keys && b in keys && KeyString(a) == KeyString(b) ==> a == b
  }

  /** A strictly sorted listing is determined by the keys it lists. */
  lemma {:induction false} SortedListingUnique(s: seq<Key>, t: seq<Key>)
    requires SortedKeys(s) && SortedKeys(t)
    requires forall k :: k in s <==> k in t
    ensures s == t
  {
    assert t == [] || t[0] in t;
    if s != [] {
      SameHead(s, t);
      forall k ensures k in s[1..] <==> k in t[1..] {
        TailMembers(s, k);
        TailMembers(t, k);
      }
      SortedListingUnique(s[1..], t[1..]);
      assert s == [s[0]] + s[1..] && t == [t[0]] + t[1..];
    }
  }

  lemma SameHead(s: seq<Key>, t: seq<Key>)
    requires SortedKeys(s) && SortedKeys(t) && s != []
    requires forall k :: k in s <==> k in t
    ensures t != [] && s[0] == t[0]
  {
    assert s[0] in t;
    var i :| 0 <= i < |t| && t[i] == s[0];
    assert t[0] in s;
    var j :| 0 <= j < |s| && s[j] == t[0];
    StringLessTotal(KeyString(s[0]), KeyString(t[0]));
  }

  lemma TailMembers(s: seq<Key>, k: Key)
    requires s != [] && SortedKeys(s)
    ensures k in s[1..] <==> k in s && k != s[0]
  {
    StringLessTotal(KeyString(k), KeyString(k));
    if k in s && k != s[0] {
      var i :| 0 <= i < |s| && s[i] == k;
      assert s[1..][i - 1] == k;
    }
    if k in s[1..] {
      var i :| 0 <= i < |s[1..]| && s[1..][i] == k;
      assert s[i + 1] == k;
    }
  }

  /** Inserts a key at its place in a strictly sorted listing. */
  function Insert(s: seq<Key>, k: Key): (r: seq<Key>)
    ensures forall x :: x in r <==> x in s || x == k
    ensures |r| == |s| + 1
  {
    if s == [] then [k]
    else if KeyLess(k, s[0]) then [k] + s
    else
      var rest := Insert(s[1..], k);
      assert forall x :: x in s <==> x == s[0] || x in s[1..];
      [s[0]] + rest
  }

  lemma {:induction false} InsertSorted(s: seq<Key>, k: Key)
    requires SortedKeys(s)
    requires forall x :: x in s ==> KeyString(x) != KeyString(k)
    ensures SortedKeys(Insert(s, k))
  {
    if s != [] {
      StringLessTotal(KeyString(k), KeyString(s[0]));
      if KeyLess(k, s[0]) {
        forall i | 0 <= i < |s| ensures KeyLess(k, s[i]) {
          if i > 0 {
            StringLessTransitive(KeyString(k), KeyString(s[0]), KeyString(s[i]));
          }
        }
      } else {
        assert s[0] in s;
        assert forall x :: x in s[1..] ==> x in s;
        InsertSorted(s[1..], k);
        var rest := Insert(s[1..], k);
        forall i | 0 <= i < |rest| ensures KeyLess(s[0], rest[i]) {
          assert rest[i] in rest;
          if rest[i] != k {
            assert rest[i] in s[1..];
          }
        }
      }
    }
  }

  ghost predicate NoRepeats(s: seq<Key>) {
    forall i, j :: 0 <= i < j < |s| ==> s[i] != s[j]
  }

  lemma {:induction false} InsertKeepsDistinct(s: seq<Key>, k: Key)
    requires NoRepeats(s) && k !in s
    ensures NoRepeats(Insert(s, k))
  {
    if s != [] && !KeyLess(k, s[0]) {
      InsertKeepsDistinct(s[1..], k);
      var rest := Insert(s[1..], k);
      forall i | 0 <= i < |rest| ensures rest[i] != s[0] {
        assert rest[i] in rest;
      }
    }
  }

  /** Collects a key set in any order and sorts it by rendered key. */
  method SortedListing(keys: set<Key>) returns (s: seq<Key>)
    ensures forall k :: k in s <==> k in keys
    ensures NoRepeats(s)
    ensures Distinguishable(keys) ==> SortedKeys(s)
  {
    s := [];
    var rest := keys;
    while rest != {}
      invariant rest <= keys
      invariant forall k :: k in s <==> k in keys - rest
      invariant NoRepeats(s)
      invariant Distinguishable(keys) ==> SortedKeys(s)
      decreases rest
    {
      var k :| k in rest;
      InsertKeepsDistinct(s, k);
      assert Distinguishable(keys) ==> SortedKeys(Insert(s, k)) by {
        if Distinguishable(keys) {
          InsertSorted(s, k);
        }
      }
      s := Insert(s, k);
      rest := rest - {k};
    }
  }
}
