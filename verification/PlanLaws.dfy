/** What a computed plan says of every key, in terms of the manifests, the records and the plan itself. */
module PlanLaws {
  import opened Resources
  import opened Reachability
  import opened DependencyGraph
  import opened Planner
  import opened ManifestFields

  ghost predicate HasFingerprint(inp: Inputs, k: Key) {
    k in inp.fingerprints && inp.fingerprints[k] != ""
  }

  /** k is recorded with the hash of its manifest and, for a secret with a fingerprint, under that fingerprint. */
  ghost predicate UpToDate(inp: Inputs, k: Key)
    requires k in inp.g.nodes
  {
    && k in inp.st && inp.specHash(inp.g.nodes[k]) == Some(inp.st[k].specHash)
    && (inp.g.nodes[k].kind == "SecretReference" && HasFingerprint(inp, k) ==> inp.st[k].secretHash == inp.fingerprints[k])
  }

  /** The secret d has the hash h: its fingerprint, or else the one recorded for it. */
  ghost predicate SecretHashIs(inp: Inputs, d: Key, h: string) {
    && d in inp.g.nodes && inp.g.nodes[d].kind == "SecretReference" && h != ""
    && if HasFingerprint(inp, d) then h == inp.fingerprints[d] else d in inp.st && h == inp.st[d].secretHash
  }

  /** k's record does not hold the hash that the secret d has. */
  ghost predicate SecretAhead(inp: Inputs, k: Key, d: Key)
    requires k in inp.st
  {
    exists h :: SecretHashIs(inp, d, h) && !(d in inp.st[k].dependencyHashes && inp.st[k].dependencyHashes[d] == h)
  }

  /** The plan acts on k. */
  ghost predicate ActsOn(p: Plan, k: Key) {
    exists i :: 0 <= i < |p.entries| && p.entries[i].key == k && p.entries[i].action != Noop
  }

  /** Something k refers to is acted on, or is a secret that has moved on. */
  ghost predicate MovedBelow(inp: Inputs, p: Plan, k: Key)
    requires k in inp.st
  {
    exists d :: d in Direct(inp.g.edges, k) && (ActsOn(p, d) || SecretAhead(inp, k, d))
  }

  ghost predicate Hashable(inp: Inputs) {
    forall k :: k in inp.g.nodes ==> inp.specHash(inp.g.nodes[k]).Some?
  }

  lemma UpToDateIsNoop(inp: Inputs, k: Key)
    requires k in inp.g.nodes && Hashable(inp)
    ensures DirectAction(inp, k) == Noop <==> UpToDate(inp, k)
    ensures DirectAction(inp, k) == Configure <==> MarkedExternal(inp.g.nodes[k]) && !UpToDate(inp, k)
    ensures DirectAction(inp, k) == Create <==> !MarkedExternal(inp.g.nodes[k]) && k !in inp.st
  {
  }

  lemma AheadIsChanged(inp: Inputs, k: Key, d: Key)
    requires k in inp.st
    ensures DependencySecretChanged(inp, k, d) <==> SecretAhead(inp, k, d)
  {
    var h := CurrentSecretHash(inp, d);
    if DependencySecretChanged(inp, k, d) {
      assert SecretHashIs(inp, d, h);
    }
    if SecretAhead(inp, k, d) {
      var x :| SecretHashIs(inp, d, x) && !(d in inp.st[k].dependencyHashes && inp.st[k].dependencyHashes[d] == x);
      assert x == h;
    }
  }

  /** The plan acts on a declared key exactly when it is pending. */
  lemma ActsOnPending(inp: Inputs, p: Plan, k: Key)
    requires PlanOf(inp, p) && k in inp.g.nodes
    ensures ActsOn(p, k) <==> Pending(inp, k)
  {
    NoopUnlessPending(inp, k);
    FlattenMembers(p.levels, k);
    assert k in EntryKeys(p.entries);
    var i :| 0 <= i < |p.entries| && EntryKeys(p.entries)[i] == k;
    assert p.entries[i].key == k;
  }

  lemma MovedBelowIsCascade(inp: Inputs, p: Plan, k: Key)
    requires PlanOf(inp, p) && Closed(inp.g) && k in inp.st
    ensures MovedBelow(inp, p, k) <==>
            exists d :: d in Direct(inp.g.edges, k) && (Pending(inp, d) || DependencySecretChanged(inp, k, d))
  {
    forall d | d in Direct(inp.g.edges, k)
      ensures ActsOn(p, d) || SecretAhead(inp, k, d) <==> Pending(inp, d) || DependencySecretChanged(inp, k, d)
    {
      assert d in Targets(inp.g.edges);
      ActsOnPending(inp, p, d);
      AheadIsChanged(inp, k, d);
    }
  }

  /**
   * The entry of a declared resource: an external one is configured exactly when its record is not up
   * to date; another is created exactly when it is unrecorded, and updated exactly when its record is
   * not up to date or, unless it was imported, something it refers to is acted on or has moved on.
   */
  lemma DeclaredEntryLaw(inp: Inputs, p: Plan, i: nat)
    requires PlanOf(inp, p) && Accepted(inp.g) && Hashable(inp) && i < |p.entries| && p.entries[i].key in inp.g.nodes
    ensures var k, action := p.entries[i].key, p.entries[i].action;
            && (action == Configure <==> MarkedExternal(inp.g.nodes[k]) && !UpToDate(inp, k))
            && (action == Create <==> !MarkedExternal(inp.g.nodes[k]) && k !in inp.st)
            && (action == Update <==> !MarkedExternal(inp.g.nodes[k]) && k in inp.st
                                      && (!UpToDate(inp, k) || (!inp.st[k].imported && MovedBelow(inp, p, k))))
            && action in {Configure, Create, Update, Noop}
    ensures Some(p.entries[i].specHash) == inp.specHash(inp.g.nodes[p.entries[i].key])
    ensures p.entries[i].secretHash ==
            if inp.g.nodes[p.entries[i].key].kind == "SecretReference" && p.entries[i].key in inp.fingerprints
            then inp.fingerprints[p.entries[i].key] else ""
  {
    var k := p.entries[i].key;
    UpToDateIsNoop(inp, k);
    PendingUnfold(inp, k);
    if k in inp.st {
      MovedBelowIsCascade(inp, p, k);
    }
  }

  /** The entry of a record that no manifest declares. */
  lemma UndeclaredEntryLaw(inp: Inputs, p: Plan, i: nat)
    requires PlanOf(inp, p) && i < |p.entries| && p.entries[i].key !in inp.g.nodes
    ensures p.entries[i].key in inp.st
    ensures var last, action := inp.st[p.entries[i].key].lastApplied, p.entries[i].action;
            && (action == OrphanUnknown <==> last.None?)
            && (action == Refused <==> last.Some? && last.value.metadata.protect)
            && (action == Delete <==> last.Some? && !last.value.metadata.protect)
  {
  }
}
