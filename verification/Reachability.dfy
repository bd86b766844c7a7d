/** Walks, reachability and longest chains in a finite relation on resource keys. */
module Reachability {
  import opened Resources

  /** key -> the keys it depends on directly. */
  type Relation = map<Key, set<Key>>

  function Direct(E: Relation, a: Key): set<Key> {
    if a in E then E[a] else {}
  }

  predicate Step(E: Relation, a: Key, b: Key) {
    b in Direct(E, a)
  }

  ghost predicate Walk(E: Relation, p: seq<Key>) {
    p != [] && forall i :: 0 <= i < |p| - 1 ==> Step(E, p[i], p[i + 1])
  }

  ghost predicate WalkBetween(E: Relation, p: seq<Key>, a: Key, b: Key) {
    Walk(E, p) && |p| >= 2 && p[0] == a && p[|p| - 1] == b
  }

  /** b is reachable from a by one or more edges. */
  ghost predicate Reaches(E: Relation, a: Key, b: Key) {
    exists p :: WalkBetween(E, p, a, b)
  }

  ghost predicate Acyclic(E: Relation) {
    forall k :: !Reaches(E, k, k)
  }

  function Targets(E: Relation): set<Key> {
    set k, d | k in E && d in E[k] :: d
  }

  ghost function ReachSet(E: Relation, k: Key): set<Key> {
    set d | d in Targets(E) && Reaches(E, k, d)
  }

  /** The relation with every edge turned around. */
  ghost function Transpose(E: Relation): Relation {
    map b | b in Targets(E) :: set a | a in E && b in E[a]
  }

  // ---------------------------------------------------------------- reachability

  lemma ReachStep(E: Relation, a: Key, b: Key)
    requires Step(E, a, b)
    ensures Reaches(E, a, b)
  {
    assert WalkBetween(E, [a, b], a, b);
  }

  lemma ReachTransitive(E: Relation, a: Key, b: Key, c: Key)
    requires Reaches(E, a, b) && Reaches(E, b, c)
    ensures Reaches(E, a, c)
  {
    var p :| WalkBetween(E, p, a, b);
    var q :| WalkBetween(E, q, b, c);
    var r := p + q[1..];
    assert forall i :: 0 <= i < |r| ==> r[i] == if i < |p| then p[i] else q[i - |p| + 1];
    assert WalkBetween(E, r, a, c);
  }

  lemma ReachTarget(E: Relation, a: Key, b: Key)
    requires Reaches(E, a, b)
    ensures a in E && b in Targets(E)
  {
    var p :| WalkBetween(E, p, a, b);
    assert Step(E, p[0], p[1]);
    assert Step(E, p[|p| - 2], p[|p| - 1]);
  }

  lemma ReachSetExact(E: Relation, k: Key)
    ensures forall d :: d in ReachSet(E, k) <==> Reaches(E, k, d)
  {
    forall d | Reaches(E, k, d) ensures d in ReachSet(E, k) {
      ReachTarget(E, k, d);
    }
  }

  /** Going down an edge of an acyclic relation leaves strictly fewer reachable keys. */
  lemma ReachSetShrinks(E: Relation, a: Key, b: Key)
    requires Acyclic(E) && Reaches(E, a, b)
    ensures ReachSet(E, b) < ReachSet(E, a)
  {
    ReachSetExact(E, a);
    ReachSetExact(E, b);
    forall d | d in ReachSet(E, b) ensures d in ReachSet(E, a) {
      ReachTransitive(E, a, b, d);
    }
    assert b in ReachSet(E, a) && b !in ReachSet(E, b);
  }

  /** A set that contains the successors of its members contains all they reach. */
  lemma {:induction false} ClosedUnderReach(E: Relation, S: set<Key>, p: seq<Key>)
    requires forall x :: x in S ==> Direct(E, x) <= S
    requires Walk(E, p) && p[0] in S
    ensures p[|p| - 1] in S
  {
    if |p| > 1 {
      assert Step(E, p[0], p[1]);
      ClosedUnderReach(E, S, p[1..]);
    }
  }

  lemma ClosedReaches(E: Relation, S: set<Key>, a: Key, b: Key)
    requires forall x :: x in S ==> Direct(E, x) <= S
    requires Direct(E, a) <= S && Reaches(E, a, b)
    ensures b in S
  {
    var p :| WalkBetween(E, p, a, b);
    assert Step(E, p[0], p[1]);
    ClosedUnderReach(E, S, p[1..]);
  }

  // ---------------------------------------------------------------- transposition

  lemma ReverseWalk(E: Relation, F: Relation, p: seq<Key>, q: seq<Key>)
    requires forall a, b :: Step(E, a, b) ==> Step(F, b, a)
    requires Walk(E, p) && |q| == |p|
    requires forall i :: 0 <= i < |p| ==> q[i] == p[|p| - 1 - i]
    ensures Walk(F, q)
  {
    forall i | 0 <= i < |q| - 1 ensures Step(F, q[i], q[i + 1]) {
      var j := |p| - 2 - i;
      assert Step(E, p[j], p[j + 1]);
    }
  }

  /** Relations whose edges are mirror images reach in mirror image. */
  lemma MirrorReaches(E: Relation, F: Relation, a: Key, b: Key)
    requires forall x, y :: Step(E, x, y) ==> Step(F, y, x)
    requires Reaches(E, a, b)
    ensures Reaches(F, b, a)
  {
    var p :| WalkBetween(E, p, a, b);
    var q := seq(|p|, i requires 0 <= i < |p| => p[|p| - 1 - i]);
    ReverseWalk(E, F, p, q);
    assert WalkBetween(F, q, b, a);
  }

  lemma TransposeReaches(E: Relation, a: Key, b: Key)
    ensures Reaches(Transpose(E), a, b) <==> Reaches(E, b, a)
  {
    forall x, y ensures Step(Transpose(E), x, y) <==> Step(E, y, x) {
    }
    if Reaches(Transpose(E), a, b) {
      MirrorReaches(Transpose(E), E, a, b);
    }
    if Reaches(E, b, a) {
      MirrorReaches(E, Transpose(E), b, a);
    }
  }

  lemma TransposeAcyclic(E: Relation)
    requires Acyclic(E)
    ensures Acyclic(Transpose(E))
  {
    forall k ensures !Reaches(Transpose(E), k, k) {
      TransposeReaches(E, k, k);
    }
  }

  // ---------------------------------------------------------------- minimal members

  /** If k reaches a member of `bad`, it reaches one from which no member of `bad` is reachable. */
  lemma {:induction false} MinimalReached(E: Relation, bad: iset<Key>, k: Key) returns (m: Key)
    requires Acyclic(E)
    requires exists d :: Reaches(E, k, d) && d in bad
    ensures Reaches(E, k, m) && m in bad
    ensures forall d :: Reaches(E, m, d) ==> d !in bad
    decreases ReachSet(E, k)
  {
    m :| Reaches(E, k, m) && m in bad;
    if exists d :: Reaches(E, m, d) && d in bad {
      ReachSetShrinks(E, k, m);
      var n := MinimalReached(E, bad, m);
      ReachTransitive(E, k, m, n);
      m := n;
    }
  }

  // ---------------------------------------------------------------- longest chains

  ghost predicate ChainFrom(E: Relation, p: seq<Key>, k: Key) {
    Walk(E, p) && p[0] == k
  }

  /** The longest chain of edges that starts at k has exactly d edges. */
  ghost predicate LongestChain(E: Relation, k: Key, d: nat) {
    && (exists p :: ChainFrom(E, p, k) && |p| == d + 1)
    && (forall p :: ChainFrom(E, p, k) ==> |p| <= d + 1)
  }

  lemma LongestChainUnique(E: Relation, k: Key, c: nat, d: nat)
    requires LongestChain(E, k, c) && LongestChain(E, k, d)
    ensures c == d
  {
  }

  /** Depth strictly falls along reachability, so keys of one depth are unrelated. */
  lemma DepthFalls(E: Relation, a: Key, b: Key, c: nat, d: nat)
    requires LongestChain(E, a, c) && LongestChain(E, b, d) && Reaches(E, a, b)
    ensures d < c
  {
    var p :| WalkBetween(E, p, a, b);
    var q :| ChainFrom(E, q, b) && |q| == d + 1;
    var r := p + q[1..];
    assert forall i :: 0 <= i < |r| ==> r[i] == if i < |p| then p[i] else q[i - |p| + 1];
    assert ChainFrom(E, r, a);
  }

  /** The local recurrence a depth-first pass establishes at k: one more than its deepest successor. */
  ghost predicate DepthAt(E: Relation, depth: map<Key, nat>, k: Key) {
    && k in depth
    && (forall d :: d in Direct(E, k) ==> d in depth && depth[d] < depth[k])
    && (depth[k] == 0 || exists d :: d in Direct(E, k) && d in depth && depth[d] + 1 == depth[k])
  }

  lemma {:induction false} ChainsBounded(E: Relation, depth: map<Key, nat>, p: seq<Key>)
    requires forall k :: k in depth ==> DepthAt(E, depth, k)
    requires Walk(E, p) && p[0] in depth
    ensures |p| <= depth[p[0]] + 1
  {
    if |p| > 1 {
      assert Step(E, p[0], p[1]);
      ChainsBounded(E, depth, p[1..]);
    }
  }

  lemma {:induction false} ChainExists(E: Relation, depth: map<Key, nat>, k: Key) returns (p: seq<Key>)
    requires forall k :: k in depth ==> DepthAt(E, depth, k)
    requires k in depth
    ensures ChainFrom(E, p, k) && |p| == depth[k] + 1
    decreases depth[k]
  {
    p := [k];
    if depth[k] > 0 {
      var d :| d in Direct(E, k) && d in depth && depth[d] + 1 == depth[k];
      var q := ChainExists(E, depth, d);
      p := [k] + q;
    }
  }

  /** A table that satisfies the recurrence everywhere holds longest-chain lengths. */
  lemma DepthTableIsLongestChain(E: Relation, depth: map<Key, nat>, k: Key)
    requires forall k :: k in depth ==> DepthAt(E, depth, k)
    requires k in depth
    ensures LongestChain(E, k, depth[k])
  {
    var p := ChainExists(E, depth, k);
    forall q | ChainFrom(E, q, k) ensures |q| <= depth[k] + 1 {
      ChainsBounded(E, depth, q);
    }
  }
}
