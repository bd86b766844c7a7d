/** The dependency graph: cycle detection, topological levels and transitive closures. */
module DependencyGraph {
  import opened Resources
  import opened Reachability

  datatype Graph = Graph(nodes: map<Key, Envelope>, edges: Relation)

  /** Every edge joins two nodes. */
  ghost predicate Closed(g: Graph) {
    g.edges.Keys <= g.nodes.Keys && Targets(g.edges) <= g.nodes.Keys
  }

  /** What a successful build guarantees. */
  ghost predicate Accepted(g: Graph) {
    Keyed(g.nodes) && Closed(g) && Acyclic(g.edges)
  }

  lemma ReachesNodes(g: Graph, a: Key, b: Key)
    requires Closed(g) && Reaches(g.edges, a, b)
    ensures a in g.nodes && b in g.nodes
  {
    ReachTarget(g.edges, a, b);
  }

  // ---------------------------------------------------------------- cycle detection

  /** White keys are the ones without a colour. */
  datatype Color = Gray | Black

  ghost function ColoredAs(color: map<Key, Color>, c: Color): set<Key> {
    set k | k in color && color[k] == c
  }

  ghost predicate ClosedWalk(E: Relation, c: seq<Key>) {
    Walk(E, c) && |c| >= 2 && c[0] == c[|c| - 1]
  }

  /** The gray keys are the stack, the stack is a walk, and the black keys are finished and off every cycle. */
  ghost predicate SearchInvariant(E: Relation, color: map<Key, Color>, stack: seq<Key>) {
    && (forall k :: k in stack <==> k in color && color[k] == Gray)
    && NoRepeats(stack)
    && (stack == [] || Walk(E, stack))
    && (forall k :: k in ColoredAs(color, Black) ==> Direct(E, k) <= ColoredAs(color, Black))
    && (forall k :: k in ColoredAs(color, Black) ==> !Reaches(E, k, k))
  }

  /** The stack from the first occurrence of dep, closed by dep. */
  method CutStack(E: Relation, stack: seq<Key>, dep: Key) returns (cycle: seq<Key>)
    requires Walk(E, stack) && dep in stack && Step(E, stack[|stack| - 1], dep)
    ensures ClosedWalk(E, cycle) && cycle[0] == dep
  {
    var i := 0;
    while stack[i] != dep
      invariant 0 <= i < |stack| && dep in stack[i..]
      decreases |stack| - i
    {
      i := i + 1;
    }
    cycle := stack[i..] + [dep];
  }

  /** Colours everything reachable from the white key k black, or stops at a cycle. */
  method Search(g: Graph, k: Key, color0: map<Key, Color>, stack0: seq<Key>)
    returns (cycle: Option<seq<Key>>, color: map<Key, Color>, stack: seq<Key>)
    requires Closed(g) && k in g.nodes && k !in color0 && color0.Keys <= g.nodes.Keys
    requires SearchInvariant(g.edges, color0, stack0)
    requires stack0 == [] || Step(g.edges, stack0[|stack0| - 1], k)
    ensures cycle.Some? ==> ClosedWalk(g.edges, cycle.value)
    ensures cycle.None? ==>
              && SearchInvariant(g.edges, color, stack) && stack == stack0
              && color0.Keys <= color.Keys <= g.nodes.Keys
              && ColoredAs(color0, Black) + {k} <= ColoredAs(color, Black)
    decreases g.nodes.Keys - color0.Keys
  {
    color := color0[k := Gray];
    stack := stack0 + [k];
    assert ColoredAs(color, Black) == ColoredAs(color0, Black);
    assert Walk(g.edges, stack);
    var todo := Direct(g.edges, k);
    while todo != {}
      invariant todo <= Direct(g.edges, k)
      invariant SearchInvariant(g.edges, color, stack) && stack == stack0 + [k]
      invariant color0.Keys + {k} <= color.Keys <= g.nodes.Keys
      invariant ColoredAs(color0, Black) <= ColoredAs(color, Black)
      invariant Direct(g.edges, k) - todo <= ColoredAs(color, Black)
      decreases todo
    {
      var dep :| dep in todo;
      todo := todo - {dep};
      if dep in color && color[dep] == Gray {
        var c := CutStack(g.edges, stack, dep);
        return Some(c), color, stack;
      } else if dep !in color {
        assert dep in Targets(g.edges);
        cycle, color, stack := Search(g, dep, color, stack);
        if cycle.Some? {
          return;
        }
      }
    }
    assert stack[|stack| - 1] == k && k !in stack0;
    stack := stack[..|stack| - 1];
    OffEveryCycle(g.edges, ColoredAs(color, Black), k);
    assert color[k] == Gray by { assert k in stack0 + [k]; }
    ghost var before := color;
    color := color[k := Black];
    assert ColoredAs(color, Black) == ColoredAs(before, Black) + {k};
    cycle := None;
  }

  lemma OffEveryCycle(E: Relation, black: set<Key>, k: Key)
    requires forall x :: x in black ==> Direct(E, x) <= black
    requires Direct(E, k) <= black && k !in black
    ensures !Reaches(E, k, k)
  {
    if Reaches(E, k, k) {
      ClosedReaches(E, black, k, k);
    }
  }

  /** Sound and complete: no cycle is reported exactly when there is none, and a reported one is real. */
  method FindCycle(g: Graph) returns (cycle: Option<seq<Key>>)
    requires Closed(g)
    ensures cycle.None? <==> Acyclic(g.edges)
    ensures cycle.Some? ==> ClosedWalk(g.edges, cycle.value)
  {
    var color: map<Key, Color>, stack: seq<Key> := map[], [];
    var keys := SortedListing(g.nodes.Keys);
    var i := 0;
    while i < |keys|
      invariant 0 <= i <= |keys|
      invariant stack == [] && SearchInvariant(g.edges, color, stack) && color.Keys <= g.nodes.Keys
      invariant forall j :: 0 <= j < i ==> keys[j] in ColoredAs(color, Black)
    {
      if keys[i] !in color {
        stack := [];
        cycle, color, stack := Search(g, keys[i], color, stack);
        if cycle.Some? {
          assert WalkBetween(g.edges, cycle.value, cycle.value[0], cycle.value[0]);
          assert Reaches(g.edges, cycle.value[0], cycle.value[0]);
          return;
        }
      } else {
        assert keys[i] !in stack;
      }
      i := i + 1;
    }
    assert g.nodes.Keys <= ColoredAs(color, Black) by {
      forall k | k in g.nodes ensures k in ColoredAs(color, Black) {
        assert k in keys;
      }
    }
    forall k ensures !Reaches(g.edges, k, k) {
      if Reaches(g.edges, k, k) {
        ReachesNodes(g, k, k);
      }
    }
    cycle := None;
  }

  // ---------------------------------------------------------------- transitive closures

  /** Adds everything reachable from cur to out, not entering the keys already there. */
  method Collect(E: Relation, cur: Key, out0: set<Key>) returns (out: set<Key>)
    ensures out0 <= out && Direct(E, cur) <= out
    ensures forall x :: x in out - out0 ==> Reaches(E, cur, x) && Direct(E, x) <= out
    decreases Targets(E) - out0
  {
    out := out0;
    var todo := Direct(E, cur);
    while todo != {}
      invariant todo <= Direct(E, cur) && out0 <= out && Direct(E, cur) - todo <= out
      invariant forall x :: x in out - out0 ==> Reaches(E, cur, x) && Direct(E, x) <= out
      decreases todo
    {
      var d :| d in todo;
      todo := todo - {d};
      ReachStep(E, cur, d);
      if d !in out {
        assert d in Targets(E);
        ghost var before := out + {d};
        out := Collect(E, d, out + {d});
        forall x | x in out - before ensures Reaches(E, cur, x) {
          ReachTransitive(E, cur, d, x);
        }
      }
    }
  }

  method Dependencies(g: Graph, k: Key) returns (out: set<Key>)
    ensures forall x :: x in out <==> Reaches(g.edges, k, x)
  {
    out := Collect(g.edges, k, {});
    forall x | Reaches(g.edges, k, x) ensures x in out {
      ClosedReaches(g.edges, out, k, x);
    }
  }

  method Reverse(E: Relation) returns (R: Relation)
    ensures forall a, b :: Step(R, b, a) <==> Step(E, a, b)
  {
    R := map[];
    var froms := E.Keys;
    while froms != {}
      invariant froms <= E.Keys
      invariant forall a, b :: Step(R, b, a) <==> a !in froms && Step(E, a, b)
      decreases froms
    {
      var from :| from in froms;
      froms := froms - {from};
      var tos := E[from];
      while tos != {}
        invariant tos <= E[from]
        invariant forall a, b :: Step(R, b, a) <==> a !in froms && Step(E, a, b) && !(a == from && b in tos)
        decreases tos
      {
        var to :| to in tos;
        tos := tos - {to};
        ghost var before := R;
        R := R[to := Direct(R, to) + {from}];
        assert forall a, b :: Step(R, b, a) <==> Step(before, b, a) || (a == from && b == to);
      }
    }
  }

  method Dependents(g: Graph, k: Key) returns (out: set<Key>)
    ensures forall x :: x in out <==> Reaches(g.edges, x, k)
  {
    var reverse := Reverse(g.edges);
    out := Collect(reverse, k, {});
    forall x ensures x in out <==> Reaches(g.edges, x, k) {
      if x in out {
        MirrorReaches(reverse, g.edges, k, x);
      }
      if Reaches(g.edges, x, k) {
        MirrorReaches(g.edges, reverse, x, k);
        ClosedReaches(reverse, out, k, x);
      }
    }
  }

  // ---------------------------------------------------------------- topological levels

  /**
   * Memoised depth of k. `active` are the keys whose depth is still the provisional 0; all of them
   * reach k, so an acyclic graph never reads a provisional depth.
   */
  method Visit(g: Graph, k: Key, depth0: map<Key, nat>, ghost active: set<Key>)
    returns (d: nat, depth: map<Key, nat>)
    requires Closed(g) && Acyclic(g.edges) && k in g.nodes
    requires active <= depth0.Keys <= g.nodes.Keys
    requires forall x :: x in active ==> Reaches(g.edges, x, k)
    requires forall x :: x in depth0.Keys - active ==> DepthAt(g.edges, depth0 - active, x)
    ensures depth0.Keys + {k} <= depth.Keys <= g.nodes.Keys && depth[k] == d
    ensures forall x :: x in depth0 ==> depth[x] == depth0[x]
    ensures k !in active
    ensures forall x :: x in depth.Keys - active ==> DepthAt(g.edges, depth - active, x)
    decreases g.nodes.Keys - depth0.Keys
  {
    assert k !in active;
    depth := depth0;
    if k in depth {
      d := depth[k];
      return;
    }
    depth := depth[k := 0];
    d := 0;
    var todo := Direct(g.edges, k);
    ghost var active' := active + {k};
    assert depth - active' == depth0 - active;
    while todo != {}
      invariant todo <= Direct(g.edges, k)
      invariant depth0.Keys + {k} <= depth.Keys <= g.nodes.Keys
      invariant forall x :: x in depth0 ==> depth[x] == depth0[x]
      invariant forall x :: x in depth.Keys - active' ==> DepthAt(g.edges, depth - active', x)
      invariant forall x :: x in Direct(g.edges, k) - todo ==> x in (depth - active') && depth[x] < d
      invariant d == 0 || exists x :: x in Direct(g.edges, k) && x in (depth - active') && depth[x] + 1 == d
      decreases todo
    {
      var dep :| dep in todo;
      todo := todo - {dep};
      assert dep in Targets(g.edges);
      forall x | x in active' ensures Reaches(g.edges, x, dep) {
        ReachStep(g.edges, k, dep);
        if x != k {
          ReachTransitive(g.edges, x, k, dep);
        }
      }
      ghost var before := depth;
      var e;
      e, depth := Visit(g, dep, depth, active');
      assert forall x :: x in before - active' ==> x in depth - active' && depth[x] == before[x];
      if e + 1 > d {
        d := e + 1;
      }
    }
    ghost var finished := depth - active';
    depth := depth[k := d];
    FinishDepth(g.edges, finished, depth - active, k, d);
  }

  lemma DepthAtGrows(E: Relation, before: map<Key, nat>, after: map<Key, nat>, x: Key)
    requires before.Keys <= after.Keys && (forall y :: y in before ==> after[y] == before[y])
    requires DepthAt(E, before, x)
    ensures DepthAt(E, after, x)
  {
    if before[x] != 0 {
      var y :| y in Direct(E, x) && y in before && before[y] + 1 == before[x];
      assert after[y] + 1 == after[x];
    }
  }

  /** Giving k its final depth completes the table. */
  lemma FinishDepth(E: Relation, before: map<Key, nat>, after: map<Key, nat>, k: Key, d: nat)
    requires k !in before && after == before[k := d]
    requires forall x :: x in before ==> DepthAt(E, before, x)
    requires forall x :: x in Direct(E, k) ==> x in before && before[x] < d
    requires d == 0 || exists x :: x in Direct(E, k) && x in before && before[x] + 1 == d
    ensures forall x :: x in after ==> DepthAt(E, after, x)
  {
    forall x | x in after ensures DepthAt(E, after, x) {
      if x != k {
        DepthAtGrows(E, before, after, x);
      }
    }
  }

  /** k is listed in level i. */
  predicate At(levels: seq<seq<Key>>, i: int, k: Key) {
    0 <= i < |levels| && k in levels[i]
  }

  /** levels[d] lists, once each and in rendered order, the nodes whose longest dependency chain has d edges. */
  ghost predicate TopologicalLevelsOf(g: Graph, levels: seq<seq<Key>>) {
    && levels != []
    && (|levels| > 1 ==> levels[|levels| - 1] != [])
    && (forall d :: 0 <= d < |levels| ==>
          NoRepeats(levels[d]) && (Distinguishable(g.nodes.Keys) ==> SortedKeys(levels[d])))
    && (forall d, k :: At(levels, d, k) ==> k in g.nodes && LongestChain(g.edges, k, d))
    && (forall k :: k in g.nodes ==> exists d :: At(levels, d, k))
  }

  /** Groups a depth table into sorted levels; the table's last level is not empty. */
  method GroupByDepth(depth: map<Key, nat>, maxDepth: nat) returns (levels: seq<seq<Key>>)
    requires forall k :: k in depth ==> depth[k] <= maxDepth
    ensures |levels| == maxDepth + 1
    ensures forall d :: 0 <= d < |levels| ==>
              NoRepeats(levels[d]) && (Distinguishable(depth.Keys) ==> SortedKeys(levels[d]))
    ensures forall k :: k in depth ==> At(levels, depth[k], k)
    ensures forall d, k :: At(levels, d, k) ==> k in depth && depth[k] == d
  {
    var groups: seq<set<Key>> := seq(maxDepth + 1, _ => {});
    var rest := depth.Keys;
    while rest != {}
      invariant rest <= depth.Keys && |groups| == maxDepth + 1
      invariant forall d, k :: 0 <= d < |groups| ==> (k in groups[d] <==> k in depth && k !in rest && depth[k] == d)
      decreases rest
    {
      var k :| k in rest;
      rest := rest - {k};
      groups := groups[depth[k] := groups[depth[k]] + {k}];
    }
    levels := [];
    while |levels| <= maxDepth
      invariant |levels| <= maxDepth + 1
      invariant forall d :: 0 <= d < |levels| ==>
                  NoRepeats(levels[d]) && (Distinguishable(depth.Keys) ==> SortedKeys(levels[d]))
      invariant forall d, k :: 0 <= d < |levels| ==> (k in levels[d] <==> k in groups[d])
    {
      var level := SortedListing(groups[|levels|]);
      assert groups[|levels|] <= depth.Keys;
      levels := levels + [level];
    }
  }

  /** Depths of all nodes, and the largest of them. */
  method Depths(g: Graph) returns (depth: map<Key, nat>, maxDepth: nat)
    requires Closed(g) && Acyclic(g.edges)
    ensures depth.Keys == g.nodes.Keys
    ensures forall x :: x in depth ==> LongestChain(g.edges, x, depth[x]) && depth[x] <= maxDepth
    ensures maxDepth == 0 || exists x :: x in depth && depth[x] == maxDepth
  {
    depth, maxDepth := map[], 0;
    var rest := g.nodes.Keys;
    while rest != {}
      invariant rest <= g.nodes.Keys && g.nodes.Keys - rest <= depth.Keys <= g.nodes.Keys
      invariant forall x :: x in depth ==> DepthAt(g.edges, depth, x)
      invariant forall x :: x in g.nodes.Keys - rest ==> depth[x] <= maxDepth
      invariant maxDepth == 0 || exists x :: x in depth && depth[x] == maxDepth
      decreases rest
    {
      var k :| k in rest;
      rest := rest - {k};
      assert depth - {} == depth;
      var d;
      d, depth := Visit(g, k, depth, {});
      assert depth - {} == depth;
      if d > maxDepth {
        maxDepth := d;
      }
    }
    forall x | x in depth ensures LongestChain(g.edges, x, depth[x]) {
      DepthTableIsLongestChain(g.edges, depth, x);
    }
  }

  method TopologicalLevels(g: Graph) returns (levels: seq<seq<Key>>)
    requires Closed(g) && Acyclic(g.edges)
    ensures TopologicalLevelsOf(g, levels)
  {
    var depth, maxDepth := Depths(g);
    levels := GroupByDepth(depth, maxDepth);
    assert levels[maxDepth] != [] || maxDepth == 0 by {
      if maxDepth > 0 {
        ghost var x :| x in depth && depth[x] == maxDepth;
        assert At(levels, maxDepth, x);
      }
    }
    assert forall k :: k in g.nodes ==> At(levels, depth[k], k);
  }

  /** The levels are a function of the graph: no map iteration order shows in them. */
  lemma LevelsDetermined(g: Graph, a: seq<seq<Key>>, b: seq<seq<Key>>)
    requires Distinguishable(g.nodes.Keys)
    requires TopologicalLevelsOf(g, a) && TopologicalLevelsOf(g, b)
    ensures a == b
  {
    LevelsAtMost(g, a, b);
    LevelsAtMost(g, b, a);
    forall d | 0 <= d < |a| ensures a[d] == b[d] {
      forall k ensures k in a[d] <==> k in b[d] {
        SameLevel(g, a, b, d, k);
        SameLevel(g, b, a, d, k);
        assert At(a, d, k) <==> At(b, d, k);
      }
      SortedListingUnique(a[d], b[d]);
    }
  }

  lemma SameLevel(g: Graph, a: seq<seq<Key>>, b: seq<seq<Key>>, d: nat, k: Key)
    requires TopologicalLevelsOf(g, a) && TopologicalLevelsOf(g, b)
    ensures At(a, d, k) ==> At(b, d, k)
  {
    if At(a, d, k) {
      var e :| At(b, e, k);
      LongestChainUnique(g.edges, k, d, e);
    }
  }

  lemma LevelsAtMost(g: Graph, a: seq<seq<Key>>, b: seq<seq<Key>>)
    requires TopologicalLevelsOf(g, a) && TopologicalLevelsOf(g, b)
    ensures |a| <= |b|
  {
    if |a| > 1 {
      assert At(a, |a| - 1, a[|a| - 1][0]);
      SameLevel(g, a, b, |a| - 1, a[|a| - 1][0]);
    }
  }

  /** A node is in one level only, and everything it depends on is in an earlier one. */
  lemma LevelsRespectDependencies(g: Graph, levels: seq<seq<Key>>, i: nat, j: nat, a: Key, b: Key)
    requires TopologicalLevelsOf(g, levels)
    requires At(levels, i, a) && At(levels, j, b)
    ensures a == b ==> i == j
    ensures Reaches(g.edges, a, b) ==> j < i
  {
    if a == b {
      LongestChainUnique(g.edges, a, i, j);
    }
    if Reaches(g.edges, a, b) {
      DepthFalls(g.edges, a, b, i, j);
    }
  }
}
