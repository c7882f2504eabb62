/** Finite directed graphs given by successor lists: paths, cycles and orders. */
module Digraph {
  import opened Ordering

  type Graph = map<string, seq<string>>

  predicate Edge(g: Graph, a: string, b: string) {
    a in g && b in g[a]
  }

  /** Every successor is itself a node. */
  ghost predicate Closed(g: Graph) {
    forall a, b :: Edge(g, a, b) ==> b in g
  }

  ghost predicate Link(g: Graph, p: seq<string>, i: int) {
    0 <= i < |p| - 1 && Edge(g, p[i], p[i + 1])
  }

  ghost predicate IsPath(g: Graph, p: seq<string>) {
    p != [] && forall i :: 0 <= i < |p| - 1 ==> Link(g, p, i)
  }

  ghost predicate PathFromTo(g: Graph, p: seq<string>, a: string, b: string) {
    IsPath(g, p) && p[0] == a && p[|p| - 1] == b
  }

  ghost predicate Reaches(g: Graph, a: string, b: string) {
    exists p :: PathFromTo(g, p, a, b)
  }

  ghost predicate Cycle(g: Graph, p: seq<string>) {
    IsPath(g, p) && |p| >= 2 && p[0] == p[|p| - 1]
  }

  ghost predicate Acyclic(g: Graph) {
    forall p :: !Cycle(g, p)
  }

  /** `order` lists distinct nodes, each after all of its successors. */
  ghost predicate DependenciesFirst(g: Graph, order: seq<string>) {
    && NoDup(order)
    && forall k, b :: 0 <= k < |order| && Edge(g, order[k], b) ==> b in order[..k]
  }

  lemma ExtendPath(g: Graph, p: seq<string>, b: string)
    requires IsPath(g, p) && Edge(g, p[|p| - 1], b)
    ensures IsPath(g, p + [b])
  {
    var q := p + [b];
    forall i | 0 <= i < |q| - 1 ensures Link(g, q, i) {
      if i < |p| - 1 { assert Link(g, p, i); }
    }
  }

  lemma SubPath(g: Graph, p: seq<string>, i: int, j: int)
    requires IsPath(g, p) && 0 <= i < j <= |p|
    ensures IsPath(g, p[i..j])
  {
    forall k | 0 <= k < j - i - 1 ensures Link(g, p[i..j], k) {
      assert Link(g, p, i + k);
    }
  }

  lemma PrependPath(g: Graph, u: string, p: seq<string>, goal: string)
    requires p != [] && PathFromTo(g, p, p[0], goal) && Edge(g, u, p[0])
    ensures PathFromTo(g, [u] + p, u, goal)
  {
    var q := [u] + p;
    forall i | 0 <= i < |q| - 1 ensures Link(g, q, i) {
      if i > 0 { assert Link(g, p, i - 1); }
    }
  }

  lemma ReachesSelf(g: Graph, a: string)
    ensures Reaches(g, a, a)
  {
    assert PathFromTo(g, [a], a, a);
  }

  lemma ReachesStep(g: Graph, a: string, b: string, c: string)
    requires Reaches(g, a, b) && Edge(g, b, c)
    ensures Reaches(g, a, c)
  {
    var p :| PathFromTo(g, p, a, b);
    ExtendPath(g, p, c);
    assert PathFromTo(g, p + [c], a, c);
  }

  lemma StepReaches(g: Graph, a: string, b: string, c: string)
    requires Edge(g, a, b) && Reaches(g, b, c)
    ensures Reaches(g, a, c)
  {
    var p :| PathFromTo(g, p, b, c);
    PrependPath(g, a, p, c);
  }

  lemma AcyclicNeverReturns(g: Graph, a: string, b: string)
    requires Acyclic(g) && Edge(g, a, b)
    ensures !Reaches(g, b, a)
  {
    if p :| PathFromTo(g, p, b, a) {
      PrependPath(g, a, p, a);
      assert Cycle(g, [a] + p);
    }
  }

  /** A set closed under successors holds everything reachable from its members. */
  lemma {:induction false} ClosedSetHoldsPath(g: Graph, s: set<string>, p: seq<string>)
    requires IsPath(g, p) && p[0] in s
    requires forall a, b :: a in s && Edge(g, a, b) ==> b in s
    ensures forall i :: 0 <= i < |p| ==> p[i] in s
    decreases |p|
  {
    if |p| > 1 {
      SubPath(g, p, 0, |p| - 1);
      ClosedSetHoldsPath(g, s, p[..|p| - 1]);
      assert p[..|p| - 1][|p| - 2] == p[|p| - 2];
      assert Link(g, p, |p| - 2);
      forall i | 0 <= i < |p| ensures p[i] in s {
        if i < |p| - 1 { assert p[..|p| - 1][i] == p[i]; }
      }
    }
  }

  /** Along a path, positions in a dependencies-first order strictly fall. */
  lemma {:induction false} OrderFallsAlongPath(g: Graph, order: seq<string>, p: seq<string>, k: int)
    requires DependenciesFirst(g, order) && IsPath(g, p)
    requires 0 <= k < |order| && order[k] == p[0]
    ensures |p| > 1 ==> p[|p| - 1] in order[..k]
    decreases |p|
  {
    if |p| > 1 {
      assert Link(g, p, 0);
      var j :| 0 <= j < k && order[j] == p[1];
      SubPath(g, p, 1, |p|);
      assert p[1..|p|] == p[1..];
      OrderFallsAlongPath(g, order, p[1..], j);
    }
  }

  /** A graph whose nodes can all be listed dependencies first has no cycle. */
  lemma OrderedIsAcyclic(g: Graph, order: seq<string>)
    requires DependenciesFirst(g, order)
    requires forall a :: a in g ==> a in order
    ensures Acyclic(g)
  {
    forall p | Cycle(g, p) ensures false {
      assert Link(g, p, 0);
      var k :| 0 <= k < |order| && order[k] == p[0];
      OrderFallsAlongPath(g, order, p, k);
    }
  }

  /** A path longer than the set it stays in repeats a node, so it contains a cycle. */
  lemma LongPathHasCycle(g: Graph, s: set<string>, p: seq<string>)
    requires IsPath(g, p) && |p| > |s|
    requires forall i :: 0 <= i < |p| ==> p[i] in s
    ensures !Acyclic(g)
  {
    if NoDup(p) {
      DistinctFit(p, s);
    } else {
      var i, j :| 0 <= i < j < |p| && p[i] == p[j];
      SubPath(g, p, i, j + 1);
      assert Cycle(g, p[i..j + 1]);
    }
  }

  lemma {:induction false} DistinctFit(p: seq<string>, s: set<string>)
    requires NoDup(p) && forall i :: 0 <= i < |p| ==> p[i] in s
    ensures |p| <= |s|
  {
    if p != [] {
      assert forall i :: 0 <= i < |p[1..]| ==> p[1..][i] == p[i + 1];
      DistinctFit(p[1..], s - {p[0]});
    }
  }

  ghost predicate SuccessorInside(g: Graph, s: set<string>, a: string) {
    exists b :: b in s && Edge(g, a, b)
  }

  /** In an acyclic graph no nonempty finite set gives each member a successor inside it. */
  lemma AcyclicHasSink(g: Graph, s: set<string>) returns (sink: string)
    requires Acyclic(g) && s != {}
    ensures sink in s && !SuccessorInside(g, s, sink)
  {
    if forall a :: a in s ==> SuccessorInside(g, s, a) {
      var a :| a in s;
      var p := WalkInside(g, s, a, |s| + 1);
      LongPathHasCycle(g, s, p);
    }
    sink :| sink in s && !SuccessorInside(g, s, sink);
  }

  lemma {:induction false} WalkInside(g: Graph, s: set<string>, a: string, n: nat) returns (p: seq<string>)
    requires a in s && n > 0
    requires forall a :: a in s ==> SuccessorInside(g, s, a)
    ensures IsPath(g, p) && |p| == n && forall i :: 0 <= i < |p| ==> p[i] in s
  {
    if n == 1 {
      p := [a];
    } else {
      var q := WalkInside(g, s, a, n - 1);
      assert SuccessorInside(g, s, q[|q| - 1]);
      var b :| b in s && Edge(g, q[|q| - 1], b);
      ExtendPath(g, q, b);
      p := q + [b];
    }
  }
}
