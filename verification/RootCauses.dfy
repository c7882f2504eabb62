/** What the frontier walk computes, and the ranking of causes by fan-out. */
module RootCauses {
  import opened Ordering
  import opened Keyed
  import opened Digraph
  import opened BlastRadius

  /** The changed part of the head graph. */
  ghost function ChangedGraph(base: DrvGraph, head: DrvGraph): Graph {
    map x | x in head && IsChanged(base, x) :: ChangedInputs(base, head[x].inputs)
  }

  ghost function WholeGraph(g: DrvGraph): Graph {
    map x | x in g :: g[x].inputs
  }

  lemma ChangedGraphEdge(base: DrvGraph, head: DrvGraph, x: string, y: string)
    ensures Edge(ChangedGraph(base, head), x, y) <==> ChangedEdge(base, head, x, y)
  {
  }

  /** Everything a walk can come across. */
  ghost function Universe(head: DrvGraph, start: string): set<string> {
    {start} + (set x, i | x in head && 0 <= i < |head[x].inputs| :: head[x].inputs[i])
  }

  lemma InputInUniverse(head: DrvGraph, start: string, x: string, y: string)
    requires x in head && y in head[x].inputs
    ensures y in Universe(head, start)
  {
    var i :| 0 <= i < |head[x].inputs| && head[x].inputs[i] == y;
  }

  /** `n` names a changed derivation without changed inputs, reached through changed ones. */
  ghost predicate Blamed(base: DrvGraph, head: DrvGraph, start: string, n: string) {
    exists x :: Reaches(ChangedGraph(base, head), start, x) && Frontier(base, head, x) && head[x].name == n
  }

  ghost function ReachSet(base: DrvGraph, head: DrvGraph, start: string): set<string> {
    set x | x in Universe(head, start) && Reaches(ChangedGraph(base, head), start, x)
  }

  lemma ReachSetIsClosed(base: DrvGraph, head: DrvGraph, start: string)
    ensures start in ReachSet(base, head, start) && ClosedSet(base, head, ReachSet(base, head, start))
  {
    var g := ChangedGraph(base, head);
    ReachesSelf(g, start);
    forall x, y | x in ReachSet(base, head, start) && ChangedEdge(base, head, x, y) ensures y in ReachSet(base, head, start) {
      ChangedGraphEdge(base, head, x, y);
      ReachesStep(g, start, x, y);
      InputInUniverse(head, start, x, y);
    }
  }

  /** A whole walk sees exactly what can be reached through changed derivations. */
  lemma WholeWalk(base: DrvGraph, head: DrvGraph, start: string, end: Progress, x: string)
    requires Walked(base, head, Progress({}, {}), end)
    requires start in end.seen && end.seen <= ReachSet(base, head, start)
    ensures x in end.seen <==> Reaches(ChangedGraph(base, head), start, x)
  {
    var g := ChangedGraph(base, head);
    if Reaches(g, start, x) {
      var p :| PathFromTo(g, p, start, x);
      forall a, b | a in end.seen && Edge(g, a, b) ensures b in end.seen { ChangedGraphEdge(base, head, a, b); }
      ClosedSetHoldsPath(g, end.seen, p);
    }
  }

  lemma WalkBlames(base: DrvGraph, head: DrvGraph, start: string, end: Progress, n: string)
    requires Walked(base, head, Progress({}, {}), end)
    requires start in end.seen && end.seen <= ReachSet(base, head, start)
    ensures n in Names(head, end.blamed) <==> Blamed(base, head, start, n)
  {
    if n in Names(head, end.blamed) {
      var x :| x in end.blamed && x in head && head[x].name == n;
      WholeWalk(base, head, start, end, x);
    }
    if Blamed(base, head, start, n) {
      var x :| Reaches(ChangedGraph(base, head), start, x) && Frontier(base, head, x) && head[x].name == n;
      WholeWalk(base, head, start, end, x);
    }
  }

  /** The walk of one check. */
  method FrontierNames(base: DrvGraph, head: DrvGraph, start: string) returns (names: set<string>)
    ensures forall n :: n in names <==> Blamed(base, head, start, n)
  {
    var walk := new FrontierWalk(base, head);
    ReachSetIsClosed(base, head, start);
    assert walk.State() == Progress({}, {});
    walk.Collect(start, ReachSet(base, head, start));
    names := walk.out;
    forall n ensures n in names <==> Blamed(base, head, start, n) {
      WalkBlames(base, head, start, walk.State(), n);
    }
  }

  // --- what the names mean ---

  /** Basenames are input-addressed: a derivation both graphs have is the same in both. */
  ghost predicate Agree(base: DrvGraph, head: DrvGraph) {
    forall x :: x in base && x in head ==> base[x] == head[x]
  }

  /** Below an unchanged derivation everything is unchanged. */
  lemma {:induction false} UnchangedBelow(base: DrvGraph, head: DrvGraph, p: seq<string>)
    requires Agree(base, head) && Closed(WholeGraph(base)) && IsPath(WholeGraph(head), p) && p[0] in base
    ensures p[|p| - 1] in base
    decreases |p|
  {
    if |p| > 1 {
      assert Link(WholeGraph(head), p, 0);
      assert Edge(WholeGraph(base), p[0], p[1]);
      SubPath(WholeGraph(head), p, 1, |p|);
      assert p[1..|p|] == p[1..];
      UnchangedBelow(base, head, p[1..]);
    }
  }

  lemma ChangedPath(base: DrvGraph, head: DrvGraph, p: seq<string>)
    requires Agree(base, head) && Closed(WholeGraph(base)) && IsPath(WholeGraph(head), p) && p[|p| - 1] !in base
    ensures IsPath(ChangedGraph(base, head), p)
  {
    var g := WholeGraph(head);
    forall i | 0 <= i < |p| ensures p[i] !in base {
      SubPath(g, p, i, |p|);
      if p[i] in base { UnchangedBelow(base, head, p[i..|p|]); }
    }
    forall i | 0 <= i < |p| - 1 ensures Link(ChangedGraph(base, head), p, i) {
      assert Link(g, p, i);
      ChangedGraphEdge(base, head, p[i], p[i + 1]);
    }
  }

  lemma WholePath(base: DrvGraph, head: DrvGraph, p: seq<string>)
    requires IsPath(ChangedGraph(base, head), p)
    ensures IsPath(WholeGraph(head), p)
  {
    forall i | 0 <= i < |p| - 1 ensures Link(WholeGraph(head), p, i) {
      assert Link(ChangedGraph(base, head), p, i);
      ChangedGraphEdge(base, head, p[i], p[i + 1]);
    }
  }

  /** Pruning unchanged derivations loses nothing against the full head closure. */
  lemma PruningIsExact(base: DrvGraph, head: DrvGraph, start: string, x: string)
    requires Agree(base, head) && Closed(WholeGraph(base)) && Frontier(base, head, x)
    ensures Reaches(ChangedGraph(base, head), start, x) <==> Reaches(WholeGraph(head), start, x)
  {
    if Reaches(WholeGraph(head), start, x) {
      var p :| PathFromTo(WholeGraph(head), p, start, x);
      ChangedPath(base, head, p);
      assert PathFromTo(ChangedGraph(base, head), p, start, x);
    }
    if Reaches(ChangedGraph(base, head), start, x) {
      var p :| PathFromTo(ChangedGraph(base, head), p, start, x);
      WholePath(base, head, p);
      assert PathFromTo(WholeGraph(head), p, start, x);
    }
  }

  // --- which changed derivations have a cause ---

  ghost predicate OnCycle(g: Graph, x: string) {
    exists p :: Cycle(g, p) && p[0] == x
  }

  /** Everything below the derivation is in the graph, and none of it on a cycle. */
  ghost predicate Founded(head: DrvGraph, x: string) {
    forall y :: Reaches(WholeGraph(head), x, y) ==> y in head && !OnCycle(WholeGraph(head), y)
  }

  ghost predicate HasCause(base: DrvGraph, head: DrvGraph, start: string) {
    exists n :: Blamed(base, head, start, n)
  }

  lemma ChangedReach(base: DrvGraph, head: DrvGraph, x: string, y: string)
    requires Reaches(ChangedGraph(base, head), x, y)
    ensures Reaches(WholeGraph(head), x, y)
  {
    var p :| PathFromTo(ChangedGraph(base, head), p, x, y);
    WholePath(base, head, p);
    assert PathFromTo(WholeGraph(head), p, x, y);
  }

  /** The changed graph, as far as it can be reached from `start`. */
  ghost function ReachedGraph(base: DrvGraph, head: DrvGraph, start: string): Graph {
    map x | x in ChangedGraph(base, head) && x in ReachSet(base, head, start) :: ChangedGraph(base, head)[x]
  }

  lemma ReachedCycle(base: DrvGraph, head: DrvGraph, start: string, p: seq<string>)
    requires Cycle(ReachedGraph(base, head, start), p)
    ensures OnCycle(WholeGraph(head), p[0]) && Reaches(WholeGraph(head), start, p[0])
  {
    var g := ReachedGraph(base, head, start);
    forall i | 0 <= i < |p| - 1 ensures Link(ChangedGraph(base, head), p, i) { assert Link(g, p, i); }
    WholePath(base, head, p);
    assert Cycle(WholeGraph(head), p);
    assert Link(g, p, 0);
    ChangedReach(base, head, start, p[0]);
  }

  lemma ReachedIsAcyclic(base: DrvGraph, head: DrvGraph, start: string)
    requires Founded(head, start)
    ensures Acyclic(ReachedGraph(base, head, start))
  {
    forall p ensures !Cycle(ReachedGraph(base, head, start), p) {
      if Cycle(ReachedGraph(base, head, start), p) { ReachedCycle(base, head, start, p); }
    }
  }

  lemma {:induction false} ReachedIsChanged(base: DrvGraph, head: DrvGraph, p: seq<string>)
    requires IsPath(ChangedGraph(base, head), p) && IsChanged(base, p[0])
    ensures IsChanged(base, p[|p| - 1])
  {
    if |p| > 1 {
      assert Link(ChangedGraph(base, head), p, |p| - 2);
      ChangedGraphEdge(base, head, p[|p| - 2], p[|p| - 1]);
    }
  }

  /** A sink of the reached part is a changed derivation without changed inputs. */
  lemma SinkIsFrontier(base: DrvGraph, head: DrvGraph, start: string, x: string)
    requires Founded(head, start) && IsChanged(base, start) && x in ReachSet(base, head, start)
    requires !SuccessorInside(ReachedGraph(base, head, start), ReachSet(base, head, start), x)
    ensures Frontier(base, head, x)
  {
    var p :| PathFromTo(ChangedGraph(base, head), p, start, x);
    ReachedIsChanged(base, head, p);
    ChangedReach(base, head, start, x);
    ReachSetIsClosed(base, head, start);
    forall y | y in head[x].inputs ensures !IsChanged(base, y) {
      if IsChanged(base, y) {
        ChangedGraphEdge(base, head, x, y);
        assert ChangedEdge(base, head, x, y);
        assert Edge(ReachedGraph(base, head, start), x, y);
      }
    }
  }

  /** A changed derivation with nothing missing and no cycle below it has a cause, whatever the
      base is. */
  lemma ChangedHasCause(base: DrvGraph, head: DrvGraph, start: string) returns (n: string)
    requires Founded(head, start) && IsChanged(base, start)
    ensures Blamed(base, head, start, n)
  {
    ReachSetIsClosed(base, head, start);
    ReachedIsAcyclic(base, head, start);
    var x := AcyclicHasSink(ReachedGraph(base, head, start), ReachSet(base, head, start));
    SinkIsFrontier(base, head, start, x);
    n := head[x].name;
  }

  /** The part of the head graph in which everything is founded. */
  ghost function FoundedPart(head: DrvGraph): DrvGraph {
    map x | x in head && Founded(head, x) :: head[x]
  }

  lemma FoundedBelow(head: DrvGraph, x: string, y: string)
    requires Founded(head, x) && Edge(WholeGraph(head), x, y)
    ensures Founded(head, y) && y in head
  {
    var g := WholeGraph(head);
    forall z | Reaches(g, y, z) ensures z in head && !OnCycle(g, z) { StepReaches(g, x, y, z); }
    ReachesSelf(g, y);
  }

  lemma FoundedPartIsBase(head: DrvGraph)
    ensures Agree(FoundedPart(head), head) && Closed(WholeGraph(FoundedPart(head)))
  {
    var base := FoundedPart(head);
    forall x, y | Edge(WholeGraph(base), x, y) ensures y in WholeGraph(base) {
      assert Edge(WholeGraph(head), x, y);
      FoundedBelow(head, x, y);
    }
  }

  /** A derivation on a cycle has an input from which the cycle can be reached. */
  lemma CycleGoesOn(g: Graph, p: seq<string>)
    requires Cycle(g, p)
    ensures Edge(g, p[0], p[1]) && Reaches(g, p[1], p[0])
  {
    assert Link(g, p, 0);
    SubPath(g, p, 1, |p|);
    assert PathFromTo(g, p[1..|p|], p[1], p[0]);
  }

  /** An unfounded derivation in the graph has an unfounded input. */
  lemma UnfoundedInput(head: DrvGraph, x: string) returns (y: string)
    requires x in head && !Founded(head, x)
    ensures y in head[x].inputs && !Founded(head, y)
  {
    var g := WholeGraph(head);
    var z :| Reaches(g, x, z) && (z !in head || OnCycle(g, z));
    var p :| PathFromTo(g, p, x, z);
    if |p| > 1 {
      assert Link(g, p, 0);
      SubPath(g, p, 1, |p|);
      y := p[1];
      assert PathFromTo(g, p[1..|p|], y, z);
    } else {
      var c :| Cycle(g, c) && c[0] == x;
      CycleGoesOn(g, c);
      y := c[1];
    }
  }

  /** Against the founded part of its own graph an unfounded derivation is changed and has no
      cause. */
  lemma UnfoundedHasNoCause(head: DrvGraph, start: string)
    requires !Founded(head, start)
    ensures IsChanged(FoundedPart(head), start) && !HasCause(FoundedPart(head), head, start)
  {
    var base := FoundedPart(head);
    forall x ensures !Frontier(base, head, x) {
      if x in head && IsChanged(base, x) { var y := UnfoundedInput(head, x); }
    }
  }

  /** Against every base the derivation is unchanged or has a cause. */
  ghost predicate Explainable(head: DrvGraph, start: string) {
    forall base :: IsChanged(base, start) ==> HasCause(base, head, start)
  }

  /** The same against the bases that can occur: closed, and input-addressed like the head. */
  ghost predicate ExplainableInPractice(head: DrvGraph, start: string) {
    forall base ::
      Agree(base, head) && Closed(WholeGraph(base)) && IsChanged(base, start) ==> HasCause(base, head, start)
  }

  /** A derivation gets a cause against every base if and only if nothing below it is missing
      or on a cycle; and the bases that can occur are enough to tell. */
  lemma ExplainableIff(head: DrvGraph, start: string)
    ensures Explainable(head, start) <==> Founded(head, start)
    ensures ExplainableInPractice(head, start) <==> Founded(head, start)
  {
    if Founded(head, start) {
      forall base | IsChanged(base, start) ensures HasCause(base, head, start) {
        var n := ChangedHasCause(base, head, start);
      }
    } else {
      FoundedPartIsBase(head);
      UnfoundedHasNoCause(head, start);
    }
  }

  lemma SoundIsFounded(head: DrvGraph, x: string)
    requires Closed(WholeGraph(head)) && Acyclic(WholeGraph(head)) && x in head
    ensures Founded(head, x)
  {
    var g := WholeGraph(head);
    forall y | Reaches(g, x, y) ensures y in head && !OnCycle(g, y) {
      var p :| PathFromTo(g, p, x, y);
      ClosedSetHoldsPath(g, head.Keys, p);
    }
  }

  lemma MissingInputIsUnfounded(head: DrvGraph, x: string, y: string)
    requires Edge(WholeGraph(head), x, y) && y !in head
    ensures !Founded(head, x)
  {
    if Founded(head, x) { FoundedBelow(head, x, y); }
  }

  lemma CycleIsUnfounded(head: DrvGraph, p: seq<string>)
    requires Cycle(WholeGraph(head), p)
    ensures p[0] in head && !Founded(head, p[0])
  {
    assert Link(WholeGraph(head), p, 0);
    ReachesSelf(WholeGraph(head), p[0]);
    assert OnCycle(WholeGraph(head), p[0]);
  }

  /** Every changed check gets a cause, against every base that can occur, if and only if the
      head graph is closed and acyclic. */
  lemma AlwaysExplainedIff(head: DrvGraph)
    ensures (forall x :: x in head ==> ExplainableInPractice(head, x)) <==>
      Closed(WholeGraph(head)) && Acyclic(WholeGraph(head))
  {
    var g := WholeGraph(head);
    forall x | x in head ensures ExplainableInPractice(head, x) <==> Founded(head, x) { ExplainableIff(head, x); }
    if Closed(g) && Acyclic(g) {
      forall x | x in head ensures Founded(head, x) { SoundIsFounded(head, x); }
    }
    if !Closed(g) {
      var x, y :| Edge(g, x, y) && y !in g;
      MissingInputIsUnfounded(head, x, y);
    }
    if !Acyclic(g) {
      var p :| Cycle(g, p);
      CycleIsUnfounded(head, p);
    }
  }

  // --- ranking ---

  datatype Cause = Cause(name: string, checks: seq<string>)

  datatype Caps = Caps(maxCauses: nat, maxChecksPerCause: nat)

  ghost predicate Explains(base: DrvGraph, head: DrvGraph, checks: map<string, string>, n: string, attr: string) {
    attr in checks && Blamed(base, head, checks[attr], n)
  }

  /** Higher fan-out first, ties by name. */
  predicate RanksBefore(a: Cause, b: Cause) {
    |a.checks| > |b.checks| || (|a.checks| == |b.checks| && StrLeq(a.name, b.name))
  }

  lemma RanksBeforePreorder()
    ensures Preorder(RanksBefore)
  {
    forall x, y ensures RanksBefore(x, y) || RanksBefore(y, x) { StrLeqTotal(x.name, y.name); }
    forall x, y, z | RanksBefore(x, y) && RanksBefore(y, z) ensures RanksBefore(x, z) {
      if StrLeq(x.name, y.name) && StrLeq(y.name, z.name) { StrLeqTransitive(x.name, y.name, z.name); }
    }
  }

  type Credits = map<string, set<string>>

  predicate Credited(acc: Credits, n: string, attr: string) {
    n in acc && attr in acc[n]
  }

  ghost predicate Accumulated(base: DrvGraph, head: DrvGraph, checks: map<string, string>, done: seq<string>, acc: Credits) {
    && (forall n, attr :: Credited(acc, n, attr) <==> attr in done && Explains(base, head, checks, n, attr))
    && (forall n :: n in acc ==> acc[n] != {})
  }

  /** The inner loop: one more check for each of its causes. */
  method Credit(acc0: Credits, names: seq<string>, attr: string) returns (acc: Credits)
    requires forall n :: n in acc0 ==> acc0[n] != {}
    ensures forall n, a :: Credited(acc, n, a) <==> Credited(acc0, n, a) || (a == attr && n in names)
    ensures forall n :: n in acc ==> acc[n] != {}
  {
    acc := acc0;
    for i := 0 to |names|
      invariant forall n, a :: Credited(acc, n, a) <==> Credited(acc0, n, a) || (a == attr && n in names[..i])
      invariant forall n :: n in acc ==> acc[n] != {}
    {
      assert names[..i + 1] == names[..i] + [names[i]];
      acc := acc[names[i] := (if names[i] in acc then acc[names[i]] else {}) + {attr}];
    }
    assert names[..|names|] == names;
  }

  lemma OneMoreCheck(base: DrvGraph, head: DrvGraph, checks: map<string, string>, done: seq<string>, acc: Credits,
                     attr: string, names: seq<string>, more: Credits)
    requires Accumulated(base, head, checks, done, acc) && attr in checks
    requires forall n :: n in names <==> Blamed(base, head, checks[attr], n)
    requires forall n, a :: Credited(more, n, a) <==> Credited(acc, n, a) || (a == attr && n in names)
    requires forall n :: n in more ==> more[n] != {}
    ensures Accumulated(base, head, checks, done + [attr], more)
  {
    forall n, a ensures Credited(more, n, a) <==> a in done + [attr] && Explains(base, head, checks, n, a) {
      assert Credited(acc, n, a) <==> a in done && Explains(base, head, checks, n, a);
    }
  }

  method Accumulate(base: DrvGraph, head: DrvGraph, checks: map<string, string>) returns (acc: Credits)
    ensures Accumulated(base, head, checks, Ascending(checks.Keys), acc)
  {
    acc := map[];
    var attrs := Ascending(checks.Keys);
    for i := 0 to |attrs|
      invariant Accumulated(base, head, checks, attrs[..i], acc)
    {
      assert attrs[i] in attrs && attrs[..i + 1] == attrs[..i] + [attrs[i]];
      var names := FrontierNames(base, head, checks[attrs[i]]);
      var more := Credit(acc, Ascending(names), attrs[i]);
      OneMoreCheck(base, head, checks, attrs[..i], acc, attrs[i], Ascending(names), more);
      acc := more;
    }
    assert attrs[..|attrs|] == attrs;
  }

  ghost function Explained(base: DrvGraph, head: DrvGraph, checks: map<string, string>, n: string): set<string> {
    set attr | attr in checks && Blamed(base, head, checks[attr], n)
  }

  /** The cause has exactly the checks it explains, at least one. */
  ghost predicate CauseOk(base: DrvGraph, head: DrvGraph, checks: map<string, string>, c: Cause) {
    c.checks == Ascending(Explained(base, head, checks, c.name)) && c.checks != []
  }

  function NameOf(c: Cause): string { c.name }

  /** All causes, best first. */
  ghost predicate IsRanking(base: DrvGraph, head: DrvGraph, checks: map<string, string>, ranked: seq<Cause>) {
    && (forall c :: c in ranked ==> CauseOk(base, head, checks, c))
    && (forall n, attr :: Explains(base, head, checks, n, attr) ==> HasId(ranked, NameOf, n))
    && (forall i, j :: 0 <= i < j < |ranked| ==> Outranks(ranked[i], ranked[j])) && DistinctBy(ranked, NameOf)
  }

  /** More checks, or as many and an earlier name. */
  ghost predicate Outranks(a: Cause, b: Cause) {
    |a.checks| > |b.checks| || (|a.checks| == |b.checks| && a.name != b.name && StrLeq(a.name, b.name))
  }

  function Cap(c: Cause, caps: Caps): Cause {
    if |c.checks| <= caps.maxChecksPerCause then c else Cause(c.name, c.checks[..caps.maxChecksPerCause])
  }

  /** One cause per name in key order, its checks in order. */
  method ListCauses(acc: Credits) returns (causes: seq<Cause>)
    ensures Listed(acc, causes)
  {
    var names := Ascending(acc.Keys);
    causes := [];
    for i := 0 to |names|
      invariant |causes| == i
      invariant forall j :: 0 <= j < i ==> names[j] in acc && causes[j] == Cause(names[j], Ascending(acc[names[j]]))
    {
      assert names[i] in names;
      causes := causes + [Cause(names[i], Ascending(acc[names[i]]))];
    }
  }

  lemma CreditedSet(base: DrvGraph, head: DrvGraph, checks: map<string, string>, acc: Credits, n: string)
    requires Accumulated(base, head, checks, Ascending(checks.Keys), acc) && n in acc
    ensures acc[n] == Explained(base, head, checks, n) && acc[n] != {}
  {
    forall attr ensures attr in acc[n] <==> attr in Explained(base, head, checks, n) {
      assert attr in acc[n] <==> Credited(acc, n, attr);
    }
  }

  /** `causes` lists the entries of `acc` in key order. */
  ghost predicate Listed(acc: Credits, causes: seq<Cause>) {
    && |causes| == |Ascending(acc.Keys)|
    && forall i :: 0 <= i < |causes| ==>
      Ascending(acc.Keys)[i] in acc && causes[i] == Cause(Ascending(acc.Keys)[i], Ascending(acc[Ascending(acc.Keys)[i]]))
  }

  lemma ListedOk(base: DrvGraph, head: DrvGraph, checks: map<string, string>, acc: Credits, causes: seq<Cause>)
    requires Accumulated(base, head, checks, Ascending(checks.Keys), acc) && Listed(acc, causes)
    ensures forall c :: c in causes ==> CauseOk(base, head, checks, c)
    ensures forall n, attr :: Explains(base, head, checks, n, attr) ==> HasId(causes, NameOf, n)
    ensures DistinctBy(causes, NameOf)
  {
    var names := Ascending(acc.Keys);
    forall c | c in causes ensures CauseOk(base, head, checks, c) {
      var i :| 0 <= i < |causes| && causes[i] == c;
      CreditedSet(base, head, checks, acc, names[i]);
      assert |c.checks| == |acc[names[i]]|;
    }
    forall n, attr | Explains(base, head, checks, n, attr) ensures HasId(causes, NameOf, n) {
      assert Credited(acc, n, attr) && n in names;
      var i :| 0 <= i < |names| && names[i] == n;
      assert causes[i] in causes;
    }
  }

  lemma RankingOf(base: DrvGraph, head: DrvGraph, checks: map<string, string>, causes: seq<Cause>)
    requires forall c :: c in causes ==> CauseOk(base, head, checks, c)
    requires forall n, attr :: Explains(base, head, checks, n, attr) ==> HasId(causes, NameOf, n)
    requires DistinctBy(causes, NameOf)
    ensures IsRanking(base, head, checks, SortBy(causes, RanksBefore))
  {
    var ranked := SortBy(causes, RanksBefore);
    RanksBeforePreorder();
    SortBySorts(causes, RanksBefore);
    SortDistinct(causes, RanksBefore, NameOf);
    forall n, attr | Explains(base, head, checks, n, attr) ensures HasId(ranked, NameOf, n) {
      SameIds(ranked, causes, NameOf, n);
    }
    forall i, j | 0 <= i < j < |ranked| ensures Outranks(ranked[i], ranked[j]) {
      assert NameOf(ranked[i]) != NameOf(ranked[j]) && RanksBefore(ranked[i], ranked[j]);
    }
  }

  lemma CapCutsShort(c: Cause, caps: Caps)
    ensures CutShort(c, caps, Cap(c, caps))
  {
  }

  method Truncate(ranked: seq<Cause>, caps: Caps) returns (causes: seq<Cause>)
    ensures Capped(ranked, caps, causes)
  {
    var kept := if |ranked| <= caps.maxCauses then ranked else ranked[..caps.maxCauses];
    causes := [];
    for i := 0 to |kept|
      invariant |causes| == i && forall j :: 0 <= j < i ==> CutShort(ranked[j], caps, causes[j])
    {
      CapCutsShort(ranked[i], caps);
      causes := causes + [Cap(kept[i], caps)];
    }
  }

  /** `causes` are the best of the ranking, with their check lists cut short. */
  ghost predicate Capped(ranked: seq<Cause>, caps: Caps, causes: seq<Cause>) {
    && |causes| == (if |ranked| <= caps.maxCauses then |ranked| else caps.maxCauses)
    && forall i :: 0 <= i < |causes| ==> CutShort(ranked[i], caps, causes[i])
  }

  /** The same cause with its first checks, as many as the cap allows. */
  ghost predicate CutShort(whole: Cause, caps: Caps, c: Cause) {
    && c.name == whole.name && c.checks <= whole.checks
    && (|c.checks| == |whole.checks| <= caps.maxChecksPerCause || |c.checks| == caps.maxChecksPerCause <= |whole.checks|)
  }

  /** `root_causes`: the best causes of the full ranking, with their check lists cut short. */
  method RootCausesOf(base: DrvGraph, head: DrvGraph, checks: map<string, string>, caps: Caps) returns (causes: seq<Cause>)
    ensures exists ranked :: IsRanking(base, head, checks, ranked) && Capped(ranked, caps, causes)
  {
    var acc := Accumulate(base, head, checks);
    var all := ListCauses(acc);
    ListedOk(base, head, checks, acc, all);
    RankingOf(base, head, checks, all);
    var ranked := SortBy(all, RanksBefore);
    causes := Truncate(ranked, caps);
    assert IsRanking(base, head, checks, ranked) && Capped(ranked, caps, causes);
  }

  /** Every ranking holds every cause of any other. */
  lemma SharedCause(base: DrvGraph, head: DrvGraph, checks: map<string, string>, r: seq<Cause>, c: Cause) returns (k: int)
    requires IsRanking(base, head, checks, r) && CauseOk(base, head, checks, c)
    ensures 0 <= k < |r| && r[k] == c
  {
    assert c.checks[0] in c.checks;
    assert Explains(base, head, checks, c.name, c.checks[0]);
    var d :| d in r && NameOf(d) == c.name;
    assert CauseOk(base, head, checks, d);
    k :| 0 <= k < |r| && r[k] == d;
  }

  lemma RankedIsSorted(r: seq<Cause>)
    requires forall i, j :: 0 <= i < j < |r| ==> Outranks(r[i], r[j])
    ensures Sorted(r, RanksBefore)
  {
    forall i, j | 0 <= i < j < |r| ensures RanksBefore(r[i], r[j]) { assert Outranks(r[i], r[j]); }
  }

  /** The i-th cause of a ranking ranks no later than the i-th of one that agrees so far. */
  lemma NoLater(r: seq<Cause>, s: seq<Cause>, i: int, k: int)
    requires Sorted(r, RanksBefore) && DistinctBy(s, NameOf)
    requires 0 <= i < |s| && i <= |r| && 0 <= k < |r| && r[k] == s[i] && forall j :: 0 <= j < i ==> r[j] == s[j]
    ensures i < |r| && RanksBefore(r[i], s[i])
  {
    assert forall j :: 0 <= j < i ==> NameOf(s[j]) != NameOf(s[i]);
    assert i <= k;
    StrLeqReflexive(s[i].name);
  }

  /** The ranking is determined by the graphs and the checks. */
  lemma {:induction false} RankingIsUnique(base: DrvGraph, head: DrvGraph, checks: map<string, string>, r: seq<Cause>, s: seq<Cause>, i: nat)
    requires IsRanking(base, head, checks, r) && IsRanking(base, head, checks, s)
    ensures i < |r| <==> i < |s|
    ensures i < |r| ==> r[i] == s[i]
    decreases i
  {
    forall j: nat | j < i ensures (j < |r| <==> j < |s|) && (j < |r| ==> r[j] == s[j]) {
      RankingIsUnique(base, head, checks, r, s, j);
    }
    RankedIsSorted(r);
    RankedIsSorted(s);
    if |r| < i { RankingIsUnique(base, head, checks, r, s, |r|); }
    if |s| < i { RankingIsUnique(base, head, checks, r, s, |s|); }
    if i < |s| && i <= |r| {
      var k := SharedCause(base, head, checks, r, s[i]);
      NoLater(r, s, i, k);
    }
    if i < |r| && i <= |s| {
      var k := SharedCause(base, head, checks, s, r[i]);
      NoLater(s, r, i, k);
    }
    if i < |r| && i < |s| {
      StrLeqAntisymmetric(r[i].name, s[i].name);
      assert r[i] in r && s[i] in s && CauseOk(base, head, checks, r[i]) && CauseOk(base, head, checks, s[i]);
    }
  }

  /** No changed check with a founded derivation goes unexplained in the full ranking. */
  lemma EveryCheckExplained(base: DrvGraph, head: DrvGraph, checks: map<string, string>, ranked: seq<Cause>, attr: string)
    returns (c: Cause)
    requires IsRanking(base, head, checks, ranked) && attr in checks
    requires Founded(head, checks[attr]) && IsChanged(base, checks[attr])
    ensures c in ranked && attr in c.checks
  {
    var n := ChangedHasCause(base, head, checks[attr]);
    assert Explains(base, head, checks, n, attr);
    c :| c in ranked && NameOf(c) == n;
    assert CauseOk(base, head, checks, c);
  }
}
