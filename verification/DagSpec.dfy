/** The dag-runner's specification checks: `validate`, `--only`, cycle detection and
    the topological order in which node futures are created. */
module DagSpec {
  import opened Wrappers
  import opened Ordering
  import opened Digraph

  datatype Kind = Task | Service

  datatype StdioMode = Capture | Prefixed | Inherit

  datatype ReadyWhen = Tcp(address: string) | LogLine(pattern: string) | Http(url: string)

  datatype NodeSpec = NodeSpec(
    command: seq<string>,
    dependsOn: seq<string>,
    timeoutSecs: Option<nat>,
    kind: Kind,
    readyWhen: Option<ReadyWhen>,
    stdio: StdioMode,
    lifelineFd: Option<int>)

  type Nodes = map<string, NodeSpec>

  datatype SpecError =
    | EmptyCommand(name: string)
    | ProbeOnTask(name: string)
    | NoProbeOnService(name: string)
    | TimeoutOnService(name: string)
    | InheritedLogLine(name: string)
    | BadLifeline(name: string)
    | UnknownDependency(name: string, dep: string)
    | CycleDetected(chain: seq<string>)
    | OnlyNotFound(names: seq<string>)
    | OnlyDangling(edges: set<(string, string)>)

  function Dependencies(nodes: Nodes): Graph {
    map n | n in nodes :: nodes[n].dependsOn
  }

  /** A single node the checks accept. */
  predicate WellFormed(node: NodeSpec) {
    && node.command != []
    && (node.kind.Service? <==> node.readyWhen.Some?)
    && (node.kind.Service? ==> node.timeoutSecs.None?)
    && !(node.stdio.Inherit? && node.readyWhen.Some? && node.readyWhen.value.LogLine?)
    && (node.lifelineFd.Some? ==> node.lifelineFd.value >= 3)
  }

  ghost predicate Valid(nodes: Nodes) {
    && (forall n :: n in nodes ==> WellFormed(nodes[n]))
    && Closed(Dependencies(nodes))
    && Acyclic(Dependencies(nodes))
  }

  /** The chain runs along dependencies and closes a cycle with its last node. */
  ghost predicate EndsInCycle(g: Graph, chain: seq<string>) {
    IsPath(g, chain) && exists k :: 0 <= k < |chain| - 1 && Cycle(g, chain[k..])
  }

  /** What each rejection reports is true of the specification. */
  ghost predicate Justified(nodes: Nodes, e: SpecError) {
    match e
    case EmptyCommand(n) => n in nodes && nodes[n].command == []
    case ProbeOnTask(n) => n in nodes && nodes[n].kind.Task? && nodes[n].readyWhen.Some?
    case NoProbeOnService(n) => n in nodes && nodes[n].kind.Service? && nodes[n].readyWhen.None?
    case TimeoutOnService(n) => n in nodes && nodes[n].kind.Service? && nodes[n].timeoutSecs.Some?
    case InheritedLogLine(n) =>
      n in nodes && nodes[n].stdio.Inherit? && nodes[n].readyWhen.Some? && nodes[n].readyWhen.value.LogLine?
    case BadLifeline(n) => n in nodes && nodes[n].lifelineFd.Some? && nodes[n].lifelineFd.value < 3
    case UnknownDependency(n, d) => n in nodes && d in nodes[n].dependsOn && d !in nodes
    case CycleDetected(chain) => EndsInCycle(Dependencies(nodes), chain)
    case OnlyNotFound(_) => false
    case OnlyDangling(_) => false
  }

  method ValidateNode(name: string, node: NodeSpec) returns (r: Result<(), SpecError>)
    ensures r.Ok? <==> WellFormed(node)
    ensures r.Err? ==> Justified(map[name := node], r.error) && !r.error.UnknownDependency? && !r.error.CycleDetected?
  {
    if node.command == [] { return Err(EmptyCommand(name)); }
    if node.kind.Task? && node.readyWhen.Some? { return Err(ProbeOnTask(name)); }
    if node.kind.Service? && node.readyWhen.None? { return Err(NoProbeOnService(name)); }
    if node.kind.Service? && node.timeoutSecs.Some? { return Err(TimeoutOnService(name)); }
    if node.stdio.Inherit? && node.readyWhen.Some? && node.readyWhen.value.LogLine? {
      return Err(InheritedLogLine(name));
    }
    if node.lifelineFd.Some? && node.lifelineFd.value < 3 { return Err(BadLifeline(name)); }
    return Ok(());
  }

  /** `validate`: accepts exactly the well-formed, closed, acyclic specifications, and every
      rejection names a real defect. The map is visited in an arbitrary order. */
  method Validate(nodes: Nodes) returns (r: Result<(), SpecError>)
    ensures r.Ok? <==> Valid(nodes)
    ensures r.Err? ==> Justified(nodes, r.error)
  {
    var g := Dependencies(nodes);
    var todo := nodes.Keys;
    while todo != {}
      invariant todo <= nodes.Keys
      invariant forall n :: n in nodes && n !in todo ==>
        WellFormed(nodes[n]) && forall d :: d in nodes[n].dependsOn ==> d in nodes
    {
      var name :| name in todo;
      r := ValidateNode(name, nodes[name]);
      if r.Err? { return; }
      var deps := nodes[name].dependsOn;
      for i := 0 to |deps|
        invariant forall j :: 0 <= j < i ==> deps[j] in nodes
      {
        if deps[i] !in nodes {
          assert Edge(g, name, deps[i]);
          return Err(UnknownDependency(name, deps[i]));
        }
      }
      todo := todo - {name};
    }
    assert Closed(g);
    r := DetectCycle(nodes);
  }

  datatype Color = Gray | Black

  /** A node whose dependencies are all listed may be listed next. */
  lemma AppendLast(g: Graph, order: seq<string>, n: string)
    requires DependenciesFirst(g, order) && n !in order
    requires forall b :: Edge(g, n, b) ==> b in order
    ensures DependenciesFirst(g, order + [n])
    ensures forall m :: m in order + [n] <==> m in order || m == n
  {
    var longer := order + [n];
    forall k, b | 0 <= k < |longer| && Edge(g, longer[k], b) ensures b in longer[..k] {
      assert longer[..k] == order[..k];
    }
  }

  lemma ChainClosesCycle(g: Graph, stack: seq<string>, name: string)
    requires IsPath(g, stack) && name in stack && Edge(g, stack[|stack| - 1], name)
    ensures EndsInCycle(g, stack + [name])
  {
    var chain := stack + [name];
    ExtendPath(g, stack, name);
    var k :| 0 <= k < |stack| && stack[k] == name;
    SubPath(g, chain, k, |chain|);
    assert chain[k..|chain|] == chain[k..];
  }

  /** Gray nodes are the path under way, black ones are finished, dependencies first. */
  ghost predicate SearchInv(g: Graph, color: map<string, Color>, stack: seq<string>, finished: seq<string>) {
    && Closed(g)
    && color.Keys <= g.Keys
    && (forall n :: n in stack <==> n in color && color[n].Gray?)
    && (forall n :: n in finished <==> n in color && color[n].Black?)
    && (stack == [] || IsPath(g, stack))
    && DependenciesFirst(g, finished)
  }

  lemma PushGray(g: Graph, color: map<string, Color>, stack: seq<string>, finished: seq<string>, n: string)
    requires SearchInv(g, color, stack, finished) && n in g && n !in color
    requires stack == [] || Edge(g, stack[|stack| - 1], n)
    ensures SearchInv(g, color[n := Gray], stack + [n], finished)
  {
    if stack != [] { ExtendPath(g, stack, n); }
  }

  lemma PopBlack(g: Graph, color: map<string, Color>, stack: seq<string>, finished: seq<string>, n: string)
    requires SearchInv(g, color, stack + [n], finished) && n !in stack
    requires forall b :: Edge(g, n, b) ==> b in finished
    ensures SearchInv(g, color[n := Black], stack, finished + [n])
  {
    assert n in stack + [n];
    assert forall m :: m in stack + [n] <==> m in stack || m == n;
    AppendLast(g, finished, n);
    if stack != [] {
      SubPath(g, stack + [n], 0, |stack|);
      assert (stack + [n])[0..|stack|] == stack;
    }
  }

  /** The depth-first search behind `detect_cycle`; the fields are its `color` and `stack`. */
  class CycleSearch {
    const nodes: Nodes
    var color: map<string, Color>
    var stack: seq<string>
    ghost var finished: seq<string>

    constructor (nodes: Nodes)
      ensures this.nodes == nodes && color == map[] && stack == [] && finished == []
    {
      this.nodes := nodes;
      color, stack, finished := map[], [], [];
    }

    /** Colours everything below `name` black, leaving the gray nodes as they were, or
        answers with a dependency chain that closes a cycle. */
    method Visit(ghost g: Graph, name: string) returns (r: Result<(), SpecError>)
      requires g == Dependencies(nodes) && SearchInv(g, color, stack, finished) && name in nodes
      requires stack == [] || Edge(g, stack[|stack| - 1], name)
      modifies this
      decreases nodes.Keys - color.Keys, 0
      ensures r.Ok? ==>
        && SearchInv(g, color, stack, finished)
        && stack == old(stack) && old(finished) <= finished && name in finished
        && old(color.Keys) <= color.Keys
      ensures r.Err? ==> r.error.CycleDetected? && EndsInCycle(g, r.error.chain)
    {
      if name in color && color[name].Gray? {
        ChainClosesCycle(g, stack, name);
        stack := stack + [name];
        return Err(CycleDetected(stack));
      }
      if name in color { return Ok(()); }
      PushGray(g, color, stack, finished, name);
      color := color[name := Gray];
      stack := stack + [name];
      r := VisitDependencies(g, name);
      if r.Err? { return; }
      PopBlack(g, color, old(stack), finished, name);
      stack := stack[..|stack| - 1];
      color := color[name := Black];
      finished := finished + [name];
      return Ok(());
    }

    method VisitDependencies(ghost g: Graph, name: string) returns (r: Result<(), SpecError>)
      requires g == Dependencies(nodes) && SearchInv(g, color, stack, finished) && name in nodes
      requires stack != [] && stack[|stack| - 1] == name
      modifies this
      decreases nodes.Keys - color.Keys, 1
      ensures r.Ok? ==>
        && SearchInv(g, color, stack, finished)
        && stack == old(stack) && old(finished) <= finished && old(color.Keys) <= color.Keys
        && forall j :: 0 <= j < |nodes[name].dependsOn| ==> nodes[name].dependsOn[j] in finished
      ensures r.Err? ==> r.error.CycleDetected? && EndsInCycle(g, r.error.chain)
    {
      var deps := nodes[name].dependsOn;
      for i := 0 to |deps|
        invariant SearchInv(g, color, stack, finished)
        invariant stack == old(stack) && old(finished) <= finished && old(color.Keys) <= color.Keys
        invariant forall j :: 0 <= j < i ==> deps[j] in finished
      {
        assert Edge(g, name, deps[i]);
        assert nodes.Keys - color.Keys <= nodes.Keys - old(color.Keys);
        r := Visit(g, deps[i]);
        if r.Err? { return; }
      }
      return Ok(());
    }

    method VisitAll(ghost g: Graph, names: seq<string>) returns (r: Result<(), SpecError>)
      requires g == Dependencies(nodes) && SearchInv(g, color, [], finished) && stack == []
      requires forall n :: n in names ==> n in nodes
      modifies this
      ensures r.Ok? ==> DependenciesFirst(g, finished) && forall n :: n in names ==> n in finished
      ensures r.Err? ==> r.error.CycleDetected? && EndsInCycle(g, r.error.chain)
    {
      for i := 0 to |names|
        invariant SearchInv(g, color, [], finished) && stack == []
        invariant forall n :: n in names[..i] ==> n in finished
      {
        stack := [];
        r := Visit(g, names[i]);
        if r.Err? { return; }
        assert names[..i + 1] == names[..i] + [names[i]];
      }
      assert names[..|names|] == names;
      return Ok(());
    }
  }

  lemma CycleRefutes(g: Graph, chain: seq<string>)
    requires EndsInCycle(g, chain)
    ensures !Acyclic(g)
  {
  }

  /** `detect_cycle`: accepts exactly the acyclic graphs. */
  method DetectCycle(nodes: Nodes) returns (r: Result<(), SpecError>)
    requires Closed(Dependencies(nodes))
    ensures r.Ok? <==> Acyclic(Dependencies(nodes))
    ensures r.Err? ==> r.error.CycleDetected? && EndsInCycle(Dependencies(nodes), r.error.chain)
  {
    ghost var g := Dependencies(nodes);
    var search := new CycleSearch(nodes);
    var names := Ascending(nodes.Keys);
    r := search.VisitAll(g, names);
    if r.Ok? { OrderedIsAcyclic(g, search.finished); } else { CycleRefutes(g, r.error.chain); }
  }

  /** The depth-first walk behind `topological_order`; the fields are `visited` and `order`. */
  class TopoWalk {
    const nodes: Nodes
    var visited: set<string>
    var order: seq<string>

    constructor (nodes: Nodes)
      ensures this.nodes == nodes && visited == {} && order == []
    {
      this.nodes := nodes;
      visited, order := {}, [];
    }

    /** `above` is the chain of nodes whose visit is still under way. */
    ghost predicate Inv(above: seq<string>)
      reads this
    {
      var g := Dependencies(nodes);
      && Closed(g) && Acyclic(g)
      && visited <= nodes.Keys
      && (forall n :: n in visited <==> n in above || n in order)
      && (forall n :: n in above ==> n !in order)
      && (above == [] || IsPath(g, above))
      && DependenciesFirst(g, order)
    }

    method Visit(name: string, ghost above: seq<string>)
      requires Inv(above) && name in nodes
      requires above == [] || Edge(Dependencies(nodes), above[|above| - 1], name)
      modifies this
      decreases nodes.Keys - visited
      ensures Inv(above) && name in order
      ensures old(order) <= order && old(visited) <= visited
    {
      ghost var g := Dependencies(nodes);
      if name in visited {
        assert name !in above by {
          if name in above {
            var k :| 0 <= k < |above| && above[k] == name;
            ExtendPath(g, above, name);
            SubPath(g, above + [name], k, |above| + 1);
            assert Cycle(g, (above + [name])[k..|above| + 1]);
          }
        }
        return;
      }
      visited := visited + {name};
      ghost var here := above + [name];
      assert IsPath(g, here) by {
        if above != [] { ExtendPath(g, above, name); }
      }
      var deps := nodes[name].dependsOn;
      for i := 0 to |deps|
        invariant Inv(here) && old(order) <= order && old(visited) + {name} <= visited
        invariant forall j :: 0 <= j < i ==> deps[j] in order
      {
        assert Edge(g, name, deps[i]);
        Visit(deps[i], here);
      }
      assert name in here && forall n :: n in above ==> n in here;
      AppendLast(g, order, name);
      order := order + [name];
    }
  }

  /** `topological_order`: on an accepted specification, a permutation of the nodes in which
      every dependency comes first, so the receiver looked up for a dependency while the
      futures are created is always there. */
  method TopologicalOrder(nodes: Nodes) returns (order: seq<string>)
    requires Valid(nodes)
    ensures DependenciesFirst(Dependencies(nodes), order)
    ensures forall n :: n in order <==> n in nodes
    ensures |order| == |nodes|
  {
    var walk := new TopoWalk(nodes);
    var names := Ascending(nodes.Keys);
    for i := 0 to |names|
      invariant walk.nodes == nodes && fresh(walk) && walk.Inv([])
      invariant forall j :: 0 <= j < i ==> names[j] in walk.order
    {
      walk.Visit(names[i], []);
    }
    order := walk.order;
    DistinctCount(order, nodes.Keys);
  }

  lemma {:induction false} DistinctCount(p: seq<string>, s: set<string>)
    requires NoDup(p) && forall x :: x in p <==> x in s
    ensures |p| == |s|
  {
    if p == [] {
      assert s == {};
    } else {
      DistinctCount(p[1..], s - {p[0]});
    }
  }

  /** `--only`: keep the named nodes, refusing unknown names and edges the cut would leave
      dangling. A kept part of a valid specification is valid. */
  method FilterOnly(nodes: Nodes, only: seq<string>) returns (r: Result<Nodes, SpecError>)
    ensures r.Ok? <==>
      && (forall n :: n in only ==> n in nodes)
      && (forall n, d :: n in only && n in nodes && d in nodes[n].dependsOn ==> d in only)
    ensures r.Ok? ==> r.value == map n | n in nodes && n in only :: nodes[n]
    ensures r.Ok? ==> Closed(Dependencies(r.value)) && (Valid(nodes) ==> Valid(r.value))
    ensures r.Err? && r.error.OnlyNotFound? ==>
      forall n :: n in r.error.names <==> n in only && n !in nodes
    ensures r.Err? && r.error.OnlyDangling? ==>
      forall n, d :: (n, d) in r.error.edges <==> n in only && n in nodes && d in nodes[n].dependsOn && d !in only
    ensures r.Err? ==> r.error.OnlyNotFound? || (r.error.OnlyDangling? && forall n :: n in only ==> n in nodes)
  {
    var keep := set n | n in only;
    var missing := set n | n in keep && n !in nodes;
    if missing != {} {
      var x :| x in missing;
      assert x in only;
      return Err(OnlyNotFound(Ascending(missing)));
    }
    forall n | n in only ensures n in nodes {
      assert n in keep && n !in missing;
    }
    var kept := map n | n in nodes && n in keep :: nodes[n];
    var dangling := set n, d | n in kept && d in kept[n].dependsOn && d !in keep :: (n, d);
    if dangling != {} {
      var e :| e in dangling;
      assert e.0 in only && e.0 in nodes && e.1 in nodes[e.0].dependsOn && e.1 !in only;
      return Err(OnlyDangling(dangling));
    }
    r := Ok(kept);
    forall n, d | n in only && n in nodes && d in nodes[n].dependsOn ensures d in only {
      assert n in kept && (n, d) !in dangling;
    }
    SubgraphAcyclic(Dependencies(nodes), Dependencies(kept));
  }

  lemma SubgraphAcyclic(g: Graph, h: Graph)
    requires forall a, b :: Edge(h, a, b) ==> Edge(g, a, b)
    ensures Acyclic(g) ==> Acyclic(h)
  {
    forall p | Cycle(h, p) ensures !Acyclic(g) {
      forall i | 0 <= i < |p| - 1 ensures Link(g, p, i) { assert Link(h, p, i); }
      assert Cycle(g, p);
    }
  }
}
