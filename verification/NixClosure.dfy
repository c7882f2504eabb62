/** Reachability over a recursive `nix path-info` graph: breadth-first search from every
    security root, with predecessor chains. */
module NixClosure {
  import opened Wrappers
  import opened Ordering
  import opened Digraph
  import opened Text

  datatype PathInfo = PathInfo(version: int, storeDir: string, references: seq<string>, narHash: string, narSize: nat)

  type PathInfoGraph = map<string, PathInfo>

  datatype SecurityRoot = SecurityRoot(attr: string, name: string, path: string, owner: string, slaHours: nat)

  type SecurityRoots = map<string, SecurityRoot>

  datatype GraphError =
    | EmptyGraph
    | WrongVersion(path: string)
    | OutsideStore(path: string)
    | AbsentReference(path: string, reference: string)
    | RootMisnamed(key: string)
    | RootWithoutOwner(key: string)
    | RootWithoutSla(key: string)
    | RootAbsent(key: string)
    | EntryDisappeared(path: string)
    | UnknownRoot(key: string)
    | Unreachable(key: string, goal: string)

  function References(graph: PathInfoGraph): Graph {
    map p | p in graph :: graph[p].references
  }

  predicate ValidEntry(graph: PathInfoGraph, path: string, info: PathInfo) {
    && info.version == 1
    && StartsWith(path, info.storeDir + "/")
    && forall b :: b in info.references ==> b in graph
  }

  ghost predicate ValidGraph(graph: PathInfoGraph) {
    graph != map[] && forall p :: p in graph ==> ValidEntry(graph, p, graph[p])
  }

  lemma ValidIsClosed(graph: PathInfoGraph)
    requires ValidGraph(graph)
    ensures Closed(References(graph))
  {
  }

  /** What each refusal of an entry, a graph or a root reports is true of it. */
  ghost predicate EntryDefect(graph: PathInfoGraph, path: string, info: PathInfo, e: GraphError) {
    match e
    case WrongVersion(p) => p == path && info.version != 1
    case OutsideStore(p) => p == path && !exists name :: path == info.storeDir + "/" + name
    case AbsentReference(p, b) => p == path && b in info.references && b !in graph
    case _ => false
  }

  ghost predicate GraphDefect(graph: PathInfoGraph, e: GraphError) {
    if e == EmptyGraph then graph == map[] else exists p :: p in graph && EntryDefect(graph, p, graph[p], e)
  }

  ghost predicate RootDefect(key: string, root: SecurityRoot, graph: PathInfoGraph, e: GraphError) {
    match e
    case RootMisnamed(k) => k == key && root.name != key
    case RootWithoutOwner(k) => k == key && Blank(root.owner)
    case RootWithoutSla(k) => k == key && root.slaHours == 0
    case RootAbsent(k) => k == key && root.path !in graph
    case _ => false
  }

  lemma OutsideIff(path: string, dir: string)
    ensures StartsWith(path, dir) <==> exists name :: path == dir + name
  {
    if StartsWith(path, dir) { assert path == dir + path[|dir|..]; }
    if name :| path == dir + name { assert path[..|dir|] == dir; }
  }

  method ValidateEntry(graph: PathInfoGraph, path: string, info: PathInfo) returns (r: Result<(), GraphError>)
    ensures r.Ok? <==> ValidEntry(graph, path, info)
    ensures r.Err? ==> EntryDefect(graph, path, info, r.error)
  {
    OutsideIff(path, info.storeDir + "/");
    if info.version != 1 { return Err(WrongVersion(path)); }
    if !StartsWith(path, info.storeDir + "/") { return Err(OutsideStore(path)); }
    for k := 0 to |info.references|
      invariant forall j :: 0 <= j < k ==> info.references[j] in graph
    {
      if info.references[k] !in graph { return Err(AbsentReference(path, info.references[k])); }
    }
    return Ok(());
  }

  /** `validate_graph`: accepts exactly the nonempty graphs of well-placed entries whose
      references are all present. */
  method ValidateGraph(graph: PathInfoGraph) returns (r: Result<(), GraphError>)
    ensures r.Ok? <==> ValidGraph(graph)
    ensures r.Err? ==> GraphDefect(graph, r.error)
  {
    if graph == map[] { return Err(EmptyGraph); }
    var paths := Ascending(graph.Keys);
    for i := 0 to |paths|
      invariant forall j :: 0 <= j < i ==> ValidEntry(graph, paths[j], graph[paths[j]])
    {
      r := ValidateEntry(graph, paths[i], graph[paths[i]]);
      if r.Err? { return; }
    }
    return Ok(());
  }

  predicate ValidRoot(key: string, root: SecurityRoot, graph: PathInfoGraph) {
    key == root.name && !Blank(root.owner) && root.slaHours != 0 && root.path in graph
  }

  method ValidateRoot(key: string, root: SecurityRoot, graph: PathInfoGraph) returns (r: Result<(), GraphError>)
    ensures r.Ok? <==> ValidRoot(key, root, graph)
    ensures r.Err? ==> RootDefect(key, root, graph, r.error)
  {
    if key != root.name { return Err(RootMisnamed(key)); }
    if Blank(root.owner) { return Err(RootWithoutOwner(key)); }
    if root.slaHours == 0 { return Err(RootWithoutSla(key)); }
    if root.path !in graph { return Err(RootAbsent(key)); }
    return Ok(());
  }

  // --- one breadth-first search ---

  type Predecessors = map<string, Option<string>>

  /** A predecessor map in which every node knows its distance from the root. */
  ghost predicate Tree(g: Graph, root: string, pred: Predecessors, dist: map<string, nat>) {
    && pred.Keys == dist.Keys
    && root in pred && pred[root] == None && dist[root] == 0
    && (forall v :: HangsFromParent(g, root, pred, dist, v))
  }

  /** A node other than the root was found along a reference of its parent, one step closer in. */
  ghost predicate HangsFromParent(g: Graph, root: string, pred: Predecessors, dist: map<string, nat>, v: string)
    requires pred.Keys == dist.Keys
  {
    v in pred && v != root ==>
      && pred[v].Some? && pred[v].value in pred
      && Edge(g, pred[v].value, v) && dist[v] == dist[pred[v].value] + 1
  }

  /** Node `u` has been taken off the queue: its references are all known, one step away. */
  ghost predicate Expanded(g: Graph, dist: map<string, nat>, u: string)
    requires u in dist
  {
    forall v :: Edge(g, u, v) ==> v in dist && dist[v] <= dist[u] + 1
  }

  /** The queue holds the unexpanded nodes, nearest first, spanning at most one level. */
  ghost predicate Frontier(g: Graph, dist: map<string, nat>, queue: seq<string>) {
    && (forall i :: 0 <= i < |queue| ==> queue[i] in dist)
    && NoDup(queue)
    && (forall i, j :: 0 <= i < j < |queue| ==> dist[queue[i]] <= dist[queue[j]])
    && (forall v :: v in dist && queue != [] ==> dist[v] <= dist[queue[0]] + 1)
    && (forall v :: v in dist && v !in queue ==> Expanded(g, dist, v))
  }

  /** A finished search: everything known is expanded. */
  ghost predicate Complete(g: Graph, root: string, pred: Predecessors, dist: map<string, nat>) {
    Tree(g, root, pred, dist) && forall v :: v in dist ==> Expanded(g, dist, v)
  }

  ghost predicate IsSearch(g: Graph, root: string, pred: Predecessors) {
    exists dist :: Complete(g, root, pred, dist)
  }

  /** In a finished search the recorded distance is a lower bound for every path. */
  lemma {:induction false} DistanceIsShortest(g: Graph, root: string, pred: Predecessors, dist: map<string, nat>, p: seq<string>)
    requires Complete(g, root, pred, dist) && IsPath(g, p) && p[0] == root
    ensures p[|p| - 1] in dist && dist[p[|p| - 1]] <= |p| - 1
    decreases |p|
  {
    if |p| > 1 {
      var q := p[..|p| - 1];
      SubPath(g, p, 0, |p| - 1);
      assert p[0..|p| - 1] == q;
      DistanceIsShortest(g, root, pred, dist, q);
      assert Link(g, p, |p| - 2);
    }
  }

  /** Every node in the tree is reached by a path of exactly its distance. */
  lemma {:induction false} TreeReaches(g: Graph, root: string, pred: Predecessors, dist: map<string, nat>, v: string)
    requires Tree(g, root, pred, dist) && v in dist
    ensures exists p :: PathFromTo(g, p, root, v) && |p| == dist[v] + 1
    decreases dist[v]
  {
    if v == root {
      assert PathFromTo(g, [root], root, v);
    } else {
      assert HangsFromParent(g, root, pred, dist, v);
      var u := pred[v].value;
      TreeReaches(g, root, pred, dist, u);
      var p :| PathFromTo(g, p, root, u) && |p| == dist[u] + 1;
      ExtendPath(g, p, v);
      assert PathFromTo(g, p + [v], root, v);
    }
  }

  /** A finished search knows exactly the reflexive-transitive closure of its root. */
  lemma SearchIsClosure(g: Graph, root: string, pred: Predecessors, v: string)
    requires IsSearch(g, root, pred)
    ensures v in pred <==> Reaches(g, root, v)
  {
    var dist :| Complete(g, root, pred, dist);
    if v in pred { TreeReaches(g, root, pred, dist, v); }
    if Reaches(g, root, v) {
      var p :| PathFromTo(g, p, root, v);
      DistanceIsShortest(g, root, pred, dist, p);
    }
  }

  lemma DiscoverKeepsTree(g: Graph, root: string, pred: Predecessors, dist: map<string, nat>, u: string, v: string)
    requires Tree(g, root, pred, dist) && u in dist && v !in dist && Edge(g, u, v)
    ensures Tree(g, root, pred[v := Some(u)], dist[v := dist[u] + 1])
  {
    var pred', dist' := pred[v := Some(u)], dist[v := dist[u] + 1];
    forall x ensures HangsFromParent(g, root, pred', dist', x) {
      assert HangsFromParent(g, root, pred, dist, x);
    }
  }

  lemma EnqueueKeepsFrontier(g: Graph, dist: map<string, nat>, queue: seq<string>, v: string)
    requires queue != [] && Frontier(g, dist, queue) && v !in dist
    ensures Frontier(g, dist[v := dist[queue[0]] + 1], queue + [v])
  {
    var dist', queue' := dist[v := dist[queue[0]] + 1], queue + [v];
    assert forall x :: x in dist && x !in queue' ==> x !in queue;
    forall x | x in dist' && x !in queue' ensures Expanded(g, dist', x) {
      assert v in queue';
      assert Expanded(g, dist, x);
    }
  }

  lemma DequeueKeepsFrontier(g: Graph, dist: map<string, nat>, queue: seq<string>)
    requires queue != [] && Frontier(g, dist, queue) && Expanded(g, dist, queue[0])
    ensures Frontier(g, dist, queue[1..])
  {
    assert forall x :: x in queue <==> x == queue[0] || x in queue[1..];
  }

  function RootsFor(pathRoots: map<string, seq<string>>, path: string): seq<string> {
    if path in pathRoots then pathRoots[path] else []
  }

  /** Everything a search may come across. */
  ghost function Universe(g: Graph, root: string): set<string> {
    {root} + (set a, i | a in g && 0 <= i < |g[a]| :: g[a][i])
  }

  lemma EdgeInUniverse(g: Graph, root: string, u: string, v: string)
    requires Edge(g, u, v)
    ensures v in Universe(g, root)
  {
    var i :| 0 <= i < |g[u]| && g[u][i] == v;
    assert g[u][i] in Universe(g, root);
  }

  /** The search's state between two queue operations. */
  ghost predicate Searching(g: Graph, root: string, pred: Predecessors, queue: seq<string>) {
    exists dist :: SearchedTo(g, root, pred, queue, dist)
  }

  ghost predicate SearchedTo(g: Graph, root: string, pred: Predecessors, queue: seq<string>, dist: map<string, nat>) {
    Tree(g, root, pred, dist) && Frontier(g, dist, queue)
  }

  lemma DiscoverAt(g: Graph, root: string, pred: Predecessors, queue: seq<string>, dist: map<string, nat>, v: string)
    requires queue != [] && SearchedTo(g, root, pred, queue, dist) && v !in pred && Edge(g, queue[0], v)
    ensures SearchedTo(g, root, pred[v := Some(queue[0])], queue + [v], dist[v := dist[queue[0]] + 1])
  {
    DiscoverKeepsTree(g, root, pred, dist, queue[0], v);
    EnqueueKeepsFrontier(g, dist, queue, v);
  }

  lemma Discover(g: Graph, root: string, pred: Predecessors, queue: seq<string>, v: string)
    requires queue != [] && Searching(g, root, pred, queue) && v !in pred && Edge(g, queue[0], v)
    ensures Searching(g, root, pred[v := Some(queue[0])], queue + [v])
  {
    var dist :| SearchedTo(g, root, pred, queue, dist);
    DiscoverAt(g, root, pred, queue, dist, v);
  }

  lemma Leave(g: Graph, root: string, pred: Predecessors, queue: seq<string>)
    requires queue != [] && Searching(g, root, pred, queue)
    requires forall v :: Edge(g, queue[0], v) ==> v in pred
    ensures Searching(g, root, pred, queue[1..])
  {
    var dist :| SearchedTo(g, root, pred, queue, dist);
    DequeueKeepsFrontier(g, dist, queue);
    assert SearchedTo(g, root, pred, queue[1..], dist);
  }

  /** `added` are the references of `u` newly entered into `pred` and the queue. */
  ghost predicate Entered(g: Graph, u: string, pred0: Predecessors, pred: Predecessors, added: seq<string>) {
    && (forall v :: v in pred <==> v in pred0 || v in added)
    && (forall v :: v in added ==> v !in pred0 && Edge(g, u, v))
  }

  lemma EnterOneMore(g: Graph, u: string, pred0: Predecessors, pred: Predecessors, more: seq<string>, v: string)
    requires v !in pred0 && Edge(g, u, v) && Entered(g, u, pred0[v := Some(u)], pred, more)
    ensures Entered(g, u, pred0, pred, [v] + more)
  {
  }

  /** Entering every reference not seen before, in order. */
  function Enter(refs: seq<string>, u: string, pred: Predecessors, pending: seq<string>): (Predecessors, seq<string>) {
    if refs == [] then (pred, pending)
    else if refs[0] in pred then Enter(refs[1..], u, pred, pending)
    else Enter(refs[1..], u, pred[refs[0] := Some(u)], pending + [refs[0]])
  }

  /** The inner loop over the references of the node just taken off the queue. */
  method Expand(refs: seq<string>, u: string, pred0: Predecessors, pending0: seq<string>)
    returns (pred: Predecessors, pending: seq<string>)
    ensures (pred, pending) == Enter(refs, u, pred0, pending0)
  {
    pred, pending := pred0, pending0;
    for k := 0 to |refs|
      invariant Enter(refs[k..], u, pred, pending) == Enter(refs, u, pred0, pending0)
    {
      assert refs[k..][0] == refs[k] && refs[k..][1..] == refs[k + 1..];
      if refs[k] !in pred {
        pred := pred[refs[k] := Some(u)];
        pending := pending + [refs[k]];
      }
    }
  }

  lemma {:induction false} EnterAdds(g: Graph, refs: seq<string>, u: string, pred: Predecessors, pending: seq<string>)
    returns (added: seq<string>)
    requires forall v :: v in refs ==> Edge(g, u, v)
    ensures var (pred', pending') := Enter(refs, u, pred, pending);
      pending' == pending + added && Entered(g, u, pred, pred', added) && forall v :: v in refs ==> v in pred'
  {
    if refs == [] {
      added := [];
    } else if refs[0] in pred {
      added := EnterAdds(g, refs[1..], u, pred, pending);
    } else {
      var v := refs[0];
      var more := EnterAdds(g, refs[1..], u, pred[v := Some(u)], pending + [v]);
      EnterOneMore(g, u, pred, Enter(refs, u, pred, pending).0, more, v);
      added := [v] + more;
    }
  }

  /** Entering references of the queue's head keeps the search in shape. */
  lemma {:induction false} EnterKeeps(g: Graph, root: string, refs: seq<string>, u: string, pred: Predecessors, pending: seq<string>)
    requires Searching(g, root, pred, [u] + pending)
    requires forall v :: v in refs ==> Edge(g, u, v)
    ensures var (pred', pending') := Enter(refs, u, pred, pending); Searching(g, root, pred', [u] + pending')
  {
    if refs == [] {
    } else if refs[0] in pred {
      EnterKeeps(g, root, refs[1..], u, pred, pending);
    } else {
      var v := refs[0];
      Discover(g, root, pred, [u] + pending, v);
      assert [u] + pending + [v] == [u] + (pending + [v]);
      EnterKeeps(g, root, refs[1..], u, pred[v := Some(u)], pending + [v]);
    }
  }

  /** Taking the head off the queue and entering all its references. */
  lemma ExpandKeeps(g: Graph, root: string, refs: seq<string>, u: string, pred: Predecessors, pending: seq<string>)
    returns (added: seq<string>)
    requires Searching(g, root, pred, [u] + pending)
    requires forall v :: v in refs <==> Edge(g, u, v)
    ensures var (pred', pending') := Enter(refs, u, pred, pending);
      Searching(g, root, pred', pending') && pending' == pending + added && Entered(g, u, pred, pred', added)
  {
    EnterKeeps(g, root, refs, u, pred, pending);
    added := EnterAdds(g, refs, u, pred, pending);
    var (pred', pending') := Enter(refs, u, pred, pending);
    Leave(g, root, pred', [u] + pending');
    assert ([u] + pending')[1..] == pending';
  }

  /** `pathRoots` lists `key` once more for exactly the nodes in `done`. */
  ghost predicate Listed(before: map<string, seq<string>>, after: map<string, seq<string>>, done: set<string>, key: string) {
    && after.Keys == before.Keys + done
    && forall p :: RootsFor(after, p) == RootsFor(before, p) + (if p in done then [key] else [])
  }

  lemma ListOne(before: map<string, seq<string>>, after: map<string, seq<string>>, done: set<string>, key: string, p: string)
    requires Listed(before, after, done, key) && p !in done
    ensures Listed(before, after[p := RootsFor(after, p) + [key]], done + {p}, key)
  {
  }

  ghost predicate Popped(done: set<string>, pred: Predecessors, pending: seq<string>) {
    forall p :: p in done <==> p in pred && p !in pending
  }

  lemma QueueDistinct(g: Graph, root: string, pred: Predecessors, queue: seq<string>)
    requires Searching(g, root, pred, queue)
    ensures NoDup(queue) && forall x :: x in queue ==> x in pred
  {
    var dist :| SearchedTo(g, root, pred, queue, dist);
    forall x | x in queue ensures x in dist {
      var i :| 0 <= i < |queue| && queue[i] == x;
    }
  }

  lemma PopHead(pred: Predecessors, queue: seq<string>, done: set<string>)
    requires queue != [] && NoDup(queue) && (forall x :: x in queue ==> x in pred) && Popped(done, pred, queue)
    ensures queue[0] in pred && queue[0] !in done && queue == [queue[0]] + queue[1..]
    ensures Popped(done + {queue[0]}, pred, queue[1..])
  {
    assert forall x :: x in queue <==> x == queue[0] || x in queue[1..];
    assert queue[0] !in queue[1..];
  }

  lemma PoppedGrows(g: Graph, u: string, done: set<string>, pred: Predecessors, rest: seq<string>, pred': Predecessors, added: seq<string>)
    requires Popped(done, pred, rest) && Entered(g, u, pred, pred', added)
    ensures Popped(done, pred', rest + added)
  {
  }

  method SortedReferences(g: Graph, path: string) returns (refs: seq<string>)
    requires path in g
    ensures forall v :: v in refs <==> Edge(g, path, v)
  {
    refs := SortBy(g[path], StrLeq);
    SameElements(refs, g[path]);
  }

  /** Everything seen so far could be come across. */
  ghost predicate Known(g: Graph, root: string, pred: Predecessors) {
    forall p :: p in pred ==> p in Universe(g, root)
  }

  lemma KnownGrows(g: Graph, root: string, pred: Predecessors, u: string, pred': Predecessors, added: seq<string>)
    requires Known(g, root, pred) && Entered(g, u, pred, pred', added)
    ensures Known(g, root, pred')
  {
    forall v | v in added ensures v in Universe(g, root) { EdgeInUniverse(g, root, u, v); }
  }

  lemma SearchDone(g: Graph, root: string, pred: Predecessors, done: set<string>)
    requires Searching(g, root, pred, []) && Popped(done, pred, [])
    ensures IsSearch(g, root, pred) && done == pred.Keys
  {
    var dist :| SearchedTo(g, root, pred, [], dist);
    assert Complete(g, root, pred, dist);
  }

  /** The root reaches a path the graph has no entry for, and the error names it. */
  ghost predicate Hole(g: Graph, root: string, e: GraphError) {
    e.EntryDisappeared? && Reaches(g, root, e.path) && e.path !in g
  }

  lemma SeenIsReached(g: Graph, root: string, pred: Predecessors, queue: seq<string>, p: string)
    requires Searching(g, root, pred, queue) && p in pred
    ensures Reaches(g, root, p)
  {
    var dist :| SearchedTo(g, root, pred, queue, dist);
    TreeReaches(g, root, pred, dist, p);
  }

  lemma SearchStarts(g: Graph, root: string)
    ensures Searching(g, root, map[root := None], [root])
  {
    var dist: map<string, nat> := map[root := 0];
    assert SearchedTo(g, root, map[root := None], [root], dist);
  }

  /** One root's search: a breadth-first tree of everything the root reaches, with the root's
      key appended once to the list of every path reached. */
  method Explore(g: Graph, key: string, root: string, pathRoots0: map<string, seq<string>>)
    returns (r: Result<Predecessors, GraphError>, pathRoots: map<string, seq<string>>)
    requires root in g
    ensures r.Ok? ==> IsSearch(g, root, r.value) && Listed(pathRoots0, pathRoots, r.value.Keys, key)
    ensures r.Ok? ==> r.value.Keys <= g.Keys
    ensures r.Err? ==> Hole(g, root, r.error)
  {
    pathRoots := pathRoots0;
    var pred: Predecessors := map[root := None];
    var pending := [root];
    ghost var done: set<string> := {};
    SearchStarts(g, root);
    while pending != []
      invariant Searching(g, root, pred, pending)
      invariant Known(g, root, pred)
      invariant Popped(done, pred, pending) && done <= g.Keys
      invariant Listed(pathRoots0, pathRoots, done, key)
      decreases Universe(g, root) - done
    {
      var path := pending[0];
      QueueDistinct(g, root, pred, pending);
      PopHead(pred, pending, done);
      ListOne(pathRoots0, pathRoots, done, key, path);
      pathRoots := pathRoots[path := RootsFor(pathRoots, path) + [key]];
      if path !in g {
        SeenIsReached(g, root, pred, pending, path);
        return Err(EntryDisappeared(path)), pathRoots;
      }
      var refs := SortedReferences(g, path);
      ghost var before, rest := pred, pending[1..];
      ghost var added;
      added := ExpandKeeps(g, root, refs, path, pred, rest);
      pred, pending := Expand(refs, path, pred, pending[1..]);
      done := done + {path};
      PoppedGrows(g, path, done, before, rest, pred, added);
      KnownGrows(g, root, before, path, pred, added);
    }
    SearchDone(g, root, pred, done);
    r := Ok(pred);
  }

  // --- every root, and the chains read back ---

  datatype Reachability = Reachability(pathRoots: map<string, seq<string>>, predecessors: map<string, Predecessors>)

  ghost predicate RootReaches(g: Graph, roots: SecurityRoots, key: string, p: string) {
    key in roots && Reaches(g, roots[key].path, p)
  }

  ghost predicate Found(all: map<string, Predecessors>, key: string, p: string) {
    key in all && p in all[key]
  }

  /** `list` names, once each, the roots whose search found `p`. */
  ghost predicate ListsRoots(all: map<string, Predecessors>, p: string, list: seq<string>) {
    && (forall key :: key in list <==> Found(all, key, p))
    && NoDup(list)
  }

  ghost predicate AllListed(r: Reachability) {
    && (forall p :: ListsRoots(r.predecessors, p, RootsFor(r.pathRoots, p)))
    && (forall p :: p in r.pathRoots ==> r.pathRoots[p] != [])
  }

  ghost predicate AllSearched(g: Graph, graph: PathInfoGraph, roots: SecurityRoots, all: map<string, Predecessors>) {
    forall k :: k in all ==> k in roots && ValidRoot(k, roots[k], graph) && IsSearch(g, roots[k].path, all[k]) && all[k].Keys <= g.Keys
  }

  ghost predicate IsReachability(graph: PathInfoGraph, roots: SecurityRoots, r: Reachability) {
    && r.predecessors.Keys == roots.Keys
    && AllSearched(References(graph), graph, roots, r.predecessors)
    && AllListed(r)
  }

  /** The result is exactly the reflexive-transitive closure, root by root: each path lists the
      roots that reach it, each once. */
  lemma ClosureIsExact(graph: PathInfoGraph, roots: SecurityRoots, r: Reachability, p: string)
    requires IsReachability(graph, roots, r)
    ensures forall key :: key in RootsFor(r.pathRoots, p) <==> RootReaches(References(graph), roots, key, p)
    ensures p in r.pathRoots <==> exists key :: RootReaches(References(graph), roots, key, p)
    ensures NoDup(RootsFor(r.pathRoots, p))
  {
    var g := References(graph);
    assert ListsRoots(r.predecessors, p, RootsFor(r.pathRoots, p));
    forall key ensures Found(r.predecessors, key, p) <==> RootReaches(g, roots, key, p) {
      if key in roots { SearchIsClosure(g, roots[key].path, r.predecessors[key], p); }
    }
    if p in r.pathRoots {
      var key := r.pathRoots[p][0];
      assert key in RootsFor(r.pathRoots, p);
      assert RootReaches(g, roots, key, p);
    }
  }

  lemma ListGrows(all: map<string, Predecessors>, key: string, pred: Predecessors, p: string, list: seq<string>)
    requires ListsRoots(all, p, list) && key !in all
    ensures ListsRoots(all[key := pred], p, list + (if p in pred then [key] else []))
  {
    forall i | 0 <= i < |list| ensures list[i] != key {
      assert list[i] in list;
      assert Found(all, list[i], p);
    }
    var list' := list + (if p in pred then [key] else []);
    forall k ensures k in list' <==> Found(all[key := pred], k, p) {
      assert k in list <==> Found(all, k, p);
    }
  }

  lemma ListGrowsAt(all: map<string, Predecessors>, before: map<string, seq<string>>, after: map<string, seq<string>>,
                    key: string, pred: Predecessors, p: string)
    requires ListsRoots(all, p, RootsFor(before, p)) && key !in all
    requires RootsFor(after, p) == RootsFor(before, p) + (if p in pred.Keys then [key] else [])
    ensures ListsRoots(all[key := pred], p, RootsFor(after, p))
  {
    ListGrows(all, key, pred, p, RootsFor(before, p));
  }

  lemma NoListEmpty(before: map<string, seq<string>>, after: map<string, seq<string>>, done: set<string>, key: string)
    requires Listed(before, after, done, key) && forall p :: p in before ==> before[p] != []
    ensures forall p :: p in after ==> after[p] != []
  {
    forall p | p in after ensures after[p] != [] {
      assert after[p] == RootsFor(after, p);
    }
  }

  lemma ListsGrow(r: Reachability, key: string, after: map<string, seq<string>>, pred: Predecessors)
    requires AllListed(r) && key !in r.predecessors
    requires Listed(r.pathRoots, after, pred.Keys, key)
    ensures AllListed(Reachability(after, r.predecessors[key := pred]))
  {
    var all := r.predecessors[key := pred];
    forall p ensures ListsRoots(all, p, RootsFor(after, p)) {
      ListGrowsAt(r.predecessors, r.pathRoots, after, key, pred, p);
    }
    NoListEmpty(r.pathRoots, after, pred.Keys, key);
  }

  lemma SearchedGrows(g: Graph, graph: PathInfoGraph, roots: SecurityRoots, all: map<string, Predecessors>, key: string, pred: Predecessors)
    requires AllSearched(g, graph, roots, all)
    requires key in roots && ValidRoot(key, roots[key], graph) && IsSearch(g, roots[key].path, pred) && pred.Keys <= g.Keys
    ensures AllSearched(g, graph, roots, all[key := pred])
  {
  }

  /** Everything the roots reach has an entry. */
  ghost predicate AllPresent(graph: PathInfoGraph, roots: SecurityRoots) {
    forall key, p :: RootReaches(References(graph), roots, key, p) ==> p in graph
  }

  ghost predicate RootsValid(graph: PathInfoGraph, roots: SecurityRoots) {
    forall key :: key in roots ==> ValidRoot(key, roots[key], graph)
  }

  /** Some root gives cause for the error: it is not valid in that way, or reaches that path,
      which has no entry. */
  ghost predicate Rejected(graph: PathInfoGraph, roots: SecurityRoots, e: GraphError) {
    exists k :: k in roots && (RootDefect(k, roots[k], graph, e) || Hole(References(graph), roots[k].path, e))
  }

  lemma RejectedIff(graph: PathInfoGraph, roots: SecurityRoots, e: GraphError)
    requires Rejected(graph, roots, e)
    ensures !(RootsValid(graph, roots) && AllPresent(graph, roots))
  {
    var k :| k in roots && (RootDefect(k, roots[k], graph, e) || Hole(References(graph), roots[k].path, e));
    if Hole(References(graph), roots[k].path, e) {
      assert RootReaches(References(graph), roots, k, e.path);
    } else {
      assert !ValidRoot(k, roots[k], graph);
    }
  }

  lemma SearchedIsPresent(graph: PathInfoGraph, roots: SecurityRoots, r: Reachability)
    requires IsReachability(graph, roots, r)
    ensures RootsValid(graph, roots) && AllPresent(graph, roots)
  {
    var g := References(graph);
    forall key, p | RootReaches(g, roots, key, p) ensures p in graph {
      SearchIsClosure(g, roots[key].path, r.predecessors[key], p);
      assert p in g;
    }
  }

  /** What `validate_graph` accepts has an entry for everything its valid roots reach. */
  lemma ValidGraphIsPresent(graph: PathInfoGraph, roots: SecurityRoots)
    requires ValidGraph(graph) && RootsValid(graph, roots)
    ensures AllPresent(graph, roots)
  {
    var g := References(graph);
    ValidIsClosed(graph);
    forall key, p | RootReaches(g, roots, key, p) ensures p in graph {
      var path :| PathFromTo(g, path, roots[key].path, p);
      assert ValidRoot(key, roots[key], graph);
      if |path| > 1 { assert Link(g, path, |path| - 2); }
    }
  }

  method SearchRoot(graph: PathInfoGraph, g: Graph, roots: SecurityRoots, key: string, reach: Reachability)
    returns (r: Result<Reachability, GraphError>)
    requires g == References(graph) && key in roots && key !in reach.predecessors
    requires AllListed(reach) && AllSearched(g, graph, roots, reach.predecessors)
    ensures r.Ok? ==> AllListed(r.value) && AllSearched(g, graph, roots, r.value.predecessors)
    ensures r.Ok? ==> r.value.predecessors.Keys == reach.predecessors.Keys + {key}
    ensures r.Err? ==> Rejected(graph, roots, r.error)
  {
    var valid := ValidateRoot(key, roots[key], graph);
    if valid.Err? { return Err(valid.error); }
    var search, pathRoots := Explore(g, key, roots[key].path, reach.pathRoots);
    if search.Err? { return Err(search.error); }
    ListsGrow(reach, key, pathRoots, search.value);
    SearchedGrows(g, graph, roots, reach.predecessors, key, search.value);
    r := Ok(Reachability(pathRoots, reach.predecessors[key := search.value]));
  }

  /** The loop over the roots, in key order. */
  method SearchRoots(graph: PathInfoGraph, g: Graph, roots: SecurityRoots, names: seq<string>)
    returns (r: Result<Reachability, GraphError>)
    requires g == References(graph) && NoDup(names) && forall k :: k in names ==> k in roots
    ensures r.Ok? ==> AllListed(r.value) && AllSearched(g, graph, roots, r.value.predecessors)
    ensures r.Ok? ==> forall k :: k in r.value.predecessors <==> k in names
    ensures r.Err? ==> Rejected(graph, roots, r.error)
  {
    var reach := Reachability(map[], map[]);
    for n := 0 to |names|
      invariant AllListed(reach) && AllSearched(g, graph, roots, reach.predecessors)
      invariant forall k :: k in reach.predecessors <==> k in names[..n]
    {
      assert names[..n + 1] == names[..n] + [names[n]];
      var one := SearchRoot(graph, g, roots, names[n], reach);
      if one.Err? { return one; }
      reach := one.value;
    }
    assert names[..|names|] == names;
    r := Ok(reach);
  }

  lemma RootsSearched(graph: PathInfoGraph, roots: SecurityRoots, names: seq<string>, r: Reachability)
    requires AllListed(r) && AllSearched(References(graph), graph, roots, r.predecessors)
    requires forall k :: k in r.predecessors <==> k in names
    requires forall k :: k in names <==> k in roots.Keys
    ensures IsReachability(graph, roots, r) && RootsValid(graph, roots) && AllPresent(graph, roots)
  {
    assert r.predecessors.Keys == roots.Keys;
    SearchedIsPresent(graph, roots, r);
  }

  /** `reachability`: succeeds exactly when every root is valid and everything the roots reach
      has an entry. */
  method ComputeReachability(graph: PathInfoGraph, roots: SecurityRoots) returns (r: Result<Reachability, GraphError>)
    ensures r.Ok? ==> IsReachability(graph, roots, r.value)
    ensures r.Ok? <==> RootsValid(graph, roots) && AllPresent(graph, roots)
    ensures r.Err? ==> Rejected(graph, roots, r.error)
  {
    var names := Ascending(roots.Keys);
    r := SearchRoots(graph, References(graph), roots, names);
    if r.Ok? { RootsSearched(graph, roots, names, r.value); } else { RejectedIff(graph, roots, r.error); }
  }

  /** `chain` leads from `start` to `goal`, and no path does so in fewer steps. */
  ghost predicate ShortestChain(g: Graph, start: string, goal: string, chain: seq<string>) {
    && PathFromTo(g, chain, start, goal)
    && forall p :: PathFromTo(g, p, start, goal) ==> |chain| <= |p|
  }

  lemma ReverseSnoc<T>(s: seq<T>, x: T)
    ensures Reverse(s + [x]) == [x] + Reverse(s)
  {
  }

  /** The walk along predecessors, reversed at the end. */
  method WalkBack(ghost g: Graph, ghost start: string, pred: Predecessors, ghost dist: map<string, nat>, goal: string)
    returns (chain: seq<string>)
    requires Tree(g, start, pred, dist) && goal in pred
    ensures PathFromTo(g, chain, start, goal) && |chain| == dist[goal] + 1
  {
    var result, current := [goal], goal;
    while pred[current].Some?
      invariant current in pred
      invariant PathFromTo(g, Reverse(result), current, goal)
      invariant |result| + dist[current] == dist[goal] + 1
      decreases dist[current]
    {
      assert HangsFromParent(g, start, pred, dist, current);
      var parent := pred[current].value;
      PrependPath(g, parent, Reverse(result), goal);
      ReverseSnoc(result, parent);
      result := result + [parent];
      current := parent;
    }
    assert HangsFromParent(g, start, pred, dist, current);
    chain := Reverse(result);
  }

  lemma NoneIsShorter(g: Graph, start: string, pred: Predecessors, dist: map<string, nat>, goal: string, chain: seq<string>)
    requires Complete(g, start, pred, dist) && goal in dist
    requires PathFromTo(g, chain, start, goal) && |chain| == dist[goal] + 1
    ensures ShortestChain(g, start, goal, chain)
  {
    forall p | PathFromTo(g, p, start, goal) ensures |chain| <= |p| {
      DistanceIsShortest(g, start, pred, dist, p);
    }
  }

  ghost predicate SearchedFrom(graph: PathInfoGraph, roots: SecurityRoots, key: string, pred: Predecessors) {
    key in roots && IsSearch(References(graph), roots[key].path, pred)
  }

  /** `Reachability::path`: terminates on every graph, cyclic ones included, and answers with
      a shortest chain of references exactly when the root is known and reaches the goal. */
  method Path(ghost graph: PathInfoGraph, ghost roots: SecurityRoots, reach: Reachability, root: string, goal: string)
    returns (r: Result<seq<string>, GraphError>)
    requires root in reach.predecessors ==> SearchedFrom(graph, roots, root, reach.predecessors[root])
    ensures r.Ok? <==> root in reach.predecessors && RootReaches(References(graph), roots, root, goal)
    ensures r.Ok? ==> ShortestChain(References(graph), roots[root].path, goal, r.value)
  {
    ghost var g := References(graph);
    if root !in reach.predecessors { return Err(UnknownRoot(root)); }
    var pred := reach.predecessors[root];
    ghost var start := roots[root].path;
    SearchIsClosure(g, start, pred, goal);
    if goal !in pred { return Err(Unreachable(root, goal)); }
    ghost var dist :| Complete(g, start, pred, dist);
    var chain := WalkBack(g, start, pred, dist, goal);
    NoneIsShorter(g, start, pred, dist, goal, chain);
    r := Ok(chain);
  }
}
