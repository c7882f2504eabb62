/** Root causes of rebuilt checks: the changed derivations none of whose inputs changed. */
module BlastRadius {

  datatype DrvNode = DrvNode(name: string, inputs: seq<string>)

  type DrvGraph = map<string, DrvNode>

  predicate IsChanged(base: DrvGraph, basename: string) {
    basename !in base
  }

  function ChangedInputs(base: DrvGraph, inputs: seq<string>): (r: seq<string>)
    ensures forall x :: x in r <==> x in inputs && IsChanged(base, x)
  {
    if inputs == [] then []
    else
      assert forall x :: x in inputs <==> x == inputs[0] || x in inputs[1..];
      (if IsChanged(base, inputs[0]) then [inputs[0]] else []) + ChangedInputs(base, inputs[1..])
  }

  /** A changed derivation and a changed input of it. */
  predicate ChangedEdge(base: DrvGraph, head: DrvGraph, x: string, y: string) {
    x in head && IsChanged(base, x) && y in head[x].inputs && IsChanged(base, y)
  }

  /** A changed derivation with no changed input. */
  ghost predicate Frontier(base: DrvGraph, head: DrvGraph, x: string) {
    x in head && IsChanged(base, x) && forall y :: y in head[x].inputs ==> !IsChanged(base, y)
  }

  ghost predicate ClosedSet(base: DrvGraph, head: DrvGraph, s: set<string>) {
    forall x, y :: x in s && ChangedEdge(base, head, x, y) ==> y in s
  }

  /** What a walk has seen, and which derivations it has blamed. */
  datatype Progress = Progress(seen: set<string>, blamed: set<string>)

  /** The derivations newly seen are expanded, and the frontier among them is what is newly blamed. */
  ghost predicate Walked(base: DrvGraph, head: DrvGraph, p: Progress, q: Progress) {
    && p.seen <= q.seen
    && (forall x, y :: x in q.seen && x !in p.seen && ChangedEdge(base, head, x, y) ==> y in q.seen)
    && (forall x :: x in q.blamed <==> x in p.blamed || (x in q.seen && x !in p.seen && Frontier(base, head, x)))
  }

  lemma WalkedOn(base: DrvGraph, head: DrvGraph, p: Progress, q: Progress, r: Progress)
    requires Walked(base, head, p, q) && Walked(base, head, q, r)
    ensures Walked(base, head, p, r)
  {
  }

  /** A node with no changed edge out of it. */
  lemma WalkedLeaf(base: DrvGraph, head: DrvGraph, p: Progress, x: string, q: Progress)
    requires x !in p.seen && q.seen == p.seen + {x} && forall y :: !ChangedEdge(base, head, x, y)
    requires q.blamed == if x in head && IsChanged(base, x) then p.blamed + {x} else p.blamed
    ensures Walked(base, head, p, q)
  {
    if x in head && IsChanged(base, x) {
      assert forall y :: y in head[x].inputs ==> !ChangedEdge(base, head, x, y);
    }
  }

  /** A node whose changed inputs have all been walked. */
  lemma WalkedNode(base: DrvGraph, head: DrvGraph, p: Progress, x: string, y: string, q: Progress)
    requires x !in p.seen && Walked(base, head, p.(seen := p.seen + {x}), q)
    requires ChangedEdge(base, head, x, y) && forall z :: ChangedEdge(base, head, x, z) ==> z in q.seen
    ensures Walked(base, head, p, q)
  {
    assert !Frontier(base, head, x);
  }

  ghost function Names(head: DrvGraph, s: set<string>): set<string> {
    set x | x in s && x in head :: head[x].name
  }

  /** The depth-first walk and what it has seen and found. */
  class FrontierWalk {
    const base: DrvGraph
    const head: DrvGraph
    var seen: set<string>
    var out: set<string>
    /** The derivations whose names are in `out`. */
    ghost var blamed: set<string>

    constructor (base: DrvGraph, head: DrvGraph)
      ensures this.base == base && this.head == head && seen == {} && out == {} && blamed == {}
    {
      this.base, this.head := base, head;
      seen, out, blamed := {}, {}, {};
    }

    ghost function State(): Progress
      reads this
    {
      Progress(seen, blamed)
    }

    /** `collect_frontier` */
    method Collect(start: string, ghost inside: set<string>)
      requires out == Names(head, blamed) && start in inside && ClosedSet(base, head, inside)
      modifies this
      ensures out == Names(head, blamed) && Walked(base, head, old(State()), State())
      ensures start in seen && seen <= old(seen) + inside
      decreases inside - seen, 0
    {
      if start in seen { return; }
      ghost var before := State();
      seen := seen + {start};
      if !IsChanged(base, start) || start !in head {
        WalkedLeaf(base, head, before, start, State());
        return;
      }
      var node := head[start];
      var changedInputs := ChangedInputs(base, node.inputs);
      if changedInputs == [] {
        out, blamed := out + {node.name}, blamed + {start};
        assert forall y :: y in node.inputs && IsChanged(base, y) ==> y in changedInputs;
        WalkedLeaf(base, head, before, start, State());
      } else {
        CollectAll(changedInputs, inside);
        assert ChangedEdge(base, head, start, changedInputs[0]);
        WalkedNode(base, head, before, start, changedInputs[0], State());
      }
    }

    method CollectAll(inputs: seq<string>, ghost inside: set<string>)
      requires out == Names(head, blamed) && ClosedSet(base, head, inside) && forall x :: x in inputs ==> x in inside
      modifies this
      ensures out == Names(head, blamed) && Walked(base, head, old(State()), State())
      ensures seen <= old(seen) + inside && forall x :: x in inputs ==> x in seen
      decreases inside - seen, 1
    {
      for i := 0 to |inputs|
        invariant out == Names(head, blamed) && Walked(base, head, old(State()), State())
        invariant old(seen) <= seen <= old(seen) + inside && forall j :: 0 <= j < i ==> inputs[j] in seen
      {
        assert inputs[i] in inputs && inside - seen <= inside - old(seen);
        ghost var between := State();
        Collect(inputs[i], inside);
        WalkedOn(base, head, old(State()), between, State());
      }
    }
  }
}
