/** When succeeding tasks are enough: the condition on a specification under which every run
    whose tasks all succeed exits zero. */
module DagCoverage {
  import opened Wrappers
  import opened Ordering
  import opened Digraph
  import opened DagSpec
  import opened DagProtocol
  import opened DagSafety
  import opened DagProgress

  /** Some other node that is a task transitively depends on the node. */
  ghost predicate Needed(nodes: Nodes, n: string) {
    exists t :: IsTask(nodes, t) && t != n && Reaches(Dependencies(nodes), t, n)
  }

  /** Every service is a transitive dependency of some task. */
  ghost predicate Covered(nodes: Nodes) {
    forall n :: n in nodes && !IsTask(nodes, n) ==> Needed(nodes, n)
  }

  ghost predicate TasksSucceeded(nodes: Nodes, s: State) {
    forall n :: IsTask(nodes, n) ==> n in s.records && s.records[n] == Succeeded
  }

  // --- an aborted run leaves some task unsuccessful ---

  ghost predicate Unmet(nodes: Nodes, s: State, n: string) {
    IsTask(nodes, n) && !(n in s.records && s.records[n] == Succeeded)
  }

  ghost predicate AbortCosts(nodes: Nodes, s: State) {
    s.reason == Some(Aborted) && Tasks(nodes) != {} ==> exists n :: Unmet(nodes, s, n)
  }

  /** Once a reason is out no task succeeds any more. */
  lemma StaysUnmet(nodes: Nodes, s: State, a: Action, n: string)
    requires NodesInv(nodes, s) && Enabled(nodes, s, a) && s.reason.Some? && Unmet(nodes, s, n)
    ensures Unmet(nodes, Apply(nodes, s, a), n)
  {
    assert NodeInv(nodes, s, n);
    if a.n != n {
      assert NodeInv(nodes, s, a.n);
      SubjectKeepsInv(nodes, s, a);
    }
  }

  /** The step that aborts a run is one of a service. */
  lemma AbortedByService(nodes: Nodes, s: State, a: Action)
    requires NodesInv(nodes, s) && Enabled(nodes, s, a) && s.reason.None? && Apply(nodes, s, a).reason == Some(Aborted)
    ensures !a.CtrlC? && a.n in nodes && !IsTask(nodes, a.n)
  {
    assert NodeInv(nodes, s, a.n);
    StretchRequestsAbort(nodes, s, a);
  }

  lemma AbortFindsUnmet(nodes: Nodes, s: State, a: Action)
    requires Inv(nodes, s) && Enabled(nodes, s, a) && s.reason.None? && Apply(nodes, s, a).reason == Some(Aborted)
    requires Tasks(nodes) != {}
    ensures exists n :: Unmet(nodes, Apply(nodes, s, a), n)
  {
    var n :| n in Tasks(nodes) && n !in s.records;
    AbortedByService(nodes, s, a);
    assert NodeInv(nodes, s, a.n);
    SubjectKeepsInv(nodes, s, a);
    assert Unmet(nodes, Apply(nodes, s, a), n);
  }

  lemma StepKeepsCost(nodes: Nodes, s: State, t: State)
    requires Inv(nodes, s) && AbortCosts(nodes, s) && Next(nodes, s, t)
    ensures AbortCosts(nodes, t)
  {
    var a :| Enabled(nodes, s, a) && t == Apply(nodes, s, a);
    if t.reason == Some(Aborted) && Tasks(nodes) != {} {
      StepKeepsInv(nodes, s, t);
      if s.reason.Some? {
        var n :| Unmet(nodes, s, n);
        StaysUnmet(nodes, s, a, n);
      } else {
        AbortFindsUnmet(nodes, s, a);
      }
    }
  }

  lemma RunStepKeepsCost(nodes: Nodes, run: seq<State>, i: int)
    requires IsRun(nodes, run) && 0 <= i < |run| - 1 && AbortCosts(nodes, run[i])
    ensures AbortCosts(nodes, run[i + 1])
  {
    RunKeepsInv(nodes, run, i);
    assert Successive(nodes, run, i);
    StepKeepsCost(nodes, run[i], run[i + 1]);
  }

  lemma {:induction false} RunKeepsCost(nodes: Nodes, run: seq<State>, i: int)
    requires IsRun(nodes, run) && 0 <= i < |run|
    ensures AbortCosts(nodes, run[i])
  {
    if i > 0 {
      RunKeepsCost(nodes, run, i - 1);
      RunStepKeepsCost(nodes, run, i - 1);
    }
  }

  /** A run that aborted has an unsuccessful task, if the specification has a task. */
  lemma SuccessIsNotAborted(nodes: Nodes, s: State)
    requires Reached(nodes, s) && Tasks(nodes) != {} && TasksSucceeded(nodes, s)
    ensures s.reason != Some(Aborted)
  {
    var run :| IsRun(nodes, run) && run[|run| - 1] == s;
    RunKeepsCost(nodes, run, |run| - 1);
  }

  // --- covered specifications ---

  /** A node that published ready found all its dependencies ready. */
  lemma ReadyHadReadyDeps(nodes: Nodes, s: State, n: string)
    requires NodesInv(nodes, s) && n in nodes && s.verdict[n] == Some(Ready)
    ensures AllDepsReady(nodes, s, n) && !(n in s.records && s.records[n] == Skipped)
  {
    assert NodeInv(nodes, s, n);
  }

  lemma {:induction false} ReadyDescends(nodes: Nodes, s: State, p: seq<string>)
    requires Valid(nodes) && NodesInv(nodes, s) && IsPath(Dependencies(nodes), p) && |p| > 1
    requires p[0] in nodes && AllDepsReady(nodes, s, p[0])
    ensures p[|p| - 1] in nodes && s.verdict[p[|p| - 1]] == Some(Ready)
    decreases |p|
  {
    var g := Dependencies(nodes);
    assert Link(g, p, 0);
    var j :| 0 <= j < |nodes[p[0]].dependsOn| && nodes[p[0]].dependsOn[j] == p[1];
    assert s.verdict[p[1]] == Some(Ready);
    if |p| > 2 {
      ReadyHadReadyDeps(nodes, s, p[1]);
      SubPath(g, p, 1, |p|);
      assert p[1..|p|] == p[1..];
      ReadyDescends(nodes, s, p[1..]);
    }
  }

  /** Every task is running or has succeeded, so every dependency of one has been ready. */
  lemma NeededIsReady(nodes: Nodes, s: State, n: string)
    requires Valid(nodes) && NodesInv(nodes, s) && Needed(nodes, n)
    requires forall t :: IsTask(nodes, t) ==> s.phase[t].Running? || (t in s.records && s.records[t] == Succeeded)
    ensures n in nodes && s.verdict[n] == Some(Ready)
  {
    var t :| IsTask(nodes, t) && t != n && Reaches(Dependencies(nodes), t, n);
    var p :| PathFromTo(Dependencies(nodes), p, t, n);
    assert NodeInv(nodes, s, t);
    ReadyDescends(nodes, s, p);
  }

  lemma CoveredIsHarmless(nodes: Nodes, s: State, n: string)
    requires Valid(nodes) && NodesInv(nodes, s) && Done(s) && TasksSucceeded(nodes, s) && s.reason != Some(Aborted)
    requires n in nodes && (IsTask(nodes, n) || Needed(nodes, n))
    ensures n in s.records && Harmless(nodes, n, s.records[n])
  {
    assert NodeInv(nodes, s, n);
    if !IsTask(nodes, n) {
      NeededIsReady(nodes, s, n);
      ReadyHadReadyDeps(nodes, s, n);
    }
  }

  lemma HarmlessExitsZero(nodes: Nodes, s: State)
    requires Inv(nodes, s) && Done(s) && s.reason != Some(Cancelled)
    requires forall n :: n in nodes ==> n in s.records && Harmless(nodes, n, s.records[n])
    ensures ExitsWith(s, 0)
  {
    forall n | n in s.records ensures ExitContribution(s.records[n]) == 0 { assert Harmless(nodes, n, s.records[n]); }
    if s.records != map[] {
      var n :| n in s.records;
      assert ExitContribution(s.records[n]) == 0;
    }
  }

  lemma ReachedInv(nodes: Nodes, s: State)
    requires Reached(nodes, s)
    ensures Inv(nodes, s)
  {
    var run :| IsRun(nodes, run) && run[|run| - 1] == s;
    RunKeepsInv(nodes, run, |run| - 1);
  }

  lemma CoveredHasTask(nodes: Nodes)
    requires Covered(nodes) && nodes != map[]
    ensures Tasks(nodes) != {}
  {
    var n :| n in nodes;
    if IsTask(nodes, n) {
      assert n in Tasks(nodes);
    } else {
      var t :| IsTask(nodes, t) && t != n && Reaches(Dependencies(nodes), t, n);
      assert t in Tasks(nodes);
    }
  }

  /** If every service is a transitive dependency of a task, a run whose tasks all succeeded
      exits zero unless it was cancelled. */
  lemma CoveredExitsZero(nodes: Nodes, s: State)
    requires Valid(nodes) && Covered(nodes) && Reached(nodes, s)
    requires Done(s) && s.reason != Some(Cancelled) && TasksSucceeded(nodes, s)
    ensures ExitsWith(s, 0)
  {
    ReachedInv(nodes, s);
    if nodes != map[] {
      CoveredHasTask(nodes);
      SuccessIsNotAborted(nodes, s);
      forall n | n in nodes ensures n in s.records && Harmless(nodes, n, s.records[n]) {
        CoveredIsHarmless(nodes, s, n);
      }
    }
    HarmlessExitsZero(nodes, s);
  }

  // --- other specifications: holding back one node ---

  /** Nothing has failed at this node. */
  ghost predicate Calm(s: State, n: string)
    requires n in s.phase
  {
    || s.phase[n].Waiting? || s.phase[n].Running? || s.phase[n].Starting? || s.phase[n].Serving?
    || (s.phase[n].Settled? && n in s.records && s.records[n] == Succeeded)
  }

  ghost predicate AllCalm(s: State) {
    forall n {:trigger Calm(s, n)} :: n in s.phase ==> Calm(s, n)
  }

  lemma StepStaysCalm(nodes: Nodes, s: State, a: Action)
    requires NodesInv(nodes, s) && AllCalm(s) && Enabled(nodes, s, a) && !a.CtrlC? && a.n in nodes
    requires a.n in Apply(nodes, s, a).phase && Calm(Apply(nodes, s, a), a.n)
    ensures AllCalm(Apply(nodes, s, a))
  {
    assert NodeInv(nodes, s, a.n);
    SubjectKeepsInv(nodes, s, a);
    var t := Apply(nodes, s, a);
    forall n | n in t.phase ensures Calm(t, n) {
      if n != a.n { assert Calm(s, n); }
    }
  }

  predicate Active(s: State, n: string) {
    n in s.phase && (s.phase[n].Running? || s.phase[n].Starting?)
  }

  /** What an active node is waiting for, happening. */
  function Comes(s: State, n: string): Action
    requires Active(s, n)
  {
    if s.phase[n].Running? then TaskExits(n, Code(0)) else ProbePasses(n)
  }

  lemma ActiveMoves(nodes: Nodes, s: State, n: string)
    requires NodesInv(nodes, s) && AllCalm(s) && s.reason.None? && n in nodes && Active(s, n)
    ensures Enabled(nodes, s, Comes(s, n))
    ensures var t := Apply(nodes, s, Comes(s, n)); AllCalm(t) && (t.reason.None? || t.reason == Some(Drained))
    ensures StepAt(nodes, s, Apply(nodes, s, Comes(s, n)), n)
  {
    assert NodeInv(nodes, s, n);
    SubjectKeepsInv(nodes, s, Comes(s, n));
    StepStaysCalm(nodes, s, Comes(s, n));
  }

  /** A waiting node that can take its next step by itself. */
  predicate CanStep(nodes: Nodes, s: State, n: string) {
    PastDependencies(nodes, s, n) || AtDependency(nodes, s, n, Ready)
  }

  function StepOf(nodes: Nodes, s: State, n: string): Action {
    if PastDependencies(nodes, s, n) then Spawn(n) else DepReady(n)
  }

  lemma WaitingMoves(nodes: Nodes, s: State, n: string)
    requires NodesInv(nodes, s) && AllCalm(s) && s.reason.None? && CanStep(nodes, s, n)
    ensures Enabled(nodes, s, StepOf(nodes, s, n))
    ensures var t := Apply(nodes, s, StepOf(nodes, s, n)); AllCalm(t) && t.reason.None? && t.verdict == s.verdict
    ensures StepAt(nodes, s, Apply(nodes, s, StepOf(nodes, s, n)), n)
  {
    assert NodeInv(nodes, s, n);
    SubjectKeepsInv(nodes, s, StepOf(nodes, s, n));
    StepStaysCalm(nodes, s, StepOf(nodes, s, n));
  }

  /** A calm node that is through has published ready. */
  lemma ThroughIsReady(nodes: Nodes, s: State, n: string)
    requires NodesInv(nodes, s) && AllCalm(s) && n in nodes && !s.phase[n].Waiting? && !Active(s, n)
    ensures s.verdict[n] == Some(Ready)
  {
    assert NodeInv(nodes, s, n) && Calm(s, n);
  }

  /** The nodes that do not depend on `h`. */
  ghost predicate Free(nodes: Nodes, n: string, h: string) {
    n in nodes && !Reaches(Dependencies(nodes), n, h)
  }

  lemma FreeBelow(nodes: Nodes, n: string, h: string, j: int)
    requires Valid(nodes) && Free(nodes, n, h) && 0 <= j < |nodes[n].dependsOn|
    ensures Free(nodes, nodes[n].dependsOn[j], h)
  {
    var g, d := Dependencies(nodes), nodes[n].dependsOn[j];
    assert Edge(g, n, d);
    if Reaches(g, d, h) { StepReaches(g, n, d, h); }
  }

  /** A waiting node below which nothing waits or is active can take its next step. */
  lemma LowestCanStep(nodes: Nodes, s: State, n: string)
    requires Valid(nodes) && NodesInv(nodes, s) && AllCalm(s) && n in nodes && s.phase[n].Waiting?
    requires forall j :: 0 <= j < |nodes[n].dependsOn| ==>
      var d := nodes[n].dependsOn[j]; d in nodes && !s.phase[d].Waiting? && !Active(s, d)
    ensures CanStep(nodes, s, n)
  {
    assert NodeInv(nodes, s, n);
    var k := s.phase[n].next;
    if k < |nodes[n].dependsOn| { ThroughIsReady(nodes, s, nodes[n].dependsOn[k]); }
  }

  /** While some free node waits and none is active, a free node can take its next step. */
  lemma FreeCanStep(nodes: Nodes, s: State, h: string, waiting: set<string>) returns (n: string)
    requires Valid(nodes) && NodesInv(nodes, s) && AllCalm(s) && waiting != {}
    requires forall m :: m in waiting <==> Free(nodes, m, h) && s.phase[m].Waiting?
    requires forall m :: Free(nodes, m, h) ==> !Active(s, m)
    ensures n in waiting && CanStep(nodes, s, n)
  {
    n := AcyclicHasSink(Dependencies(nodes), waiting);
    forall j | 0 <= j < |nodes[n].dependsOn|
      ensures var d := nodes[n].dependsOn[j]; d in nodes && !s.phase[d].Waiting? && !Active(s, d)
    {
      FreeBelow(nodes, n, h, j);
      assert Edge(Dependencies(nodes), n, nodes[n].dependsOn[j]);
    }
    LowestCanStep(nodes, s, n);
  }

  /** While some task that does not depend on `h` is unrecorded, a free node can move. */
  lemma FreeMoves(nodes: Nodes, s: State, h: string, t: string) returns (n: string)
    requires Valid(nodes) && NodesInv(nodes, s) && AllCalm(s)
    requires IsTask(nodes, t) && Free(nodes, t, h) && t !in s.records
    ensures Free(nodes, n, h) && (Active(s, n) || CanStep(nodes, s, n))
  {
    assert NodeInv(nodes, s, t) && Calm(s, t);
    if m :| Free(nodes, m, h) && Active(s, m) {
      n := m;
    } else {
      var waiting := set m | m in nodes && Free(nodes, m, h) && s.phase[m].Waiting?;
      assert t in waiting;
      n := FreeCanStep(nodes, s, h, waiting);
    }
  }

  lemma SomeUnrecorded(nodes: Nodes, s: State) returns (t: string)
    requires CountersInv(nodes, s) && s.reason.None? && exists n :: IsTask(nodes, n)
    ensures IsTask(nodes, t) && t !in s.records
  {
    var n :| IsTask(nodes, n);
    assert n in Tasks(nodes);
    t :| t in Tasks(nodes) && t !in s.records;
  }

  lemma CalmDrained(nodes: Nodes, s: State)
    requires Inv(nodes, s) && AllCalm(s) && s.reason == Some(Drained)
    ensures TasksSucceeded(nodes, s)
  {
    forall n | IsTask(nodes, n) ensures n in s.records && s.records[n] == Succeeded {
      assert n in Tasks(nodes);
      assert NodeInv(nodes, s, n) && Calm(s, n);
    }
  }

  lemma NamesOf(nodes: Nodes) returns (names: seq<string>)
    ensures names == Ascending(nodes.Keys) && Lists(names, nodes)
  {
    names := Ascending(nodes.Keys);
  }

  /** The step of a node that is active or can take its next step. */
  function Onward(nodes: Nodes, s: State, n: string): Action {
    if Active(s, n) then Comes(s, n) else StepOf(nodes, s, n)
  }

  lemma OnwardMoves(nodes: Nodes, s: State, n: string)
    requires NodesInv(nodes, s) && AllCalm(s) && s.reason.None? && n in nodes && (Active(s, n) || CanStep(nodes, s, n))
    ensures Enabled(nodes, s, Onward(nodes, s, n))
    ensures var t := Apply(nodes, s, Onward(nodes, s, n)); AllCalm(t) && (t.reason.None? || t.reason == Some(Drained))
    ensures StepAt(nodes, s, Apply(nodes, s, Onward(nodes, s, n)), n)
  {
    if Active(s, n) { ActiveMoves(nodes, s, n); } else { WaitingMoves(nodes, s, n); }
  }

  lemma FreeTask(nodes: Nodes, t: string, h: string)
    requires IsTask(nodes, t) && t != h && !Needed(nodes, h)
    ensures Free(nodes, t, h)
  {
  }

  /** One step of a node that does not depend on `h`; `h` itself keeps waiting. */
  lemma HoldingStep(nodes: Nodes, s: State, h: string) returns (a: Action)
    requires Valid(nodes) && (exists n :: IsTask(nodes, n)) && h in nodes && !IsTask(nodes, h) && !Needed(nodes, h)
    requires Inv(nodes, s) && AllCalm(s) && s.reason.None? && s.phase[h].Waiting?
    ensures Enabled(nodes, s, a)
    ensures var t := Apply(nodes, s, a);
      && AllCalm(t) && (t.reason.None? || t.reason == Some(Drained))
      && h in t.phase && t.phase[h].Waiting?
  {
    var task := SomeUnrecorded(nodes, s);
    FreeTask(nodes, task, h);
    var n := FreeMoves(nodes, s, h, task);
    ReachesSelf(Dependencies(nodes), h);
    OnwardMoves(nodes, s, n);
    a := Onward(nodes, s, n);
  }

  lemma {:induction false} DrainHolding(nodes: Nodes, s: State, h: string) returns (t: State)
    requires Valid(nodes) && (exists n :: IsTask(nodes, n)) && h in nodes && !IsTask(nodes, h) && !Needed(nodes, h)
    requires Reached(nodes, s) && AllCalm(s) && s.reason.None? && h in s.phase && s.phase[h].Waiting?
    ensures Reached(nodes, t) && TasksSucceeded(nodes, t) && t.reason == Some(Drained)
    ensures h in t.phase && t.phase[h].Waiting?
    decreases Measure(nodes, s, Ascending(nodes.Keys))
  {
    var names := NamesOf(nodes);
    ReachedInv(nodes, s);
    var a := HoldingStep(nodes, s, h);
    var u := Apply(nodes, s, a);
    ReachedNext(nodes, s, a);
    assert Next(nodes, s, u);
    StepLowersMeasure(nodes, s, u, names);
    if u.reason.None? {
      t := DrainHolding(nodes, u, h);
    } else {
      ReachedInv(nodes, u);
      CalmDrained(nodes, u);
      t := u;
    }
  }

  // --- running a reason out ---

  /** Once a reason is out, a waiting node can only end up skipped. */
  ghost predicate SkipBound(s: State, x: string) {
    && s.reason.Some? && x in s.phase
    && (s.phase[x].Waiting? || (s.phase[x].Settled? && x in s.records && s.records[x] == Skipped))
  }

  lemma StaysSkipBound(nodes: Nodes, s: State, a: Action, x: string)
    requires NodesInv(nodes, s) && Enabled(nodes, s, a) && SkipBound(s, x) && x in nodes
    ensures SkipBound(Apply(nodes, s, a), x)
  {
    if !a.CtrlC? && a.n != x {
      assert NodeInv(nodes, s, a.n);
      SubjectKeepsInv(nodes, s, a);
    }
  }

  lemma OutStep(nodes: Nodes, s: State, x: string) returns (u: State)
    requires Valid(nodes) && x in nodes && Reached(nodes, s) && Inv(nodes, s) && s.reason.Some? && !Done(s)
    ensures Reached(nodes, u) && Next(nodes, s, u) && (SkipBound(s, x) ==> SkipBound(u, x))
  {
    if !CanProceed(nodes, s) { StuckMeansDone(nodes, s); }
    var a :| Expected(a) && Enabled(nodes, s, a);
    u := Apply(nodes, s, a);
    ReachedNext(nodes, s, a);
    if SkipBound(s, x) { StaysSkipBound(nodes, s, a, x); }
  }

  /** Every reachable state with a reason can be run to its end. */
  lemma {:induction false} RunOut(nodes: Nodes, s: State, x: string) returns (t: State)
    requires Valid(nodes) && x in nodes && Reached(nodes, s) && s.reason.Some?
    ensures Reached(nodes, t) && Done(t) && Later(s, t) && (SkipBound(s, x) ==> SkipBound(t, x))
    decreases Measure(nodes, s, Ascending(nodes.Keys))
  {
    ReachedInv(nodes, s);
    if Done(s) {
      t := s;
    } else {
      var names := NamesOf(nodes);
      var u := OutStep(nodes, s, x);
      StepKeepsInv(nodes, s, u);
      StepLowersMeasure(nodes, s, u, names);
      t := RunOut(nodes, u, x);
      LaterOn(s, u, t);
    }
  }

  lemma InitIsCalm(nodes: Nodes)
    ensures Reached(nodes, Init(nodes)) && AllCalm(Init(nodes)) && Init(nodes).reason.None?
  {
    ReachedFirst(nodes);
  }

  /** If some service is no dependency of a task, there is a finished run, not cancelled, in
      which all tasks succeeded and that service was skipped. */
  lemma UncoveredMaySkip(nodes: Nodes, x: string) returns (t: State)
    requires Valid(nodes) && (exists n :: IsTask(nodes, n)) && x in nodes && !IsTask(nodes, x) && !Needed(nodes, x)
    ensures Reached(nodes, t) && Done(t) && t.reason == Some(Drained) && TasksSucceeded(nodes, t)
    ensures x in t.records && t.records[x] == Skipped
  {
    InitIsCalm(nodes);
    var s := DrainHolding(nodes, Init(nodes), x);
    t := RunOut(nodes, s, x);
  }

  lemma SomeNodeIsRoot(nodes: Nodes) returns (n: string)
    requires Valid(nodes) && nodes != map[]
    ensures n in nodes && nodes[n].dependsOn == []
  {
    var g := Dependencies(nodes);
    var x :| x in nodes;
    n := AcyclicHasSink(g, nodes.Keys);
    if nodes[n].dependsOn != [] {
      var d := nodes[n].dependsOn[0];
      assert Edge(g, n, d);
    }
  }

  lemma SpawnFailsFirst(nodes: Nodes, n: string) returns (s: State)
    requires n in nodes && nodes[n].dependsOn == [] && !IsTask(nodes, n)
    ensures Reached(nodes, s) && s.reason == Some(Aborted) && n in s.records && s.records[n] == Failed(127)
  {
    ReachedFirst(nodes);
    ReachedNext(nodes, Init(nodes), SpawnFails(n));
    s := Apply(nodes, Init(nodes), SpawnFails(n));
  }

  /** A group of services alone may fail, and then has no task that did not succeed. */
  lemma ServicesMayFail(nodes: Nodes) returns (t: State)
    requires Valid(nodes) && nodes != map[] && forall n :: !IsTask(nodes, n)
    ensures Reached(nodes, t) && Done(t) && t.reason == Some(Aborted) && !ExitsWith(t, 0)
  {
    var n := SomeNodeIsRoot(nodes);
    var s := SpawnFailsFirst(nodes, n);
    t := RunOut(nodes, s, n);
    assert ExitContribution(t.records[n]) == 127;
  }

  /** Every finished run that was not cancelled and whose tasks all succeeded exits zero. */
  ghost predicate TasksSuffice(nodes: Nodes) {
    forall s :: Reached(nodes, s) && Done(s) && s.reason != Some(Cancelled) && TasksSucceeded(nodes, s) ==> ExitsWith(s, 0)
  }

  lemma UncoveredFails(nodes: Nodes) returns (t: State)
    requires Valid(nodes) && !Covered(nodes)
    ensures Reached(nodes, t) && Done(t) && t.reason != Some(Cancelled) && TasksSucceeded(nodes, t) && !ExitsWith(t, 0)
  {
    var x :| x in nodes && !IsTask(nodes, x) && !Needed(nodes, x);
    if exists n :: IsTask(nodes, n) {
      t := UncoveredMaySkip(nodes, x);
      assert ExitContribution(t.records[x]) == 1;
    } else {
      t := ServicesMayFail(nodes);
    }
  }

  /** Succeeding tasks are enough for exit zero exactly for the specifications in which every
      service is a transitive dependency of some task. */
  lemma TasksSufficeIff(nodes: Nodes)
    requires Valid(nodes)
    ensures TasksSuffice(nodes) <==> Covered(nodes)
  {
    if Covered(nodes) {
      forall s | Reached(nodes, s) && Done(s) && s.reason != Some(Cancelled) && TasksSucceeded(nodes, s)
        ensures ExitsWith(s, 0)
      {
        CoveredExitsZero(nodes, s);
      }
    } else {
      var t := UncoveredFails(nodes);
    }
  }
}
