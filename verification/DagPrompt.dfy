/** The same question when futures are polled promptly: an event from outside is taken up only
    while no future can run on by itself. */
module DagPrompt {
  import opened Wrappers
  import opened Ordering
  import opened Digraph
  import opened DagSpec
  import opened DagProtocol
  import opened DagSafety
  import opened DagProgress
  import opened DagCoverage

  /** Steps a future takes as soon as it is polled, without anything from outside. */
  predicate Own(a: Action) {
    a.DepReady? || a.DepUnavailable? || a.SkipForShutdown? || a.Spawn? || a.SpawnFails? || a.SeesShutdown?
  }

  ghost predicate Idle(nodes: Nodes, s: State) {
    forall a :: Own(a) ==> !Enabled(nodes, s, a)
  }

  ghost predicate PromptStep(nodes: Nodes, s: State, a: Action) {
    Enabled(nodes, s, a) && (Own(a) || Idle(nodes, s))
  }

  ghost predicate PromptNext(nodes: Nodes, s: State, t: State) {
    exists a :: PromptStep(nodes, s, a) && t == Apply(nodes, s, a)
  }

  ghost predicate PromptAt(nodes: Nodes, run: seq<State>, i: int) {
    0 <= i < |run| - 1 && PromptNext(nodes, run[i], run[i + 1])
  }

  ghost predicate IsPrompt(nodes: Nodes, run: seq<State>) {
    && run != [] && run[0] == Init(nodes)
    && forall i :: 0 <= i < |run| - 1 ==> PromptAt(nodes, run, i)
  }

  /** Some prompt run ends in this state. */
  ghost predicate Prompted(nodes: Nodes, s: State) {
    exists run :: IsPrompt(nodes, run) && run[|run| - 1] == s
  }

  /** Every dependency of every service is a transitive dependency of some task. */
  ghost predicate Fed(nodes: Nodes) {
    forall n, j :: n in nodes && !IsTask(nodes, n) && 0 <= j < |nodes[n].dependsOn| ==> Needed(nodes, nodes[n].dependsOn[j])
  }

  lemma PromptIsRun(nodes: Nodes, run: seq<State>)
    requires IsPrompt(nodes, run)
    ensures IsRun(nodes, run)
  {
    forall i | 0 <= i < |run| - 1 ensures Successive(nodes, run, i) {
      assert PromptAt(nodes, run, i);
    }
  }

  lemma PromptedIsReached(nodes: Nodes, s: State)
    requires Prompted(nodes, s)
    ensures Reached(nodes, s) && Inv(nodes, s)
  {
    var run :| IsPrompt(nodes, run) && run[|run| - 1] == s;
    PromptIsRun(nodes, run);
    ReachedInv(nodes, s);
  }

  lemma PromptedFirst(nodes: Nodes)
    ensures Prompted(nodes, Init(nodes))
  {
    assert IsPrompt(nodes, [Init(nodes)]);
  }

  lemma PromptedNext(nodes: Nodes, s: State, a: Action)
    requires Prompted(nodes, s) && PromptStep(nodes, s, a)
    ensures Prompted(nodes, Apply(nodes, s, a))
  {
    var run :| IsPrompt(nodes, run) && run[|run| - 1] == s;
    var longer := run + [Apply(nodes, s, a)];
    forall i | 0 <= i < |longer| - 1 ensures PromptAt(nodes, longer, i) {
      if i < |run| - 1 { assert PromptAt(nodes, run, i); } else { assert PromptNext(nodes, longer[i], longer[i + 1]); }
    }
    assert IsPrompt(nodes, longer) && longer[|longer| - 1] == Apply(nodes, s, a);
  }

  // --- fed specifications ---

  /** The service has been started, or at least not been given up. */
  ghost predicate Up(s: State, n: string) {
    n in s.phase && !s.phase[n].Waiting? && !(n in s.records && s.records[n] == Skipped)
  }

  /** When the tasks drain the run, all services are up. */
  ghost predicate DrainsLate(nodes: Nodes, s: State) {
    s.reason == Some(Drained) && TasksSucceeded(nodes, s) ==> forall n :: n in nodes && !IsTask(nodes, n) ==> Up(s, n)
  }

  lemma StaysUp(nodes: Nodes, s: State, a: Action, n: string)
    requires NodesInv(nodes, s) && Enabled(nodes, s, a) && n in nodes && Up(s, n)
    ensures Up(Apply(nodes, s, a), n)
  {
    assert NodeInv(nodes, s, n);
    if !a.CtrlC? {
      assert NodeInv(nodes, s, a.n);
      SubjectKeepsInv(nodes, s, a);
    }
  }

  lemma IdleCannotStep(nodes: Nodes, s: State, n: string)
    requires Idle(nodes, s) && s.reason.None?
    ensures !CanStep(nodes, s, n)
  {
    assert Own(Spawn(n)) && Own(DepReady(n));
  }

  lemma ReadyNotUnavailable(nodes: Nodes, s: State, n: string)
    requires AllDepsReady(nodes, s, n)
    ensures !SomeDepUnavailable(nodes, s, n)
  {
    forall d | d in nodes[n].dependsOn ensures d in s.verdict && s.verdict[d] == Some(Ready) {
      var j :| 0 <= j < |nodes[n].dependsOn| && nodes[n].dependsOn[j] == d;
    }
  }

  /** A service whose dependencies are all ready is up while nothing can run by itself. */
  lemma IdleServiceIsUp(nodes: Nodes, s: State, n: string)
    requires NodesInv(nodes, s) && Idle(nodes, s) && s.reason.None? && n in nodes && AllDepsReady(nodes, s, n)
    ensures Up(s, n)
  {
    assert NodeInv(nodes, s, n);
    IdleCannotStep(nodes, s, n);
    ReadyNotUnavailable(nodes, s, n);
    assert s.phase[n].Waiting? ==> CanStep(nodes, s, n);
  }

  lemma FedServiceIsReady(nodes: Nodes, s: State, n: string)
    requires Valid(nodes) && Fed(nodes) && NodesInv(nodes, s) && n in nodes && !IsTask(nodes, n)
    requires forall t :: IsTask(nodes, t) ==> s.phase[t].Running? || (t in s.records && s.records[t] == Succeeded)
    ensures AllDepsReady(nodes, s, n)
  {
    forall j | 0 <= j < |nodes[n].dependsOn|
      ensures var d := nodes[n].dependsOn[j]; d in s.verdict && s.verdict[d] == Some(Ready)
    {
      NeededIsReady(nodes, s, nodes[n].dependsOn[j]);
    }
  }

  /** The step that drains a run whose tasks all succeeded is the exit of a running task. */
  lemma DrainedByExit(nodes: Nodes, s: State, a: Action)
    requires Inv(nodes, s) && Enabled(nodes, s, a) && s.reason.None?
    requires Apply(nodes, s, a).reason == Some(Drained) && TasksSucceeded(nodes, Apply(nodes, s, a))
    ensures a.TaskExits? && a.n in nodes && IsTask(nodes, a.n)
    ensures forall t :: IsTask(nodes, t) ==> s.phase[t].Running? || (t in s.records && s.records[t] == Succeeded)
  {
    var u := Apply(nodes, s, a);
    assert NodeInv(nodes, s, a.n);
    SubjectKeepsInv(nodes, s, a);
    StretchRequestsAbort(nodes, s, a);
    assert IsTask(nodes, a.n) && u.records[a.n] == Succeeded;
    forall t | IsTask(nodes, t) ensures s.phase[t].Running? || (t in s.records && s.records[t] == Succeeded) {
      if t != a.n { assert u.records[t] == Succeeded; }
    }
  }

  lemma DrainFindsUp(nodes: Nodes, s: State, a: Action, n: string)
    requires Valid(nodes) && Fed(nodes) && Inv(nodes, s) && PromptStep(nodes, s, a) && s.reason.None?
    requires Apply(nodes, s, a).reason == Some(Drained) && TasksSucceeded(nodes, Apply(nodes, s, a))
    requires n in nodes && !IsTask(nodes, n)
    ensures Up(Apply(nodes, s, a), n)
  {
    DrainedByExit(nodes, s, a);
    FedServiceIsReady(nodes, s, n);
    IdleServiceIsUp(nodes, s, n);
    StaysUp(nodes, s, a, n);
  }

  lemma SucceededBefore(nodes: Nodes, s: State, t: State)
    requires Inv(nodes, s) && s.reason == Some(Drained) && Later(s, t) && TasksSucceeded(nodes, t)
    ensures TasksSucceeded(nodes, s)
  {
    forall n | IsTask(nodes, n) ensures n in s.records && s.records[n] == Succeeded {
      assert n in Tasks(nodes);
      assert t.records[n] == Succeeded;
    }
  }

  lemma StepDrainsLate(nodes: Nodes, s: State, a: Action)
    requires Valid(nodes) && Fed(nodes) && Inv(nodes, s) && PromptStep(nodes, s, a) && DrainsLate(nodes, s)
    ensures DrainsLate(nodes, Apply(nodes, s, a))
  {
    var t := Apply(nodes, s, a);
    if t.reason == Some(Drained) && TasksSucceeded(nodes, t) {
      StepKeepsNodes(nodes, s, a);
      if s.reason.Some? { SucceededBefore(nodes, s, t); }
      forall n | n in nodes && !IsTask(nodes, n) ensures Up(t, n) {
        if s.reason.Some? { StaysUp(nodes, s, a, n); } else { DrainFindsUp(nodes, s, a, n); }
      }
    }
  }

  lemma {:induction false} RunDrainsLate(nodes: Nodes, run: seq<State>, i: int)
    requires Valid(nodes) && Fed(nodes) && IsPrompt(nodes, run) && 0 <= i < |run|
    ensures DrainsLate(nodes, run[i])
  {
    if i > 0 {
      RunDrainsLate(nodes, run, i - 1);
      PromptIsRun(nodes, run);
      RunKeepsInv(nodes, run, i - 1);
      assert PromptAt(nodes, run, i - 1);
      var a :| PromptStep(nodes, run[i - 1], a) && run[i] == Apply(nodes, run[i - 1], a);
      StepDrainsLate(nodes, run[i - 1], a);
    }
  }

  lemma UpIsHarmless(nodes: Nodes, s: State, n: string)
    requires NodesInv(nodes, s) && Done(s) && TasksSucceeded(nodes, s) && s.reason == Some(Drained)
    requires n in nodes && (IsTask(nodes, n) || Up(s, n))
    ensures n in s.records && Harmless(nodes, n, s.records[n])
  {
    assert NodeInv(nodes, s, n);
  }

  lemma SuccessDrains(nodes: Nodes, s: State)
    requires Reached(nodes, s) && (exists n :: IsTask(nodes, n)) && TasksSucceeded(nodes, s) && s.reason != Some(Cancelled)
    ensures s.reason == Some(Drained)
  {
    ReachedInv(nodes, s);
    var t :| IsTask(nodes, t);
    assert t in Tasks(nodes);
    assert Tasks(nodes) <= s.records.Keys;
    assert s.reason.Some?;
    match s.reason.value {
      case Aborted => SuccessIsNotAborted(nodes, s);
      case _ =>
    }
  }

  lemma FedExitsZero(nodes: Nodes, s: State)
    requires Valid(nodes) && Fed(nodes) && (exists n :: IsTask(nodes, n)) && Prompted(nodes, s)
    requires Done(s) && s.reason != Some(Cancelled) && TasksSucceeded(nodes, s)
    ensures ExitsWith(s, 0)
  {
    PromptedIsReached(nodes, s);
    SuccessDrains(nodes, s);
    var run :| IsPrompt(nodes, run) && run[|run| - 1] == s;
    RunDrainsLate(nodes, run, |run| - 1);
    forall n | n in nodes ensures n in s.records && Harmless(nodes, n, s.records[n]) { UpIsHarmless(nodes, s, n); }
    HarmlessExitsZero(nodes, s);
  }

  // --- other specifications: a dependency that comes up last ---

  lemma NothingUnavailable(nodes: Nodes, s: State, n: string)
    requires NodesInv(nodes, s) && AllCalm(s) && n in nodes
    ensures s.verdict[n] != Some(Unavailable)
  {
    assert NodeInv(nodes, s, n) && Calm(s, n);
  }

  /** In a calm state without a reason nothing but the next step of a waiting node can happen
      by itself. */
  lemma CalmIsIdle(nodes: Nodes, s: State)
    requires NodesInv(nodes, s) && AllCalm(s) && s.reason.None? && forall n :: !CanStep(nodes, s, n)
    ensures Idle(nodes, s)
  {
    forall a | Own(a) ensures !Enabled(nodes, s, a) {
      if a.DepUnavailable? && Enabled(nodes, s, a) {
        NothingUnavailable(nodes, s, nodes[a.n].dependsOn[s.phase[a.n].next]);
      } else {
        assert !CanStep(nodes, s, a.n);
      }
    }
  }

  /** Nothing that does not depend on `d` waits once it all is idle. */
  lemma FreeIsThrough(nodes: Nodes, s: State, d: string, e: string)
    requires Valid(nodes) && NodesInv(nodes, s) && AllCalm(s) && s.reason.None? && Idle(nodes, s)
    requires Free(nodes, e, d) && forall n :: Free(nodes, n, d) ==> !Active(s, n)
    ensures !s.phase[e].Waiting?
  {
    var waiting := set m | m in nodes && Free(nodes, m, d) && s.phase[m].Waiting?;
    if waiting != {} {
      var n := FreeCanStep(nodes, s, d, waiting);
      IdleCannotStep(nodes, s, n);
    }
    assert e !in waiting;
  }

  /** Then `d` does not wait either: its dependencies are through. */
  lemma LastIsThrough(nodes: Nodes, s: State, d: string)
    requires Valid(nodes) && NodesInv(nodes, s) && AllCalm(s) && s.reason.None? && Idle(nodes, s)
    requires d in nodes && forall n :: Free(nodes, n, d) ==> !Active(s, n)
    ensures !s.phase[d].Waiting?
  {
    forall j | 0 <= j < |nodes[d].dependsOn|
      ensures var e := nodes[d].dependsOn[j]; e in nodes && !s.phase[e].Waiting? && !Active(s, e)
    {
      var e := nodes[d].dependsOn[j];
      assert Edge(Dependencies(nodes), d, e);
      AcyclicNeverReturns(Dependencies(nodes), d, e);
      FreeIsThrough(nodes, s, d, e);
    }
    IdleCannotStep(nodes, s, d);
    if s.phase[d].Waiting? { LowestCanStep(nodes, s, d); }
  }

  lemma OthersAreRecorded(nodes: Nodes, s: State, d: string)
    requires Valid(nodes) && Inv(nodes, s) && AllCalm(s) && s.reason.None? && Idle(nodes, s) && !Needed(nodes, d)
    requires forall n :: Free(nodes, n, d) ==> !Active(s, n)
    ensures forall t :: IsTask(nodes, t) && t != d ==> t in s.records
  {
    forall t | IsTask(nodes, t) && t != d ensures t in s.records {
      FreeTask(nodes, t, d);
      FreeIsThrough(nodes, s, d, t);
      assert NodeInv(nodes, s, t) && Calm(s, t);
    }
  }

  /** So `d` is the last task, and it is running. */
  lemma LastIsRunning(nodes: Nodes, s: State, d: string)
    requires Valid(nodes) && Inv(nodes, s) && AllCalm(s) && s.reason.None? && Idle(nodes, s)
    requires (exists n :: IsTask(nodes, n)) && d in nodes && !Needed(nodes, d)
    requires forall n :: Free(nodes, n, d) ==> !Active(s, n)
    ensures IsTask(nodes, d) && s.phase[d].Running? && forall t :: IsTask(nodes, t) && t != d ==> t in s.records
  {
    OthersAreRecorded(nodes, s, d);
    LastIsThrough(nodes, s, d);
    var t := SomeUnrecorded(nodes, s);
    assert t == d;
    assert NodeInv(nodes, s, d) && Calm(s, d);
  }

  /** A service waits as long as one of its dependencies has no verdict. */
  lemma StillWaits(nodes: Nodes, s: State, x: string, d: string)
    requires Valid(nodes) && NodesInv(nodes, s) && AllCalm(s) && x in nodes && !IsTask(nodes, x)
    requires Edge(Dependencies(nodes), x, d) && d in s.verdict && s.verdict[d].None?
    ensures s.phase[x].Waiting?
  {
    assert NodeInv(nodes, s, x) && Calm(s, x);
    var j :| 0 <= j < |nodes[x].dependsOn| && nodes[x].dependsOn[j] == d;
    assert !AllDepsReady(nodes, s, x);
  }

  /** Moving `n` does not give `d` a verdict, unless it ends the last task. */
  ghost predicate Holds(nodes: Nodes, s: State, d: string, n: string) {
    && (Active(s, n) || CanStep(nodes, s, n))
    && (n == d && Active(s, n) ==> IsTask(nodes, d) && forall t :: IsTask(nodes, t) && t != d ==> t in s.records)
  }

  /** The node to move next while `d` is held back: one that can step by itself, then an active
      one that does not depend on `d`, and `d` only when it is the last task. */
  lemma NextMover(nodes: Nodes, s: State, d: string) returns (n: string)
    requires Valid(nodes) && Inv(nodes, s) && AllCalm(s) && s.reason.None?
    requires (exists t :: IsTask(nodes, t)) && d in nodes && !Needed(nodes, d)
    ensures n in nodes && Holds(nodes, s, d, n) && PromptStep(nodes, s, Onward(nodes, s, n))
  {
    if m :| CanStep(nodes, s, m) {
      n := m;
    } else {
      CalmIsIdle(nodes, s);
      if m :| Free(nodes, m, d) && Active(s, m) {
        n := m;
        ReachesSelf(Dependencies(nodes), d);
      } else {
        LastIsRunning(nodes, s, d);
        n := d;
      }
    }
    OnwardMoves(nodes, s, n);
  }

  lemma HeldBack(nodes: Nodes, s: State, d: string, n: string)
    requires NodesInv(nodes, s) && AllCalm(s) && s.reason.None? && n in nodes && d in nodes && s.verdict[d].None?
    requires (n != d && Active(s, n)) || CanStep(nodes, s, n)
    ensures Enabled(nodes, s, Onward(nodes, s, n)) && Apply(nodes, s, Onward(nodes, s, n)).verdict[d].None?
  {
    if Active(s, n) { ActiveMoves(nodes, s, n); } else { WaitingMoves(nodes, s, n); }
  }

  lemma ExitRecords(nodes: Nodes, s: State, d: string)
    requires In(s, d, Running) && s.reason.None? && IsTask(nodes, d)
    ensures Apply(nodes, s, TaskExits(d, Code(0))).records.Keys == s.records.Keys + {d}
  {
  }

  lemma LastDrains(nodes: Nodes, s: State, d: string)
    requires Inv(nodes, s) && s.reason.None? && IsTask(nodes, d) && Active(s, d)
    requires forall t :: IsTask(nodes, t) && t != d ==> t in s.records
    ensures Comes(s, d) == TaskExits(d, Code(0)) && Apply(nodes, s, TaskExits(d, Code(0))).reason.Some?
  {
    assert NodeInv(nodes, s, d);
    ExitRecords(nodes, s, d);
    StepKeepsCounters(nodes, s, TaskExits(d, Code(0)));
    assert d in Tasks(nodes) && Tasks(nodes) <= s.records.Keys + {d};
  }

  /** The step that drains the run is not one of a waiting node. */
  lemma WaitsOn(nodes: Nodes, s: State, x: string, n: string)
    requires NodesInv(nodes, s) && AllCalm(s) && s.reason.None? && n in nodes && (Active(s, n) || CanStep(nodes, s, n))
    requires x in nodes && s.phase[x].Waiting?
    ensures Enabled(nodes, s, Onward(nodes, s, n))
    ensures var t := Apply(nodes, s, Onward(nodes, s, n)); t.reason.Some? ==> x in t.phase && t.phase[x].Waiting?
  {
    if Active(s, n) { ActiveMoves(nodes, s, n); } else { WaitingMoves(nodes, s, n); }
  }

  /** A calm state in which `d` has no verdict, or the tasks have drained the run while `x`
      still waits. */
  ghost predicate Held(nodes: Nodes, s: State, x: string, d: string) {
    AllCalm(s) &&
    if s.reason.None? then d in s.verdict && s.verdict[d].None?
    else s.reason == Some(Drained) && x in s.phase && s.phase[x].Waiting?
  }

  lemma HoldingMove(nodes: Nodes, s: State, x: string, d: string, n: string)
    requires Valid(nodes) && Inv(nodes, s) && s.reason.None? && Held(nodes, s, x, d) && n in nodes && Holds(nodes, s, d, n)
    requires x in nodes && !IsTask(nodes, x) && Edge(Dependencies(nodes), x, d)
    ensures Enabled(nodes, s, Onward(nodes, s, n)) && Held(nodes, Apply(nodes, s, Onward(nodes, s, n)), x, d)
  {
    StillWaits(nodes, s, x, d);
    OnwardMoves(nodes, s, n);
    WaitsOn(nodes, s, x, n);
    if n == d && Active(s, n) { LastDrains(nodes, s, d); } else { HeldBack(nodes, s, d, n); }
  }

  lemma HoldingPromptly(nodes: Nodes, s: State, x: string, d: string) returns (a: Action)
    requires Valid(nodes) && (exists n :: IsTask(nodes, n)) && !Needed(nodes, d)
    requires x in nodes && !IsTask(nodes, x) && Edge(Dependencies(nodes), x, d)
    requires Inv(nodes, s) && s.reason.None? && Held(nodes, s, x, d)
    ensures PromptStep(nodes, s, a) && Held(nodes, Apply(nodes, s, a), x, d)
  {
    var n := NextMover(nodes, s, d);
    HoldingMove(nodes, s, x, d, n);
    a := Onward(nodes, s, n);
  }

  lemma {:induction false} DrainPromptly(nodes: Nodes, s: State, x: string, d: string) returns (t: State)
    requires Valid(nodes) && (exists n :: IsTask(nodes, n)) && !Needed(nodes, d)
    requires x in nodes && !IsTask(nodes, x) && Edge(Dependencies(nodes), x, d)
    requires Prompted(nodes, s) && Held(nodes, s, x, d)
    ensures Prompted(nodes, t) && Held(nodes, t, x, d) && t.reason.Some?
    decreases Measure(nodes, s, Ascending(nodes.Keys))
  {
    if s.reason.Some? {
      t := s;
    } else {
      var names := NamesOf(nodes);
      PromptedIsReached(nodes, s);
      var a := HoldingPromptly(nodes, s, x, d);
      PromptedNext(nodes, s, a);
      assert Next(nodes, s, Apply(nodes, s, a));
      StepLowersMeasure(nodes, s, Apply(nodes, s, a), names);
      t := DrainPromptly(nodes, Apply(nodes, s, a), x, d);
    }
  }

  lemma OutAction(nodes: Nodes, s: State) returns (a: Action)
    requires Valid(nodes) && Inv(nodes, s) && s.reason.Some? && !Done(s)
    ensures PromptStep(nodes, s, a)
  {
    if own :| Own(own) && Enabled(nodes, s, own) {
      a := own;
    } else {
      if !CanProceed(nodes, s) { StuckMeansDone(nodes, s); }
      a :| Expected(a) && Enabled(nodes, s, a);
    }
  }

  lemma {:induction false} RunOutPromptly(nodes: Nodes, s: State, x: string) returns (t: State)
    requires Valid(nodes) && x in nodes && Prompted(nodes, s) && SkipBound(s, x)
    ensures Prompted(nodes, t) && Done(t) && Later(s, t) && SkipBound(t, x)
    decreases Measure(nodes, s, Ascending(nodes.Keys))
  {
    PromptedIsReached(nodes, s);
    if Done(s) {
      t := s;
    } else {
      var names := NamesOf(nodes);
      var a := OutAction(nodes, s);
      var u := Apply(nodes, s, a);
      PromptedNext(nodes, s, a);
      StaysSkipBound(nodes, s, a, x);
      assert Next(nodes, s, u);
      StepKeepsInv(nodes, s, u);
      StepLowersMeasure(nodes, s, u, names);
      t := RunOutPromptly(nodes, u, x);
      LaterOn(s, u, t);
    }
  }

  /** If some dependency of a service is no dependency of a task, there is a prompt finished
      run, not cancelled, in which all tasks succeeded and the service was skipped. */
  lemma UnfedMaySkip(nodes: Nodes, x: string, d: string) returns (t: State)
    requires Valid(nodes) && (exists n :: IsTask(nodes, n)) && !Needed(nodes, d)
    requires x in nodes && !IsTask(nodes, x) && Edge(Dependencies(nodes), x, d)
    ensures Prompted(nodes, t) && Done(t) && t.reason == Some(Drained) && TasksSucceeded(nodes, t)
    ensures x in t.records && t.records[x] == Skipped
  {
    PromptedFirst(nodes);
    InitIsCalm(nodes);
    var s := DrainPromptly(nodes, Init(nodes), x, d);
    PromptedIsReached(nodes, s);
    CalmDrained(nodes, s);
    t := RunOutPromptly(nodes, s, x);
  }

  /** Every finished prompt run that was not cancelled and whose tasks all succeeded exits
      zero. */
  ghost predicate TasksSufficePromptly(nodes: Nodes) {
    forall s :: Prompted(nodes, s) && Done(s) && s.reason != Some(Cancelled) && TasksSucceeded(nodes, s) ==> ExitsWith(s, 0)
  }

  /** With prompt polling, succeeding tasks are enough for exit zero exactly if every dependency
      of every service is a transitive dependency of some task. */
  lemma PromptlySufficeIff(nodes: Nodes)
    requires Valid(nodes) && exists n :: IsTask(nodes, n)
    ensures TasksSufficePromptly(nodes) <==> Fed(nodes)
  {
    if Fed(nodes) {
      forall s | Prompted(nodes, s) && Done(s) && s.reason != Some(Cancelled) && TasksSucceeded(nodes, s)
        ensures ExitsWith(s, 0)
      {
        FedExitsZero(nodes, s);
      }
    } else {
      var x, j :| x in nodes && !IsTask(nodes, x) && 0 <= j < |nodes[x].dependsOn| && !Needed(nodes, nodes[x].dependsOn[j]);
      assert Edge(Dependencies(nodes), x, nodes[x].dependsOn[j]);
      var t := UnfedMaySkip(nodes, x, nodes[x].dependsOn[j]);
      assert ExitContribution(t.records[x]) == 1;
    }
  }
}
