/** The scheduler never waits in a circle, and every run is finite. */
module DagProgress {
  import opened Wrappers
  import opened Ordering
  import opened Digraph
  import opened DagSpec
  import opened DagProtocol
  import opened DagSafety

  /** How far a node is from its record. */
  ghost function Weight(nodes: Nodes, s: State, n: string): nat {
    if n !in nodes || n !in s.phase then 0
    else
      match s.phase[n]
      case Waiting(k) => 4 + (if k <= |nodes[n].dependsOn| then |nodes[n].dependsOn| - k else 0)
      case Running => 3
      case Starting => 3
      case Serving => 2
      case Stopping(_) => 1
      case Settled => 0
  }

  ghost function Total(nodes: Nodes, s: State, names: seq<string>): nat {
    if names == [] then 0 else Weight(nodes, s, names[0]) + Total(nodes, s, names[1..])
  }

  /** The number of actions a run can still take, summed along any listing of the nodes. */
  ghost function Measure(nodes: Nodes, s: State, names: seq<string>): nat {
    Total(nodes, s, names) + if s.reason.None? then 1 else 0
  }

  ghost predicate Lists(names: seq<string>, nodes: Nodes) {
    NoDup(names) && forall n :: n in names <==> n in nodes
  }

  lemma {:induction false} TotalUnchanged(nodes: Nodes, s: State, t: State, names: seq<string>)
    requires forall m :: m in names ==> Weight(nodes, t, m) == Weight(nodes, s, m)
    ensures Total(nodes, t, names) == Total(nodes, s, names)
  {
    if names != [] { TotalUnchanged(nodes, s, t, names[1..]); }
  }

  lemma {:induction false} TotalFalls(nodes: Nodes, s: State, t: State, names: seq<string>, n: string)
    requires NoDup(names) && n in names && Weight(nodes, t, n) < Weight(nodes, s, n)
    requires forall m :: m in names && m != n ==> Weight(nodes, t, m) == Weight(nodes, s, m)
    ensures Total(nodes, t, names) < Total(nodes, s, names)
  {
    if names[0] == n {
      assert forall m :: m in names[1..] ==> m in names && m != n;
      TotalUnchanged(nodes, s, t, names[1..]);
    } else {
      TotalFalls(nodes, s, t, names[1..], n);
    }
  }

  lemma WeightFalls(nodes: Nodes, s: State, a: Action)
    requires Shaped(nodes, s) && Enabled(nodes, s, a) && !a.CtrlC? && a.n in nodes && NodeInv(nodes, s, a.n)
    ensures Weight(nodes, Apply(nodes, s, a), a.n) < Weight(nodes, s, a.n)
  {
  }

  lemma OthersKeepWeight(nodes: Nodes, s: State, t: State, n: string, m: string)
    requires StepAt(nodes, s, t, n) && m != n
    ensures Weight(nodes, t, m) == Weight(nodes, s, m)
  {
  }

  lemma NodeActionLowersTotal(nodes: Nodes, s: State, a: Action, names: seq<string>)
    requires Lists(names, nodes) && NodesInv(nodes, s) && Enabled(nodes, s, a) && !a.CtrlC?
    ensures Total(nodes, Apply(nodes, s, a), names) < Total(nodes, s, names)
    ensures s.reason.Some? ==> Apply(nodes, s, a).reason.Some?
  {
    var t := Apply(nodes, s, a);
    WeightFalls(nodes, s, a);
    SubjectKeepsInv(nodes, s, a);
    forall m | m != a.n ensures Weight(nodes, t, m) == Weight(nodes, s, m) {
      OthersKeepWeight(nodes, s, t, a.n, m);
    }
    TotalFalls(nodes, s, t, names, a.n);
  }

  lemma CancelKeepsTotal(nodes: Nodes, s: State, names: seq<string>)
    ensures Total(nodes, s.(reason := Some(Cancelled)), names) == Total(nodes, s, names)
  {
    TotalUnchanged(nodes, s, s.(reason := Some(Cancelled)), names);
  }

  /** Every action strictly lowers the measure. */
  lemma StepLowersMeasure(nodes: Nodes, s: State, t: State, names: seq<string>)
    requires Lists(names, nodes) && Inv(nodes, s) && Next(nodes, s, t)
    ensures Measure(nodes, t, names) < Measure(nodes, s, names)
  {
    var a :| Enabled(nodes, s, a) && t == Apply(nodes, s, a);
    if a.CtrlC? {
      CancelKeepsTotal(nodes, s, names);
    } else {
      NodeActionLowersTotal(nodes, s, a, names);
    }
  }

  lemma RunStepLowers(nodes: Nodes, run: seq<State>, i: int, names: seq<string>)
    requires Lists(names, nodes) && IsRun(nodes, run) && 0 <= i < |run| - 1
    ensures Measure(nodes, run[i + 1], names) < Measure(nodes, run[i], names)
  {
    RunKeepsInv(nodes, run, i);
    assert Successive(nodes, run, i);
    StepLowersMeasure(nodes, run[i], run[i + 1], names);
  }

  /** Every run is finite: no run is longer than the initial measure allows, whatever the
      children, the probes and the operator do. */
  lemma {:induction false} RunsAreBounded(nodes: Nodes, run: seq<State>, i: int, names: seq<string>)
    requires Lists(names, nodes) && IsRun(nodes, run) && 0 <= i < |run|
    ensures i + Measure(nodes, run[i], names) <= Measure(nodes, Init(nodes), names)
  {
    if i > 0 {
      RunsAreBounded(nodes, run, i - 1, names);
      RunStepLowers(nodes, run, i - 1, names);
    }
  }

  /** Actions that do not need the operator or a service leaving of its own accord. */
  predicate Expected(a: Action) {
    !a.CtrlC? && !a.ServiceExits? && !a.ServiceDies?
  }

  ghost predicate CanProceed(nodes: Nodes, s: State) {
    exists a :: Expected(a) && Enabled(nodes, s, a)
  }

  /** A node that is neither waiting nor idly serving always has something to do. */
  lemma ActiveCanProceed(nodes: Nodes, s: State, n: string)
    requires NodesInv(nodes, s) && n in nodes
    requires !s.phase[n].Waiting? && !s.phase[n].Settled? && (s.phase[n].Serving? ==> s.reason.Some?)
    ensures CanProceed(nodes, s)
  {
    var a :=
      match s.phase[n]
      case Running => if s.reason.Some? then SeesShutdown(n) else TaskExits(n, Code(0))
      case Starting => if s.reason.Some? then SeesShutdown(n) else StartupTimesOut(n)
      case Serving => SeesShutdown(n)
      case _ => GroupGone(n);
    assert Expected(a) && Enabled(nodes, s, a);
  }

  /** Of the waiting nodes, one depends on no other waiting node; it can proceed as soon as
      every node that is not waiting has published its verdict. */
  lemma WaitingCanProceed(nodes: Nodes, s: State, waiting: set<string>)
    requires Valid(nodes) && NodesInv(nodes, s) && waiting != {}
    requires forall n :: n in waiting <==> n in nodes && s.phase[n].Waiting?
    requires forall n :: n in nodes && n !in waiting ==> s.verdict[n].Some?
    ensures CanProceed(nodes, s)
  {
    var g := Dependencies(nodes);
    var n := AcyclicHasSink(g, waiting);
    assert NodeInv(nodes, s, n);
    var k, deps := s.phase[n].next, nodes[n].dependsOn;
    var a: Action;
    if k == |deps| {
      a := if s.reason.Some? then SkipForShutdown(n) else Spawn(n);
    } else {
      var d := deps[k];
      assert Edge(g, n, d);
      assert d in nodes && d !in waiting;
      assert s.verdict[d].Some?;
      a := if s.verdict[d].value.Ready? then DepReady(n) else DepUnavailable(n);
    }
    assert Expected(a) && Enabled(nodes, s, a);
  }

  lemma NotActiveIsPublished(nodes: Nodes, s: State, n: string)
    requires NodesInv(nodes, s) && n in nodes
    requires s.phase[n].Settled? || s.phase[n].Serving?
    ensures s.verdict[n].Some?
  {
    assert NodeInv(nodes, s, n);
  }

  /** When nothing can proceed, every node has its record, unless the specification has no
      task and what is left are services idly serving. */
  lemma StuckMeansDone(nodes: Nodes, s: State)
    requires Valid(nodes) && Inv(nodes, s) && !CanProceed(nodes, s)
    ensures forall n :: n in nodes ==> s.phase[n].Settled? || (s.phase[n].Serving? && s.reason.None?)
    ensures (exists n :: IsTask(nodes, n)) ==> Done(s)
  {
    forall n | n in nodes && !s.phase[n].Waiting?
      ensures s.phase[n].Settled? || (s.phase[n].Serving? && s.reason.None?)
    {
      if !(s.phase[n].Settled? || (s.phase[n].Serving? && s.reason.None?)) { ActiveCanProceed(nodes, s, n); }
    }
    var waiting := set n | n in nodes && s.phase[n].Waiting?;
    forall n | n in nodes && n !in waiting ensures s.verdict[n].Some? { NotActiveIsPublished(nodes, s, n); }
    if waiting != {} { WaitingCanProceed(nodes, s, waiting); }
    assert forall n :: n in nodes ==> n !in waiting;
    if t :| IsTask(nodes, t) {
      forall n | n in Tasks(nodes) ensures n in s.records { assert NodeInv(nodes, s, n); }
      assert t in Tasks(nodes);
      assert s.reason.Some?;
    }
  }

  /** No circular wait: in every reachable unfinished state of a valid specification with a
      task, some node can proceed without the operator and without a service leaving. */
  lemma NoCircularWait(nodes: Nodes, run: seq<State>, i: int)
    requires Valid(nodes) && (exists n :: IsTask(nodes, n))
    requires IsRun(nodes, run) && 0 <= i < |run| && !Done(run[i])
    ensures CanProceed(nodes, run[i])
  {
    RunKeepsInv(nodes, run, i);
    if !CanProceed(nodes, run[i]) { StuckMeansDone(nodes, run[i]); }
  }

  /** A run of such a specification that can go no further has exactly one record per node,
      so no service is left running. */
  lemma RunsEndComplete(nodes: Nodes, run: seq<State>)
    requires Valid(nodes) && (exists n :: IsTask(nodes, n))
    requires IsRun(nodes, run) && !CanProceed(nodes, run[|run| - 1])
    ensures Done(run[|run| - 1]) && run[|run| - 1].records.Keys == nodes.Keys
  {
    var s := run[|run| - 1];
    RunKeepsInv(nodes, run, |run| - 1);
    StuckMeansDone(nodes, s);
    forall n | n in nodes ensures n in s.records { assert NodeInv(nodes, s, n); }
  }

  /** A group of services alone never drains: it goes down only if the operator cancels or
      one of the services fails. */
  lemma ServicesOnlyNeverDrain(nodes: Nodes, run: seq<State>, i: int)
    requires IsRun(nodes, run) && 0 <= i < |run| && (forall n :: !IsTask(nodes, n))
    ensures run[i].reason != Some(Drained)
    ensures run[i].reason.Some? && run[i].reason != Some(Cancelled) ==> exists n :: ServiceFailed(nodes, run[i], n)
  {
    ShutdownHasACause(nodes, run, i);
    match run[i].reason {
      case Some(Drained) => DrainedOnlyAfterTasks(nodes, run, i);
      case _ =>
    }
  }

  /** Some run ends in this state. */
  ghost predicate Reached(nodes: Nodes, s: State) {
    exists run :: IsRun(nodes, run) && run[|run| - 1] == s
  }

  lemma ReachedFirst(nodes: Nodes)
    ensures Reached(nodes, Init(nodes))
  {
    var run := [Init(nodes)];
    assert IsRun(nodes, run);
  }

  lemma ReachedNext(nodes: Nodes, s: State, a: Action)
    requires Reached(nodes, s) && Enabled(nodes, s, a)
    ensures Reached(nodes, Apply(nodes, s, a))
  {
    var run :| IsRun(nodes, run) && run[|run| - 1] == s;
    var longer := run + [Apply(nodes, s, a)];
    forall i | 0 <= i < |longer| - 1 ensures Successive(nodes, longer, i) {
      if i < |run| - 1 { assert Successive(nodes, run, i); } else { assert Next(nodes, longer[i], longer[i + 1]); }
    }
    assert IsRun(nodes, longer) && longer[|longer| - 1] == Apply(nodes, s, a);
  }

  lemma ReachedKeepsInv(nodes: Nodes, s: State)
    requires Reached(nodes, s)
    ensures Inv(nodes, s)
  {
    var run :| IsRun(nodes, run) && run[|run| - 1] == s;
    RunKeepsInv(nodes, run, |run| - 1);
  }

  /** Some action leads from `s` to `t`, which some run reaches. */
  lemma ReachedStep(nodes: Nodes, s: State) returns (t: State)
    requires Reached(nodes, s) && s.reason.Some? && CanProceed(nodes, s)
    ensures Reached(nodes, t) && Next(nodes, s, t) && t.reason == s.reason
  {
    var a :| Expected(a) && Enabled(nodes, s, a);
    ReachedNext(nodes, s, a);
    t := Apply(nodes, s, a);
  }

  lemma ShutdownStep(nodes: Nodes, s: State, names: seq<string>) returns (t: State)
    requires Lists(names, nodes) && Reached(nodes, s) && s.reason.Some? && CanProceed(nodes, s)
    ensures Reached(nodes, t) && t.reason == s.reason && Measure(nodes, t, names) < Measure(nodes, s, names)
  {
    ReachedKeepsInv(nodes, s);
    t := ReachedStep(nodes, s);
    StepLowersMeasure(nodes, s, t, names);
  }

  lemma ShutdownEnds(nodes: Nodes, s: State)
    requires Valid(nodes) && Reached(nodes, s) && s.reason.Some? && !CanProceed(nodes, s)
    ensures Done(s)
  {
    ReachedKeepsInv(nodes, s);
    StuckMeansDone(nodes, s);
  }

  /** Once a reason is published, the run can be brought to its end. */
  lemma {:induction false} ShutdownFinishes(nodes: Nodes, s: State, names: seq<string>) returns (t: State)
    requires Valid(nodes) && Lists(names, nodes) && Reached(nodes, s) && s.reason.Some?
    ensures Reached(nodes, t) && Done(t) && t.reason == s.reason
    decreases Measure(nodes, s, names)
  {
    if CanProceed(nodes, s) {
      var next := ShutdownStep(nodes, s, names);
      t := ShutdownFinishes(nodes, next, names);
    } else {
      ShutdownEnds(nodes, s);
      t := s;
    }
  }

  /** Ctrl-C is heard wherever no reason is published yet, and the run then ends with 130. */
  lemma InterruptFinishes(nodes: Nodes, s: State) returns (t: State)
    requires Valid(nodes) && Reached(nodes, s) && s.reason.None?
    ensures Enabled(nodes, s, CtrlC) && Reached(nodes, t) && Done(t) && ExitsWith(t, 130)
  {
    ReachedNext(nodes, s, CtrlC);
    t := ShutdownFinishes(nodes, Apply(nodes, s, CtrlC), Ascending(nodes.Keys));
  }

  /** A job, a database, and a proxy that waits for the database. */
  ghost predicate SlowService(nodes: Nodes, job: string, db: string, proxy: string) {
    && job != db && job != proxy && db != proxy && nodes.Keys == {job, db, proxy}
    && nodes[job].kind.Task? && nodes[db].kind.Service? && nodes[proxy].kind.Service?
    && nodes[job].dependsOn == [] && nodes[db].dependsOn == [] && nodes[proxy].dependsOn == [db]
  }

  lemma SlowServiceExists(job: string, db: string, proxy: string) returns (nodes: Nodes)
    requires job != db && job != proxy && db != proxy
    ensures Valid(nodes) && SlowService(nodes, job, db, proxy)
  {
    nodes := map[
      job := NodeSpec(["job"], [], None, Task, None, Capture, None),
      db := NodeSpec(["db"], [], None, Service, Some(Tcp("db:1")), Capture, None),
      proxy := NodeSpec(["proxy"], [db], None, Service, Some(Tcp("proxy:1")), Capture, None)];
    var order := [job, db, proxy];
    assert order[..2] == [job, db] && db in order[..2];
    OrderedIsAcyclic(Dependencies(nodes), order);
  }

  ghost predicate Looks(s: State, n: string, phase: Phase, verdict: Option<Readiness>) {
    n in s.phase && s.phase[n] == phase && n in s.verdict && s.verdict[n] == verdict
  }

  lemma JobSpawns(nodes: Nodes, job: string, db: string, proxy: string) returns (s: State)
    requires SlowService(nodes, job, db, proxy)
    ensures Reached(nodes, s) && Shaped(nodes, s)
    ensures Looks(s, job, Running, None) && Looks(s, db, Waiting(0), None) && Looks(s, proxy, Waiting(0), None)
    ensures s.reason == None && s.remaining == 1 && s.records == map[]
  {
    assert Tasks(nodes) == {job};
    ReachedFirst(nodes);
    s := Init(nodes);
    ReachedNext(nodes, s, Spawn(job));
    s := Apply(nodes, s, Spawn(job));
  }

  lemma DatabaseSpawns(nodes: Nodes, job: string, db: string, proxy: string) returns (s: State)
    requires SlowService(nodes, job, db, proxy)
    ensures Reached(nodes, s) && Shaped(nodes, s)
    ensures Looks(s, job, Running, None) && Looks(s, db, Starting, None) && Looks(s, proxy, Waiting(0), None)
    ensures s.reason == None && s.remaining == 1 && s.records == map[]
  {
    s := JobSpawns(nodes, job, db, proxy);
    ReachedNext(nodes, s, Spawn(db));
    s := Apply(nodes, s, Spawn(db));
  }

  /** The job is done while the database is still coming up, and its record drains the run. */
  lemma JobDrains(nodes: Nodes, job: string, db: string, proxy: string) returns (s: State)
    requires SlowService(nodes, job, db, proxy)
    ensures Reached(nodes, s) && Shaped(nodes, s)
    ensures Looks(s, job, Settled, Some(Ready)) && Looks(s, db, Starting, None) && Looks(s, proxy, Waiting(0), None)
    ensures s.reason == Some(Drained) && s.records == map[job := Succeeded]
  {
    s := DatabaseSpawns(nodes, job, db, proxy);
    ReachedNext(nodes, s, TaskExits(job, Code(0)));
    s := Apply(nodes, s, TaskExits(job, Code(0)));
  }

  /** The database is stopped before it was ever ready. */
  lemma DatabaseStops(nodes: Nodes, job: string, db: string, proxy: string) returns (s: State)
    requires SlowService(nodes, job, db, proxy)
    ensures Reached(nodes, s) && Shaped(nodes, s)
    ensures Looks(s, job, Settled, Some(Ready)) && Looks(s, proxy, Waiting(0), None)
    ensures Looks(s, db, Settled, Some(Unavailable))
    ensures s.reason == Some(Drained) && s.records == map[job := Succeeded, db := Stopped]
  {
    s := JobDrains(nodes, job, db, proxy);
    ReachedNext(nodes, s, SeesShutdown(db));
    s := Apply(nodes, s, SeesShutdown(db));
    ReachedNext(nodes, s, GroupGone(db));
    s := Apply(nodes, s, GroupGone(db));
  }

  lemma ProxyIsSkipped(nodes: Nodes, job: string, db: string, proxy: string) returns (s: State)
    requires SlowService(nodes, job, db, proxy)
    ensures Reached(nodes, s) && Shaped(nodes, s) && Done(s)
    ensures s.reason == Some(Drained) && s.records == map[job := Succeeded, db := Stopped, proxy := Skipped]
  {
    s := DatabaseStops(nodes, job, db, proxy);
    ReachedNext(nodes, s, DepUnavailable(proxy));
    s := Apply(nodes, s, DepUnavailable(proxy));
  }

  /** "All tasks succeeded, so exit zero" does not hold: a service whose dependency is still
      coming up when the last task settles is skipped, and the run exits one. */
  lemma SucceededTasksMayExitOne(nodes: Nodes, job: string, db: string, proxy: string) returns (run: seq<State>)
    requires SlowService(nodes, job, db, proxy)
    ensures IsRun(nodes, run) && Done(run[|run| - 1])
    ensures forall n :: IsTask(nodes, n) ==> n in run[|run| - 1].records && run[|run| - 1].records[n] == Succeeded
    ensures run[|run| - 1].reason == Some(Drained) && ExitsWith(run[|run| - 1], 1)
  {
    var s := ProxyIsSkipped(nodes, job, db, proxy);
    run :| IsRun(nodes, run) && run[|run| - 1] == s;
    assert ExitContribution(s.records[proxy]) == 1;
  }
}
