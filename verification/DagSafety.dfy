/** What every step of the scheduler keeps, and safety over whole runs. */
module DagSafety {
  import opened Wrappers
  import opened Digraph
  import opened DagSpec
  import opened DagProtocol

  ghost predicate DepsReady(nodes: Nodes, s: State, n: string, k: int) {
    n in nodes && k <= |nodes[n].dependsOn| &&
    forall j :: 0 <= j < k ==>
      var d := nodes[n].dependsOn[j];
      d in s.verdict && s.verdict[d] == Some(Ready)
  }

  ghost predicate AllDepsReady(nodes: Nodes, s: State, n: string) {
    n in nodes && DepsReady(nodes, s, n, |nodes[n].dependsOn|)
  }

  ghost predicate SomeDepUnavailable(nodes: Nodes, s: State, n: string) {
    n in nodes &&
    exists d :: d in nodes[n].dependsOn && d in s.verdict && s.verdict[d] == Some(Unavailable)
  }

  /** What an outcome says about the state it is reported in. */
  ghost predicate OutcomeInv(nodes: Nodes, s: State, n: string, o: Outcome)
    requires n in nodes && n in s.verdict
  {
    s.verdict[n].Some? &&
    match o
    case Succeeded => IsTask(nodes, n) && s.verdict[n] == Some(Ready) && AllDepsReady(nodes, s, n)
    case Failed(c) =>
      && AllDepsReady(nodes, s, n)
      && (IsTask(nodes, n) ==> c > 0 && s.verdict[n] == Some(Unavailable))
      && (!IsTask(nodes, n) ==> c >= 0 && s.reason == Some(Aborted))
    case Skipped =>
      && s.verdict[n] == Some(Unavailable)
      && (s.reason.Some? || SomeDepUnavailable(nodes, s, n))
    case Stopped => !IsTask(nodes, n) && s.reason.Some? && AllDepsReady(nodes, s, n)
  }

  ghost predicate NodeInv(nodes: Nodes, s: State, n: string)
    requires n in nodes && n in s.phase && n in s.verdict
  {
    && (n in s.records <==> s.phase[n].Settled?)
    && match s.phase[n]
       case Waiting(k) => s.verdict[n].None? && DepsReady(nodes, s, n, k)
       case Running => IsTask(nodes, n) && s.verdict[n].None? && AllDepsReady(nodes, s, n)
       case Starting => !IsTask(nodes, n) && s.verdict[n].None? && AllDepsReady(nodes, s, n)
       case Serving => !IsTask(nodes, n) && s.verdict[n] == Some(Ready) && AllDepsReady(nodes, s, n)
       case Stopping(o) =>
         if IsTask(nodes, n) then
           s.verdict[n].None? && o.Failed? && o.code > 0 && AllDepsReady(nodes, s, n)
         else
           OutcomeInv(nodes, s, n, o) && (o.Failed? || o.Stopped?)
       case Settled => n in s.records && OutcomeInv(nodes, s, n, s.records[n])
  }

  ghost predicate ServiceFailed(nodes: Nodes, s: State, n: string) {
    n in nodes && nodes[n].kind.Service? && n in s.phase &&
    match s.phase[n]
    case Stopping(o) => o.Failed?
    case Settled => n in s.records && s.records[n].Failed?
    case _ => false
  }

  /** The counter counts the tasks without a record, and "drained" is published exactly when
      the last of them gets one, unless another reason came first. */
  ghost predicate Counters(tasks: set<string>, filed: set<string>, remaining: int, reason: Option<Reason>) {
    && remaining == |tasks - filed|
    && (reason == Some(Drained) ==> tasks != {} && tasks <= filed)
    && (tasks != {} && tasks <= filed ==> reason.Some?)
  }

  ghost predicate CountersInv(nodes: Nodes, s: State) {
    Counters(Tasks(nodes), s.records.Keys, s.remaining, s.reason)
  }

  ghost predicate AbortInv(nodes: Nodes, s: State) {
    s.reason == Some(Aborted) ==> exists n :: ServiceFailed(nodes, s, n)
  }

  ghost predicate NodesInv(nodes: Nodes, s: State) {
    Shaped(nodes, s) && forall n {:trigger NodeInv(nodes, s, n)} :: n in nodes ==> NodeInv(nodes, s, n)
  }

  ghost predicate Inv(nodes: Nodes, s: State) {
    NodesInv(nodes, s) && CountersInv(nodes, s) && AbortInv(nodes, s)
  }

  lemma InitInv(nodes: Nodes)
    ensures Inv(nodes, Init(nodes))
  {
    assert Tasks(nodes) - Init(nodes).records.Keys == Tasks(nodes);
    assert CountersInv(nodes, Init(nodes));
  }

  /** A step at `n` leaves every other node alone; verdicts and the reason are write-once. */
  ghost predicate StepAt(nodes: Nodes, s: State, t: State, n: string) {
    && Shaped(nodes, s) && Shaped(nodes, t)
    && (forall m :: m in nodes && m != n ==>
          && t.phase[m] == s.phase[m] && t.verdict[m] == s.verdict[m]
          && (m in t.records <==> m in s.records)
          && (m in s.records ==> t.records[m] == s.records[m]))
    && Later(s, t)
  }

  /** Published verdicts, the published reason and records are never changed. */
  ghost predicate Later(s: State, t: State) {
    && (forall m :: m in s.verdict && s.verdict[m].Some? ==> m in t.verdict && t.verdict[m] == s.verdict[m])
    && (s.reason.Some? ==> t.reason == s.reason)
    && (forall m :: m in s.records ==> m in t.records && t.records[m] == s.records[m])
  }

  lemma LaterKeepsDeps(nodes: Nodes, s: State, t: State, n: string, k: int)
    requires Later(s, t)
    ensures DepsReady(nodes, s, n, k) ==> DepsReady(nodes, t, n, k)
    ensures SomeDepUnavailable(nodes, s, n) ==> SomeDepUnavailable(nodes, t, n)
  {
  }

  lemma OthersKeepInv(nodes: Nodes, s: State, t: State, n: string, m: string)
    requires StepAt(nodes, s, t, n) && m in nodes && m != n && NodeInv(nodes, s, m)
    ensures NodeInv(nodes, t, m)
  {
    LaterKeepsDeps(nodes, s, t, m, |nodes[m].dependsOn|);
    if s.phase[m].Waiting? { LaterKeepsDeps(nodes, s, t, m, s.phase[m].next); }
  }

  lemma PerformIsStepAt(nodes: Nodes, s: State, n: string, e: Effect)
    requires Shaped(nodes, s) && n in nodes && n !in s.records
    requires s.verdict[n].Some? ==> e.publish.None?
    ensures StepAt(nodes, s, Perform(nodes, s, n, e), n)
  {
  }

  /** An effect that fits the node it happens at. */
  ghost predicate Fits(nodes: Nodes, s: State, n: string, e: Effect)
    requires n in nodes && n in s.phase && n in s.verdict
  {
    && (s.verdict[n].Some? ==> e.publish.None?)
    && NodeInv(nodes, Perform(nodes, s, n, e), n)
  }

  lemma WaitingFits(nodes: Nodes, s: State, a: Action)
    requires Shaped(nodes, s) && Enabled(nodes, s, a) && !a.CtrlC? && a.n in nodes && NodeInv(nodes, s, a.n)
    requires s.phase[a.n].Waiting?
    ensures Fits(nodes, s, a.n, Stretch(nodes, s, a))
  {
    var n, t := a.n, Apply(nodes, s, a);
    PerformIsStepAt(nodes, s, n, Stretch(nodes, s, a));
    LaterKeepsDeps(nodes, s, t, n, s.phase[n].next);
    if a.DepUnavailable? {
      var d := nodes[n].dependsOn[s.phase[n].next];
      assert t.verdict[d] == Some(Unavailable);
    }
  }

  /** What a child does while no reason is out. */
  predicate ByChild(a: Action) {
    a.TaskExits? || a.TaskTimesOut? || a.ProbePasses? || a.StartupTimesOut? || a.StartupExits? || a.ServiceExits? || a.ServiceDies?
  }

  lemma ChildFits(nodes: Nodes, s: State, a: Action)
    requires Shaped(nodes, s) && Enabled(nodes, s, a) && ByChild(a) && a.n in nodes && NodeInv(nodes, s, a.n)
    ensures Fits(nodes, s, a.n, Stretch(nodes, s, a))
  {
    var n, t := a.n, Apply(nodes, s, a);
    PerformIsStepAt(nodes, s, n, Stretch(nodes, s, a));
    LaterKeepsDeps(nodes, s, t, n, |nodes[n].dependsOn|);
  }

  lemma ActiveFits(nodes: Nodes, s: State, a: Action)
    requires Shaped(nodes, s) && Enabled(nodes, s, a) && !a.CtrlC? && a.n in nodes && NodeInv(nodes, s, a.n)
    requires !s.phase[a.n].Waiting?
    ensures Fits(nodes, s, a.n, Stretch(nodes, s, a))
  {
    if ByChild(a) {
      ChildFits(nodes, s, a);
    } else {
      var n, t := a.n, Apply(nodes, s, a);
      PerformIsStepAt(nodes, s, n, Stretch(nodes, s, a));
      LaterKeepsDeps(nodes, s, t, n, |nodes[n].dependsOn|);
    }
  }

  lemma SubjectKeepsInv(nodes: Nodes, s: State, a: Action)
    requires Shaped(nodes, s) && Enabled(nodes, s, a) && !a.CtrlC? && a.n in nodes && NodeInv(nodes, s, a.n)
    ensures StepAt(nodes, s, Apply(nodes, s, a), a.n) && NodeInv(nodes, Apply(nodes, s, a), a.n)
  {
    if s.phase[a.n].Waiting? { WaitingFits(nodes, s, a); } else { ActiveFits(nodes, s, a); }
    PerformIsStepAt(nodes, s, a.n, Stretch(nodes, s, a));
  }

  lemma CountFiled(tasks: set<string>, filed: set<string>, n: string)
    requires n !in filed
    ensures |tasks - (filed + {n})| == |tasks - filed| - (if n in tasks then 1 else 0)
    ensures tasks <= filed <==> |tasks - filed| == 0
    ensures tasks <= filed + {n} <==> |tasks - (filed + {n})| == 0
  {
    assert tasks - (filed + {n}) == (tasks - filed) - {n};
    assert tasks <= filed <==> tasks - filed == {};
    assert tasks <= filed + {n} <==> tasks - (filed + {n}) == {};
  }

  lemma FileCounts(tasks: set<string>, filed: set<string>, after: set<string>, n: string, k: int, r: Option<Reason>)
    requires Counters(tasks, filed, k, r) && n !in filed && after == filed + {n}
    ensures n !in tasks ==> Counters(tasks, after, k, r)
    ensures n in tasks ==> Counters(tasks, after, k - 1, if k == 1 then Request(r, Drained) else r)
  {
    CountFiled(tasks, filed, n);
  }

  lemma FiledKeys(nodes: Nodes, s: State, n: string, o: Outcome)
    ensures File(nodes, s, n, o).records.Keys == s.records.Keys + {n}
  {
  }

  lemma FileKeepsCounters(nodes: Nodes, s: State, n: string, o: Outcome)
    requires CountersInv(nodes, s) && n in nodes && n !in s.records
    ensures CountersInv(nodes, File(nodes, s, n, o))
  {
    FiledKeys(nodes, s, n, o);
    FileCounts(Tasks(nodes), s.records.Keys, File(nodes, s, n, o).records.Keys, n, s.remaining, s.reason);
  }

  lemma StretchRequestsAbort(nodes: Nodes, s: State, a: Action)
    requires Shaped(nodes, s) && Enabled(nodes, s, a) && !a.CtrlC? && a.n in nodes && NodeInv(nodes, s, a.n)
    ensures var e := Stretch(nodes, s, a);
      e.request.Some? ==> e.request == Some(Aborted) && ServiceFailed(nodes, Apply(nodes, s, a), a.n)
    ensures ServiceFailed(nodes, s, a.n) ==> ServiceFailed(nodes, Apply(nodes, s, a), a.n)
  {
  }

  lemma PerformKeepsCounters(nodes: Nodes, s: State, n: string, e: Effect)
    requires CountersInv(nodes, s) && n in nodes && n !in s.records && (e.request.Some? ==> e.request == Some(Aborted))
    ensures CountersInv(nodes, Perform(nodes, s, n, e))
  {
    assert CountersInv(nodes, Publish(s, n, e));
    if e.end.Returns? { FileKeepsCounters(nodes, Publish(s, n, e), n, e.end.outcome); }
  }

  lemma StepKeepsCounters(nodes: Nodes, s: State, a: Action)
    requires Shaped(nodes, s) && Enabled(nodes, s, a) && CountersInv(nodes, s)
    requires a.CtrlC? || (a.n in nodes && NodeInv(nodes, s, a.n))
    ensures CountersInv(nodes, Apply(nodes, s, a))
  {
    if !a.CtrlC? {
      StretchRequestsAbort(nodes, s, a);
      PerformKeepsCounters(nodes, s, a.n, Stretch(nodes, s, a));
    }
  }

  lemma StepKeepsAbort(nodes: Nodes, s: State, a: Action)
    requires Shaped(nodes, s) && Enabled(nodes, s, a) && AbortInv(nodes, s)
    requires a.CtrlC? || (a.n in nodes && NodeInv(nodes, s, a.n))
    ensures AbortInv(nodes, Apply(nodes, s, a))
  {
    var t := Apply(nodes, s, a);
    if !a.CtrlC? { StretchRequestsAbort(nodes, s, a); }
    if t.reason == Some(Aborted) {
      if s.reason == Some(Aborted) {
        var m :| ServiceFailed(nodes, s, m);
        assert ServiceFailed(nodes, t, m);
      } else {
        assert ServiceFailed(nodes, t, a.n);
      }
    }
  }

  lemma StepKeepsNodes(nodes: Nodes, s: State, a: Action)
    requires NodesInv(nodes, s) && Enabled(nodes, s, a)
    ensures NodesInv(nodes, Apply(nodes, s, a)) && Later(s, Apply(nodes, s, a))
  {
    var t := Apply(nodes, s, a);
    if a.CtrlC? {
      forall m | m in nodes ensures NodeInv(nodes, t, m) {
        assert NodeInv(nodes, s, m);
        LaterKeepsDeps(nodes, s, t, m, |nodes[m].dependsOn|);
        if s.phase[m].Waiting? { LaterKeepsDeps(nodes, s, t, m, s.phase[m].next); }
      }
    } else {
      SubjectKeepsInv(nodes, s, a);
      forall m | m in nodes ensures NodeInv(nodes, t, m) {
        if m != a.n { OthersKeepInv(nodes, s, t, a.n, m); }
      }
    }
  }

  /** Every enabled action preserves the invariant and changes nothing already published. */
  lemma StepKeepsInv(nodes: Nodes, s: State, t: State)
    requires Inv(nodes, s) && Next(nodes, s, t)
    ensures Inv(nodes, t) && Later(s, t)
  {
    var a :| Enabled(nodes, s, a) && t == Apply(nodes, s, a);
    StepKeepsNodes(nodes, s, a);
    StepKeepsCounters(nodes, s, a);
    StepKeepsAbort(nodes, s, a);
    assert CountersInv(nodes, t);
  }

  lemma RunStepKeepsInv(nodes: Nodes, run: seq<State>, i: int)
    requires IsRun(nodes, run) && 0 <= i < |run| - 1 && Inv(nodes, run[i])
    ensures Inv(nodes, run[i + 1])
  {
    assert Successive(nodes, run, i);
    StepKeepsInv(nodes, run[i], run[i + 1]);
  }

  lemma RunStartsInv(nodes: Nodes, run: seq<State>)
    requires run != [] && run[0] == Init(nodes)
    ensures Inv(nodes, run[0])
  {
    InitInv(nodes);
  }

  lemma {:induction false} RunKeepsInv(nodes: Nodes, run: seq<State>, i: int)
    requires IsRun(nodes, run) && 0 <= i < |run|
    ensures Inv(nodes, run[i])
  {
    if i == 0 {
      RunStartsInv(nodes, run);
    } else {
      RunKeepsInv(nodes, run, i - 1);
      RunStepKeepsInv(nodes, run, i - 1);
    }
  }

  lemma RunStepIsLater(nodes: Nodes, run: seq<State>, i: int)
    requires IsRun(nodes, run) && 0 <= i < |run| - 1
    ensures Later(run[i], run[i + 1])
  {
    RunKeepsInv(nodes, run, i);
    assert Successive(nodes, run, i);
    StepKeepsInv(nodes, run[i], run[i + 1]);
  }

  lemma LaterOn(s: State, t: State, u: State)
    requires Later(s, t) && Later(t, u)
    ensures Later(s, u)
  {
  }

  /** Over a whole run each node publishes at most one verdict, the shutdown reason is
      write-once, and a record never changes. */
  lemma {:induction false} PublishedOnceForAll(nodes: Nodes, run: seq<State>, i: int, j: int)
    requires IsRun(nodes, run) && 0 <= i <= j < |run|
    ensures Later(run[i], run[j])
    decreases j - i
  {
    if i < j {
      PublishedOnceForAll(nodes, run, i, j - 1);
      RunStepIsLater(nodes, run, j - 1);
      LaterOn(run[i], run[j - 1], run[j]);
    }
  }

  lemma SpawnStep(nodes: Nodes, s: State, a: Action, n: string)
    requires NodesInv(nodes, s) && Enabled(nodes, s, a) && n in nodes && s.phase[n].Waiting?
    requires var t := Apply(nodes, s, a); n in t.phase && (t.phase[n].Running? || t.phase[n].Starting?)
    ensures s.reason.None? && AllDepsReady(nodes, s, n)
  {
    if !a.CtrlC? { SubjectKeepsInv(nodes, s, a); }
    assert !a.CtrlC? && a.n == n;
    assert a.Spawn?;
    assert NodeInv(nodes, s, n);
  }

  /** A child is started only when every dependency has published ready and no shutdown
      reason is out, and from then on its dependencies stay ready. */
  lemma SpawnedOnlyWhenReady(nodes: Nodes, run: seq<State>, i: int, j: int, n: string)
    requires IsRun(nodes, run) && 0 <= i < j < |run| && n in nodes
    requires n in run[i].phase && run[i].phase[n].Waiting?
    requires n in run[i + 1].phase && (run[i + 1].phase[n].Running? || run[i + 1].phase[n].Starting?)
    ensures run[i].reason.None?
    ensures AllDepsReady(nodes, run[i], n) && AllDepsReady(nodes, run[j], n)
  {
    RunKeepsInv(nodes, run, i);
    assert Successive(nodes, run, i);
    var a :| Enabled(nodes, run[i], a) && run[i + 1] == Apply(nodes, run[i], a);
    SpawnStep(nodes, run[i], a, n);
    PublishedOnceForAll(nodes, run, i, j);
    LaterKeepsDeps(nodes, run[i], run[j], n, |nodes[n].dependsOn|);
  }

  /** "Drained" is published only once every task has a record, and only if there is a task;
      while some task has none the runner never terminates anything for that reason. */
  lemma DrainedOnlyAfterTasks(nodes: Nodes, run: seq<State>, i: int)
    requires IsRun(nodes, run) && 0 <= i < |run| && run[i].reason == Some(Drained)
    ensures exists n :: IsTask(nodes, n)
    ensures forall n :: IsTask(nodes, n) ==> n in run[i].records
  {
    RunKeepsInv(nodes, run, i);
    var n :| n in Tasks(nodes);
    assert IsTask(nodes, n);
    forall m | IsTask(nodes, m) ensures m in run[i].records { assert m in Tasks(nodes); }
  }

  /** "Aborted" is published exactly when a service has failed, and only services are ever
      recorded as stopped, always under a reason. */
  lemma ShutdownHasACause(nodes: Nodes, run: seq<State>, i: int)
    requires IsRun(nodes, run) && 0 <= i < |run|
    ensures run[i].reason == Some(Aborted) ==> exists n :: ServiceFailed(nodes, run[i], n)
    ensures forall n :: ServiceFailed(nodes, run[i], n) ==> run[i].reason == Some(Aborted)
    ensures forall n :: n in run[i].records && run[i].records[n].Stopped? ==>
      n in nodes && nodes[n].kind.Service? && run[i].reason.Some?
    ensures forall n :: n in run[i].records && run[i].records[n].Succeeded? ==> IsTask(nodes, n)
  {
    RunKeepsInv(nodes, run, i);
    forall n | ServiceFailed(nodes, run[i], n) ensures run[i].reason == Some(Aborted) {
      assert NodeInv(nodes, run[i], n);
    }
    forall n | n in run[i].records
      ensures n in nodes && OutcomeInv(nodes, run[i], n, run[i].records[n])
    {
      assert NodeInv(nodes, run[i], n);
    }
  }

  /** A node with an unavailable dependency can only have been skipped. */
  lemma UnavailableForcesSkip(nodes: Nodes, s: State, n: string)
    requires Inv(nodes, s) && n in s.records && SomeDepUnavailable(nodes, s, n)
    ensures s.records[n] == Skipped && s.verdict[n] == Some(Unavailable)
  {
    assert NodeInv(nodes, s, n);
    var d :| d in nodes[n].dependsOn && d in s.verdict && s.verdict[d] == Some(Unavailable);
    var j :| 0 <= j < |nodes[n].dependsOn| && nodes[n].dependsOn[j] == d;
    assert !AllDepsReady(nodes, s, n);
  }

  lemma {:induction false} UnavailableSpreads(nodes: Nodes, s: State, p: seq<string>)
    requires Inv(nodes, s) && Done(s) && Valid(nodes)
    requires IsPath(Dependencies(nodes), p) && |p| > 1
    requires p[|p| - 1] in s.verdict && s.verdict[p[|p| - 1]] == Some(Unavailable)
    ensures p[0] in s.records && s.records[p[0]] == Skipped && s.verdict[p[0]] == Some(Unavailable)
    decreases |p|
  {
    var g := Dependencies(nodes);
    assert Link(g, p, 0);
    if |p| > 2 {
      SubPath(g, p, 1, |p|);
      assert p[1..|p|] == p[1..];
      UnavailableSpreads(nodes, s, p[1..]);
    }
    assert NodeInv(nodes, s, p[0]);
    UnavailableForcesSkip(nodes, s, p[0]);
  }

  /** Once a run is over, every transitive dependent of an unavailable node was skipped. */
  lemma DependentsOfUnavailableAreSkipped(nodes: Nodes, run: seq<State>, n: string, d: string)
    requires Valid(nodes) && IsRun(nodes, run) && Done(run[|run| - 1])
    requires n != d && Reaches(Dependencies(nodes), n, d)
    requires d in run[|run| - 1].verdict && run[|run| - 1].verdict[d] == Some(Unavailable)
    ensures n in run[|run| - 1].records && run[|run| - 1].records[n] == Skipped
  {
    RunKeepsInv(nodes, run, |run| - 1);
    var p :| PathFromTo(Dependencies(nodes), p, n, d);
    UnavailableSpreads(nodes, run[|run| - 1], p);
  }

  /** A record that does not spoil a zero exit. */
  predicate Harmless(nodes: Nodes, n: string, o: Outcome) {
    if IsTask(nodes, n) then o == Succeeded else o == Stopped || o == Failed(0)
  }

  lemma RecordContribution(nodes: Nodes, s: State, n: string)
    requires n in nodes && n in s.phase && n in s.verdict && NodeInv(nodes, s, n) && s.phase[n].Settled?
    ensures n in s.records && 0 <= ExitContribution(s.records[n])
    ensures ExitContribution(s.records[n]) == 0 <==> Harmless(nodes, n, s.records[n])
  {
  }

  /** When a finished run was not cancelled it exits zero exactly if no node was skipped, every
      task succeeded, and every service was stopped by the runner or ended with status zero. */
  lemma ExitsZeroIff(nodes: Nodes, run: seq<State>, code: int)
    requires IsRun(nodes, run) && Done(run[|run| - 1])
    requires run[|run| - 1].reason != Some(Cancelled) && ExitsWith(run[|run| - 1], code)
    ensures var records := run[|run| - 1].records;
      code == 0 <==> forall n :: n in nodes ==> n in records && Harmless(nodes, n, records[n])
  {
    var s := run[|run| - 1];
    RunKeepsInv(nodes, run, |run| - 1);
    ZeroIffHarmless(nodes, s, code);
  }

  lemma ZeroIffHarmless(nodes: Nodes, s: State, code: int)
    requires Inv(nodes, s) && Done(s) && IsExitCode(s.records, code)
    ensures code == 0 <==> forall n :: n in nodes ==> n in s.records && Harmless(nodes, n, s.records[n])
  {
    if s.records != map[] {
      var top :| top in s.records && ExitContribution(s.records[top]) == code;
      RecordContribution(nodes, s, top);
    }
    forall n | n in nodes
      ensures n in s.records && 0 <= ExitContribution(s.records[n]) <= code
      ensures ExitContribution(s.records[n]) == 0 <==> Harmless(nodes, n, s.records[n])
    {
      RecordContribution(nodes, s, n);
    }
  }

  /** A cancelled run exits 130 whatever its nodes did. */
  lemma CancelledExits130(nodes: Nodes, run: seq<State>, i: int, code: int)
    requires IsRun(nodes, run) && 0 <= i < |run| && run[i].reason == Some(Cancelled)
    requires ExitsWith(run[|run| - 1], code)
    ensures code == 130
  {
    PublishedOnceForAll(nodes, run, i, |run| - 1);
  }
}
