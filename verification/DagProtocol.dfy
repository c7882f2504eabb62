/** The dag-runner's scheduler as a transition system. Each action is one stretch of a node's
    future between two awaits (the runtime is single-threaded, so such a stretch is atomic)
    together with the environment event that ended the preceding await. */
module DagProtocol {
  import opened Wrappers
  import opened Digraph
  import opened DagSpec

  datatype Outcome = Succeeded | Failed(code: int) | Skipped | Stopped

  datatype Reason = Cancelled | Drained | Aborted

  datatype Readiness = Ready | Unavailable

  /** How a child's `wait` ended: an exit code, death by a signal, or an error from `wait`. */
  datatype ExitStatus = Code(code: int) | Signalled | WaitError

  datatype Phase =
    | Waiting(next: nat)          // in `await_deps`, dependencies before `next` are ready
    | Running                     // a task's child is up
    | Starting                    // a service's child is up, its probe has not passed
    | Serving                     // a service's probe has passed
    | Stopping(outcome: Outcome)  // the process group is being terminated
    | Settled                     // `run_node` has returned and the record is in the map

  datatype State = State(
    phase: map<string, Phase>,
    verdict: map<string, Option<Readiness>>,
    reason: Option<Reason>,
    remaining: int,
    records: map<string, Outcome>)

  datatype Action =
    | DepReady(n: string)
    | DepUnavailable(n: string)
    | SkipForShutdown(n: string)
    | Spawn(n: string)
    | SpawnFails(n: string)
    | TaskExits(n: string, status: ExitStatus)
    | TaskTimesOut(n: string)
    | ProbePasses(n: string)
    | StartupTimesOut(n: string)
    | StartupExits(n: string, status: ExitStatus)
    | ServiceExits(n: string, status: ExitStatus)
    | ServiceDies(n: string, code: int)
    | SeesShutdown(n: string)
    | GroupGone(n: string)
    | CtrlC

  /** The exit code of a task the runner had to terminate. */
  function TerminatedExitCode(r: Reason): int {
    match r
    case Cancelled => 130
    case Drained => 143
    case Aborted => 143
  }

  function ExitContribution(o: Outcome): int {
    match o
    case Succeeded => 0
    case Stopped => 0
    case Failed(c) => c
    case Skipped => 1
  }

  function StatusCode(st: ExitStatus): int {
    if st.Code? then st.code else 1
  }

  /** Exit codes a child can report. */
  predicate Plausible(st: ExitStatus) {
    st.Code? ==> 0 <= st.code <= 255
  }

  /** `Shutdown::request`: the first reason wins. */
  function Request(slot: Option<Reason>, r: Reason): Option<Reason> {
    if slot.Some? then slot else Some(r)
  }

  /** A stretch of a node's future ends at the next await, or `run_node` returns in it. */
  datatype End = Parks(phase: Phase) | Returns(outcome: Outcome)

  /** What one stretch does: how it ends, and what it publishes and requests on the way. */
  datatype Effect = Effect(end: End, publish: Option<Readiness>, request: Option<Reason>)

  function IsTask(nodes: Nodes, n: string): bool {
    n in nodes && nodes[n].kind.Task?
  }

  function Tasks(nodes: Nodes): set<string> {
    set n | n in nodes && IsTask(nodes, n)
  }

  function Init(nodes: Nodes): State {
    State(
      map n | n in nodes :: Waiting(0),
      map n | n in nodes :: None,
      None,
      |Tasks(nodes)|,
      map[])
  }

  ghost predicate Shaped(nodes: Nodes, s: State) {
    s.phase.Keys == nodes.Keys && s.verdict.Keys == nodes.Keys && s.records.Keys <= nodes.Keys
  }

  predicate AtDependency(nodes: Nodes, s: State, n: string, v: Readiness) {
    && n in nodes && n in s.phase && s.phase[n].Waiting?
    && s.phase[n].next < |nodes[n].dependsOn|
    && var d := nodes[n].dependsOn[s.phase[n].next];
    d in s.verdict && s.verdict[d] == Some(v)
  }

  predicate PastDependencies(nodes: Nodes, s: State, n: string) {
    n in nodes && n in s.phase && s.phase[n].Waiting? && s.phase[n].next == |nodes[n].dependsOn|
  }

  predicate In(s: State, n: string, p: Phase) {
    n in s.phase && s.phase[n] == p
  }

  /** When an action can happen. The `select!` arms are polled shutdown first, so a child's
      exit, a timeout or a probe decides only while no reason is published. */
  predicate Enabled(nodes: Nodes, s: State, a: Action) {
    match a
    case DepReady(n) => AtDependency(nodes, s, n, Ready)
    case DepUnavailable(n) => AtDependency(nodes, s, n, Unavailable)
    case SkipForShutdown(n) => PastDependencies(nodes, s, n) && s.reason.Some?
    case Spawn(n) => PastDependencies(nodes, s, n) && s.reason.None?
    case SpawnFails(n) => PastDependencies(nodes, s, n) && s.reason.None?
    case TaskExits(n, st) => In(s, n, Running) && s.reason.None? && Plausible(st)
    case TaskTimesOut(n) => In(s, n, Running) && s.reason.None? && n in nodes && nodes[n].timeoutSecs.Some?
    case ProbePasses(n) => In(s, n, Starting) && s.reason.None?
    case StartupTimesOut(n) => In(s, n, Starting) && s.reason.None?
    case StartupExits(n, st) => In(s, n, Starting) && s.reason.None? && Plausible(st)
    case ServiceExits(n, st) => In(s, n, Serving) && s.reason.None? && Plausible(st)
    case ServiceDies(n, c) => In(s, n, Serving) && s.reason.None? && 0 <= c <= 255
    case SeesShutdown(n) => (In(s, n, Running) || In(s, n, Starting) || In(s, n, Serving)) && s.reason.Some?
    case GroupGone(n) => n in s.phase && s.phase[n].Stopping?
    case CtrlC => s.reason.None?
  }

  /** The stretch of the future of `a.n` that `a` lets run. */
  function Stretch(nodes: Nodes, s: State, a: Action): Effect
    requires Enabled(nodes, s, a) && !a.CtrlC?
  {
    var parked := s.phase[a.n];
    match a
    case DepReady(_) => Effect(Parks(Waiting(parked.next + 1)), None, None)
    case DepUnavailable(_) => Effect(Returns(Skipped), Some(Unavailable), None)
    case SkipForShutdown(_) => Effect(Returns(Skipped), Some(Unavailable), None)
    case Spawn(n) => Effect(Parks(if IsTask(nodes, n) then Running else Starting), None, None)
    case SpawnFails(n) =>
      Effect(Returns(Failed(127)), Some(Unavailable), if IsTask(nodes, n) then None else Some(Aborted))
    case TaskExits(_, st) =>
      if st.WaitError? then Effect(Parks(Stopping(Failed(1))), None, None)
      else if st == Code(0) then Effect(Returns(Succeeded), Some(Ready), None)
      else Effect(Returns(Failed(StatusCode(st))), Some(Unavailable), None)
    case TaskTimesOut(_) => Effect(Parks(Stopping(Failed(124))), None, None)
    case ProbePasses(_) => Effect(Parks(Serving), Some(Ready), None)
    case StartupTimesOut(_) => Effect(Parks(Stopping(Failed(124))), Some(Unavailable), Some(Aborted))
    case StartupExits(_, st) => Effect(Returns(Failed(StatusCode(st))), Some(Unavailable), Some(Aborted))
    case ServiceExits(_, st) => Effect(Returns(Failed(StatusCode(st))), None, Some(Aborted))
    case ServiceDies(_, c) => Effect(Parks(Stopping(Failed(c))), None, Some(Aborted))
    case SeesShutdown(_) =>
      if parked.Running? then Effect(Parks(Stopping(Failed(TerminatedExitCode(s.reason.value)))), None, None)
      else if parked.Starting? then Effect(Parks(Stopping(Stopped)), Some(Unavailable), None)
      else Effect(Parks(Stopping(Stopped)), None, None)
    case GroupGone(n) =>
      Effect(Returns(parked.outcome), if IsTask(nodes, n) then Some(Unavailable) else None, None)
  }

  /** What the future sends to the other nodes. */
  function Publish(s: State, n: string, e: Effect): State {
    s.(verdict := if e.publish.Some? then s.verdict[n := e.publish] else s.verdict,
       reason := if e.request.Some? then Request(s.reason, e.request.value) else s.reason)
  }

  /** The spawned wrapper around `run_node`: file the record, and when it was the last task's
      publish that the run has drained. Nobody holds the lock on the records across an await,
      so this belongs to the stretch in which `run_node` returns. */
  function File(nodes: Nodes, s: State, n: string, o: Outcome): State {
    var t := s.(phase := s.phase[n := Settled], records := s.records[n := o]);
    if !IsTask(nodes, n) then t
    else t.(remaining := s.remaining - 1, reason := if s.remaining == 1 then Request(s.reason, Drained) else s.reason)
  }

  function Perform(nodes: Nodes, s: State, n: string, e: Effect): State {
    match e.end
    case Parks(p) => Publish(s, n, e).(phase := s.phase[n := p])
    case Returns(o) => File(nodes, Publish(s, n, e), n, o)
  }

  function Apply(nodes: Nodes, s: State, a: Action): State
    requires Enabled(nodes, s, a)
  {
    if a.CtrlC? then s.(reason := Request(s.reason, Cancelled))
    else Perform(nodes, s, a.n, Stretch(nodes, s, a))
  }

  ghost predicate Next(nodes: Nodes, s: State, t: State) {
    exists a :: Enabled(nodes, s, a) && t == Apply(nodes, s, a)
  }

  /** A run of the scheduler: the states between consecutive actions. */
  ghost predicate IsRun(nodes: Nodes, run: seq<State>) {
    && run != [] && run[0] == Init(nodes)
    && forall i :: 0 <= i < |run| - 1 ==> Successive(nodes, run, i)
  }

  ghost predicate Successive(nodes: Nodes, run: seq<State>, i: int) {
    0 <= i < |run| - 1 && Next(nodes, run[i], run[i + 1])
  }

  ghost predicate Done(s: State) {
    forall n :: n in s.phase ==> s.phase[n].Settled?
  }

  /** The receivers of a node's dependencies, each looked up in `ready`. */
  method Subscribe(ready: map<string, Option<Readiness>>, deps: seq<string>) returns (receivers: seq<Option<Readiness>>)
    requires forall j :: 0 <= j < |deps| ==> deps[j] in ready
    ensures |receivers| == |deps| && forall j :: 0 <= j < |deps| ==> receivers[j] == ready[deps[j]]
  {
    receivers := [];
    for j := 0 to |deps|
      invariant |receivers| == j && forall k :: 0 <= k < j ==> receivers[k] == ready[deps[k]]
    {
      receivers := receivers + [ready[deps[j]]];
    }
  }

  ghost predicate Launched(ready: map<string, Option<Readiness>>, phase: map<string, Phase>, names: seq<string>) {
    && (forall n :: n in ready <==> n in names)
    && (forall n :: n in phase <==> n in names)
    && (forall n :: n in names ==> ready[n] == None && phase[n] == Waiting(0))
  }

  lemma LaunchOne(ready: map<string, Option<Readiness>>, phase: map<string, Phase>, names: seq<string>, n: string)
    requires Launched(ready, phase, names)
    ensures Launched(ready[n := None], phase[n := Waiting(0)], names + [n])
  {
  }

  lemma DependenciesBefore(nodes: Nodes, order: seq<string>, i: int)
    requires DependenciesFirst(Dependencies(nodes), order) && 0 <= i < |order| && order[i] in nodes
    ensures forall j :: 0 <= j < |nodes[order[i]].dependsOn| ==> nodes[order[i]].dependsOn[j] in order[..i]
  {
    var deps := nodes[order[i]].dependsOn;
    forall j | 0 <= j < |deps| ensures deps[j] in order[..i] {
      assert Edge(Dependencies(nodes), order[i], deps[j]);
    }
  }

  lemma LaunchedIsInit(nodes: Nodes, ready: map<string, Option<Readiness>>, phase: map<string, Phase>, names: seq<string>)
    requires Launched(ready, phase, names) && forall n :: n in names <==> n in nodes
    ensures State(phase, ready, None, |Tasks(nodes)|, map[]) == Init(nodes)
  {
    assert phase == (map n | n in nodes :: Waiting(0));
    assert ready == (map n | n in nodes :: None);
  }

  /** `run` creates the futures in topological order; each dependency's receiver is found in
      `ready`, and what the futures start from is the initial state. */
  method Launch(nodes: Nodes) returns (s: State, order: seq<string>)
    requires Valid(nodes)
    ensures s == Init(nodes)
    ensures DependenciesFirst(Dependencies(nodes), order)
    ensures forall n :: n in order <==> n in nodes
  {
    order := TopologicalOrder(nodes);
    var ready, phase := LaunchAll(nodes, order);
    LaunchedIsInit(nodes, ready, phase, order);
    s := State(phase, ready, None, |Tasks(nodes)|, map[]);
  }

  method LaunchAll(nodes: Nodes, order: seq<string>) returns (ready: map<string, Option<Readiness>>, phase: map<string, Phase>)
    requires DependenciesFirst(Dependencies(nodes), order) && forall i :: 0 <= i < |order| ==> order[i] in nodes
    ensures Launched(ready, phase, order)
  {
    ready, phase := map[], map[];
    for i := 0 to |order|
      invariant Launched(ready, phase, order[..i])
    {
      DependenciesBefore(nodes, order, i);
      var receivers := Subscribe(ready, nodes[order[i]].dependsOn);
      LaunchOne(ready, phase, order[..i], order[i]);
      assert order[..i + 1] == order[..i] + [order[i]];
      ready, phase := ready[order[i] := None], phase[order[i] := Waiting(0)];
    }
    assert order[..|order|] == order;
  }

  /** `exit_code`: the largest contribution of any record, zero when there is none. */
  method ExitCode(records: map<string, Outcome>) returns (code: int)
    ensures forall n :: n in records ==> ExitContribution(records[n]) <= code
    ensures if records == map[] then code == 0 else exists n :: n in records && ExitContribution(records[n]) == code
  {
    if records == map[] { return 0; }
    var first :| first in records;
    code := ExitContribution(records[first]);
    var todo := records.Keys - {first};
    while todo != {}
      invariant todo <= records.Keys
      invariant forall n :: n in records && n !in todo ==> ExitContribution(records[n]) <= code
      invariant exists n :: n in records && ExitContribution(records[n]) == code
    {
      var n :| n in todo;
      if ExitContribution(records[n]) > code { code := ExitContribution(records[n]); }
      todo := todo - {n};
    }
  }

  ghost predicate IsExitCode(records: map<string, Outcome>, code: int) {
    && (forall n :: n in records ==> ExitContribution(records[n]) <= code)
    && if records == map[] then code == 0 else exists n :: n in records && ExitContribution(records[n]) == code
  }

  /** What `main` exits with after a finished run. */
  ghost predicate ExitsWith(s: State, code: int) {
    if s.reason == Some(Cancelled) then code == 130 else IsExitCode(s.records, code)
  }
}
