/** One node of the scheduler's transition system behaves exactly like `run_node`, whatever the
    other nodes do between its stretches. */
module NodeRefinement {
  import opened Wrappers
  import opened DagSpec
  import opened DagProtocol
  import opened ProcessGroup

  /** One stretch of a node's future, and the state it runs in. */
  datatype Turn = Turn(state: State, action: Action)

  ghost predicate TurnOf(nodes: Nodes, n: string, p: Phase, t: Turn) {
    && n in nodes && In(t.state, n, p)
    && Enabled(nodes, t.state, t.action) && !t.action.CtrlC? && t.action.n == n
  }

  ghost function EffectOf(nodes: Nodes, n: string, p: Phase, t: Turn): Effect
    requires TurnOf(nodes, n, p, t)
  {
    Stretch(nodes, t.state, t.action)
  }

  /** The stretches of `n` from where it is parked at `p` until `run_node` returns. Between two
      of them the rest of the state may change in any way. */
  ghost predicate History(nodes: Nodes, n: string, p: Phase, turns: seq<Turn>)
    decreases |turns|
  {
    turns != [] && TurnOf(nodes, n, p, turns[0]) &&
    match EffectOf(nodes, n, p, turns[0]).end
    case Returns(_) => |turns| == 1
    case Parks(q) => History(nodes, n, q, turns[1..])
  }

  function Listed<T>(o: Option<T>): seq<T> {
    if o.Some? then [o.value] else []
  }

  function Before(e: Effect, rest: Told): Told {
    Told(rest.outcome, Listed(e.publish) + rest.published, Listed(e.request) + rest.requested)
  }

  /** What such a history leaves behind. */
  ghost function Tells(nodes: Nodes, n: string, p: Phase, turns: seq<Turn>): Told
    requires History(nodes, n, p, turns)
    decreases |turns|
  {
    var e := EffectOf(nodes, n, p, turns[0]);
    match e.end
    case Returns(o) => Before(e, Told(o, [], []))
    case Parks(q) => Before(e, Tells(nodes, n, q, turns[1..]))
  }

  function Actions(turns: seq<Turn>): seq<Action> {
    seq(|turns|, i requires 0 <= i < |turns| => turns[i].action)
  }

  lemma ActionsCons(turns: seq<Turn>)
    requires turns != []
    ensures Actions(turns) == [turns[0].action] + Actions(turns[1..])
  {
  }

  // --- the actions of each path through the code ---

  function TaskActions(n: string, c: Completion): seq<Action> {
    match c
    case Exited(st) => [TaskExits(n, st)] + if st.WaitError? then [GroupGone(n)] else []
    case TimedOut => [TaskTimesOut(n), GroupGone(n)]
    case ShutDown(_) => [SeesShutdown(n), GroupGone(n)]
  }

  function ServingActions(n: string, end: ServiceEnd): seq<Action> {
    match end
    case ToldToStop => [SeesShutdown(n), GroupGone(n)]
    case Left(st) => [ServiceExits(n, st)]
    case Died(c) => [ServiceDies(n, c), GroupGone(n)]
  }

  function ServiceActions(n: string, up: Startup, end: ServiceEnd): seq<Action> {
    match up
    case CameUp => [ProbePasses(n)] + ServingActions(n, end)
    case StartExited(st) => [StartupExits(n, st)]
    case StartTimedOut => [StartupTimesOut(n), GroupGone(n)]
    case StartShutDown(_) => [SeesShutdown(n), GroupGone(n)]
  }

  function NodeActions(n: string, kind: Kind, env: Environment): seq<Action> {
    if !env.depsReady then [DepUnavailable(n)]
    else if env.reason.Some? then [SkipForShutdown(n)]
    else if !env.spawnOk then [SpawnFails(n)]
    else [Spawn(n)] + if kind.Task? then TaskActions(n, env.completion) else ServiceActions(n, env.startup, env.end)
  }

  // --- every history is a run of the code ---

  lemma StoppingTells(nodes: Nodes, n: string, o: Outcome, turns: seq<Turn>)
    requires History(nodes, n, Stopping(o), turns)
    ensures Actions(turns) == [GroupGone(n)]
    ensures Tells(nodes, n, Stopping(o), turns) == Told(o, if IsTask(nodes, n) then [Unavailable] else [], [])
  {
    assert turns[0].action == GroupGone(n);
  }

  /** A running task's history is a way of completing. */
  lemma RunningTells(nodes: Nodes, n: string, turns: seq<Turn>) returns (c: Completion)
    requires History(nodes, n, Running, turns) && IsTask(nodes, n)
    ensures Actions(turns) == TaskActions(n, c) && Tells(nodes, n, Running, turns) == TaskTold(TaskOutcome(c))
  {
    var s, a := turns[0].state, turns[0].action;
    c := if a.TaskExits? then Exited(a.status) else if a.TaskTimesOut? then TimedOut else ShutDown(s.reason.value);
    var e := EffectOf(nodes, n, Running, turns[0]);
    ActionsCons(turns);
    if e.end.Parks? { StoppingTells(nodes, n, e.end.phase.outcome, turns[1..]); }
  }

  lemma ServingTells(nodes: Nodes, n: string, turns: seq<Turn>) returns (end: ServiceEnd)
    requires History(nodes, n, Serving, turns) && !IsTask(nodes, n)
    ensures
      var o := ServiceOutcome(CameUp, end);
      && Actions(turns) == ServingActions(n, end)
      && Tells(nodes, n, Serving, turns) == Told(o, [], if o.Failed? then [Aborted] else [])
  {
    var a := turns[0].action;
    end := if a.ServiceExits? then Left(a.status) else if a.ServiceDies? then Died(a.code) else ToldToStop;
    var e := EffectOf(nodes, n, Serving, turns[0]);
    ActionsCons(turns);
    if e.end.Parks? { StoppingTells(nodes, n, e.end.phase.outcome, turns[1..]); }
  }

  /** A started service's history is a way of coming up or not, and then of ending. */
  lemma StartingTells(nodes: Nodes, n: string, turns: seq<Turn>) returns (up: Startup, end: ServiceEnd)
    requires History(nodes, n, Starting, turns) && !IsTask(nodes, n)
    ensures Actions(turns) == ServiceActions(n, up, end)
    ensures Tells(nodes, n, Starting, turns) == ServiceTold(ServiceOutcome(up, end), up.CameUp?)
  {
    var s, a := turns[0].state, turns[0].action;
    var e := EffectOf(nodes, n, Starting, turns[0]);
    ActionsCons(turns);
    end := ToldToStop;
    if a.ProbePasses? {
      up := CameUp;
      end := ServingTells(nodes, n, turns[1..]);
    } else {
      up := if a.StartupExits? then StartExited(a.status) else if a.StartupTimesOut? then StartTimedOut else StartShutDown(s.reason.value);
      if e.end.Parks? { StoppingTells(nodes, n, e.end.phase.outcome, turns[1..]); }
    }
  }

  function SomeEnvironment(depsReady: bool, reason: Option<Reason>, spawnOk: bool, c: Completion, up: Startup, end: ServiceEnd): Environment {
    Environment(depsReady, reason, spawnOk, c, up, end, Os(true, true, true), true)
  }

  lemma SpawnedTells(nodes: Nodes, n: string, k: nat, turns: seq<Turn>) returns (env: Environment)
    requires History(nodes, n, Waiting(k), turns) && turns[0].action == Spawn(n)
    ensures Actions(turns) == NodeActions(n, nodes[n].kind, env)
    ensures Tells(nodes, n, Waiting(k), turns) == NodeTold(nodes[n].kind, env)
  {
    ActionsCons(turns);
    if IsTask(nodes, n) {
      var c := RunningTells(nodes, n, turns[1..]);
      env := SomeEnvironment(true, None, true, c, CameUp, ToldToStop);
    } else {
      var up, end := StartingTells(nodes, n, turns[1..]);
      env := SomeEnvironment(true, None, true, TimedOut, up, end);
    }
  }

  /** Every history of a node from where it stops waiting is a run of `run_node` in some
      environment: the same steps, the same outcome, the same verdict and requests. */
  lemma HistoryIsRun(nodes: Nodes, n: string, k: nat, turns: seq<Turn>) returns (env: Environment)
    requires History(nodes, n, Waiting(k), turns) && !turns[0].action.DepReady?
    ensures Actions(turns) == NodeActions(n, nodes[n].kind, env)
    ensures Tells(nodes, n, Waiting(k), turns) == NodeTold(nodes[n].kind, env)
  {
    var s, a := turns[0].state, turns[0].action;
    if a.Spawn? {
      env := SpawnedTells(nodes, n, k, turns);
    } else {
      env := SomeEnvironment(!a.DepUnavailable?, if a.SkipForShutdown? then s.reason else None, false, TimedOut, CameUp, ToldToStop);
    }
  }

  // --- every run of the code is a history ---

  /** Exit codes a child can have, and a timeout only where the node has one. */
  ghost predicate Possible(nodes: Nodes, n: string, env: Environment) {
    && n in nodes
    && (!env.depsReady ==> nodes[n].dependsOn != [])
    && (match env.completion case Exited(st) => Plausible(st) case TimedOut => nodes[n].timeoutSecs.Some? case ShutDown(_) => true)
    && (env.startup.StartExited? ==> Plausible(env.startup.status))
    && (match env.end case Left(st) => Plausible(st) case Died(c) => 0 <= c <= 255 case ToldToStop => true)
  }

  function At(nodes: Nodes, n: string, p: Phase, reason: Option<Reason>): State
    requires n in nodes
  {
    State(map[n := p], map d | d in nodes[n].dependsOn :: Some(Unavailable), reason, 0, map[])
  }

  lemma TurnThen(nodes: Nodes, n: string, p: Phase, t: Turn, q: Phase, turns: seq<Turn>)
    requires TurnOf(nodes, n, p, t) && EffectOf(nodes, n, p, t).end == Parks(q) && History(nodes, n, q, turns)
    ensures History(nodes, n, p, [t] + turns) && Actions([t] + turns) == [t.action] + Actions(turns)
    ensures Tells(nodes, n, p, [t] + turns) == Before(EffectOf(nodes, n, p, t), Tells(nodes, n, q, turns))
  {
    assert ([t] + turns)[1..] == turns;
    ActionsCons([t] + turns);
  }

  lemma StoppingHappens(nodes: Nodes, n: string, o: Outcome) returns (turns: seq<Turn>)
    requires n in nodes
    ensures History(nodes, n, Stopping(o), turns) && Actions(turns) == [GroupGone(n)]
    ensures Tells(nodes, n, Stopping(o), turns) == Told(o, if IsTask(nodes, n) then [Unavailable] else [], [])
  {
    turns := [Turn(At(nodes, n, Stopping(o), None), GroupGone(n))];
  }

  lemma TurnReturns(nodes: Nodes, n: string, p: Phase, t: Turn)
    requires TurnOf(nodes, n, p, t) && EffectOf(nodes, n, p, t).end.Returns?
    ensures History(nodes, n, p, [t]) && Actions([t]) == [t.action]
    ensures var e := EffectOf(nodes, n, p, t); Tells(nodes, n, p, [t]) == Before(e, Told(e.end.outcome, [], []))
  {
  }

  lemma TurnStops(nodes: Nodes, n: string, p: Phase, t: Turn, o: Outcome) returns (turns: seq<Turn>)
    requires TurnOf(nodes, n, p, t) && EffectOf(nodes, n, p, t).end == Parks(Stopping(o))
    ensures History(nodes, n, p, turns) && Actions(turns) == [t.action, GroupGone(n)]
    ensures Tells(nodes, n, p, turns) ==
      Before(EffectOf(nodes, n, p, t), Told(o, if IsTask(nodes, n) then [Unavailable] else [], []))
  {
    var rest := StoppingHappens(nodes, n, o);
    TurnThen(nodes, n, p, t, Stopping(o), rest);
    turns := [t] + rest;
  }

  lemma RunningHappens(nodes: Nodes, n: string, c: Completion) returns (turns: seq<Turn>)
    requires n in nodes && nodes[n].kind.Task?
    requires match c case Exited(st) => Plausible(st) case TimedOut => nodes[n].timeoutSecs.Some? case ShutDown(_) => true
    ensures History(nodes, n, Running, turns) && Actions(turns) == TaskActions(n, c)
    ensures Tells(nodes, n, Running, turns) == TaskTold(TaskOutcome(c))
  {
    var t := Turn(At(nodes, n, Running, if c.ShutDown? then Some(c.reason) else None), TaskActions(n, c)[0]);
    if EffectOf(nodes, n, Running, t).end.Parks? {
      turns := TurnStops(nodes, n, Running, t, TaskOutcome(c));
    } else {
      TurnReturns(nodes, n, Running, t);
      turns := [t];
    }
  }

  lemma ServingHappens(nodes: Nodes, n: string, end: ServiceEnd) returns (turns: seq<Turn>)
    requires n in nodes && nodes[n].kind.Service?
    requires match end case Left(st) => Plausible(st) case Died(c) => 0 <= c <= 255 case ToldToStop => true
    ensures History(nodes, n, Serving, turns) && Actions(turns) == ServingActions(n, end)
    ensures var o := ServiceOutcome(CameUp, end); Tells(nodes, n, Serving, turns) == Told(o, [], if o.Failed? then [Aborted] else [])
  {
    var t := Turn(At(nodes, n, Serving, if end.ToldToStop? then Some(Drained) else None), ServingActions(n, end)[0]);
    if EffectOf(nodes, n, Serving, t).end.Parks? {
      turns := TurnStops(nodes, n, Serving, t, ServiceOutcome(CameUp, end));
    } else {
      TurnReturns(nodes, n, Serving, t);
      turns := [t];
    }
  }

  lemma ComingUpHappens(nodes: Nodes, n: string, end: ServiceEnd) returns (turns: seq<Turn>)
    requires n in nodes && nodes[n].kind.Service?
    requires match end case Left(st) => Plausible(st) case Died(c) => 0 <= c <= 255 case ToldToStop => true
    ensures History(nodes, n, Starting, turns) && Actions(turns) == ServiceActions(n, CameUp, end)
    ensures Tells(nodes, n, Starting, turns) == ServiceTold(ServiceOutcome(CameUp, end), true)
  {
    var t := Turn(At(nodes, n, Starting, None), ProbePasses(n));
    assert EffectOf(nodes, n, Starting, t) == Effect(Parks(Serving), Some(Ready), None);
    var rest := ServingHappens(nodes, n, end);
    TurnThen(nodes, n, Starting, t, Serving, rest);
    turns := [t] + rest;
  }

  lemma StayingDownHappens(nodes: Nodes, n: string, up: Startup, end: ServiceEnd) returns (turns: seq<Turn>)
    requires n in nodes && nodes[n].kind.Service? && !up.CameUp? && (up.StartExited? ==> Plausible(up.status))
    ensures History(nodes, n, Starting, turns) && Actions(turns) == ServiceActions(n, up, end)
    ensures Tells(nodes, n, Starting, turns) == ServiceTold(ServiceOutcome(up, end), false)
  {
    var reason := if up.StartShutDown? then Some(up.reason) else None;
    var t := Turn(At(nodes, n, Starting, reason), ServiceActions(n, up, end)[0]);
    if EffectOf(nodes, n, Starting, t).end.Parks? {
      turns := TurnStops(nodes, n, Starting, t, ServiceOutcome(up, end));
    } else {
      TurnReturns(nodes, n, Starting, t);
      turns := [t];
    }
  }

  lemma StartingHappens(nodes: Nodes, n: string, env: Environment) returns (turns: seq<Turn>)
    requires Possible(nodes, n, env) && nodes[n].kind.Service?
    ensures History(nodes, n, Starting, turns) && Actions(turns) == ServiceActions(n, env.startup, env.end)
    ensures Tells(nodes, n, Starting, turns) == ServiceTold(ServiceOutcome(env.startup, env.end), env.startup.CameUp?)
  {
    if env.startup.CameUp? {
      turns := ComingUpHappens(nodes, n, env.end);
    } else {
      turns := StayingDownHappens(nodes, n, env.startup, env.end);
    }
  }

  lemma SpawnedHappens(nodes: Nodes, n: string, env: Environment, p: Phase) returns (turns: seq<Turn>)
    requires Possible(nodes, n, env) && p == if IsTask(nodes, n) then Running else Starting
    ensures History(nodes, n, p, turns)
    ensures Actions(turns) ==
      if IsTask(nodes, n) then TaskActions(n, env.completion) else ServiceActions(n, env.startup, env.end)
    ensures Tells(nodes, n, p, turns) ==
      if IsTask(nodes, n) then TaskTold(TaskOutcome(env.completion))
      else ServiceTold(ServiceOutcome(env.startup, env.end), env.startup.CameUp?)
  {
    if IsTask(nodes, n) {
      turns := RunningHappens(nodes, n, env.completion);
    } else {
      turns := StartingHappens(nodes, n, env);
    }
  }

  lemma SpawnHappens(nodes: Nodes, n: string, env: Environment) returns (turns: seq<Turn>)
    requires Possible(nodes, n, env) && env.depsReady && env.reason.None? && env.spawnOk
    ensures History(nodes, n, Waiting(|nodes[n].dependsOn|), turns) && Actions(turns) == NodeActions(n, nodes[n].kind, env)
    ensures Tells(nodes, n, Waiting(|nodes[n].dependsOn|), turns) == NodeTold(nodes[n].kind, env)
  {
    var p, q := Waiting(|nodes[n].dependsOn|), if IsTask(nodes, n) then Running else Starting;
    var t := Turn(At(nodes, n, p, None), Spawn(n));
    var rest := SpawnedHappens(nodes, n, env, q);
    TurnThen(nodes, n, p, t, q, rest);
    turns := [t] + rest;
  }

  /** Every run of `run_node` that can happen is a history of the node. */
  lemma RunIsHistory(nodes: Nodes, n: string, env: Environment) returns (k: nat, turns: seq<Turn>)
    requires Possible(nodes, n, env)
    ensures History(nodes, n, Waiting(k), turns) && Actions(turns) == NodeActions(n, nodes[n].kind, env)
    ensures Tells(nodes, n, Waiting(k), turns) == NodeTold(nodes[n].kind, env)
  {
    k := if env.depsReady then |nodes[n].dependsOn| else 0;
    if env.depsReady && env.reason.None? && env.spawnOk {
      turns := SpawnHappens(nodes, n, env);
    } else {
      var a := NodeActions(n, nodes[n].kind, env)[0];
      turns := [Turn(At(nodes, n, Waiting(k), env.reason), a)];
    }
  }
}
