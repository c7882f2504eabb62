/** How the dag-runner owns a child's process group, from `run_node` down to the signals.
    What the operating system and the clock decide is passed in. */
module ProcessGroup {
  import opened Wrappers
  import opened DagSpec
  import opened DagProtocol

  /** What has happened to a process group, oldest first. */
  datatype Event =
    | Term(ok: bool)
    | Kill(ok: bool)
    | Reap(ok: bool)
    | Disarm

  /** The group was killed, or its leader reaped, before it was disarmed. */
  ghost predicate DisarmedOnlyWhenGone(trace: seq<Event>) {
    forall i :: 0 <= i < |trace| && trace[i].Disarm? ==> Kill(true) in trace[..i] || Reap(true) in trace[..i]
  }

  /** No signal is sent to a group whose leader has been reaped, so its recycled identifier
      is never signalled. */
  ghost predicate NeverSignalsReaped(trace: seq<Event>) {
    forall i, j :: 0 <= i < j < |trace| && trace[i] == Reap(true) ==> !trace[j].Term? && !trace[j].Kill?
  }

  ghost predicate Sound(trace: seq<Event>) {
    DisarmedOnlyWhenGone(trace) && NeverSignalsReaped(trace)
  }

  /** While armed the group is still ours to signal; once disarmed it has been dealt with. */
  ghost predicate Tracks(armed: bool, trace: seq<Event>) {
    && Sound(trace)
    && (armed <==> Disarm !in trace)
    && (armed ==> Reap(true) !in trace)
  }

  lemma AppendEvent(trace: seq<Event>, e: Event)
    requires Sound(trace)
    requires e.Disarm? ==> Kill(true) in trace || Reap(true) in trace
    requires e.Term? || e.Kill? ==> Reap(true) !in trace
    ensures Sound(trace + [e])
  {
    var longer := trace + [e];
    forall i | 0 <= i < |longer| && longer[i].Disarm?
      ensures Kill(true) in longer[..i] || Reap(true) in longer[..i]
    {
      if i < |trace| { assert longer[..i] == trace[..i]; } else { assert longer[..i] == trace; }
    }
  }

  /** The answers of the operating system while one group is being terminated. */
  datatype Os = Os(termOk: bool, killOk: bool, waitOk: bool)

  class OwnedProcessGroup {
    var armed: bool
    ghost var trace: seq<Event>

    constructor ()
      ensures armed && trace == [] && Tracks(armed, trace)
    {
      armed, trace := true, [];
    }

    method Signal(kill: bool, ok: bool)
      requires Sound(trace) && Reap(true) !in trace
      modifies this`trace
      ensures Sound(trace) && trace == old(trace) + [if kill then Kill(ok) else Term(ok)]
    {
      AppendEvent(trace, if kill then Kill(ok) else Term(ok));
      trace := trace + [if kill then Kill(ok) else Term(ok)];
    }

    method MarkDisarmed()
      requires Sound(trace) && (Kill(true) in trace || Reap(true) in trace)
      modifies this
      ensures !armed && Sound(trace) && trace == old(trace) + [Disarm]
    {
      AppendEvent(trace, Disarm);
      armed := false;
      trace := trace + [Disarm];
    }

    /** `Child::wait` on the leader. */
    method WaitLeader(ok: bool)
      requires Sound(trace)
      modifies this`trace
      ensures Sound(trace) && trace == old(trace) + [Reap(ok)]
    {
      AppendEvent(trace, Reap(ok));
      trace := trace + [Reap(ok)];
    }

    /** `terminate_process_group`: ask, then kill, and reap the leader only after the kill. */
    method Terminate(os: Os) returns (ok: bool)
      requires armed && Tracks(armed, trace)
      modifies this
      ensures Tracks(armed, trace)
      ensures armed <==> !os.killOk
      ensures trace == old(trace) + [Term(os.termOk), Kill(os.killOk)] +
                       (if os.killOk then [Disarm, Reap(os.waitOk)] else [])
      ensures ok <==> os.termOk && os.killOk && os.waitOk
    {
      Signal(false, os.termOk);
      Signal(true, os.killOk);
      if !os.killOk { return false; }
      MarkDisarmed();
      WaitLeader(os.waitOk);
      ghost var was, term, kill, reap := old(trace), Term(os.termOk), Kill(os.killOk), Reap(os.waitOk);
      assert was + [term] + [kill] + [Disarm] + [reap] == was + [term, kill] + [Disarm, reap];
      return os.termOk && os.waitOk;
    }

    /** `Drop`: a group still armed is killed. */
    method Drop(ok: bool)
      requires Tracks(armed, trace)
      modifies this
      ensures Sound(trace) && trace == old(trace) + (if old(armed) then [Kill(ok)] else [])
    {
      if armed { Signal(true, ok); }
    }
  }

  /** What ended the wait for a task. */
  datatype Completion = Exited(status: ExitStatus) | TimedOut | ShutDown(reason: Reason)

  /** What ended a service's start-up race, and afterwards its service. */
  datatype Startup = CameUp | StartExited(status: ExitStatus) | StartTimedOut | StartShutDown(reason: Reason)

  datatype ServiceEnd = ToldToStop | Left(status: ExitStatus) | Died(code: int)

  function TaskOutcome(c: Completion): Outcome {
    match c
    case Exited(st) => if st == Code(0) then Succeeded else Failed(StatusCode(st))
    case TimedOut => Failed(124)
    case ShutDown(r) => Failed(TerminatedExitCode(r))
  }

  function ServiceOutcome(up: Startup, end: ServiceEnd): Outcome {
    match up
    case StartShutDown(_) => Stopped
    case StartTimedOut => Failed(124)
    case StartExited(st) => Failed(StatusCode(st))
    case CameUp =>
      match end
      case ToldToStop => Stopped
      case Left(st) => Failed(StatusCode(st))
      case Died(c) => Failed(c)
  }

  method RunTask(group: OwnedProcessGroup, c: Completion, os: Os) returns (outcome: Outcome)
    requires group.armed && group.trace == []
    modifies group
    ensures Tracks(group.armed, group.trace)
    ensures outcome == TaskOutcome(c)
    ensures c.Exited? && c.status.Code? ==> outcome == if c.status.code == 0 then Succeeded else Failed(c.status.code)
    ensures c.Exited? && !c.status.Code? ==> outcome == Failed(1)
    ensures c.TimedOut? ==> outcome == Failed(124)
    ensures c.ShutDown? ==> outcome == Failed(if c.reason.Cancelled? then 130 else 143)
  {
    match c {
      case Exited(st) =>
        group.WaitLeader(!st.WaitError?);
        if !st.WaitError? {
          group.MarkDisarmed();
          outcome := if st == Code(0) then Succeeded else Failed(StatusCode(st));
        } else {
          var _ := group.Terminate(os);
          outcome := Failed(1);
        }
      case TimedOut =>
        var _ := group.Terminate(os);
        outcome := Failed(124);
      case ShutDown(r) =>
        var _ := group.Terminate(os);
        outcome := Failed(TerminatedExitCode(r));
    }
  }

  /** What a node's future sends: its readiness verdicts and its shutdown requests. */
  class Outbox {
    var published: seq<Readiness>
    var requested: seq<Reason>

    constructor ()
      ensures published == [] && requested == []
    {
      published, requested := [], [];
    }
  }

  method ServiceExit(group: OwnedProcessGroup, st: ExitStatus) returns (outcome: Outcome)
    requires group.armed && Tracks(group.armed, group.trace)
    modifies group
    ensures Tracks(group.armed, group.trace)
    ensures outcome == Failed(StatusCode(st))
    ensures outcome == Failed(if st.Code? then st.code else 1)
  {
    group.WaitLeader(!st.WaitError?);
    if !st.WaitError? { group.MarkDisarmed(); }
    outcome := Failed(StatusCode(st));
  }

  method RunService(group: OwnedProcessGroup, out: Outbox, up: Startup, end: ServiceEnd, os: Os)
    returns (outcome: Outcome)
    requires group.armed && group.trace == []
    modifies group, out
    ensures Tracks(group.armed, group.trace)
    ensures outcome == ServiceOutcome(up, end)
    ensures up.StartTimedOut? ==> outcome == Failed(124)
    ensures up.StartExited? ==> outcome == Failed(if up.status.Code? then up.status.code else 1)
    ensures up.StartShutDown? || (up.CameUp? && end.ToldToStop?) ==> outcome == Stopped
    ensures up.CameUp? && end.Left? ==> outcome == Failed(if end.status.Code? then end.status.code else 1)
    ensures up.CameUp? && end.Died? ==> outcome == Failed(end.code)
    ensures out.published == old(out.published) + [if up.CameUp? then Ready else Unavailable]
    ensures out.requested == old(out.requested) + (if outcome.Failed? then [Aborted] else [])
  {
    if !up.CameUp? {
      out.published := out.published + [Unavailable];
      if up.StartShutDown? {
        var _ := group.Terminate(os);
        return Stopped;
      }
      out.requested := out.requested + [Aborted];
      if up.StartTimedOut? {
        var _ := group.Terminate(os);
        return Failed(124);
      }
      outcome := ServiceExit(group, up.status);
      return;
    }
    out.published := out.published + [Ready];
    if end.ToldToStop? {
      var _ := group.Terminate(os);
      return Stopped;
    }
    out.requested := out.requested + [Aborted];
    if end.Left? {
      outcome := ServiceExit(group, end.status);
    } else {
      var _ := group.Terminate(os);
      outcome := Failed(end.code);
    }
  }

  /** Everything the environment decides about one node. */
  datatype Environment = Environment(
    depsReady: bool,
    reason: Option<Reason>,
    spawnOk: bool,
    completion: Completion,
    startup: Startup,
    end: ServiceEnd,
    os: Os,
    dropOk: bool)

  /** `execute`, with the group dropped at its end: on every path the group was killed or its
      leader reaped before it was disarmed, or `Drop` killed it; and a reaped leader's group
      is never signalled. */
  method Execute(kind: Kind, out: Outbox, env: Environment) returns (outcome: Outcome, ghost trace: seq<Event>)
    modifies out
    ensures Sound(trace)
    ensures env.spawnOk ==> Disarm in trace || (trace != [] && trace[|trace| - 1] == Kill(env.dropOk))
    ensures !env.spawnOk ==> trace == []
    ensures kind.Task? ==> unchanged(out)
    ensures kind.Task? ==> outcome == if env.spawnOk then TaskOutcome(env.completion) else Failed(127)
    ensures kind.Service? ==> outcome == if env.spawnOk then ServiceOutcome(env.startup, env.end) else Failed(127)
    ensures kind.Service? ==>
      && out.published == old(out.published) + [if env.spawnOk && env.startup.CameUp? then Ready else Unavailable]
      && out.requested == old(out.requested) + (if outcome.Failed? then [Aborted] else [])
  {
    trace := [];
    if !env.spawnOk {
      if kind.Service? {
        out.published := out.published + [Unavailable];
        out.requested := out.requested + [Aborted];
      }
      return Failed(127), [];
    }
    var group := new OwnedProcessGroup();
    if kind.Service? {
      outcome := RunService(group, out, env.startup, env.end, env.os);
    } else {
      outcome := RunTask(group, env.completion, env.os);
    }
    group.Drop(env.dropOk);
    trace := group.trace;
  }

  /** What a node's future leaves behind: its outcome, and what it published and requested. */
  datatype Told = Told(outcome: Outcome, published: seq<Readiness>, requested: seq<Reason>)

  function TaskTold(o: Outcome): Told {
    Told(o, [if o.Succeeded? then Ready else Unavailable], [])
  }

  function ServiceTold(o: Outcome, cameUp: bool): Told {
    Told(o, [if cameUp then Ready else Unavailable], if o.Failed? then [Aborted] else [])
  }

  /** What `run_node` leaves behind in this environment. */
  function NodeTold(kind: Kind, env: Environment): Told {
    if !env.depsReady || env.reason.Some? then Told(Skipped, [Unavailable], [])
    else if kind.Task? then TaskTold(if env.spawnOk then TaskOutcome(env.completion) else Failed(127))
    else if !env.spawnOk then ServiceTold(Failed(127), false)
    else ServiceTold(ServiceOutcome(env.startup, env.end), env.startup.CameUp?)
  }

  /** `run_node`: on every path exactly one readiness verdict is published, a task's is ready
      exactly when it succeeded, and only a failed service asks for the group to go down. */
  method RunNode(kind: Kind, out: Outbox, env: Environment) returns (outcome: Outcome)
    requires out.published == [] && out.requested == []
    modifies out
    ensures |out.published| == 1
    ensures kind.Task? ==> (out.published[0] == Ready <==> outcome.Succeeded?)
    ensures kind.Service? ==> (out.published[0] == Ready <==>
      env.depsReady && env.reason.None? && env.spawnOk && env.startup.CameUp?)
    ensures outcome.Skipped? <==> !env.depsReady || env.reason.Some?
    ensures out.requested == if kind.Service? && outcome.Failed? then [Aborted] else []
    ensures Told(outcome, out.published, out.requested) == NodeTold(kind, env)
  {
    if !env.depsReady || env.reason.Some? {
      out.published := out.published + [Unavailable];
      return Skipped;
    }
    ghost var trace;
    outcome, trace := Execute(kind, out, env);
    if kind.Task? {
      out.published := out.published + [if outcome.Succeeded? then Ready else Unavailable];
    }
  }
}
