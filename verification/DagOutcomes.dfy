/** Which outcome each event leaves a node with, and what the runner exits with then. */
module DagOutcomes {
  import opened Wrappers
  import opened DagSpec
  import opened DagProtocol
  import opened DagSafety

  /** The outcome an event decides for the node it happens to. */
  ghost predicate Decides(s: State, a: Action, o: Outcome) {
    match a
    case DepUnavailable(_) => o == Skipped
    case SkipForShutdown(_) => o == Skipped
    case SpawnFails(_) => o == Failed(127)
    case TaskExits(_, Code(c)) => o == if c == 0 then Succeeded else Failed(c)
    case TaskExits(_, _) => o == Failed(1)
    case TaskTimesOut(_) => o == Failed(124)
    case StartupTimesOut(_) => o == Failed(124)
    case StartupExits(_, Code(c)) => o == Failed(c)
    case StartupExits(_, _) => o == Failed(1)
    case ServiceExits(_, Code(c)) => o == Failed(c)
    case ServiceExits(_, _) => o == Failed(1)
    case ServiceDies(_, c) => o == Failed(c)
    case SeesShutdown(n) =>
      if In(s, n, Running) then o == Failed(if s.reason == Some(Cancelled) then 130 else 143) else o == Stopped
    case _ => false
  }

  /** The node's record is, or will be, this outcome. */
  ghost predicate Decided(s: State, n: string, o: Outcome) {
    n in s.phase && (s.phase[n] == Stopping(o) || (s.phase[n] == Settled && n in s.records && s.records[n] == o))
  }

  lemma EventDecides(nodes: Nodes, s: State, a: Action, o: Outcome)
    requires NodesInv(nodes, s) && Enabled(nodes, s, a) && Decides(s, a, o)
    ensures Decided(Apply(nodes, s, a), a.n, o)
  {
    assert NodeInv(nodes, s, a.n);
  }

  lemma StaysDecided(nodes: Nodes, s: State, a: Action, n: string, o: Outcome)
    requires NodesInv(nodes, s) && Enabled(nodes, s, a) && n in nodes && Decided(s, n, o)
    ensures Decided(Apply(nodes, s, a), n, o)
  {
    if !a.CtrlC? {
      assert NodeInv(nodes, s, a.n);
      SubjectKeepsInv(nodes, s, a);
    }
  }

  lemma RunStepStaysDecided(nodes: Nodes, run: seq<State>, i: int, n: string, o: Outcome)
    requires IsRun(nodes, run) && 0 <= i < |run| - 1 && n in nodes && Decided(run[i], n, o)
    ensures Decided(run[i + 1], n, o)
  {
    RunKeepsInv(nodes, run, i);
    assert Successive(nodes, run, i);
    var a :| Enabled(nodes, run[i], a) && run[i + 1] == Apply(nodes, run[i], a);
    StaysDecided(nodes, run[i], a, n, o);
  }

  lemma {:induction false} RunStaysDecided(nodes: Nodes, run: seq<State>, i: int, j: int, n: string, o: Outcome)
    requires IsRun(nodes, run) && 0 <= i <= j < |run| && n in nodes && Decided(run[i], n, o)
    ensures Decided(run[j], n, o)
    decreases j - i
  {
    if i < j {
      RunStaysDecided(nodes, run, i, j - 1, n, o);
      RunStepStaysDecided(nodes, run, j - 1, n, o);
    }
  }

  /** The event happened in the run. */
  ghost predicate Happens(nodes: Nodes, run: seq<State>, i: int, a: Action) {
    0 <= i < |run| - 1 && Enabled(nodes, run[i], a) && run[i + 1] == Apply(nodes, run[i], a)
  }

  lemma HappensDecides(nodes: Nodes, run: seq<State>, i: int, a: Action, o: Outcome)
    requires IsRun(nodes, run) && Happens(nodes, run, i, a) && Decides(run[i], a, o)
    ensures a.n in nodes && Decided(run[i + 1], a.n, o)
  {
    RunKeepsInv(nodes, run, i);
    EventDecides(nodes, run[i], a, o);
  }

  /** A finished run records for each node the outcome the deciding event gave it. */
  lemma RecordedAsDecided(nodes: Nodes, run: seq<State>, i: int, a: Action, o: Outcome)
    requires IsRun(nodes, run) && Done(run[|run| - 1]) && Happens(nodes, run, i, a) && Decides(run[i], a, o)
    ensures a.n in run[|run| - 1].records && run[|run| - 1].records[a.n] == o
  {
    HappensDecides(nodes, run, i, a, o);
    RunStaysDecided(nodes, run, i + 1, |run| - 1, a.n, o);
  }

  lemma OnlyEventsDecide(nodes: Nodes, s: State, a: Action, n: string, o: Outcome)
    requires NodesInv(nodes, s) && Enabled(nodes, s, a) && n in nodes
    requires !Decided(s, n, o) && Decided(Apply(nodes, s, a), n, o)
    ensures !a.CtrlC? && a.n == n && Decides(s, a, o)
  {
    assert NodeInv(nodes, s, n);
  }

  lemma {:induction false} DecidedByEvent(nodes: Nodes, run: seq<State>, j: int, n: string, o: Outcome)
    returns (i: int, a: Action)
    requires IsRun(nodes, run) && 0 <= j < |run| && n in nodes && Decided(run[j], n, o)
    ensures 0 <= i < j && Happens(nodes, run, i, a) && !a.CtrlC? && a.n == n && Decides(run[i], a, o)
    decreases j
  {
    if j > 0 && Decided(run[j - 1], n, o) {
      i, a := DecidedByEvent(nodes, run, j - 1, n, o);
    } else if j > 0 {
      RunKeepsInv(nodes, run, j - 1);
      assert Successive(nodes, run, j - 1);
      i := j - 1;
      a :| Enabled(nodes, run[i], a) && run[i + 1] == Apply(nodes, run[i], a);
      OnlyEventsDecide(nodes, run[i], a, n, o);
    }
  }

  /** Each record of a finished run is the outcome of an event that happened to the node. */
  lemma RecordHasEvent(nodes: Nodes, run: seq<State>, n: string) returns (i: int, a: Action)
    requires IsRun(nodes, run) && Done(run[|run| - 1]) && n in nodes
    ensures n in run[|run| - 1].records && Happens(nodes, run, i, a) && !a.CtrlC? && a.n == n
    ensures Decides(run[i], a, run[|run| - 1].records[n])
  {
    var s := run[|run| - 1];
    RunKeepsInv(nodes, run, |run| - 1);
    assert NodeInv(nodes, s, n);
    i, a := DecidedByEvent(nodes, run, |run| - 1, n, s.records[n]);
  }

  /** A task is recorded with 124 only if it has a timeout or its child exited with that code. */
  lemma TimedOutHasLimit(nodes: Nodes, run: seq<State>, n: string)
    requires IsRun(nodes, run) && Done(run[|run| - 1]) && n in nodes && nodes[n].kind.Task?
    requires n in run[|run| - 1].records && run[|run| - 1].records[n] == Failed(124)
    ensures nodes[n].timeoutSecs.Some? || exists i :: Happens(nodes, run, i, TaskExits(n, Code(124)))
  {
    var i, a := RecordHasEvent(nodes, run, n);
    RunKeepsInv(nodes, run, i);
    assert NodeInv(nodes, run[i], n);
  }

  /** A record that does not outweigh the exit code `c`. */
  predicate NoWorse(o: Outcome, c: int) {
    match o
    case Failed(d) => d <= c
    case Skipped => 1 <= c
    case _ => true
  }

  ghost predicate AllNoWorse(records: map<string, Outcome>, c: int) {
    forall m :: m in records ==> NoWorse(records[m], c)
  }

  /** The runner exits with the code of a failed node, unless another one is worse. */
  lemma ExitsWithWorst(nodes: Nodes, run: seq<State>, n: string, c: int, code: int)
    requires IsRun(nodes, run) && Done(run[|run| - 1]) && run[|run| - 1].reason != Some(Cancelled)
    requires ExitsWith(run[|run| - 1], code) && n in run[|run| - 1].records && run[|run| - 1].records[n] == Failed(c)
    ensures c <= code
    ensures AllNoWorse(run[|run| - 1].records, c) ==> code == c
  {
    var s := run[|run| - 1];
    RunKeepsInv(nodes, run, |run| - 1);
    assert NodeInv(nodes, s, n);
    assert ExitContribution(s.records[n]) == c;
  }

  /** A task that exits with a nonzero code is recorded with it, and the runner exits with it
      when nothing is worse. */
  lemma FailedTaskExits(nodes: Nodes, run: seq<State>, i: int, n: string, c: int, code: int)
    requires IsRun(nodes, run) && Done(run[|run| - 1]) && run[|run| - 1].reason != Some(Cancelled)
    requires Happens(nodes, run, i, TaskExits(n, Code(c))) && c != 0 && ExitsWith(run[|run| - 1], code)
    ensures n in run[|run| - 1].records && run[|run| - 1].records[n] == Failed(c) && c <= code
    ensures nodes.Keys == {n} ==> code == c
  {
    RecordedAsDecided(nodes, run, i, TaskExits(n, Code(c)), Failed(c));
    ExitsWithWorst(nodes, run, n, c, code);
    RunKeepsInv(nodes, run, |run| - 1);
  }
}
