/** What the Slack edge promises over whole runs: every interleaving, retry, duplicate
    delivery, crash and restart. */
module SlackGuarantees {
  import opened Wrappers
  import opened SlackDelivery
  import opened SlackSafety

  lemma {:induction false} RunGrows(run: seq<System>, i: int, j: int)
    requires IsRun(run) && 0 <= i <= j < |run|
    ensures Grows(run[i].world, run[j].world)
    decreases j - i
  {
    if i < j {
      RunGrows(run, i, j - 1);
      RunKeepsInv(run, j - 1);
      assert Successive(run, j - 1);
      StepKeepsInv(run[j - 1], run[j]);
    }
  }

  /** An event's durable state only ever moves on: nothing, received, awaiting a reply, sent. */
  lemma StateOnlyAdvances(run: seq<System>, i: int, j: int, k: Key)
    requires IsRun(run) && 0 <= i <= j < |run|
    ensures Rank(StateOf(run[i].world.log, k)) <= Rank(StateOf(run[j].world.log, k))
  {
    RunKeepsInv(run, i);
    RunKeepsInv(run, j);
    RunGrows(run, i, j);
    ProgressGrows(run[i].world.log, run[i].world.posts, run[j].world.log, run[j].world.posts, k);
  }

  lemma AbsorbMovesOneState(log: seq<Op>, posts: seq<Post>, op: Op, k: Key)
    requires LogInv(log, posts) && Grounded(log, posts, op)
    ensures Rank(StateOf(Absorb(log, op), k)) <= Rank(StateOf(log, k)) + 1
  {
    if !Applied(log, IdOf(op)) {
      LandKeepsLog(log, posts, op);
      StateIsProgress(log, posts, k);
      StateIsProgress(Absorb(log, op), posts, k);
      AppliedSnoc(log, op, SentId(k));
      AppliedSnoc(log, op, DispatchedId(k));
      AppliedSnoc(log, op, RecordId(k));
    }
  }

  /** It never skips a state: no single step moves it by more than one. */
  lemma StateNeverSkips(run: seq<System>, i: int, k: Key)
    requires IsRun(run) && 0 <= i < |run| - 1
    ensures Rank(StateOf(run[i + 1].world.log, k)) <= Rank(StateOf(run[i].world.log, k)) + 1
  {
    RunKeepsInv(run, i);
    assert Successive(run, i);
    var s, t := run[i], run[i + 1];
    var a :| Step(s, a, t);
    if a.Land? {
      AbsorbMovesOneState(s.world.log, s.world.posts, a.op, k);
    } else {
      OnlyLandingWrites(s, a, t);
    }
  }

  lemma OnlyLandingWrites(s: System, a: Action, t: System)
    requires Step(s, a, t) && !a.Land?
    ensures t.world.log == s.world.log
  {
  }

  /** An event is marked sent only after Slack accepted a post for it, and all posts for one
      event, in any incarnation, carry the same deterministic message id. */
  lemma SentWasPosted(run: seq<System>, i: int, k: Key)
    requires IsRun(run) && 0 <= i < |run|
    ensures StateOf(run[i].world.log, k) == Some(SentState) ==> PostedOk(run[i].world.posts, k)
    ensures forall p, q :: p in run[i].world.posts && q in run[i].world.posts && p.key == q.key ==>
      p.clientMsgId == q.clientMsgId
  {
    RunKeepsInv(run, i);
    var w := run[i].world;
    StateIsProgress(w.log, w.posts, k);
    if Applied(w.log, SentId(k)) {
      var j :| 0 <= j < |w.log| && IdOf(w.log[j]) == SentId(k);
      assert Grounded(w.log[..j], w.posts, w.log[j]);
    }
  }

  /** An incarnation never has two live delivery tasks for one event, and works only on
      events whose record and dispatch are durable. */
  lemma OneLiveTaskPerEvent(run: seq<System>, i: int, t: nat, u: nat)
    requires IsRun(run) && 0 <= i < |run| && run[i].bot.Some?
    requires t in run[i].bot.value.tasks && !run[i].bot.value.tasks[t].pc.Over?
    requires u in run[i].bot.value.tasks && !run[i].bot.value.tasks[u].pc.Over?
    requires run[i].bot.value.tasks[t].event.Key() == run[i].bot.value.tasks[u].event.Key()
    ensures t == u
    ensures Rank(StateOf(run[i].world.log, run[i].bot.value.tasks[t].event.Key())) >= 2
  {
    RunKeepsInv(run, i);
    StateIsProgress(run[i].world.log, run[i].world.posts, run[i].bot.value.tasks[t].event.Key());
  }

  /** An acknowledged event is always durably recorded and dispatched. */
  lemma AckedIsDispatched(run: seq<System>, i: int, e: SlackEvent)
    requires IsRun(run) && 0 <= i < |run| && e in run[i].world.acked
    ensures Rank(StateOf(run[i].world.log, e.Key())) >= 2
    ensures Applied(run[i].world.log, RecordId(e.Key())) && Applied(run[i].world.log, DispatchedId(e.Key()))
  {
    RunKeepsInv(run, i);
    StateIsProgress(run[i].world.log, run[i].world.posts, e.Key());
  }

  lemma IngestLeaves(w: World, b: Bot, a: Action, w': World, b': Bot, n: nat)
    requires BotStep(w, b, a, w', b') && n in b.ingests && n !in b'.ingests
    ensures b.ingests[n].event in w'.acked || a == IngestFails(n)
  {
  }

  /** An ingest call ends by acknowledging its event, unless it fails. */
  lemma IngestEndsAcked(run: seq<System>, i: int, n: nat)
    requires IsRun(run) && 0 <= i < |run| - 1 && run[i].bot.Some? && run[i + 1].bot.Some?
    requires n in run[i].bot.value.ingests && n !in run[i + 1].bot.value.ingests
    ensures run[i].bot.value.ingests[n].event in run[i + 1].world.acked || Step(run[i], IngestFails(n), run[i + 1])
  {
    assert Successive(run, i);
    var a :| Step(run[i], a, run[i + 1]);
    if !a.Land? { IngestLeaves(run[i].world, run[i].bot.value, a, run[i + 1].world, run[i + 1].bot.value, n); }
  }

  /** No crash between two moments. */
  ghost predicate Alive(run: seq<System>, j: int, i: int) {
    0 <= j <= i < |run| && forall m :: j <= m <= i ==> run[m].bot.Some?
  }

  lemma AliveOneMore(run: seq<System>, j: int, i: int)
    requires Alive(run, j, i - 1) && i < |run| && run[i].bot.Some?
    ensures Alive(run, j, i)
  {
  }

  /** What a started incarnation read back is a complete snapshot of the log as it stood at an
      earlier moment of the same incarnation, after every earlier crash. */
  lemma {:induction false} ReadBackASnapshot(run: seq<System>, i: int) returns (j: int)
    requires IsRun(run) && 0 <= i < |run| && run[i].bot.Some? && !run[i].bot.value.start.Starting?
    ensures j < i && Alive(run, j, i) && run[j].bot.value.start.Starting?
    ensures IsSnapshot(run[j].world.log, Rows(run[i].bot.value.start))
    ensures run[j].world.ownedBefore == run[i].world.ownedBefore
  {
    assert i > 0;
    assert Successive(run, i - 1);
    var s, t := run[i - 1], run[i];
    var a :| Step(s, a, t);
    if s.bot.Some? && !s.bot.value.start.Starting? {
      j := ReadBackASnapshot(run, i - 1);
      SnapshotIsKept(s, a, t);
      AliveOneMore(run, j, i);
    } else {
      j := i - 1;
      SnapshotIsTaken(s, a, t);
    }
  }

  lemma SnapshotIsKept(s: System, a: Action, t: System)
    requires Step(s, a, t) && s.bot.Some? && t.bot.Some? && !s.bot.value.start.Starting?
    ensures Rows(t.bot.value.start) == Rows(s.bot.value.start)
    ensures t.world.ownedBefore == s.world.ownedBefore
  {
  }

  lemma SnapshotIsTaken(s: System, a: Action, t: System)
    requires Step(s, a, t) && t.bot.Some? && !t.bot.value.start.Starting?
    requires s.bot.None? || s.bot.value.start.Starting?
    ensures s.bot.Some? && s.bot.value.start.Starting? && IsSnapshot(s.world.log, Rows(t.bot.value.start))
    ensures t.world.ownedBefore == s.world.ownedBefore
  {
  }

  /** Once `start` has completed, every event it read back is taken care of: a sent one is
      known as sent, any other has been dispatched again and has a delivery task. */
  lemma StartRecoversEverything(run: seq<System>, i: int, n: int)
    requires IsRun(run) && 0 <= i < |run| && run[i].bot.Some? && run[i].bot.value.start.Up?
    requires 0 <= n < |Rows(run[i].bot.value.start)|
    ensures var b, row := run[i].bot.value, Rows(run[i].bot.value.start)[n];
      && row.event.Thread() in b.owned
      && (if row.state.SentState? then row.event.Key() in b.sentKeys
          else row.event.Key() in b.deliveryTasks && Rank(StateOf(run[i].world.log, row.event.Key())) >= 2)
  {
    RunKeepsInv(run, i);
    var b, w := run[i].bot.value, run[i].world;
    var row := Rows(b.start)[n];
    assert Handled(b, row);
    if !row.state.SentState? { HasDispatched(w, b, row.event.Key()); }
  }

  lemma HasDispatched(w: World, b: Bot, k: Key)
    requires LogInv(w.log, w.posts) && TasksInv(w.log, b.deliveryTasks, b.tasks, b.nextId) && k in b.deliveryTasks
    ensures Rank(StateOf(w.log, k)) >= 2
  {
    assert b.tasks[b.deliveryTasks[k]].event.Key() == k;
    StateIsProgress(w.log, w.posts, k);
  }

  ghost predicate WasRefused(posts: seq<Post>, k: Key) {
    exists i :: 0 <= i < |posts| && posts[i].key == k && posts[i].answer.Refused?
  }

  lemma RefusedGrows(posts: seq<Post>, posts': seq<Post>, k: Key)
    requires posts <= posts' && WasRefused(posts, k)
    ensures WasRefused(posts', k)
  {
    var i :| 0 <= i < |posts| && posts[i].key == k && posts[i].answer.Refused?;
    assert posts'[i] == posts[i];
  }

  /** A delivery task gives up only on an event that is sent or permanently refused. */
  ghost predicate OverInv(posts: seq<Post>, sent: set<Key>, tasks: map<nat, DeliveryTask>) {
    forall t :: t in tasks ==>
      && (tasks[t].pc.Finishing? ==> tasks[t].event.Key() in sent)
      && (tasks[t].pc.Over? ==> tasks[t].event.Key() in sent || WasRefused(posts, tasks[t].event.Key()))
  }

  lemma OverGrows(posts: seq<Post>, posts': seq<Post>, sent: set<Key>, sent': set<Key>, tasks: map<nat, DeliveryTask>)
    requires OverInv(posts, sent, tasks) && posts <= posts' && sent <= sent'
    ensures OverInv(posts', sent', tasks)
  {
    forall k | WasRefused(posts, k) ensures WasRefused(posts', k) { RefusedGrows(posts, posts', k); }
  }

  lemma OverKeeps(w: World, b: Bot, a: Action, w': World, b': Bot)
    requires BotStep(w, b, a, w', b') && OverInv(w.posts, b.sentKeys, b.tasks)
    ensures OverInv(w'.posts, b'.sentKeys, b'.tasks)
  {
    OverGrows(w.posts, w'.posts, b.sentKeys, b'.sentKeys, b.tasks);
    if a.PostFails? && a.permanent {
      assert w'.posts[|w.posts|].answer.Refused?;
      assert WasRefused(w'.posts, b.tasks[a.t].event.Key());
    }
  }

  lemma {:induction false} RunKeepsOver(run: seq<System>, i: int)
    requires IsRun(run) && 0 <= i < |run| && run[i].bot.Some?
    ensures OverInv(run[i].world.posts, run[i].bot.value.sentKeys, run[i].bot.value.tasks)
  {
    assert i > 0;
    assert Successive(run, i - 1);
    var a :| Step(run[i - 1], a, run[i]);
    if run[i - 1].bot.Some? {
      RunKeepsOver(run, i - 1);
      if !a.Land? { OverKeeps(run[i - 1].world, run[i - 1].bot.value, a, run[i].world, run[i].bot.value); }
    }
  }

  /** The event is sent, or a delivery task is at work on it, or Slack refused it for good. */
  ghost predicate InCare(w: World, b: Bot, k: Key) {
    || k in b.sentKeys
    || (k in b.deliveryTasks && b.deliveryTasks[k] in b.tasks && b.tasks[b.deliveryTasks[k]].event.Key() == k
        && (!b.tasks[b.deliveryTasks[k]].pc.Over? || WasRefused(w.posts, k)))
  }

  /** No acknowledged event is ever lost: whichever incarnation acknowledged it, every started
      incarnation knows it as sent or has a live delivery task for it, unless Slack has
      permanently refused a post for it. */
  lemma AckedIsNeverLost(run: seq<System>, i: int, e: SlackEvent)
    requires IsRun(run) && 0 <= i < |run| && e in run[i].world.acked
    requires run[i].bot.Some? && run[i].bot.value.start.Up?
    ensures InCare(run[i].world, run[i].bot.value, e.Key())
  {
    RunKeepsInv(run, i);
    RunKeepsOver(run, i);
    var b := run[i].bot.value;
    if InRows(Rows(b.start), e.Key()) {
      var n :| 0 <= n < |Rows(b.start)| && Rows(b.start)[n].event.Key() == e.Key();
      assert Handled(b, Rows(b.start)[n]);
    }
  }

  // --- threads ---

  /** How many of the rows read back `start` has taken over the threads of. */
  ghost function TakenRows(start: StartPc): nat {
    match start
    case Starting => 0
    case Replaying(_, at, pc) => if pc.Idle? then at else at + 1
    case Up(rows) => |rows|
  }

  ghost predicate RowThread(rows: seq<RecordedEvent>, n: nat, th: Thread)
    requires n <= |rows|
  {
    exists i :: 0 <= i < n && rows[i].event.Thread() == th
  }

  /** Until `start` is done nothing is ingested, and the threads owned are those of the rows
      taken so far. */
  ghost predicate OwnsRows(b: Bot) {
    !b.start.Up? ==>
      && b.ingests == map[]
      && TakenRows(b.start) <= |Rows(b.start)|
      && forall th :: th in b.owned <==> RowThread(Rows(b.start), TakenRows(b.start), th)
  }

  lemma TakeRow(rows: seq<RecordedEvent>, n: nat, th: Thread)
    requires n < |rows|
    ensures RowThread(rows, n + 1, th) <==> RowThread(rows, n, th) || rows[n].event.Thread() == th
  {
  }

  lemma OwnsRowsKeeps(w: World, b: Bot, a: Action, w': World, b': Bot)
    requires BotStep(w, b, a, w', b') && OwnsRows(b) && !b.start.Up?
    ensures OwnsRows(b')
    ensures b'.start.Up? ==> b'.owned == b.owned && TakenRows(b.start) == |Rows(b.start)| && Rows(b'.start) == Rows(b.start)
  {
    if a.ReplayNext? {
      forall th ensures th in b'.owned <==> RowThread(Rows(b.start), b.start.at + 1, th) {
        TakeRow(Rows(b.start), b.start.at, th);
      }
    }
  }

  lemma {:induction false} RunOwnsRows(run: seq<System>, i: int)
    requires IsRun(run) && 0 <= i < |run| && run[i].bot.Some?
    ensures OwnsRows(run[i].bot.value)
  {
    assert i > 0;
    assert Successive(run, i - 1);
    var a :| Step(run[i - 1], a, run[i]);
    if run[i - 1].bot.Some? {
      RunOwnsRows(run, i - 1);
      if !a.Land? && !run[i].bot.value.start.Up? {
        UpStaysUp(run[i - 1].world, run[i - 1].bot.value, a, run[i].world, run[i].bot.value);
        OwnsRowsKeeps(run[i - 1].world, run[i - 1].bot.value, a, run[i].world, run[i].bot.value);
      }
    }
  }

  lemma UpStaysUp(w: World, b: Bot, a: Action, w': World, b': Bot)
    requires BotStep(w, b, a, w', b')
    ensures b.start.Up? ==> b'.start.Up?
  {
  }

  /** The moment `start` returns. */
  ghost predicate JustStarted(run: seq<System>, i: int) {
    && 0 < i < |run| && run[i - 1].bot.Some? && !run[i - 1].bot.value.start.Up?
    && run[i].bot.Some? && run[i].bot.value.start.Up?
  }

  /** Some recorded delivery names the thread. */
  ghost predicate RecordedThread(log: seq<Op>, th: Thread) {
    exists e :: Record(e) in log && e.Thread() == th
  }

  lemma SnapshotThreads(log: seq<Op>, rows: seq<RecordedEvent>, th: Thread)
    requires IsSnapshot(log, rows)
    ensures RowThread(rows, |rows|, th) <==> RecordedThread(log, th)
  {
    if RecordedThread(log, th) {
      var e :| Record(e) in log && e.Thread() == th;
      var i :| 0 <= i < |rows| && rows[i].event == e;
    }
  }

  /** When `start` returns, the bot owns exactly the threads the deliveries recorded at its
      query name. */
  lemma StartOwnsRecorded(run: seq<System>, i: int) returns (j: int)
    requires IsRun(run) && JustStarted(run, i)
    ensures j < i && Alive(run, j, i) && run[j].bot.value.start.Starting?
    ensures run[j].world.ownedBefore == run[i].world.ownedBefore
    ensures forall th :: th in run[i].bot.value.owned <==> RecordedThread(run[j].world.log, th)
  {
    j := ReadBackASnapshot(run, i);
    RunOwnsRows(run, i - 1);
    assert Successive(run, i - 1);
    var a :| Step(run[i - 1], a, run[i]);
    OwnsRowsKeeps(run[i - 1].world, run[i - 1].bot.value, a, run[i].world, run[i].bot.value);
    forall th ensures th in run[i].bot.value.owned <==> RecordedThread(run[j].world.log, th) {
      SnapshotThreads(run[j].world.log, Rows(run[i].bot.value.start), th);
    }
  }

  /** A restarted bot owns every thread a crashed one owned if and only if each of those
      threads is named by a delivery that was recorded when it queried the log. */
  lemma ThreadsSurviveIff(run: seq<System>, i: int) returns (j: int)
    requires IsRun(run) && JustStarted(run, i)
    ensures j < i && Alive(run, j, i) && run[j].bot.value.start.Starting?
    ensures run[i].world.ownedBefore <= run[i].bot.value.owned <==>
      forall th :: th in run[j].world.ownedBefore ==> RecordedThread(run[j].world.log, th)
  {
    j := StartOwnsRecorded(run, i);
  }

  /** Slack gives a message one thread: deliveries of one message agree on it. */
  ghost predicate ThreadsAgree(accepted: set<SlackEvent>) {
    forall e, f :: e in accepted && f in accepted && e.Key() == f.Key() ==> e.Thread() == f.Thread()
  }

  /** A started incarnation owns every thread any crashed incarnation owned. */
  lemma ThreadsSurviveCrashes(run: seq<System>, i: int)
    requires IsRun(run) && 0 <= i < |run| && run[i].bot.Some? && run[i].bot.value.start.Up?
    requires ThreadsAgree(run[i].world.accepted)
    ensures run[i].world.ownedBefore <= run[i].bot.value.owned
  {
    RunKeepsInv(run, i);
    var b, w := run[i].bot.value, run[i].world;
    forall th | th in w.ownedBefore ensures th in b.owned {
      var e :| e in w.accepted && e.Thread() == th && InRows(Rows(b.start), e.Key());
      var n :| 0 <= n < |Rows(b.start)| && Rows(b.start)[n].event.Key() == e.Key();
      var row := Rows(b.start)[n];
      assert RowInv(w.log, row) && Handled(b, row);
      assert row.event in w.accepted;
    }
  }

  lemma Extend(run: seq<System>, a: Action, t: System) returns (longer: seq<System>)
    requires IsRun(run) && Step(run[|run| - 1], a, t)
    ensures IsRun(longer) && longer == run + [t]
  {
    longer := run + [t];
    forall i | 0 <= i < |longer| - 1 ensures Successive(longer, i) {
      if i < |run| - 1 { assert Successive(run, i); } else { assert Next(longer[i], longer[i + 1]); }
    }
  }

  lemma ByBot(run: seq<System>, a: Action, w: World, b: Bot) returns (longer: seq<System>)
    requires IsRun(run) && run[|run| - 1].bot.Some?
    requires BotStep(run[|run| - 1].world, run[|run| - 1].bot.value, a, w, b)
    ensures IsRun(longer) && longer == run + [System(w, Some(b))]
  {
    longer := Extend(run, a, System(w, Some(b)));
  }

  lemma ByLanding(run: seq<System>, op: Op) returns (longer: seq<System>)
    requires IsRun(run) && op in run[|run| - 1].world.wire && !Applied(run[|run| - 1].world.log, IdOf(op))
    ensures IsRun(longer)
    ensures var s := run[|run| - 1]; longer == run + [s.(world := s.world.(log := s.world.log + [op]))]
  {
    var s := run[|run| - 1];
    longer := Extend(run, Land(op), s.(world := s.world.(log := Absorb(s.world.log, op))));
  }

  lemma ByRestart(run: seq<System>) returns (longer: seq<System>)
    requires IsRun(run) && run[|run| - 1].bot.None?
    ensures IsRun(longer) && longer == run + [System(run[|run| - 1].world, Some(Fresh))]
  {
    longer := Extend(run, Boot, System(run[|run| - 1].world, Some(Fresh)));
  }

  const First := SlackEvent("1", "C", "7", "7", "U", "hi")
  const Second := SlackEvent("2", "C", "7", "12", "U", "hi")

  lemma FirstArrives(w: World, up: Bot)
    requires w == Empty.world && up == Fresh.(start := Up([]))
    ensures BotStep(w, Fresh, Query([]), w, Fresh.(start := Replaying([], 0, Idle)))
    ensures BotStep(w, Fresh.(start := Replaying([], 0, Idle)), StartDone, w, up)
    ensures BotStep(w, up, Receive(First), World([], {Record(First)}, [], {First}, {}, {}),
      up.(ingests := map[0 := Ingest(First, Recording)], nextId := 1))
  {
  }

  lemma FirstIsRecorded() returns (run: seq<System>)
    ensures IsRun(run)
    ensures run[|run| - 1] == System(
      World([Record(First)], {Record(First)}, [], {First}, {}, {}),
      Some(Bot(Up([]), {}, {}, map[], map[], map[0 := Ingest(First, Recording)], 1)))
  {
    var w, up := Empty.world, Fresh.(start := Up([]));
    FirstArrives(w, up);
    run := ByRestart([Empty]);
    run := ByBot(run, Query([]), w, Fresh.(start := Replaying([], 0, Idle)));
    run := ByBot(run, StartDone, w, up);
    run := ByBot(run, Receive(First), World([], {Record(First)}, [], {First}, {}, {}),
      up.(ingests := map[0 := Ingest(First, Recording)], nextId := 1));
    run := ByLanding(run, Record(First));
  }

  lemma SecondIsOwned(w: World, b: Bot, w': World, b': Bot)
    requires w == World([Record(First)], {Record(First)}, [], {First}, {}, {})
    requires b == Bot(Up([]), {}, {}, map[], map[], map[0 := Ingest(First, Recording)], 1)
    requires w' == Send(w, Record(Second)).(accepted := w.accepted + {Second})
    requires b' == b.(ingests := b.ingests[1 := Ingest(Second, Recording)], nextId := 2)
    ensures BotStep(w, b, Receive(Second), w', b')
    ensures BotStep(w', b', IngestRecorded(1), Send(w', Chat(Second.Key())),
      b'.(owned := b'.owned + {Second.Thread()}, ingests := b'.ingests[1 := Ingest(Second, Chatting)]))
  {
    assert IdOf(w'.log[0]) == RecordId(Second.Key());
  }

  lemma CrashAfterSecond() returns (run: seq<System>)
    ensures IsRun(run) && run[|run| - 1].bot.None?
    ensures run[|run| - 1].world == World(
      [Record(First)], {Record(First), Record(Second), Chat(First.Key())}, [], {First, Second}, {}, {Second.Thread()})
  {
    run := FirstIsRecorded();
    var w, b := run[|run| - 1].world, run[|run| - 1].bot.value;
    var w' := Send(w, Record(Second)).(accepted := w.accepted + {Second});
    var b' := b.(ingests := b.ingests[1 := Ingest(Second, Recording)], nextId := 2);
    SecondIsOwned(w, b, w', b');
    run := ByBot(run, Receive(Second), w', b');
    var w'' := Send(w', Chat(Second.Key()));
    var b'' := b'.(owned := b'.owned + {Second.Thread()}, ingests := b'.ingests[1 := Ingest(Second, Chatting)]);
    run := ByBot(run, IngestRecorded(1), w'', b'');
    run := Extend(run, Crash, System(w''.(ownedBefore := w''.ownedBefore + b''.owned), None));
    assert w''.ownedBefore + b''.owned == {Second.Thread()};
  }

  lemma ReplayFirst(w: World, rows: seq<RecordedEvent>, b: Bot, w': World, b': Bot)
    requires w.log == [Record(First)] && rows == [RecordedEvent(First, Received)]
    requires b == Fresh.(start := Replaying(rows, 0, Idle))
    requires w' == Send(w, Chat(First.Key())).(log := w.log + [Chat(First.Key())])
    requires b' == b.(owned := {First.Thread()}, start := Replaying(rows, 0, ReplayChatting))
    ensures BotStep(w, Fresh, Query(rows), w, b)
    ensures BotStep(w, b, ReplayNext, Send(w, Chat(First.Key())), b')
    ensures BotStep(w', b', ReplayChatted, Send(w', Dispatched(First.Key())), b'.(start := Replaying(rows, 0, ReplayDispatching)))
    ensures !Applied(w.log, ChatId(First.Key())) && !Applied(w'.log, DispatchedId(First.Key()))
  {
    assert rows[0].event == First;
    assert StateOf(w.log, First.Key()) == Some(Received);
    assert IdOf(w'.log[1]) == ChatId(First.Key());
    assert b.owned + {First.Thread()} == {First.Thread()};
  }

  lemma ReplayEnds(w: World, rows: seq<RecordedEvent>, b: Bot)
    requires |w.log| == 3 && w.log[2] == Dispatched(First.Key()) && rows == [RecordedEvent(First, Received)]
    requires b.start == Replaying(rows, 0, ReplayDispatching)
    ensures var b' := EnsureDelivery(b, First).(start := Replaying(rows, 1, Idle));
      BotStep(w, b, ReplayDispatched, w, b') && BotStep(w, b', StartDone, w, b'.(start := Up(rows)))
  {
    assert IdOf(w.log[2]) == DispatchedId(First.Key());
  }

  /** Without that agreement the promise fails: two deliveries of one message that name
      different threads leave only the first recorded, so the other is lost in a crash. */
  lemma DisagreeingThreadsAreLost() returns (run: seq<System>)
    ensures IsRun(run) && run[|run| - 1].bot.Some? && run[|run| - 1].bot.value.start.Up?
    ensures !ThreadsAgree(run[|run| - 1].world.accepted)
    ensures Second.Thread() in run[|run| - 1].world.ownedBefore && Second.Thread() !in run[|run| - 1].bot.value.owned
  {
    run := CrashAfterSecond();
    var k, w, rows := First.Key(), run[|run| - 1].world, [RecordedEvent(First, Received)];
    var b := Fresh.(start := Replaying(rows, 0, Idle));
    var w' := Send(w, Chat(k)).(log := w.log + [Chat(k)]);
    var b' := b.(owned := {First.Thread()}, start := Replaying(rows, 0, ReplayChatting));
    ReplayFirst(w, rows, b, w', b');
    run := ByRestart(run);
    run := ByBot(run, Query(rows), w, b);
    run := ByBot(run, ReplayNext, Send(w, Chat(k)), b');
    run := ByLanding(run, Chat(k));
    var w'', b'' := Send(w', Dispatched(k)), b'.(start := Replaying(rows, 0, ReplayDispatching));
    run := ByBot(run, ReplayChatted, w'', b'');
    var w3 := w''.(log := w''.log + [Dispatched(k)]);
    run := ByLanding(run, Dispatched(k));
    var b3 := EnsureDelivery(b'', First).(start := Replaying(rows, 1, Idle));
    ReplayEnds(w3, rows, b'');
    run := ByBot(run, ReplayDispatched, w3, b3);
    run := ByBot(run, StartDone, w3, b3.(start := Up(rows)));
    assert First.Key() == Second.Key() && |First.threadTs| != |Second.threadTs|;
  }
}
