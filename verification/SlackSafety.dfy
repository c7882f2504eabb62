/** What every interleaving of ingest, delivery, crash and restart keeps. */
module SlackSafety {
  import opened Wrappers
  import opened SlackDelivery

  ghost predicate PostedOk(posts: seq<Post>, k: Key) {
    exists i :: 0 <= i < |posts| && posts[i].key == k && posts[i].answer.Accepted?
  }

  /** What must already be in the log before an operation is put on the wire. */
  ghost predicate Grounded(log: seq<Op>, posts: seq<Post>, op: Op) {
    match op
    case Record(_) => true
    case Chat(k) => Applied(log, RecordId(k))
    case Dispatched(k) => Applied(log, RecordId(k)) && Applied(log, ChatId(k))
    case Sent(k, _) => Applied(log, DispatchedId(k)) && PostedOk(posts, k)
  }

  /** Operation ids are applied at most once, each after the operations it builds on. */
  ghost predicate LogInv(log: seq<Op>, posts: seq<Post>) {
    && (forall i, j :: 0 <= i < j < |log| ==> IdOf(log[i]) != IdOf(log[j]))
    && (forall i :: 0 <= i < |log| ==> Grounded(log[..i], posts, log[i]))
  }

  ghost predicate WorldInv(w: World) {
    && LogInv(w.log, w.posts)
    && (forall op :: op in w.log ==> op in w.wire)
    && (forall op :: op in w.wire ==> Grounded(w.log, w.posts, op))
    && (forall e :: Record(e) in w.wire ==> e in w.accepted)
    && (forall i :: 0 <= i < |w.posts| ==> w.posts[i].clientMsgId == ClientMsgName(w.posts[i].key))
    && (forall e :: e in w.acked ==> Applied(w.log, DispatchedId(e.Key())))
  }

  /** The world only grows. */
  ghost predicate Grows(w: World, w': World) {
    w.log <= w'.log && w.wire <= w'.wire && w.posts <= w'.posts && w.accepted <= w'.accepted && w.acked <= w'.acked
  }

  lemma AppliedGrows(log: seq<Op>, log': seq<Op>, id: OperationId)
    requires log <= log' && Applied(log, id)
    ensures Applied(log', id)
  {
    var i :| 0 <= i < |log| && IdOf(log[i]) == id;
    assert log'[i] == log[i];
  }

  lemma GroundedGrows(log: seq<Op>, posts: seq<Post>, log': seq<Op>, posts': seq<Post>, op: Op)
    requires log <= log' && posts <= posts' && Grounded(log, posts, op)
    ensures Grounded(log', posts', op)
  {
    match op {
      case Record(_) =>
      case Chat(k) => AppliedGrows(log, log', RecordId(k));
      case Dispatched(k) =>
        AppliedGrows(log, log', RecordId(k));
        AppliedGrows(log, log', ChatId(k));
      case Sent(k, _) =>
        AppliedGrows(log, log', DispatchedId(k));
        var i :| 0 <= i < |posts| && posts[i].key == k && posts[i].answer.Accepted?;
        assert posts'[i] == posts[i];
    }
  }

  lemma LandKeepsLog(log: seq<Op>, posts: seq<Post>, op: Op)
    requires LogInv(log, posts) && Grounded(log, posts, op)
    ensures LogInv(Absorb(log, op), posts) && log <= Absorb(log, op)
  {
    if !Applied(log, IdOf(op)) {
      var longer := log + [op];
      forall i | 0 <= i < |longer| ensures Grounded(longer[..i], posts, longer[i]) {
        if i < |log| { assert longer[..i] == log[..i]; } else { assert longer[..i] == log; }
      }
    }
  }

  lemma PostsKeepLog(log: seq<Op>, posts: seq<Post>, posts': seq<Post>)
    requires LogInv(log, posts) && posts <= posts'
    ensures LogInv(log, posts')
  {
    forall i | 0 <= i < |log| ensures Grounded(log[..i], posts', log[i]) {
      GroundedGrows(log[..i], posts, log[..i], posts', log[i]);
    }
  }

  /** The state fact an event should show, read off which operations have been applied. */
  function Progress(log: seq<Op>, k: Key): Option<EventState> {
    if Applied(log, SentId(k)) then Some(SentState)
    else if Applied(log, DispatchedId(k)) then Some(AwaitingReply)
    else if Applied(log, RecordId(k)) then Some(Received)
    else None
  }

  lemma AppliedSnoc(log: seq<Op>, op: Op, id: OperationId)
    ensures Applied(log + [op], id) <==> Applied(log, id) || IdOf(op) == id
  {
    var longer := log + [op];
    if Applied(log, id) { AppliedGrows(log, longer, id); }
    if IdOf(op) == id { assert longer[|log|] == op; }
  }

  /** The latest state fact agrees with the operations applied, so it cannot move backwards. */
  lemma {:induction false} StateIsProgress(log: seq<Op>, posts: seq<Post>, k: Key)
    requires LogInv(log, posts)
    ensures StateOf(log, k) == Progress(log, k)
    ensures Applied(log, SentId(k)) ==> Applied(log, DispatchedId(k))
    ensures Applied(log, DispatchedId(k)) ==> Applied(log, RecordId(k))
  {
    if log != [] {
      var init, op := log[..|log| - 1], log[|log| - 1];
      assert log == init + [op];
      assert forall i :: 0 <= i < |init| ==> init[..i] == log[..i] && init[i] == log[i];
      StateIsProgress(init, posts, k);
      assert Grounded(init, posts, op);
      assert !Applied(init, IdOf(op));
      AppliedSnoc(init, op, SentId(k));
      AppliedSnoc(init, op, DispatchedId(k));
      AppliedSnoc(init, op, RecordId(k));
    }
  }

  function Rank(s: Option<EventState>): nat {
    match s
    case None => 0
    case Some(Received) => 1
    case Some(AwaitingReply) => 2
    case Some(SentState) => 3
  }

  lemma ProgressGrows(log: seq<Op>, posts: seq<Post>, log': seq<Op>, posts': seq<Post>, k: Key)
    requires LogInv(log, posts) && LogInv(log', posts') && log <= log'
    ensures Rank(StateOf(log, k)) <= Rank(StateOf(log', k))
  {
    StateIsProgress(log, posts, k);
    StateIsProgress(log', posts', k);
    if Applied(log, SentId(k)) { AppliedGrows(log, log', SentId(k)); }
    if Applied(log, DispatchedId(k)) { AppliedGrows(log, log', DispatchedId(k)); }
    if Applied(log, RecordId(k)) { AppliedGrows(log, log', RecordId(k)); }
  }

  // --- what one incarnation keeps ---

  /** Every task works on a dispatched event, and a task that is not over is the one its key
      maps to, so no key has two live tasks. */
  ghost predicate TasksInv(log: seq<Op>, byKey: map<Key, nat>, tasks: map<nat, DeliveryTask>, nextId: nat) {
    && (forall t :: t in tasks ==>
          && t < nextId
          && Applied(log, DispatchedId(tasks[t].event.Key()))
          && (!tasks[t].pc.Over? ==> tasks[t].event.Key() in byKey && byKey[tasks[t].event.Key()] == t))
    && (forall k :: k in byKey ==> byKey[k] in tasks && tasks[byKey[k]].event.Key() == k)
  }

  ghost predicate IngestsInv(log: seq<Op>, accepted: set<SlackEvent>, ingests: map<nat, Ingest>) {
    forall i :: i in ingests ==>
      && ingests[i].event in accepted
      && (!ingests[i].pc.Recording? ==> Applied(log, RecordId(ingests[i].event.Key())))
      && (ingests[i].pc.Dispatching? ==> Applied(log, ChatId(ingests[i].event.Key())))
  }

  ghost predicate SentInv(log: seq<Op>, sentKeys: set<Key>) {
    forall k :: k in sentKeys ==> Applied(log, SentId(k))
  }

  ghost predicate Owner(log: seq<Op>, accepted: set<SlackEvent>, th: Thread, e: SlackEvent) {
    e in accepted && e.Thread() == th && Applied(log, RecordId(e.Key()))
  }

  ghost predicate OwnedInv(log: seq<Op>, accepted: set<SlackEvent>, owned: set<Thread>) {
    forall th :: th in owned ==> exists e :: Owner(log, accepted, th, e)
  }

  ghost predicate RowInv(log: seq<Op>, row: RecordedEvent) {
    Record(row.event) in log && (row.state.SentState? ==> Applied(log, SentId(row.event.Key())))
  }

  /** What `start` has to do for one recorded event. */
  ghost predicate Handled(b: Bot, row: RecordedEvent) {
    && row.event.Thread() in b.owned
    && if row.state.SentState? then row.event.Key() in b.sentKeys else row.event.Key() in b.deliveryTasks
  }

  ghost function Rows(start: StartPc): seq<RecordedEvent> {
    if start.Starting? then [] else start.snapshot
  }

  ghost function HandledRows(start: StartPc): nat {
    match start
    case Starting => 0
    case Replaying(_, at, _) => at
    case Up(rows) => |rows|
  }

  ghost predicate StartInv(log: seq<Op>, b: Bot) {
    && HandledRows(b.start) <= |Rows(b.start)|
    && (forall i :: 0 <= i < |Rows(b.start)| ==> RowInv(log, Rows(b.start)[i]))
    && (forall i :: 0 <= i < HandledRows(b.start) ==> Handled(b, Rows(b.start)[i]))
    && (b.start.Replaying? && !b.start.pc.Idle? ==>
          && b.start.at < |b.start.snapshot|
          && var row := b.start.snapshot[b.start.at];
          && row.event.Thread() in b.owned && !row.state.SentState?
          && (b.start.pc.ReplayDispatching? ==> Applied(log, ChatId(row.event.Key()))))
  }

  ghost predicate InRows(rows: seq<RecordedEvent>, k: Key) {
    exists i :: 0 <= i < |rows| && rows[i].event.Key() == k
  }

  /** Every acknowledged event is in this incarnation's care, and every thread an earlier
      incarnation owned comes from an event this one has read back. */
  ghost predicate CoverInv(w: World, b: Bot) {
    !b.start.Starting? ==>
      && (forall e :: e in w.acked ==>
            InRows(Rows(b.start), e.Key()) || e.Key() in b.sentKeys || e.Key() in b.deliveryTasks)
      && (forall th :: th in w.ownedBefore ==>
            exists e :: e in w.accepted && e.Thread() == th && InRows(Rows(b.start), e.Key()))
  }

  ghost predicate BotInv(w: World, b: Bot) {
    && TasksInv(w.log, b.deliveryTasks, b.tasks, b.nextId)
    && IngestsInv(w.log, w.accepted, b.ingests)
    && SentInv(w.log, b.sentKeys)
    && OwnedInv(w.log, w.accepted, b.owned)
    && StartInv(w.log, b)
    && CoverInv(w, b)
  }

  ghost predicate Inv(s: System) {
    && WorldInv(s.world)
    && OwnedInv(s.world.log, s.world.accepted, s.world.ownedBefore)
    && (s.bot.Some? ==> BotInv(s.world, s.bot.value))
  }

  // --- the world growing under a bot ---

  lemma OwnedGrows(w: World, w': World, owned: set<Thread>)
    requires Grows(w, w') && OwnedInv(w.log, w.accepted, owned)
    ensures OwnedInv(w'.log, w'.accepted, owned)
  {
    forall th | th in owned ensures exists e :: Owner(w'.log, w'.accepted, th, e) {
      var e :| Owner(w.log, w.accepted, th, e);
      AppliedGrows(w.log, w'.log, RecordId(e.Key()));
      assert Owner(w'.log, w'.accepted, th, e);
    }
  }

  lemma AllAppliedGrow(log: seq<Op>, log': seq<Op>)
    requires log <= log'
    ensures forall id :: Applied(log, id) ==> Applied(log', id)
    ensures forall op :: op in log ==> op in log'
  {
    forall id | Applied(log, id) ensures Applied(log', id) { AppliedGrows(log, log', id); }
    forall op | op in log ensures op in log' {
      var i :| 0 <= i < |log| && log[i] == op;
      assert log'[i] == op;
    }
  }

  lemma BotInvGrows(w: World, w': World, b: Bot)
    requires Grows(w, w') && w'.acked == w.acked && w'.ownedBefore == w.ownedBefore && BotInv(w, b)
    ensures BotInv(w', b)
  {
    AllAppliedGrow(w.log, w'.log);
    OwnedGrows(w, w', b.owned);
  }

  lemma LandKeepsInv(s: System, op: Op)
    requires Inv(s) && op in s.world.wire
    ensures Inv(s.(world := s.world.(log := Absorb(s.world.log, op))))
  {
    var w := s.world;
    var w' := w.(log := Absorb(w.log, op));
    LandKeepsLog(w.log, w.posts, op);
    AllAppliedGrow(w.log, w'.log);
    forall o | o in w'.wire ensures Grounded(w'.log, w'.posts, o) {
      GroundedGrows(w.log, w.posts, w'.log, w'.posts, o);
    }
    OwnedGrows(w, w', w.ownedBefore);
    if s.bot.Some? { BotInvGrows(w, w', s.bot.value); }
  }

  /** Putting a grounded operation on the wire. */
  lemma SendKeepsWorld(w: World, op: Op)
    requires WorldInv(w) && Grounded(w.log, w.posts, op) && (op.Record? ==> op.event in w.accepted)
    ensures WorldInv(Send(w, op)) && Grows(w, Send(w, op))
  {
  }

  // --- the bot's own steps ---

  lemma NewTaskKeeps(log: seq<Op>, byKey: map<Key, nat>, tasks: map<nat, DeliveryTask>, id: nat, e: SlackEvent)
    requires TasksInv(log, byKey, tasks, id) && Applied(log, DispatchedId(e.Key()))
    requires e.Key() in byKey ==> tasks[byKey[e.Key()]].pc.Over?
    ensures TasksInv(log, byKey[e.Key() := id], tasks[id := DeliveryTask(e, Asking)], id + 1)
  {
  }

  lemma EnsureDeliveryKeeps(log: seq<Op>, b: Bot, e: SlackEvent)
    requires TasksInv(log, b.deliveryTasks, b.tasks, b.nextId) && Applied(log, DispatchedId(e.Key()))
    ensures var b' := EnsureDelivery(b, e);
      && TasksInv(log, b'.deliveryTasks, b'.tasks, b'.nextId)
      && b'.deliveryTasks.Keys == b.deliveryTasks.Keys + {e.Key()}
      && b' == b.(deliveryTasks := b'.deliveryTasks, tasks := b'.tasks, nextId := b'.nextId)
  {
    if EnsureDelivery(b, e) != b { NewTaskKeeps(log, b.deliveryTasks, b.tasks, b.nextId, e); }
  }

  lemma SetTaskKeeps(log: seq<Op>, b: Bot, t: nat, pc: TaskPc)
    requires TasksInv(log, b.deliveryTasks, b.tasks, b.nextId) && t in b.tasks && !b.tasks[t].pc.Over?
    ensures TasksInv(log, b.deliveryTasks, SetTask(b, t, pc).tasks, b.nextId)
  {
  }

  /** The bot knows at least what it knew. */
  ghost predicate KnowsMore(b: Bot, b': Bot) {
    && b.owned <= b'.owned && b.sentKeys <= b'.sentKeys
    && b.deliveryTasks.Keys <= b'.deliveryTasks.Keys
  }

  lemma StartGrows(log: seq<Op>, b: Bot, b': Bot)
    requires StartInv(log, b) && KnowsMore(b, b') && b'.start == b.start
    ensures StartInv(log, b')
  {
    forall i | 0 <= i < HandledRows(b.start) ensures Handled(b', Rows(b.start)[i]) {
      assert Handled(b, Rows(b.start)[i]);
    }
  }

  lemma StartAdvances(log: seq<Op>, b: Bot, b': Bot)
    requires StartInv(log, b) && KnowsMore(b, b')
    requires b.start.Replaying? && b.start.at < |b.start.snapshot|
    requires b'.start == b.start.(at := b.start.at + 1, pc := Idle)
    requires Handled(b', b.start.snapshot[b.start.at])
    ensures StartInv(log, b')
  {
    forall i | 0 <= i < HandledRows(b'.start) ensures Handled(b', Rows(b'.start)[i]) {
      if i < b.start.at { assert Handled(b, Rows(b.start)[i]); }
    }
  }

  lemma CoverKeeps(w: World, b: Bot, w': World, b': Bot)
    requires CoverInv(w, b) && KnowsMore(b, b')
    requires Rows(b'.start) == Rows(b.start) && (b'.start.Starting? <==> b.start.Starting?)
    requires w'.ownedBefore == w.ownedBefore && w.accepted <= w'.accepted
    requires forall e :: e in w'.acked && e !in w.acked ==> e.Key() in b'.sentKeys || e.Key() in b'.deliveryTasks
    ensures CoverInv(w', b')
  {
    forall e | e in w'.acked && !b.start.Starting?
      ensures InRows(Rows(b.start), e.Key()) || e.Key() in b'.sentKeys || e.Key() in b'.deliveryTasks
    {
    }
  }

  lemma QueryKeeps(w: World, b: Bot, rows: seq<RecordedEvent>)
    requires WorldInv(w) && OwnedInv(w.log, w.accepted, w.ownedBefore) && BotInv(w, b)
    requires b.start.Starting? && IsSnapshot(w.log, rows)
    ensures BotInv(w, b.(start := Replaying(rows, 0, Idle)))
  {
    forall i | 0 <= i < |rows| ensures RowInv(w.log, rows[i]) {
      StateIsProgress(w.log, w.posts, rows[i].event.Key());
    }
    forall e | e in w.acked ensures InRows(rows, e.Key()) {
      StateIsProgress(w.log, w.posts, e.Key());
      RecordedIsInRows(w, rows, e.Key());
    }
    forall th | th in w.ownedBefore
      ensures exists e :: e in w.accepted && e.Thread() == th && InRows(rows, e.Key())
    {
      var e :| Owner(w.log, w.accepted, th, e);
      RecordedIsInRows(w, rows, e.Key());
    }
  }

  lemma RecordedIsInRows(w: World, rows: seq<RecordedEvent>, k: Key)
    requires IsSnapshot(w.log, rows) && Applied(w.log, RecordId(k))
    ensures InRows(rows, k)
  {
    var i :| 0 <= i < |w.log| && IdOf(w.log[i]) == RecordId(k);
    assert w.log[i] == Record(w.log[i].event);
    assert Record(w.log[i].event) in w.log;
  }

  lemma RecordApplied(w: World, e: SlackEvent)
    requires WorldInv(w) && Record(e) in w.log
    ensures Applied(w.log, RecordId(e.Key())) && Owner(w.log, w.accepted, e.Thread(), e)
  {
    var i :| 0 <= i < |w.log| && w.log[i] == Record(e);
    assert IdOf(w.log[i]) == RecordId(e.Key());
  }

  lemma AddOwned(w: World, owned: set<Thread>, e: SlackEvent)
    requires OwnedInv(w.log, w.accepted, owned) && Owner(w.log, w.accepted, e.Thread(), e)
    ensures OwnedInv(w.log, w.accepted, owned + {e.Thread()})
  {
    forall th | th in owned + {e.Thread()} ensures exists f :: Owner(w.log, w.accepted, th, f) {
      if th !in owned { assert Owner(w.log, w.accepted, th, e); }
    }
  }

  lemma ReplaySentKeeps(w: World, b: Bot, row: RecordedEvent)
    requires WorldInv(w) && BotInv(w, b)
    requires ReplayAt(b, Idle) && row == b.start.snapshot[b.start.at] && row.state.SentState?
    ensures BotInv(w, b.(
      owned := b.owned + {row.event.Thread()},
      sentKeys := b.sentKeys + {row.event.Key()},
      start := b.start.(at := b.start.at + 1)))
  {
    var b' := b.(
      owned := b.owned + {row.event.Thread()},
      sentKeys := b.sentKeys + {row.event.Key()},
      start := b.start.(at := b.start.at + 1));
    assert RowInv(w.log, row);
    RecordApplied(w, row.event);
    AddOwned(w, b.owned, row.event);
    StartAdvances(w.log, b, b');
    CoverKeeps(w, b, w, b');
  }

  lemma ReplayPendingKeeps(w: World, b: Bot, row: RecordedEvent)
    requires WorldInv(w) && BotInv(w, b)
    requires ReplayAt(b, Idle) && row == b.start.snapshot[b.start.at] && !row.state.SentState?
    ensures var w' := Send(w, Chat(row.event.Key()));
      WorldInv(w') && Grows(w, w') &&
      BotInv(w', b.(owned := b.owned + {row.event.Thread()}, start := b.start.(pc := ReplayChatting)))
  {
    var c := b.(owned := b.owned + {row.event.Thread()});
    var b' := c.(start := b.start.(pc := ReplayChatting));
    assert RowInv(w.log, row);
    RecordApplied(w, row.event);
    AddOwned(w, b.owned, row.event);
    StartGrows(w.log, b, c);
    SendKeepsWorld(w, Chat(row.event.Key()));
    CoverKeeps(w, b, Send(w, Chat(row.event.Key())), b');
  }

  lemma ReplayChattedKeeps(w: World, b: Bot, row: RecordedEvent)
    requires WorldInv(w) && BotInv(w, b)
    requires ReplayAt(b, ReplayChatting) && row == b.start.snapshot[b.start.at] && Applied(w.log, ChatId(row.event.Key()))
    ensures var w' := Send(w, Dispatched(row.event.Key()));
      WorldInv(w') && Grows(w, w') && BotInv(w', b.(start := b.start.(pc := ReplayDispatching)))
  {
    assert RowInv(w.log, row);
    RecordApplied(w, row.event);
    SendKeepsWorld(w, Dispatched(row.event.Key()));
  }

  lemma ReplayDispatchedKeeps(w: World, b: Bot, row: RecordedEvent)
    requires BotInv(w, b)
    requires ReplayAt(b, ReplayDispatching) && row == b.start.snapshot[b.start.at]
    requires Applied(w.log, DispatchedId(row.event.Key()))
    ensures BotInv(w, EnsureDelivery(b, row.event).(start := b.start.(at := b.start.at + 1, pc := Idle)))
  {
    EnsureDeliveryKeeps(w.log, b, row.event);
    var b' := EnsureDelivery(b, row.event).(start := b.start.(at := b.start.at + 1, pc := Idle));
    StartAdvances(w.log, b, b');
    CoverKeeps(w, b, w, b');
  }

  lemma ReceiveKeepsWorld(w: World, e: SlackEvent)
    requires WorldInv(w)
    ensures var w' := Send(w, Record(e)).(accepted := w.accepted + {e}); WorldInv(w') && Grows(w, w')
  {
    SendKeepsWorld(w.(accepted := w.accepted + {e}), Record(e));
  }

  lemma ReceiveKeeps(w: World, b: Bot, e: SlackEvent)
    requires WorldInv(w) && BotInv(w, b)
    ensures var w' := Send(w, Record(e)).(accepted := w.accepted + {e});
      BotInv(w', b.(ingests := b.ingests[b.nextId := Ingest(e, Recording)], nextId := b.nextId + 1))
  {
    var w' := Send(w, Record(e)).(accepted := w.accepted + {e});
    ReceiveKeepsWorld(w, e);
    BotInvGrows(w, w', b);
    var b' := b.(ingests := b.ingests[b.nextId := Ingest(e, Recording)], nextId := b.nextId + 1);
    StartGrows(w'.log, b, b');
    CoverKeeps(w', b, w', b');
  }

  lemma IngestKnownKeeps(w: World, b: Bot, i: nat, e: SlackEvent)
    requires WorldInv(w) && BotInv(w, b)
    requires IngestAt(b, i, Recording) && e == b.ingests[i].event && Applied(w.log, RecordId(e.Key())) && e.Key() in b.sentKeys
    ensures var w' := w.(acked := w.acked + {e});
      WorldInv(w') && Grows(w, w') && BotInv(w', b.(owned := b.owned + {e.Thread()}, ingests := b.ingests - {i}))
  {
    var w' := w.(acked := w.acked + {e});
    var b' := b.(owned := b.owned + {e.Thread()}, ingests := b.ingests - {i});
    assert Owner(w.log, w.accepted, e.Thread(), e);
    AddOwned(w, b.owned, e);
    StartGrows(w.log, b, b');
    StateIsProgress(w.log, w.posts, e.Key());
    CoverKeeps(w, b, w', b');
  }

  lemma IngestNewKeeps(w: World, b: Bot, i: nat, e: SlackEvent)
    requires WorldInv(w) && BotInv(w, b)
    requires IngestAt(b, i, Recording) && e == b.ingests[i].event && Applied(w.log, RecordId(e.Key()))
    ensures var w' := Send(w, Chat(e.Key()));
      WorldInv(w') && Grows(w, w') &&
      BotInv(w', b.(owned := b.owned + {e.Thread()}, ingests := b.ingests[i := Ingest(e, Chatting)]))
  {
    var w' := Send(w, Chat(e.Key()));
    var b' := b.(owned := b.owned + {e.Thread()}, ingests := b.ingests[i := Ingest(e, Chatting)]);
    assert Owner(w.log, w.accepted, e.Thread(), e);
    AddOwned(w, b.owned, e);
    StartGrows(w.log, b, b');
    SendKeepsWorld(w, Chat(e.Key()));
    CoverKeeps(w, b, w', b');
  }

  lemma IngestChattedKeeps(w: World, b: Bot, i: nat, e: SlackEvent)
    requires WorldInv(w) && BotInv(w, b)
    requires IngestAt(b, i, Chatting) && e == b.ingests[i].event && Applied(w.log, ChatId(e.Key()))
    ensures var w' := Send(w, Dispatched(e.Key()));
      WorldInv(w') && Grows(w, w') && BotInv(w', b.(ingests := b.ingests[i := Ingest(e, Dispatching)]))
  {
    var b' := b.(ingests := b.ingests[i := Ingest(e, Dispatching)]);
    StartGrows(w.log, b, b');
    SendKeepsWorld(w, Dispatched(e.Key()));
    CoverKeeps(w, b, Send(w, Dispatched(e.Key())), b');
  }

  lemma AckKeepsWorld(w: World, e: SlackEvent)
    requires WorldInv(w) && Applied(w.log, DispatchedId(e.Key()))
    ensures WorldInv(w.(acked := w.acked + {e})) && Grows(w, w.(acked := w.acked + {e}))
  {
  }

  lemma IngestDispatchedKeeps(w: World, b: Bot, i: nat, e: SlackEvent)
    requires WorldInv(w) && BotInv(w, b)
    requires IngestAt(b, i, Dispatching) && e == b.ingests[i].event && Applied(w.log, DispatchedId(e.Key()))
    ensures var w' := w.(acked := w.acked + {e});
      WorldInv(w') && Grows(w, w') && BotInv(w', EnsureDelivery(b, e).(ingests := b.ingests - {i}))
  {
    AckKeepsWorld(w, e);
    EnsureDeliveryKeeps(w.log, b, e);
    var w', b' := w.(acked := w.acked + {e}), EnsureDelivery(b, e).(ingests := b.ingests - {i});
    StartGrows(w.log, b, b');
    CoverKeeps(w, b, w', b');
  }

  lemma PostKeepsWorld(w: World, p: Post)
    requires WorldInv(w) && p.clientMsgId == ClientMsgName(p.key)
    ensures WorldInv(w.(posts := w.posts + [p])) && Grows(w, w.(posts := w.posts + [p]))
  {
    var v := w.(posts := w.posts + [p]);
    PostsKeepLog(w.log, w.posts, v.posts);
    forall op | op in w.wire ensures Grounded(v.log, v.posts, op) {
      GroundedGrows(w.log, w.posts, v.log, v.posts, op);
    }
  }

  lemma PostedKeepsWorld(w: World, k: Key, ts: string)
    requires WorldInv(w) && Applied(w.log, DispatchedId(k))
    ensures var w' := Send(w, Sent(k, ts)).(posts := w.posts + [Post(k, ClientMsgName(k), Accepted)]);
      WorldInv(w') && Grows(w, w')
  {
    var v := w.(posts := w.posts + [Post(k, ClientMsgName(k), Accepted)]);
    PostKeepsWorld(w, Post(k, ClientMsgName(k), Accepted));
    assert v.posts[|w.posts|].answer.Accepted?;
    SendKeepsWorld(v, Sent(k, ts));
  }

  /** A delivery task moving on, with whatever it adds to the posts and the wire. */
  lemma TaskMoves(w: World, b: Bot, t: nat, pc: TaskPc, w': World, sent: set<Key>)
    requires BotInv(w, b) && t in b.tasks && !b.tasks[t].pc.Over?
    requires Grows(w, w') && w'.log == w.log && w'.acked == w.acked && w'.ownedBefore == w.ownedBefore
    requires SentInv(w.log, sent)
    ensures BotInv(w', SetTask(b, t, pc).(sentKeys := b.sentKeys + sent))
  {
    var b' := SetTask(b, t, pc).(sentKeys := b.sentKeys + sent);
    SetTaskKeeps(w.log, b, t, pc);
    StartGrows(w.log, b, b');
    OwnedGrows(w, w', b.owned);
    CoverKeeps(w, b, w', b');
  }

  predicate TaskAction(a: Action) {
    a.GotReply? || a.Posted? || a.PostFails? || a.Marked? || a.MarkFails? || a.TaskEnds?
  }

  lemma TaskStepKeepsWorld(w: World, b: Bot, a: Action, w': World, b': Bot)
    requires WorldInv(w) && TasksInv(w.log, b.deliveryTasks, b.tasks, b.nextId)
    requires TaskAction(a) && BotStep(w, b, a, w', b')
    ensures WorldInv(w') && Grows(w, w')
    ensures w'.log == w.log && w'.acked == w.acked && w'.ownedBefore == w.ownedBefore
  {
    var k := b.tasks[a.t].event.Key();
    if a.Posted? { PostedKeepsWorld(w, k, a.ts); }
    if a.PostFails? { PostKeepsWorld(w, Post(k, ClientMsgName(k), if a.permanent then Refused else Retriable)); }
  }

  lemma TaskStepForm(w: World, b: Bot, a: Action, w': World, b': Bot) returns (pc: TaskPc, sent: set<Key>)
    requires TaskAction(a) && BotStep(w, b, a, w', b')
    ensures a.t in b.tasks && !b.tasks[a.t].pc.Over? && SentInv(w.log, sent)
    ensures b' == SetTask(b, a.t, pc).(sentKeys := b.sentKeys + sent)
  {
    pc := b'.tasks[a.t].pc;
    sent := if a.Marked? then {b.tasks[a.t].event.Key()} else {};
    assert b.sentKeys + {} == b.sentKeys;
  }

  lemma TaskStepKeeps(w: World, b: Bot, a: Action, w': World, b': Bot)
    requires WorldInv(w) && BotInv(w, b) && TaskAction(a) && BotStep(w, b, a, w', b')
    ensures WorldInv(w') && Grows(w, w') && w'.ownedBefore == w.ownedBefore && BotInv(w', b')
  {
    TaskStepKeepsWorld(w, b, a, w', b');
    var pc, sent := TaskStepForm(w, b, a, w', b');
    TaskMoves(w, b, a.t, pc, w', sent);
  }

  lemma OtherStepKeeps(w: World, b: Bot, a: Action, w': World, b': Bot)
    requires WorldInv(w) && OwnedInv(w.log, w.accepted, w.ownedBefore) && BotInv(w, b) && BotStep(w, b, a, w', b')
    requires a.Query? || a.StartDone? || a.Receive? || a.IngestFails?
    ensures WorldInv(w') && Grows(w, w') && w'.ownedBefore == w.ownedBefore && BotInv(w', b')
  {
    if a.Query? {
      QueryKeeps(w, b, a.snapshot);
    } else if a.Receive? {
      ReceiveKeepsWorld(w, a.event);
      ReceiveKeeps(w, b, a.event);
    } else if a.IngestFails? {
      IngestFailsKeeps(w, b, a.i);
    }
  }

  /** Every step of a running bot keeps the invariant and only adds to the world. */
  lemma BotStepKeeps(w: World, b: Bot, a: Action, w': World, b': Bot)
    requires WorldInv(w) && OwnedInv(w.log, w.accepted, w.ownedBefore) && BotInv(w, b)
    requires BotStep(w, b, a, w', b')
    ensures WorldInv(w') && Grows(w, w') && w'.ownedBefore == w.ownedBefore && BotInv(w', b')
  {
    if TaskAction(a) {
      TaskStepKeeps(w, b, a, w', b');
    } else if a.ReplayNext? || a.ReplayChatted? || a.ReplayDispatched? {
      ReplayStepKeeps(w, b, a, w', b');
    } else if a.IngestRecorded? || a.IngestChatted? || a.IngestDispatched? {
      IngestStepKeeps(w, b, a, w', b');
    } else {
      OtherStepKeeps(w, b, a, w', b');
    }
  }

  lemma IngestFailsKeeps(w: World, b: Bot, i: nat)
    requires BotInv(w, b)
    ensures BotInv(w, b.(ingests := b.ingests - {i}))
  {
    StartGrows(w.log, b, b.(ingests := b.ingests - {i}));
  }

  lemma ReplayStepKeeps(w: World, b: Bot, a: Action, w': World, b': Bot)
    requires WorldInv(w) && BotInv(w, b) && BotStep(w, b, a, w', b')
    requires a.ReplayNext? || a.ReplayChatted? || a.ReplayDispatched?
    ensures WorldInv(w') && Grows(w, w') && w'.ownedBefore == w.ownedBefore && BotInv(w', b')
  {
    var row := b.start.snapshot[b.start.at];
    match a {
      case ReplayNext => if row.state.SentState? { ReplaySentKeeps(w, b, row); } else { ReplayPendingKeeps(w, b, row); }
      case ReplayChatted => ReplayChattedKeeps(w, b, row);
      case ReplayDispatched => ReplayDispatchedKeeps(w, b, row);
    }
  }

  lemma IngestStepKeeps(w: World, b: Bot, a: Action, w': World, b': Bot)
    requires WorldInv(w) && BotInv(w, b) && BotStep(w, b, a, w', b')
    requires a.IngestRecorded? || a.IngestChatted? || a.IngestDispatched?
    ensures WorldInv(w') && Grows(w, w') && w'.ownedBefore == w.ownedBefore && BotInv(w', b')
  {
    var e := b.ingests[a.i].event;
    match a {
      case IngestRecorded(i) => if e.Key() in b.sentKeys { IngestKnownKeeps(w, b, i, e); } else { IngestNewKeeps(w, b, i, e); }
      case IngestChatted(i) => IngestChattedKeeps(w, b, i, e);
      case IngestDispatched(i) => IngestDispatchedKeeps(w, b, i, e);
    }
  }

  lemma RestartKeepsInv(s: System)
    requires Inv(s)
    ensures Inv(s.(bot := Some(Fresh)))
    ensures s.bot.Some? ==> Inv(System(s.world.(ownedBefore := s.world.ownedBefore + s.bot.value.owned), None))
  {
  }

  lemma RunningStepKeepsInv(s: System, a: Action, t: System)
    requires Inv(s) && s.bot.Some? && t.bot.Some? && BotStep(s.world, s.bot.value, a, t.world, t.bot.value)
    ensures Inv(t) && Grows(s.world, t.world)
  {
    BotStepKeeps(s.world, s.bot.value, a, t.world, t.bot.value);
    OwnedGrows(s.world, t.world, s.world.ownedBefore);
  }

  lemma StepKeepsInv(s: System, t: System)
    requires Inv(s) && Next(s, t)
    ensures Inv(t) && Grows(s.world, t.world)
  {
    var a :| Step(s, a, t);
    if a.Boot? || a.Crash? {
      RestartKeepsInv(s);
    } else if a.Land? {
      LandKeepsInv(s, a.op);
      LandKeepsLog(s.world.log, s.world.posts, a.op);
    } else {
      RunningStepKeepsInv(s, a, t);
    }
  }

  lemma {:induction false} RunKeepsInv(run: seq<System>, i: int)
    requires IsRun(run) && 0 <= i < |run|
    ensures Inv(run[i])
  {
    if i > 0 {
      RunKeepsInv(run, i - 1);
      assert Successive(run, i - 1);
      StepKeepsInv(run[i - 1], run[i]);
    }
  }
}
