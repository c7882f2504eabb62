/** The Slack edge of the Weave agent as a transition system: one durable Weave log, one bot
    incarnation at a time, and a process that may crash at any await. Each action is one
    stretch between two awaits of `start`, an `ingest` call or a delivery task, or a step of
    Weave, Slack or the host. */
module SlackDelivery {
  import opened Wrappers

  /** One logical identity per Slack message; the program uses a digest of this pair. */
  datatype Key = MessageKey(channel: string, messageTs: string)

  datatype Thread = ThreadId(channel: string, threadTs: string)

  datatype SlackEvent = SlackEvent(
    eventId: string, channel: string, messageTs: string, threadTs: string, user: string, text: string)
  {
    function Key(): Key { MessageKey(channel, messageTs) }
    function Thread(): Thread { ThreadId(channel, threadTs) }
  }

  /** A write Weave is asked for; `Chat` stands for the message addressed to the agent. */
  datatype Op =
    | Record(event: SlackEvent)
    | Chat(key: Key)
    | Dispatched(key: Key)
    | Sent(key: Key, replyTs: string)

  datatype OperationId = RecordId(key: Key) | ChatId(key: Key) | DispatchedId(key: Key) | SentId(key: Key)

  function IdOf(op: Op): OperationId {
    match op
    case Record(e) => RecordId(e.Key())
    case Chat(k) => ChatId(k)
    case Dispatched(k) => DispatchedId(k)
    case Sent(k, _) => SentId(k)
  }

  predicate Applied(log: seq<Op>, id: OperationId) {
    exists i :: 0 <= i < |log| && IdOf(log[i]) == id
  }

  /** Weave applies an operation id once; a replay is a no-op. */
  function Absorb(log: seq<Op>, op: Op): seq<Op> {
    if Applied(log, IdOf(op)) then log else log + [op]
  }

  datatype EventState = Received | AwaitingReply | SentState

  function StateFact(op: Op, k: Key): Option<EventState> {
    match op
    case Record(e) => if e.Key() == k then Some(Received) else None
    case Chat(_) => None
    case Dispatched(j) => if j == k then Some(AwaitingReply) else None
    case Sent(j, _) => if j == k then Some(SentState) else None
  }

  /** The latest `state` fact of an event. */
  function StateOf(log: seq<Op>, k: Key): Option<EventState> {
    if log == [] then None
    else if StateFact(log[|log| - 1], k).Some? then StateFact(log[|log| - 1], k)
    else StateOf(log[..|log| - 1], k)
  }

  datatype RecordedEvent = RecordedEvent(event: SlackEvent, state: EventState)

  /** What Slack answered: accepted, an error worth retrying, or a permanent refusal. */
  datatype Answer = Accepted | Retriable | Refused

  /** One call of `chat.postMessage`. */
  datatype Post = Post(key: Key, clientMsgId: string, answer: Answer)

  /** The name the deterministic message id is derived from. */
  function ClientMsgName(k: Key): string {
    "weave-slack:" + k.channel + [0 as char] + k.messageTs
  }

  /** What outlives a crash: the log, the requests ever put on the wire (any of them may still
      land), and what the outside has seen. */
  datatype World = World(
    log: seq<Op>,
    wire: set<Op>,
    posts: seq<Post>,
    accepted: set<SlackEvent>,
    acked: set<SlackEvent>,
    ownedBefore: set<Thread>)

  datatype IngestPc = Recording | Chatting | Dispatching

  datatype Ingest = Ingest(event: SlackEvent, pc: IngestPc)

  datatype TaskPc = Asking | Posting(text: string) | Marking(ts: string) | Finishing | Over

  datatype DeliveryTask = DeliveryTask(event: SlackEvent, pc: TaskPc)

  datatype ReplayPc = Idle | ReplayChatting | ReplayDispatching

  datatype StartPc =
    | Starting
    | Replaying(snapshot: seq<RecordedEvent>, at: nat, pc: ReplayPc)
    | Up(snapshot: seq<RecordedEvent>)

  datatype Bot = Bot(
    start: StartPc,
    owned: set<Thread>,
    sentKeys: set<Key>,
    deliveryTasks: map<Key, nat>,
    tasks: map<nat, DeliveryTask>,
    ingests: map<nat, Ingest>,
    nextId: nat)

  const Fresh := Bot(Starting, {}, {}, map[], map[], map[], 0)

  datatype System = System(world: World, bot: Option<Bot>)

  const Empty := System(World([], {}, [], {}, {}, {}), None)

  function Send(w: World, op: Op): World {
    w.(wire := w.wire + {op})
  }

  /** `_ensure_delivery`: a new task unless one for the key is still running. */
  function EnsureDelivery(b: Bot, e: SlackEvent): Bot {
    if e.Key() in b.deliveryTasks && b.deliveryTasks[e.Key()] in b.tasks && !b.tasks[b.deliveryTasks[e.Key()]].pc.Over?
    then b
    else b.(
      deliveryTasks := b.deliveryTasks[e.Key() := b.nextId],
      tasks := b.tasks[b.nextId := DeliveryTask(e, Asking)],
      nextId := b.nextId + 1)
  }

  function SetTask(b: Bot, t: nat, pc: TaskPc): Bot
    requires t in b.tasks
  {
    b.(tasks := b.tasks[t := b.tasks[t].(pc := pc)])
  }

  datatype Action =
    | Boot
    | Crash
    | Land(op: Op)
    | Query(snapshot: seq<RecordedEvent>)
    | ReplayNext
    | ReplayChatted
    | ReplayDispatched
    | StartDone
    | Receive(event: SlackEvent)
    | IngestRecorded(i: nat)
    | IngestChatted(i: nat)
    | IngestDispatched(i: nat)
    | IngestFails(i: nat)
    | GotReply(t: nat, text: string)
    | Posted(t: nat, ts: string)
    | PostFails(t: nat, permanent: bool)
    | Marked(t: nat)
    | MarkFails(t: nat)
    | TaskEnds(t: nat)

  /** `recorded_events`: every recorded event once, with its latest state, in any order. */
  ghost predicate IsSnapshot(log: seq<Op>, rows: seq<RecordedEvent>) {
    && (forall i :: 0 <= i < |rows| ==>
          Record(rows[i].event) in log && StateOf(log, rows[i].event.Key()) == Some(rows[i].state))
    && (forall e :: Record(e) in log ==> exists i :: 0 <= i < |rows| && rows[i].event == e)
    && (forall i, j :: 0 <= i < j < |rows| ==> rows[i].event != rows[j].event)
  }

  predicate TaskAt(b: Bot, t: nat, pc: TaskPc) {
    t in b.tasks && b.tasks[t].pc == pc
  }

  predicate IngestAt(b: Bot, i: nat, pc: IngestPc) {
    i in b.ingests && b.ingests[i].pc == pc
  }

  /** The event `start` is replaying. */
  predicate ReplayAt(b: Bot, pc: ReplayPc) {
    b.start.Replaying? && b.start.at < |b.start.snapshot| && b.start.pc == pc
  }

  /** A step of the running bot: its next state and what it does to the world. A Weave call
      answers successfully only once its operation has been applied. */
  ghost predicate BotStep(w: World, b: Bot, a: Action, w': World, b': Bot) {
    match a
    case Query(rows) =>
      b.start.Starting? && IsSnapshot(w.log, rows) && w' == w && b' == b.(start := Replaying(rows, 0, Idle))
    case ReplayNext =>
      ReplayAt(b, Idle) &&
      var row := b.start.snapshot[b.start.at];
      var c := b.(owned := b.owned + {row.event.Thread()});
      if row.state.SentState? then
        w' == w && b' == c.(sentKeys := c.sentKeys + {row.event.Key()}, start := c.start.(at := c.start.at + 1))
      else
        w' == Send(w, Chat(row.event.Key())) && b' == c.(start := c.start.(pc := ReplayChatting))
    case ReplayChatted =>
      ReplayAt(b, ReplayChatting) &&
      var k := b.start.snapshot[b.start.at].event.Key();
      && Applied(w.log, ChatId(k))
      && w' == Send(w, Dispatched(k)) && b' == b.(start := b.start.(pc := ReplayDispatching))
    case ReplayDispatched =>
      ReplayAt(b, ReplayDispatching) &&
      var e := b.start.snapshot[b.start.at].event;
      && Applied(w.log, DispatchedId(e.Key()))
      && w' == w && b' == EnsureDelivery(b, e).(start := b.start.(at := b.start.at + 1, pc := Idle))
    case StartDone =>
      && b.start.Replaying? && b.start.at == |b.start.snapshot| && b.start.pc == Idle
      && w' == w && b' == b.(start := Up(b.start.snapshot))
    case Receive(e) =>
      && b.start.Up?
      && w' == Send(w, Record(e)).(accepted := w.accepted + {e})
      && b' == b.(ingests := b.ingests[b.nextId := Ingest(e, Recording)], nextId := b.nextId + 1)
    case IngestRecorded(i) =>
      IngestAt(b, i, Recording) &&
      var e := b.ingests[i].event;
      var c := b.(owned := b.owned + {e.Thread()});
      && Applied(w.log, RecordId(e.Key()))
      && if e.Key() in b.sentKeys then
           w' == w.(acked := w.acked + {e}) && b' == c.(ingests := b.ingests - {i})
         else
           w' == Send(w, Chat(e.Key())) && b' == c.(ingests := b.ingests[i := Ingest(e, Chatting)])
    case IngestChatted(i) =>
      IngestAt(b, i, Chatting) &&
      var e := b.ingests[i].event;
      && Applied(w.log, ChatId(e.Key()))
      && w' == Send(w, Dispatched(e.Key())) && b' == b.(ingests := b.ingests[i := Ingest(e, Dispatching)])
    case IngestDispatched(i) =>
      IngestAt(b, i, Dispatching) &&
      var e := b.ingests[i].event;
      && Applied(w.log, DispatchedId(e.Key()))
      && w' == w.(acked := w.acked + {e}) && b' == EnsureDelivery(b, e).(ingests := b.ingests - {i})
    case IngestFails(i) =>
      i in b.ingests && w' == w && b' == b.(ingests := b.ingests - {i})
    case GotReply(t, text) =>
      TaskAt(b, t, Asking) && w' == w && b' == SetTask(b, t, Posting(text))
    case Posted(t, ts) =>
      t in b.tasks && b.tasks[t].pc.Posting? &&
      var k := b.tasks[t].event.Key();
      && w' == Send(w, Sent(k, ts)).(posts := w.posts + [Post(k, ClientMsgName(k), Accepted)])
      && b' == SetTask(b, t, Marking(ts))
    case PostFails(t, permanent) =>
      t in b.tasks && b.tasks[t].pc.Posting? &&
      var k := b.tasks[t].event.Key();
      && w' == w.(posts := w.posts + [Post(k, ClientMsgName(k), if permanent then Refused else Retriable)])
      && b' == SetTask(b, t, if permanent then Over else Asking)
    case Marked(t) =>
      t in b.tasks && b.tasks[t].pc.Marking? &&
      var k := b.tasks[t].event.Key();
      && Applied(w.log, SentId(k))
      && w' == w && b' == SetTask(b, t, Finishing).(sentKeys := b.sentKeys + {k})
    case MarkFails(t) =>
      t in b.tasks && b.tasks[t].pc.Marking? && w' == w && b' == SetTask(b, t, Asking)
    case TaskEnds(t) =>
      TaskAt(b, t, Finishing) && w' == w && b' == SetTask(b, t, Over)
    case _ => false
  }

  ghost predicate Step(s: System, a: Action, t: System) {
    if a.Boot? then
      s.bot.None? && t == s.(bot := Some(Fresh))
    else if a.Crash? then
      s.bot.Some? && t == System(s.world.(ownedBefore := s.world.ownedBefore + s.bot.value.owned), None)
    else if a.Land? then
      a.op in s.world.wire && t == s.(world := s.world.(log := Absorb(s.world.log, a.op)))
    else
      s.bot.Some? && t.bot.Some? && BotStep(s.world, s.bot.value, a, t.world, t.bot.value)
  }

  ghost predicate Next(s: System, t: System) {
    exists a :: Step(s, a, t)
  }

  ghost predicate Successive(run: seq<System>, i: int) {
    0 <= i < |run| - 1 && Next(run[i], run[i + 1])
  }

  /** Any interleaving of ingest, delivery, Weave, Slack, crashes and restarts. */
  ghost predicate IsRun(run: seq<System>) {
    run != [] && run[0] == Empty && forall i :: 0 <= i < |run| - 1 ==> Successive(run, i)
  }
}
