/** When an incarnation posts again for an event it already knows as sent. */
module SlackReposts {
  import opened Wrappers
  import opened SlackDelivery
  import opened SlackSafety
  import opened SlackGuarantees

  /** A post for the event, accepted by Slack if that is asked for. */
  ghost predicate NewPost(s: System, t: System, k: Key, accepted: bool) {
    |s.world.posts| < |t.world.posts| &&
    var p := t.world.posts[|s.world.posts|];
    p.key == k && (accepted ==> p.answer.Accepted?)
  }

  /** A step that does not end or begin an incarnation. */
  ghost predicate LiveStep(s: System, a: Action, t: System) {
    Step(s, a, t) && !a.Crash? && !a.Boot?
  }

  /** The running incarnation can post for the event within `n` steps. */
  ghost predicate CanPost(s: System, k: Key, accepted: bool, n: nat)
    decreases n
  {
    n > 0 && exists a, t :: LiveStep(s, a, t) && (NewPost(s, t, k, accepted) || CanPost(t, k, accepted, n - 1))
  }

  ghost predicate MayPost(s: System, k: Key, accepted: bool) {
    exists n: nat :: CanPost(s, k, accepted, n)
  }

  /** A delivery of the event is past the test for sent keys. */
  ghost predicate LateIngest(b: Bot, k: Key) {
    exists i :: i in b.ingests && b.ingests[i].event.Key() == k && !b.ingests[i].pc.Recording?
  }

  predicate Delivers(b: Bot, t: nat, k: Key) {
    t in b.tasks && b.tasks[t].event.Key() == k && (b.tasks[t].pc.Asking? || b.tasks[t].pc.Posting? || b.tasks[t].pc.Marking?)
  }

  ghost predicate Pending(b: Bot, k: Key) {
    LateIngest(b, k) || exists t :: Delivers(b, t, k)
  }

  // --- without such a delivery the event is left alone ---

  ghost predicate Quiet(b: Bot, k: Key) {
    b.start.Up? && k in b.sentKeys && !Pending(b, k)
  }

  lemma TaskStepStaysQuiet(w: World, b: Bot, a: Action, w': World, b': Bot, k: Key)
    requires Quiet(b, k) && TaskAction(a) && BotStep(w, b, a, w', b')
    ensures Quiet(b', k) && !NewPost(System(w, Some(b)), System(w', Some(b')), k, false)
  {
    assert !Delivers(b, a.t, k);
    forall t ensures !Delivers(b', t, k) { assert !Delivers(b, t, k); }
  }

  lemma IngestStepStaysQuiet(w: World, b: Bot, a: Action, w': World, b': Bot, k: Key)
    requires Quiet(b, k) && !TaskAction(a) && BotStep(w, b, a, w', b')
    ensures Quiet(b', k) && w'.posts == w.posts
  {
    forall t ensures !Delivers(b', t, k) { assert !Delivers(b, t, k); }
    forall i | i in b'.ingests && b'.ingests[i].event.Key() == k ensures b'.ingests[i].pc.Recording? {
    }
  }

  lemma StepStaysQuiet(s: System, a: Action, t: System, k: Key)
    requires s.bot.Some? && Quiet(s.bot.value, k) && LiveStep(s, a, t)
    ensures t.bot.Some? && Quiet(t.bot.value, k) && !NewPost(s, t, k, false)
  {
    if !a.Land? {
      if TaskAction(a) {
        TaskStepStaysQuiet(s.world, s.bot.value, a, t.world, t.bot.value, k);
      } else {
        IngestStepStaysQuiet(s.world, s.bot.value, a, t.world, t.bot.value, k);
      }
    }
  }

  lemma {:induction false} QuietNeverPosts(s: System, k: Key, accepted: bool, n: nat)
    requires s.bot.Some? && Quiet(s.bot.value, k)
    ensures !CanPost(s, k, accepted, n)
    decreases n
  {
    if n > 0 {
      forall a, t | LiveStep(s, a, t) ensures !NewPost(s, t, k, accepted) && !CanPost(t, k, accepted, n - 1) {
        StepStaysQuiet(s, a, t, k);
        QuietNeverPosts(t, k, accepted, n - 1);
      }
    }
  }

  // --- with one it can be posted again ---

  lemma StepThenPost(s: System, a: Action, t: System, k: Key, accepted: bool)
    requires LiveStep(s, a, t) && (NewPost(s, t, k, accepted) || MayPost(t, k, accepted))
    ensures MayPost(s, k, accepted)
  {
    if NewPost(s, t, k, accepted) {
      assert CanPost(s, k, accepted, 1);
    } else {
      var n: nat :| CanPost(t, k, accepted, n);
      assert CanPost(s, k, accepted, n + 1);
    }
  }

  lemma PostingPosts(s: System, t: nat, k: Key, accepted: bool)
    requires s.bot.Some? && Delivers(s.bot.value, t, k) && s.bot.value.tasks[t].pc.Posting?
    ensures MayPost(s, k, accepted)
  {
    var b, p := s.bot.value, Post(k, ClientMsgName(k), Accepted);
    var u := System(Send(s.world, Sent(k, "")).(posts := s.world.posts + [p]), Some(SetTask(b, t, Marking(""))));
    StepThenPost(s, Posted(t, ""), u, k, accepted);
  }

  lemma AskingPosts(s: System, t: nat, k: Key, accepted: bool)
    requires s.bot.Some? && Delivers(s.bot.value, t, k) && s.bot.value.tasks[t].pc.Asking?
    ensures MayPost(s, k, accepted)
  {
    var u := s.(bot := Some(SetTask(s.bot.value, t, Posting(""))));
    PostingPosts(u, t, k, accepted);
    StepThenPost(s, GotReply(t, ""), u, k, accepted);
  }

  lemma DeliveryPosts(s: System, t: nat, k: Key, accepted: bool)
    requires s.bot.Some? && Delivers(s.bot.value, t, k)
    ensures MayPost(s, k, accepted)
  {
    var pc := s.bot.value.tasks[t].pc;
    if pc.Asking? {
      AskingPosts(s, t, k, accepted);
    } else if pc.Posting? {
      PostingPosts(s, t, k, accepted);
    } else {
      var u := s.(bot := Some(SetTask(s.bot.value, t, Asking)));
      AskingPosts(u, t, k, accepted);
      StepThenPost(s, MarkFails(t), u, k, accepted);
    }
  }

  /** No live task for the event but those that deliver it. */
  ghost predicate Unfinished(b: Bot, k: Key) {
    k in b.deliveryTasks ==> b.deliveryTasks[k] in b.tasks && !b.tasks[b.deliveryTasks[k]].pc.Finishing?
  }

  lemma EnsuredDelivers(b: Bot, e: SlackEvent) returns (t: nat)
    requires Unfinished(b, e.Key())
    requires e.Key() in b.deliveryTasks ==> b.tasks[b.deliveryTasks[e.Key()]].event.Key() == e.Key()
    ensures Delivers(EnsureDelivery(b, e), t, e.Key())
  {
    var c := EnsureDelivery(b, e);
    t := c.deliveryTasks[e.Key()];
  }

  lemma DispatchingPosts(s: System, i: nat, k: Key, accepted: bool)
    requires s.bot.Some? && Inv(s) && Unfinished(s.bot.value, k) && Applied(s.world.log, DispatchedId(k))
    requires IngestAt(s.bot.value, i, Dispatching) && s.bot.value.ingests[i].event.Key() == k
    ensures MayPost(s, k, accepted)
  {
    var b, e := s.bot.value, s.bot.value.ingests[i].event;
    var c := EnsureDelivery(b, e).(ingests := b.ingests - {i});
    var u := System(s.world.(acked := s.world.acked + {e}), Some(c));
    var t := EnsuredDelivers(b, e);
    assert Delivers(c, t, k);
    DeliveryPosts(u, t, k, accepted);
    StepThenPost(s, IngestDispatched(i), u, k, accepted);
  }

  lemma ChattingPosts(s: System, i: nat, k: Key, accepted: bool)
    requires s.bot.Some? && Inv(s) && Unfinished(s.bot.value, k)
    requires Applied(s.world.log, ChatId(k)) && Applied(s.world.log, DispatchedId(k))
    requires IngestAt(s.bot.value, i, Chatting) && s.bot.value.ingests[i].event.Key() == k
    ensures MayPost(s, k, accepted)
  {
    var b, e := s.bot.value, s.bot.value.ingests[i].event;
    var u := System(Send(s.world, Dispatched(k)), Some(b.(ingests := b.ingests[i := Ingest(e, Dispatching)])));
    assert Step(s, IngestChatted(i), u);
    assert Next(s, u);
    StepKeepsInv(s, u);
    DispatchingPosts(u, i, k, accepted);
    StepThenPost(s, IngestChatted(i), u, k, accepted);
  }

  lemma LatePosts(s: System, k: Key, accepted: bool)
    requires s.bot.Some? && Inv(s) && Unfinished(s.bot.value, k) && LateIngest(s.bot.value, k)
    requires Applied(s.world.log, ChatId(k)) && Applied(s.world.log, DispatchedId(k))
    ensures MayPost(s, k, accepted)
  {
    var b := s.bot.value;
    var i :| i in b.ingests && b.ingests[i].event.Key() == k && !b.ingests[i].pc.Recording?;
    if b.ingests[i].pc.Chatting? { ChattingPosts(s, i, k, accepted); } else { DispatchingPosts(s, i, k, accepted); }
  }

  /** What is sent was chatted and dispatched before. */
  lemma SentIsDispatched(log: seq<Op>, posts: seq<Post>, k: Key)
    requires LogInv(log, posts) && Applied(log, SentId(k))
    ensures Applied(log, DispatchedId(k)) && Applied(log, ChatId(k))
  {
    var j :| 0 <= j < |log| && IdOf(log[j]) == SentId(k);
    assert Grounded(log[..j], posts, log[j]);
    AppliedGrows(log[..j], log, DispatchedId(k));
    var i :| 0 <= i < |log| && IdOf(log[i]) == DispatchedId(k);
    assert Grounded(log[..i], posts, log[i]);
    AppliedGrows(log[..i], log, ChatId(k));
  }

  /** A task that is only cleaning up ends first. */
  lemma FinishingPosts(s: System, k: Key, accepted: bool)
    requires s.bot.Some? && Inv(s) && LateIngest(s.bot.value, k)
    requires Applied(s.world.log, ChatId(k)) && Applied(s.world.log, DispatchedId(k))
    ensures MayPost(s, k, accepted)
  {
    var b := s.bot.value;
    if Unfinished(b, k) {
      LatePosts(s, k, accepted);
    } else {
      var t := b.deliveryTasks[k];
      var u := s.(bot := Some(SetTask(b, t, Over)));
      assert Step(s, TaskEnds(t), u);
      assert Next(s, u);
      StepKeepsInv(s, u);
      assert LateIngest(u.bot.value, k);
      LatePosts(u, k, accepted);
      StepThenPost(s, TaskEnds(t), u, k, accepted);
    }
  }

  lemma PendingPosts(s: System, k: Key, accepted: bool)
    requires s.bot.Some? && Inv(s) && k in s.bot.value.sentKeys && Pending(s.bot.value, k)
    ensures MayPost(s, k, accepted)
  {
    if t :| Delivers(s.bot.value, t, k) {
      DeliveryPosts(s, t, k, accepted);
    } else {
      SentIsDispatched(s.world.log, s.world.posts, k);
      FinishingPosts(s, k, accepted);
    }
  }

  /** A started incarnation that knows an event as sent may post for it again if and only if a
      delivery of it is past the test for sent keys, or a task for it is not yet through; and
      then Slack may accept the post. */
  lemma RepostIff(run: seq<System>, i: int, k: Key)
    requires IsRun(run) && 0 <= i < |run| && run[i].bot.Some?
    requires run[i].bot.value.start.Up? && k in run[i].bot.value.sentKeys
    ensures MayPost(run[i], k, false) <==> Pending(run[i].bot.value, k)
    ensures MayPost(run[i], k, true) <==> Pending(run[i].bot.value, k)
  {
    var s := run[i];
    RunKeepsInv(run, i);
    if Pending(s.bot.value, k) {
      PendingPosts(s, k, false);
      PendingPosts(s, k, true);
    } else {
      forall accepted, n: nat ensures !CanPost(s, k, accepted, n) { QuietNeverPosts(s, k, accepted, n); }
    }
  }

  // --- a run in which it happens ---

  /** The bot is up and a delivery of `e` and its retry have arrived. */
  lemma TwiceReceived(e: SlackEvent) returns (run: seq<System>)
    ensures IsRun(run)
    ensures run[|run| - 1] == System(
      World([Record(e)], {Record(e)}, [], {e}, {}, {}),
      Some(Bot(Up([]), {}, {}, map[], map[], map[0 := Ingest(e, Recording), 1 := Ingest(e, Recording)], 2)))
  {
    var w, up := Empty.world, Fresh.(start := Up([]));
    run := ByRestart([Empty]);
    run := ByBot(run, Query([]), w, Fresh.(start := Replaying([], 0, Idle)));
    run := ByBot(run, StartDone, w, up);
    var w1, b1 := World([], {Record(e)}, [], {e}, {}, {}), up.(ingests := map[0 := Ingest(e, Recording)], nextId := 1);
    run := ByBot(run, Receive(e), w1, b1);
    run := ByBot(run, Receive(e), w1, b1.(ingests := map[0 := Ingest(e, Recording), 1 := Ingest(e, Recording)], nextId := 2));
    run := ByLanding(run, Record(e));
  }

  /** Both pass the test for sent keys. */
  lemma TwicePastTest(e: SlackEvent) returns (run: seq<System>)
    ensures IsRun(run)
    ensures run[|run| - 1] == System(
      World([Record(e), Chat(e.Key())], {Record(e), Chat(e.Key())}, [], {e}, {}, {}),
      Some(Bot(Up([]), {e.Thread()}, {}, map[], map[], map[0 := Ingest(e, Chatting), 1 := Ingest(e, Chatting)], 2)))
  {
    run := TwiceReceived(e);
    var w, b := run[|run| - 1].world, run[|run| - 1].bot.value;
    assert IdOf(w.log[0]) == RecordId(e.Key());
    var w1 := Send(w, Chat(e.Key()));
    var b1 := b.(owned := {e.Thread()}, ingests := map[0 := Ingest(e, Recording), 1 := Ingest(e, Chatting)]);
    run := ByBot(run, IngestRecorded(1), w1, b1);
    run := ByBot(run, IngestRecorded(0), w1, b1.(ingests := map[0 := Ingest(e, Chatting), 1 := Ingest(e, Chatting)]));
    run := ByLanding(run, Chat(e.Key()));
  }

  /** The first of them gets the event dispatched and a task for it. */
  lemma FirstIsDispatched(e: SlackEvent) returns (run: seq<System>)
    ensures IsRun(run)
    ensures
      var k := e.Key();
      run[|run| - 1] == System(
        World([Record(e), Chat(k), Dispatched(k)], {Record(e), Chat(k), Dispatched(k)}, [], {e}, {e}, {}),
        Some(Bot(Up([]), {e.Thread()}, {}, map[k := 2], map[2 := DeliveryTask(e, Asking)], map[1 := Ingest(e, Chatting)], 3)))
  {
    run := TwicePastTest(e);
    var k, w, b := e.Key(), run[|run| - 1].world, run[|run| - 1].bot.value;
    assert IdOf(w.log[1]) == ChatId(k);
    var b1 := b.(ingests := map[0 := Ingest(e, Dispatching), 1 := Ingest(e, Chatting)]);
    run := ByBot(run, IngestChatted(0), Send(w, Dispatched(k)), b1);
    run := ByLanding(run, Dispatched(k));
    var w2 := run[|run| - 1].world;
    assert IdOf(w2.log[2]) == DispatchedId(k);
    var b2 := Bot(Up([]), {e.Thread()}, {}, map[k := 2], map[2 := DeliveryTask(e, Asking)], map[1 := Ingest(e, Chatting)], 3);
    assert EnsureDelivery(b1, e).(ingests := b1.ingests - {0}) == b2;
    run := ByBot(run, IngestDispatched(0), w2.(acked := {e}), b2);
  }

  /** The delivery task posts and marks the event sent, while the retry is still on its way. */
  lemma SentWhileRetried(e: SlackEvent) returns (run: seq<System>)
    ensures IsRun(run) && run[|run| - 1].bot.Some?
    ensures var b := run[|run| - 1].bot.value;
      b.start.Up? && e.Key() in b.sentKeys && 1 in b.ingests && b.ingests[1] == Ingest(e, Chatting)
  {
    run := FirstIsDispatched(e);
    var k, w, b := e.Key(), run[|run| - 1].world, run[|run| - 1].bot.value;
    run := ByBot(run, GotReply(2, "ok"), w, SetTask(b, 2, Posting("ok")));
    var w1 := Send(w, Sent(k, "1")).(posts := [Post(k, ClientMsgName(k), Accepted)]);
    run := ByBot(run, Posted(2, "1"), w1, SetTask(b, 2, Marking("1")));
    run := ByLanding(run, Sent(k, "1"));
    var w2 := run[|run| - 1].world;
    assert IdOf(w2.log[3]) == SentId(k);
    run := ByBot(run, Marked(2), w2, SetTask(b, 2, Finishing).(sentKeys := {k}));
  }

  /** Every event can be posted again by an incarnation that knows it as sent. */
  lemma RepostHappens(e: SlackEvent) returns (run: seq<System>)
    ensures IsRun(run) && run[|run| - 1].bot.Some? && e.Key() in run[|run| - 1].bot.value.sentKeys
    ensures MayPost(run[|run| - 1], e.Key(), true)
  {
    run := SentWhileRetried(e);
    assert LateIngest(run[|run| - 1].bot.value, e.Key());
    RepostIff(run, |run| - 1, e.Key());
  }
}
