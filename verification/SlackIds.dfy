/** The message ids the posts of a run carry. */
module SlackIds {
  import opened SlackDelivery
  import opened SlackSafety

  predicate NulFree(s: string) {
    forall i :: 0 <= i < |s| ==> s[i] != 0 as char
  }

  /** Where the separator stands in an id's name. */
  function Separator(k: Key): nat {
    12 + |k.channel|
  }

  lemma SeparatorAt(k: Key)
    ensures
      var name := ClientMsgName(k);
      && Separator(k) < |name| && name[Separator(k)] == 0 as char
      && (NulFree(k.channel) ==> forall i :: 12 <= i < Separator(k) ==> name[i] != 0 as char)
      && (NulFree(k.messageTs) ==> forall i :: Separator(k) < i < |name| ==> name[i] != 0 as char)
  {
    var name := ClientMsgName(k);
    assert forall i :: 12 <= i < Separator(k) ==> name[i] == k.channel[i - 12];
    assert forall i :: Separator(k) < i < |name| ==> name[i] == k.messageTs[i - Separator(k) - 1];
  }

  lemma SameSeparator(k: Key, j: Key)
    requires ClientMsgName(k) == ClientMsgName(j) && Separator(k) == Separator(j)
    ensures k == j
  {
    assert ClientMsgName(k)[12..Separator(k)] == k.channel && ClientMsgName(k)[Separator(k) + 1..] == k.messageTs;
    assert ClientMsgName(j)[12..Separator(j)] == j.channel && ClientMsgName(j)[Separator(j) + 1..] == j.messageTs;
  }

  /** Ids tell events apart, for channels without the separator. */
  lemma NamesDiffer(k: Key, j: Key)
    requires NulFree(k.channel) && NulFree(j.channel)
    ensures ClientMsgName(k) == ClientMsgName(j) <==> k == j
  {
    SeparatorAt(k);
    SeparatorAt(j);
    if ClientMsgName(k) == ClientMsgName(j) { SameSeparator(k, j); }
  }

  /** Over a whole run two posts carry the same message id if and only if they are for the
      same event: a retry is recognised as one, and no other message is taken for one. */
  lemma SameIdIff(run: seq<System>, i: int, p: Post, q: Post)
    requires IsRun(run) && 0 <= i < |run| && p in run[i].world.posts && q in run[i].world.posts
    requires NulFree(p.key.channel) && NulFree(q.key.channel)
    ensures p.clientMsgId == q.clientMsgId <==> p.key == q.key
  {
    RunKeepsInv(run, i);
    NamesDiffer(p.key, q.key);
  }

  /** With the separator in a channel's name two events can share an id. */
  lemma NulSharesId(channel: string, a: string, b: string)
    ensures
      var nul := [0 as char];
      var k, j := MessageKey(channel + nul + a, b), MessageKey(channel, a + nul + b);
      k != j && ClientMsgName(k) == ClientMsgName(j)
  {
    var nul := [0 as char];
    assert |channel + nul + a| > |channel|;
    assert "weave-slack:" + (channel + nul + a) + nul + b == "weave-slack:" + channel + nul + (a + nul + b);
  }

  ghost predicate SharesId(k: Key, j: Key) {
    j != k && ClientMsgName(j) == ClientMsgName(k)
  }

  lemma NulAt(s: string) returns (a: string, b: string)
    requires !NulFree(s)
    ensures s == a + [0 as char] + b
  {
    var i :| 0 <= i < |s| && s[i] == 0 as char;
    a, b := s[..i], s[i + 1..];
  }

  lemma NulFreeIsAlone(k: Key, j: Key)
    requires NulFree(k.channel) && NulFree(k.messageTs) && ClientMsgName(j) == ClientMsgName(k)
    ensures j == k
  {
    SeparatorAt(k);
    SeparatorAt(j);
    SameSeparator(k, j);
  }

  /** An event shares its id with another one if and only if its channel or its timestamp has
      the separator in it. */
  lemma SharesIdIff(k: Key)
    ensures (exists j :: SharesId(k, j)) <==> !NulFree(k.channel) || !NulFree(k.messageTs)
  {
    if !NulFree(k.channel) {
      var a, b := NulAt(k.channel);
      NulSharesId(a, b, k.messageTs);
      assert SharesId(k, MessageKey(a, b + [0 as char] + k.messageTs));
    } else if !NulFree(k.messageTs) {
      var a, b := NulAt(k.messageTs);
      NulSharesId(k.channel, a, b);
      assert SharesId(k, MessageKey(k.channel + [0 as char] + a, b));
    } else {
      forall j | ClientMsgName(j) == ClientMsgName(k) ensures j == k { NulFreeIsAlone(k, j); }
    }
  }
}
