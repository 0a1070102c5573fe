/** The client store's actions (web/src/store/chatStore.js). An action that awaits a response is one method up
    to the await and one per outcome after it. Each method is a step of the many-channel client: whatever client
    the store shows, it shows the client after the step. */
module ChatStore {
  import opened Wrappers
  import opened TimeUuids
  import opened MessageLog
  import opened ChatConversation
  import opened ChatRun
  import opened ChatChannels

  /** Update one channel's list if it is held at all. */
  function WithConv(convs: map<ChannelId, Conv>, channel: ChannelId, update: Conv -> Conv): map<ChannelId, Conv> {
    if channel in convs then convs[channel := update(convs[channel])] else convs
  }

  class Store {
    var convs: map<ChannelId, Conv>
    var user: Option<UserId>
    var tempCounter: nat

    ghost predicate Shows(c: Client)
      reads this
    {
      Views(c, convs, user, tempCounter)
    }

    constructor (user: Option<UserId>)
      ensures convs == map[] && this.user == user && tempCounter == 0
      ensures user.Some? ==> Shows(NewTab(user.value))
    {
      convs, this.user, tempCounter := map[], user, 0;
    }

    /** `loadMessages` up to its request; a channel that is loaded or loading is left alone. */
    method BeginLoad(channel: ChannelId) returns (started: bool)
      modifies `convs
      ensures started <==>
        channel !in old(convs) || !(old(convs)[channel].loaded || old(convs)[channel].loadingInitial)
      ensures convs == if started then old(convs)[channel := LOADING] else old(convs)
      ensures forall c :: old(Shows(c)) ==> (started <==> Can(c, Event.BeginLoad(channel)))
      ensures !started ==> convs == old(convs)
      ensures forall c :: old(Shows(c)) && Can(c, Event.BeginLoad(channel)) ==>
        Shows(After(c, Event.BeginLoad(channel)))
    {
      hide Views, Can, After;
      forall c | Shows(c)
        ensures Can(c, Event.BeginLoad(channel)) <==>
          channel !in convs || !(convs[channel].loaded || convs[channel].loadingInitial)
      {
        MayLoadIff(c, convs, user, tempCounter, channel);
      }
      forall c | Shows(c) && Can(c, Event.BeginLoad(channel))
        ensures channel !in convs
        ensures Views(After(c, Event.BeginLoad(channel)), convs[channel := LOADING], user, tempCounter)
      {
        BeginLoadFollows(c, convs, user, tempCounter, channel);
      }
      if channel in convs && (convs[channel].loaded || convs[channel].loadingInitial) {
        return false;
      }
      convs := convs[channel := LOADING];
      started := true;
    }

    /** The first page arrived: what the socket buffered meanwhile and the page lacks is appended. */
    method FinishInitialLoad(channel: ChannelId, newestFirst: seq<Message>)
      modifies `convs
      ensures convs ==
        old(convs)[channel := FinishLoad(if channel in old(convs) then old(convs)[channel] else LOADING, newestFirst)]
      ensures forall c, log, at: nat, indices ::
        old(Shows(c)) && Can(c, LoadArrives(channel, log, at, indices)) && LoadPage(log, at) == newestFirst ==>
          Shows(After(c, LoadArrives(channel, log, at, indices)))
    {
      hide Views, Can, After, LoadPage;
      forall c, log, at: nat, indices | Shows(c) && Can(c, LoadArrives(channel, log, at, indices))
        ensures channel in convs
        ensures Views(After(c, LoadArrives(channel, log, at, indices)),
                  convs[channel := FinishLoad(convs[channel], LoadPage(log, at))], user, tempCounter)
      {
        LoadFollows(c, convs, user, tempCounter, channel, log, at, indices);
        LoadPageIs(c, channel, log, at, indices);
      }
      var buffered := if channel in convs then convs[channel].pending else [];
      var conv := FreshConv(newestFirst);
      var seen, items := conv.items, conv.items;
      for i := 0 to |buffered|
        invariant items == seen + AsItems(Unseen(buffered[..i], seen))
      {
        assert buffered[..i + 1][..i] == buffered[..i];
        if !HasKey(seen, ServerKey(buffered[i].id)) {
          items := items + [Posted(buffered[i])];
        }
      }
      assert buffered[..|buffered|] == buffered;
      convs := convs[channel := conv.(items := items)];
    }

    method FailInitialLoad(channel: ChannelId)
      modifies `convs
      ensures convs == old(convs) - {channel}
      ensures forall c :: old(Shows(c)) && Can(c, LoadFails(channel)) ==> Shows(After(c, LoadFails(channel)))
    {
      hide Views, Can, After;
      forall c | Shows(c) && Can(c, LoadFails(channel))
        ensures Views(After(c, LoadFails(channel)), convs - {channel}, user, tempCounter)
      {
        LoadFailsFollows(c, convs, user, tempCounter, channel);
      }
      convs := convs - {channel};
    }

    /** `loadOlder` up to its request: `before` is the oldest server message held. */
    method BeginOlder(channel: ChannelId) returns (before: Option<Id>)
      modifies `convs
      ensures before == if channel in old(convs) then OlderAnchor(old(convs)[channel]) else None
      ensures convs ==
        if before.Some? then old(convs)[channel := old(convs)[channel].(loadingOlder := true)] else old(convs)
      ensures forall c :: old(Shows(c)) && AllInInv(c) ==> before == NextAnchor(c, channel)
      ensures forall c :: old(Shows(c)) && Can(c, On(channel, AskOlder)) ==> Shows(After(c, On(channel, AskOlder)))
    {
      hide Views, Can, After, OlderAnchor, AllInInv, NextAnchor;
      forall c | Shows(c) && AllInInv(c)
        ensures NextAnchor(c, channel) == if channel in convs then OlderAnchor(convs[channel]) else None
      {
        NextAnchorIs(c, convs, user, tempCounter, channel);
      }
      forall c | Shows(c) && Can(c, On(channel, AskOlder))
        ensures channel in convs
        ensures Views(After(c, On(channel, AskOlder)), convs[channel := Asking(convs[channel])], user, tempCounter)
      {
        ActionFollows(c, convs, user, tempCounter, channel, AskOlder);
        AskingIs(c, channel);
      }
      before := None;
      if channel in convs {
        var conv := convs[channel];
        AnchorIs(conv);
        if conv.loaded && conv.hasMore && !conv.loadingOlder {
          var oldest := FirstPosted(conv.items);
          if oldest.Some? {
            before := Some(oldest.value.id);
            convs := WithConv(convs, channel, (cur: Conv) => cur.(loadingOlder := true));
          }
        }
        assert convs == old(convs)[channel := Asking(old(convs)[channel])];
      }
    }

    method FinishOlder(channel: ChannelId, older: seq<Message>)
      modifies `convs
      ensures convs == WithConv(old(convs), channel, cur => PrependOlder(cur, older))
      ensures channel !in old(convs) ==> convs == old(convs)
      ensures forall c :: old(Shows(c)) && Can(c, On(channel, PageArrives)) && PageOnItsWay(c, channel) == older ==>
        Shows(After(c, On(channel, PageArrives)))
    {
      hide Views, Can, After, PrependOlder, PageOnItsWay;
      forall c | Shows(c) && Can(c, On(channel, PageArrives)) && PageOnItsWay(c, channel) == older
        ensures channel in convs
        ensures Views(After(c, On(channel, PageArrives)),
                  convs[channel := PrependOlder(convs[channel], older)], user, tempCounter)
      {
        ActionFollows(c, convs, user, tempCounter, channel, PageArrives);
        PageArrivesIs(c, channel);
      }
      convs := WithConv(convs, channel, cur => PrependOlder(cur, older));
    }

    method FailOlder(channel: ChannelId)
      modifies `convs
      ensures convs == WithConv(old(convs), channel, (cur: Conv) => cur.(loadingOlder := false))
      ensures channel !in old(convs) ==> convs == old(convs)
      ensures forall c :: old(Shows(c)) && Can(c, On(channel, PageFails)) ==> Shows(After(c, On(channel, PageFails)))
    {
      hide Views, Can, After;
      forall c | Shows(c) && Can(c, On(channel, PageFails))
        ensures channel in convs
        ensures Views(After(c, On(channel, PageFails)),
                  convs[channel := convs[channel].(loadingOlder := false)], user, tempCounter)
      {
        ActionFollows(c, convs, user, tempCounter, channel, PageFails);
        PageFailsIs(c, channel);
      }
      convs := WithConv(convs, channel, (cur: Conv) => cur.(loadingOlder := false));
    }

    /** `sendMessage` up to its request; the temporary id has never been used, on any channel. */
    method BeginSend(channel: ChannelId, content: string) returns (temp: nat)
      modifies `convs, `tempCounter
      ensures temp > old(tempCounter) && tempCounter == temp
      ensures convs == WithConv(old(convs), channel, cur => AddOptimistic(cur, temp, content))
      ensures channel !in old(convs) ==> convs == old(convs)
      ensures forall c :: old(Shows(c)) && Can(c, On(channel, StartSend(temp, content))) ==>
        Shows(After(c, On(channel, StartSend(temp, content))))
      ensures forall c :: old(Shows(c)) && IsOpen(c, channel) ==> Can(c, On(channel, StartSend(temp, content)))
      ensures forall c :: old(Shows(c)) && Can(c, SendNowhere(channel)) ==> Shows(After(c, SendNowhere(channel)))
    {
      hide Views, Can, After, AddOptimistic, IsOpen;
      temp := tempCounter + 1;
      forall c | Shows(c) && IsOpen(c, channel) ensures Can(c, On(channel, StartSend(temp, content))) {
        NextTempIsFree(c, convs, user, tempCounter, channel, content);
      }
      forall c | Shows(c) && Can(c, On(channel, StartSend(temp, content)))
        ensures channel in convs
        ensures Views(After(c, On(channel, StartSend(temp, content))),
                  convs[channel := AddOptimistic(convs[channel], temp, content)], user, temp)
      {
        ActionFollows(c, convs, user, tempCounter, channel, StartSend(temp, content));
        StartSendIs(c, channel, temp, content);
      }
      forall c | Shows(c) && Can(c, SendNowhere(channel))
        ensures channel !in convs && Views(After(c, SendNowhere(channel)), convs, user, temp)
      {
        SendNowhereFollows(c, convs, user, tempCounter, channel);
      }
      tempCounter := tempCounter + 1;
      convs := WithConv(convs, channel, cur => AddOptimistic(cur, temp, content));
    }

    method ResolveOptimistic(channel: ChannelId, temp: nat, msg: Message)
      modifies `convs
      ensures convs == WithConv(old(convs), channel, cur => Resolve(cur, temp, msg))
      ensures channel !in old(convs) ==> convs == old(convs)
      ensures forall c :: old(Shows(c)) && Can(c, On(channel, Respond(temp))) && AnswerTo(c, channel, temp) == msg ==>
        Shows(After(c, On(channel, Respond(temp))))
    {
      hide Views, Can, After, Resolve, AnswerTo;
      forall c | Shows(c) && Can(c, On(channel, Respond(temp))) && AnswerTo(c, channel, temp) == msg
        ensures channel in convs
        ensures Views(After(c, On(channel, Respond(temp))),
                  convs[channel := Resolve(convs[channel], temp, msg)], user, tempCounter)
      {
        ActionFollows(c, convs, user, tempCounter, channel, Respond(temp));
        RespondIs(c, channel, temp);
      }
      convs := WithConv(convs, channel, cur => Resolve(cur, temp, msg));
    }

    method FailSend(channel: ChannelId, temp: nat)
      modifies `convs
      ensures convs == WithConv(old(convs), channel, cur => MarkFailed(cur, temp))
      ensures channel !in old(convs) ==> convs == old(convs)
      ensures forall c :: old(Shows(c)) && Can(c, On(channel, Action.FailSend(temp))) ==>
        Shows(After(c, On(channel, Action.FailSend(temp))))
    {
      hide Views, Can, After, MarkFailed;
      forall c | Shows(c) && Can(c, On(channel, Action.FailSend(temp)))
        ensures channel in convs
        ensures Views(After(c, On(channel, Action.FailSend(temp))),
                  convs[channel := MarkFailed(convs[channel], temp)], user, tempCounter)
      {
        ActionFollows(c, convs, user, tempCounter, channel, Action.FailSend(temp));
        FailSendIs(c, channel, temp);
      }
      convs := WithConv(convs, channel, cur => MarkFailed(cur, temp));
    }

    /** One handler for both cases: an open channel lists the creation, a loading one buffers it. */
    method ApplyMessageCreate(channel: ChannelId, msg: Message)
      modifies `convs
      ensures convs == WithConv(old(convs), channel, cur => ApplyCreate(cur, msg, old(user)))
      ensures channel !in old(convs) ==> convs == old(convs)
      ensures forall c, k: nat :: old(Shows(c)) && Can(c, On(channel, Echo(k))) && Entry(c, channel, k) == msg ==>
        Shows(After(c, On(channel, Echo(k))))
      ensures forall c :: old(Shows(c)) && Can(c, Buffered(channel, msg)) ==> Shows(After(c, Buffered(channel, msg)))
    {
      hide Views, Can, After, ApplyCreate, Entry;
      var me := user;
      forall c, k: nat | Shows(c) && Can(c, On(channel, Echo(k))) && Entry(c, channel, k) == msg
        ensures channel in convs
        ensures Views(After(c, On(channel, Echo(k))),
                  convs[channel := ApplyCreate(convs[channel], msg, me)], me, tempCounter)
      {
        ActionFollows(c, convs, user, tempCounter, channel, Echo(k));
        EchoIs(c, convs, user, tempCounter, channel, k);
      }
      forall c | Shows(c) && Can(c, Buffered(channel, msg))
        ensures channel in convs
        ensures Views(After(c, Buffered(channel, msg)),
                  convs[channel := ApplyCreate(convs[channel], msg, me)], me, tempCounter)
      {
        BufferingFollows(c, convs, user, tempCounter, channel, msg);
      }
      convs := WithConv(convs, channel, cur => ApplyCreate(cur, msg, me));
    }
  }

  // ---- what the client's steps do to one list ----

  function LoadPage(log: seq<Message>, at: nat): seq<Message> {
    if at <= |log| then PageBelow(log, at) else []
  }

  lemma LoadPageIs(c: Client, ch: ChannelId, log: seq<Message>, at: nat, indices: seq<nat>)
    requires Can(c, LoadArrives(ch, log, at, indices))
    ensures at <= |log| && LoadPage(log, at) == PageBelow(log, at)
  {
  }

  function Asking(cur: Conv): Conv {
    if OlderAnchor(cur).Some? then cur.(loadingOlder := true) else cur
  }

  lemma AnchorIs(cur: Conv)
    ensures OlderAnchor(cur) ==
      if cur.loaded && cur.hasMore && !cur.loadingOlder && FirstPosted(cur.items).Some?
      then Some(FirstPosted(cur.items).value.id) else None
  {
  }

  lemma AskingIs(c: Client, ch: ChannelId)
    requires Can(c, On(ch, AskOlder))
    ensures Next(c.channels[ch], AskOlder).conv == Asking(c.channels[ch].conv)
  {
  }

  function PageOnItsWay(c: Client, ch: ChannelId): seq<Message> {
    if ch in c.channels && c.channels[ch].fetch.Read? then c.channels[ch].fetch.page else []
  }

  lemma PageArrivesIs(c: Client, ch: ChannelId)
    requires Can(c, On(ch, PageArrives))
    ensures Next(c.channels[ch], PageArrives).conv == PrependOlder(c.channels[ch].conv, PageOnItsWay(c, ch))
  {
  }

  lemma PageFailsIs(c: Client, ch: ChannelId)
    requires Can(c, On(ch, PageFails))
    ensures Next(c.channels[ch], PageFails).conv == c.channels[ch].conv.(loadingOlder := false)
  {
  }

  /** Where the next page of an open channel begins: below the oldest message fetched, if there may be more and no page
      is on its way. */
  function NextAnchor(c: Client, ch: ChannelId): Option<Id> {
    if ch !in c.channels then None
    else
      var w := c.channels[ch];
      if w.conv.hasMore && w.fetch.Idle? && w.low < |w.log| then Some(w.log[w.low].id) else None
  }

  lemma NextAnchorIs(c: Client, convs: map<ChannelId, Conv>, user: Option<UserId>, counter: nat, ch: ChannelId)
    requires Views(c, convs, user, counter) && AllInInv(c)
    ensures NextAnchor(c, ch) == if ch in convs then OlderAnchor(convs[ch]) else None
  {
    ConvsOf(c, ch);
    if ch in c.channels {
      PagedHistoryIsContiguous(c.channels[ch]);
    } else if ch in c.loading {
      BufferHolds(c.loading[ch], Some(c.me));
    }
    hide Buffer, Convs;
  }

  predicate IsOpen(c: Client, ch: ChannelId) { ch in c.channels }

  /** The store's next temporary id is free on every channel. */
  lemma NextTempIsFree(
      c: Client, convs: map<ChannelId, Conv>, user: Option<UserId>, counter: nat, ch: ChannelId, content: string)
    requires Views(c, convs, user, counter) && IsOpen(c, ch)
    ensures Can(c, On(ch, StartSend(counter + 1, content)))
  {
  }

  lemma StartSendIs(c: Client, ch: ChannelId, temp: nat, content: string)
    requires Can(c, On(ch, StartSend(temp, content)))
    ensures Next(c.channels[ch], StartSend(temp, content)).conv == AddOptimistic(c.channels[ch].conv, temp, content)
  {
  }

  const NOTHING := Message(Id(0, 0), 0, "")

  function AnswerTo(c: Client, ch: ChannelId, temp: nat): Message {
    if ch in c.channels && temp in c.channels[ch].sends && c.channels[ch].sends[temp].Stored?
    then c.channels[ch].sends[temp].msg else NOTHING
  }

  lemma RespondIs(c: Client, ch: ChannelId, temp: nat)
    requires Can(c, On(ch, Respond(temp)))
    ensures Next(c.channels[ch], Respond(temp)).conv == Resolve(c.channels[ch].conv, temp, AnswerTo(c, ch, temp))
  {
  }

  lemma FailSendIs(c: Client, ch: ChannelId, temp: nat)
    requires Can(c, On(ch, Action.FailSend(temp)))
    ensures Next(c.channels[ch], Action.FailSend(temp)).conv == MarkFailed(c.channels[ch].conv, temp)
  {
  }

  function Entry(c: Client, ch: ChannelId, k: nat): Message {
    if ch in c.channels && k < |c.channels[ch].log| then c.channels[ch].log[k] else NOTHING
  }

  lemma EchoIs(c: Client, convs: map<ChannelId, Conv>, user: Option<UserId>, counter: nat, ch: ChannelId, k: nat)
    requires Views(c, convs, user, counter) && Can(c, On(ch, Echo(k)))
    ensures Next(c.channels[ch], Echo(k)).conv == ApplyCreate(c.channels[ch].conv, Entry(c, ch, k), user)
  {
  }
}
