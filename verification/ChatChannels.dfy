/** All channels of one web client together (web/src/store/chatStore.js): loads, sends, answers, deliveries and paging
    of different channels interleave, and one counter numbers all stand-ins. */
module ChatChannels {
  import opened Wrappers
  import opened TimeUuids
  import opened MessageLog
  import opened ChatConversation
  import opened ChatRun
  import opened ChannelPaging

  /** `loading` holds, for each channel whose first page is on its way, the creations delivered since. */
  datatype Client = Client(
    me: UserId, counter: nat, loading: map<ChannelId, seq<Message>>, channels: map<ChannelId, World>)

  /** The history a page is read from, and which deliveries came during the load, are the environment's choice. */
  datatype Event =
    | BeginLoad(channel: ChannelId)
    | Buffered(channel: ChannelId, msg: Message)
    | LoadArrives(channel: ChannelId, log: seq<Message>, at: nat, indices: seq<nat>)
    | LoadFails(channel: ChannelId)
    | SendNowhere(channel: ChannelId)
    | On(channel: ChannelId, action: Action)

  /** A new stand-in gets the next number. */
  ghost predicate Can(c: Client, e: Event) {
    match e
    case BeginLoad(ch) => ch !in c.loading && ch !in c.channels
    case Buffered(ch, _) => ch in c.loading
    case LoadArrives(ch, log, at, indices) =>
      && ch in c.loading && Ascending(log) && at <= |log| && (forall k <- indices :: k < |log|)
      && c.loading[ch] == Pick(log, indices)
    case LoadFails(ch) => ch in c.loading
    case SendNowhere(ch) => ch !in c.loading && ch !in c.channels
    case On(ch, a) => ch in c.channels && Enabled(c.channels[ch], a) && (a.StartSend? ==> a.temp == c.counter + 1)
  }

  function After(c: Client, e: Event): Client
    requires Can(c, e)
  {
    match e
    case BeginLoad(ch) => c.(loading := c.loading[ch := []])
    case Buffered(ch, msg) => c.(loading := c.loading[ch := c.loading[ch] + [msg]])
    case LoadArrives(ch, log, at, indices) =>
      c.(loading := c.loading - {ch}, channels := c.channels[ch := Loaded(c.me, log, at, indices)])
    case LoadFails(ch) => c.(loading := c.loading - {ch})
    case SendNowhere(_) => c.(counter := c.counter + 1)
    case On(ch, a) =>
      c.(channels := c.channels[ch := Next(c.channels[ch], a)],
         counter := if a.StartSend? then a.temp else c.counter)
  }

  /** What the store holds: `messagesByChannel`. */
  function Convs(c: Client): map<ChannelId, Conv> {
    (map ch <- c.loading :: Buffer(c.loading[ch], Some(c.me))) + (map ch <- c.channels :: c.channels[ch].conv)
  }

  ghost predicate HistoryFrom(c: Client, events: seq<Event>)
    decreases |events|
  {
    events != [] ==> Can(c, events[0]) && HistoryFrom(After(c, events[0]), events[1..])
  }

  function Follow(c: Client, events: seq<Event>): Client
    requires HistoryFrom(c, events)
    decreases |events|
  {
    if events == [] then c else Follow(After(c, events[0]), events[1..])
  }

  /** What happened on one open channel. */
  function Own(events: seq<Event>, ch: ChannelId): seq<Action>
    decreases |events|
  {
    if events == [] then []
    else (if events[0].On? && events[0].channel == ch then [events[0].action] else []) + Own(events[1..], ch)
  }

  // ---- the invariant ----

  /** A channel is loading or open, and an open one is loaded; all belong to the reader, and every stand-in number was
      handed out once, to one channel. */
  ghost predicate Numbered(c: Client) {
    && (forall ch <- c.loading :: ch !in c.channels)
    && (forall ch <- c.channels :: c.channels[ch].me == c.me && c.channels[ch].conv.loaded)
    && (forall ch <- c.channels, t <- c.channels[ch].sends :: t <= c.counter)
    && (forall ch, other :: ch in c.channels && other in c.channels && ch != other ==>
          c.channels[ch].sends.Keys !! c.channels[other].sends.Keys)
  }

  lemma SendsGrow(w: World, a: Action)
    requires Enabled(w, a)
    ensures Next(w, a).me == w.me && Next(w, a).conv.loaded == w.conv.loaded
    ensures Next(w, a).sends.Keys == w.sends.Keys + if a.StartSend? then {a.temp} else {}
  {
  }

  lemma ActionKeepsNumbered(c: Client, ch: ChannelId, a: Action)
    requires Numbered(c) && Can(c, On(ch, a))
    ensures Numbered(After(c, On(ch, a)))
  {
    SendsGrow(c.channels[ch], a);
    hide Next, Enabled;
    var d := After(c, On(ch, a));
    forall x, y | x in d.channels && y in d.channels && x != y
      ensures d.channels[x].sends.Keys !! d.channels[y].sends.Keys
    {
      assert c.channels[x].sends.Keys !! c.channels[y].sends.Keys;
    }
  }

  lemma StepKeepsNumbered(c: Client, e: Event)
    requires Numbered(c) && Can(c, e)
    ensures Numbered(After(c, e))
  {
    if e.On? {
      ActionKeepsNumbered(c, e.channel, e.action);
    } else {
      hide Next, Enabled, Pick, Ascending, FinishLoad, PageBelow, Buffer;
    }
  }

  ghost predicate AllInInv(c: Client) {
    forall ch <- c.channels :: Inv(c.channels[ch])
  }

  /** Nothing delivered during the load is older than the page. */
  ghost predicate IsClean(e: Event) {
    e.LoadArrives? ==> forall k <- e.indices :: Max(0, e.at - PAGE_SIZE) <= k
  }

  lemma StepKeepsAllInInv(c: Client, e: Event)
    requires AllInInv(c) && Can(c, e) && IsClean(e)
    ensures AllInInv(After(c, e))
  {
    if e.On? {
      StepKeepsInv(c.channels[e.channel], e.action);
    } else if e.LoadArrives? {
      LoadedInInv(c.me, e.log, e.at, e.indices);
    }
  }

  // ---- over whole histories ----

  lemma {:induction false} HistoryKeepsNumbered(c: Client, events: seq<Event>)
    requires Numbered(c) && HistoryFrom(c, events)
    ensures Numbered(Follow(c, events))
    decreases |events|
  {
    if events != [] {
      StepKeepsNumbered(c, events[0]);
      HistoryKeepsNumbered(After(c, events[0]), events[1..]);
    }
  }

  /** An open channel sees only its own events: whatever happens on the others, its list is the one that its own
      actions make of it, as a run of the one-channel machine. */
  lemma {:induction false} ChannelsAreIndependent(c: Client, events: seq<Event>, ch: ChannelId)
    requires Numbered(c) && HistoryFrom(c, events) && ch in c.channels
    ensures ch in Follow(c, events).channels
    ensures RunFrom(c.channels[ch], Own(events, ch))
    ensures Follow(c, events).channels[ch] == Run(c.channels[ch], Own(events, ch))
    decreases |events|
  {
    if events != [] {
      var e, d := events[0], After(c, events[0]);
      StepKeepsNumbered(c, e);
      ChannelsAreIndependent(d, events[1..], ch);
      if e.On? && e.channel == ch {
        var rest := Own(events[1..], ch);
        assert Own(events, ch) == [e.action] + rest;
        assert ([e.action] + rest)[1..] == rest;
        Unroll(c.channels[ch], [e.action] + rest);
      } else {
        assert Own(events, ch) == Own(events[1..], ch);
        assert d.channels[ch] == c.channels[ch];
      }
    }
  }

  function NewTab(me: UserId): Client { Client(me, 0, map[], map[]) }

  /** Over every history of a client no two sends, on whatever channels, ever share a temporary id. */
  lemma TempIdsAreUnique(me: UserId, events: seq<Event>, ch: ChannelId, other: ChannelId)
    requires HistoryFrom(NewTab(me), events) && ch != other
    requires ch in Follow(NewTab(me), events).channels && other in Follow(NewTab(me), events).channels
    ensures var c := Follow(NewTab(me), events);
      && c.channels[ch].sends.Keys !! c.channels[other].sends.Keys
      && (forall t <- c.channels[ch].sends :: t <= c.counter)
  {
    HistoryKeepsNumbered(NewTab(me), events);
  }

  lemma {:induction false} HistoryKeepsAllInInv(c: Client, events: seq<Event>)
    requires AllInInv(c) && HistoryFrom(c, events) && forall e <- events :: IsClean(e)
    ensures AllInInv(Follow(c, events))
    decreases |events|
  {
    if events != [] {
      assert events[0] in events && forall e <- events[1..] :: e in events;
      StepKeepsAllInInv(c, events[0]);
      HistoryKeepsAllInInv(After(c, events[0]), events[1..]);
    }
  }

  /** From a new tab, with loads and traffic of any number of channels interleaved: if every load was clean, every
      open channel keeps the guarantees of a single one. */
  lemma EveryChannelIsSound(me: UserId, events: seq<Event>, ch: ChannelId)
    requires HistoryFrom(NewTab(me), events) && (forall e <- events :: IsClean(e))
    requires ch in Follow(NewTab(me), events).channels
    ensures Sound(Follow(NewTab(me), events).channels[ch])
  {
    HistoryKeepsAllInInv(NewTab(me), events);
    InvIsSound(Follow(NewTab(me), events).channels[ch]);
  }

  // ---- what the store shows ----

  /** The store's fields are those of client `c`. */
  ghost predicate Views(c: Client, convs: map<ChannelId, Conv>, user: Option<UserId>, counter: nat) {
    Numbered(c) && convs == Convs(c) && user == Some(c.me) && counter == c.counter
  }

  lemma ConvsOf(c: Client, ch: ChannelId)
    requires Numbered(c)
    ensures ch in Convs(c) <==> ch in c.loading || ch in c.channels
    ensures ch in c.channels ==> Convs(c)[ch] == c.channels[ch].conv
    ensures ch in c.loading ==> Convs(c)[ch] == Buffer(c.loading[ch], Some(c.me))
  {
    hide Buffer;
  }

  /** A client that differs in one channel's entry. */
  lemma OneEntryChanges(c: Client, d: Client, ch: ChannelId, conv: Conv)
    requires Numbered(c) && Numbered(d) && d.me == c.me
    requires forall other :: other != ch ==>
      && (other in d.loading <==> other in c.loading) && (other in c.loading ==> d.loading[other] == c.loading[other])
      && (other in d.channels <==> other in c.channels)
      && (other in c.channels ==> d.channels[other] == c.channels[other])
    requires ch in Convs(d) && Convs(d)[ch] == conv
    ensures Convs(d) == Convs(c)[ch := conv]
  {
    hide Numbered, Convs;
    forall other ensures other in Convs(d) <==> other == ch || other in Convs(c) {
      ConvsOf(c, other);
      ConvsOf(d, other);
    }
    forall other | other in Convs(d) ensures Convs(d)[other] == if other == ch then conv else Convs(c)[other] {
      ConvsOf(c, other);
      ConvsOf(d, other);
    }
  }

  lemma OneEntryGoes(c: Client, d: Client, ch: ChannelId)
    requires Numbered(c) && Numbered(d) && d.me == c.me && d.loading == c.loading - {ch} && d.channels == c.channels
    requires ch !in c.channels
    ensures Convs(d) == Convs(c) - {ch}
  {
    hide Numbered, Convs;
    forall other ensures other in Convs(d) <==> other != ch && other in Convs(c) {
      ConvsOf(c, other);
      ConvsOf(d, other);
    }
    forall other | other in Convs(d) ensures Convs(d)[other] == Convs(c)[other] {
      ConvsOf(c, other);
      ConvsOf(d, other);
    }
  }

  /** An action on an open channel changes that channel's entry of the store and no other. */
  lemma ActionFollows(c: Client, convs: map<ChannelId, Conv>, user: Option<UserId>, counter: nat, ch: ChannelId,
      a: Action)
    requires Views(c, convs, user, counter) && Can(c, On(ch, a))
    ensures ch in convs && convs[ch] == c.channels[ch].conv
    ensures Views(After(c, On(ch, a)), convs[ch := Next(c.channels[ch], a).conv], user,
              if a.StartSend? then a.temp else counter)
  {
    var d := After(c, On(ch, a));
    StepKeepsNumbered(c, On(ch, a));
    ConvsOf(c, ch);
    ConvsOf(d, ch);
    hide Next, Enabled, Convs, Numbered;
    OneEntryChanges(c, d, ch, d.channels[ch].conv);
  }

  /** A channel may start to load exactly when the store neither has it nor is loading it. */
  lemma MayLoadIff(c: Client, convs: map<ChannelId, Conv>, user: Option<UserId>, counter: nat, ch: ChannelId)
    requires Views(c, convs, user, counter)
    ensures Can(c, BeginLoad(ch)) <==> ch !in convs || !(convs[ch].loaded || convs[ch].loadingInitial)
  {
    ConvsOf(c, ch);
    if ch in c.loading { BufferHolds(c.loading[ch], Some(c.me)); }
    hide Buffer, Convs;
  }

  lemma BeginLoadFollows(c: Client, convs: map<ChannelId, Conv>, user: Option<UserId>, counter: nat, ch: ChannelId)
    requires Views(c, convs, user, counter) && Can(c, BeginLoad(ch))
    ensures ch !in convs && Views(After(c, BeginLoad(ch)), convs[ch := LOADING], user, counter)
  {
    var d := After(c, BeginLoad(ch));
    StepKeepsNumbered(c, BeginLoad(ch));
    ConvsOf(c, ch);
    ConvsOf(d, ch);
    assert Buffer([], Some(c.me)) == LOADING;
    hide Convs, Numbered, Buffer;
    OneEntryChanges(c, d, ch, LOADING);
  }

  lemma LoadFailsFollows(c: Client, convs: map<ChannelId, Conv>, user: Option<UserId>, counter: nat, ch: ChannelId)
    requires Views(c, convs, user, counter) && Can(c, LoadFails(ch))
    ensures Views(After(c, LoadFails(ch)), convs - {ch}, user, counter)
  {
    assert ch !in c.channels;
    var d := After(c, LoadFails(ch));
    StepKeepsNumbered(c, LoadFails(ch));
    hide Convs, Numbered;
    OneEntryGoes(c, d, ch);
  }

  lemma SendNowhereFollows(c: Client, convs: map<ChannelId, Conv>, user: Option<UserId>, counter: nat, ch: ChannelId)
    requires Views(c, convs, user, counter) && Can(c, SendNowhere(ch))
    ensures ch !in convs && Views(After(c, SendNowhere(ch)), convs, user, counter + 1)
  {
    StepKeepsNumbered(c, SendNowhere(ch));
    ConvsOf(c, ch);
  }

  lemma BufferingFollows(
      c: Client, convs: map<ChannelId, Conv>, user: Option<UserId>, counter: nat, ch: ChannelId, msg: Message)
    requires Views(c, convs, user, counter) && Can(c, Buffered(ch, msg))
    ensures ch in convs
    ensures Views(After(c, Buffered(ch, msg)), convs[ch := ApplyCreate(convs[ch], msg, user)], user, counter)
  {
    var d := After(c, Buffered(ch, msg));
    StepKeepsNumbered(c, Buffered(ch, msg));
    ConvsOf(c, ch);
    ConvsOf(d, ch);
    BufferSnoc(c.loading[ch], msg, user);
    hide Convs, Numbered, Buffer, ApplyCreate;
    OneEntryChanges(c, d, ch, ApplyCreate(convs[ch], msg, user));
  }

  lemma BufferSnoc(events: seq<Message>, msg: Message, me: Option<UserId>)
    ensures Buffer(events + [msg], me) == ApplyCreate(Buffer(events, me), msg, me)
  {
    assert (events + [msg])[..|events|] == events;
    hide ApplyCreate;
  }

  lemma LoadFollows(
      c: Client, convs: map<ChannelId, Conv>, user: Option<UserId>, counter: nat,
      ch: ChannelId, log: seq<Message>, at: nat, indices: seq<nat>)
    requires Views(c, convs, user, counter) && Can(c, LoadArrives(ch, log, at, indices))
    ensures ch in convs
    ensures Views(After(c, LoadArrives(ch, log, at, indices)),
              convs[ch := FinishLoad(convs[ch], PageBelow(log, at))], user, counter)
  {
    var d := After(c, LoadArrives(ch, log, at, indices));
    StepKeepsNumbered(c, LoadArrives(ch, log, at, indices));
    ConvsOf(c, ch);
    ConvsOf(d, ch);
    hide Convs, Numbered, Buffer, FinishLoad, PageBelow, Pick;
    OneEntryChanges(c, d, ch, FinishLoad(convs[ch], PageBelow(log, at)));
  }
}
