/** Who receives a guild's events (backend/internal/store/guilds.go, httpapi/guild_handlers.go, ws/hub.go,
    ws/session.go):
    membership writes that can stop half-way, publishes that can be lost, identifies that race both, one dispatcher. */
module GuildRouting {
  import opened Wrappers

  type GuildId = nat
  type UserId = nat
  type SessionId = nat
  type CallId = nat

  // ---- the membership tables ----

  /** `guild_members` and `user_guilds`, the two directions of one relation. */
  class Guilds {
    var guildMembers: map<(GuildId, UserId), int>
    var userGuilds: map<(UserId, GuildId), int>

    /** The two writes are separate: when the second fails the first stays. */
    method AddMember(guild: GuildId, user: UserId, at: int, membersUp: bool, guildsUp: bool)
      returns (r: Result<(), StoreError>)
      modifies this
      ensures r.Success? <==> membersUp && guildsUp
      ensures guildMembers == if membersUp then old(guildMembers)[(guild, user) := at] else old(guildMembers)
      ensures userGuilds == if r.Success? then old(userGuilds)[(user, guild) := at] else old(userGuilds)
    {
      if !membersUp {
        return Failure(Unavailable);
      }
      guildMembers := guildMembers[(guild, user) := at];
      if !guildsUp {
        return Failure(Unavailable);
      }
      userGuilds := userGuilds[(user, guild) := at];
      r := Success(());
    }

    method IsMember(guild: GuildId, user: UserId) returns (r: bool)
      ensures r <==> (guild, user) in guildMembers
    {
      r := (guild, user) in guildMembers;
    }

    /** A join by invite after its lookups: whoever is found a member is answered at once, and nothing is written, so a
        membership that is stored half-way stays as it is. */
    method Join(guild: GuildId, user: UserId, at: int, membersUp: bool, guildsUp: bool)
      returns (r: Result<(), StoreError>)
      modifies this
      ensures (guild, user) in old(guildMembers) ==>
        r.Success? && guildMembers == old(guildMembers) && userGuilds == old(userGuilds)
      ensures (guild, user) !in old(guildMembers) ==>
        && (r.Success? <==> membersUp && guildsUp)
        && (r.Success? ==> (guild, user) in guildMembers && (user, guild) in userGuilds)
        && (r.Failure? ==> userGuilds == old(userGuilds))
        && guildMembers.Keys == old(guildMembers).Keys + if membersUp then {(guild, user)} else {}
    {
      var already := IsMember(guild, user);
      if already {
        return Success(());
      }
      r := AddMember(guild, user, at, membersUp, guildsUp);
    }

    /** The scan appends each row's guild: every guild of the user, once. */
    method UserGuildIDs(user: UserId) returns (ids: seq<GuildId>)
      ensures forall g :: g in ids <==> (user, g) in userGuilds
      ensures forall i, j :: 0 <= i < j < |ids| ==> ids[i] != ids[j]
    {
      var rows := set row <- userGuilds | row.0 == user;
      ids := [];
      while rows != {}
        invariant forall row <- rows :: row in userGuilds && row.0 == user && row.1 !in ids
        invariant forall g :: g in ids || (user, g) in rows <==> (user, g) in userGuilds
        invariant forall i, j :: 0 <= i < j < |ids| ==> ids[i] != ids[j]
        decreases rows
      {
        var row :| row in rows;
        assert row == (user, row.1);
        ids, rows := ids + [row.1], rows - {row};
      }
    }
  }

  // ---- the system ----

  /** What travels on the bus; every user-directed event is a GUILD_CREATE. */
  datatype Event = GuildEvent(guild: GuildId, body: nat) | GuildCreate(user: UserId, guild: GuildId)

  /** Where a create or join request stands. */
  datatype Stage = AtGuildMembers | AtUserGuilds | AtPrepare | AtMemberAdd | AtGuildCreate

  datatype Call = Call(user: UserId, guild: GuildId, creating: bool, stage: Stage)

  datatype GuildsRead = GuildsRead(user: UserId, ids: set<GuildId>)

  /** `read` is an identify between its query and its commit; `ready` is what READY listed; `offered` are the frames
      the dispatcher handed to the session, in order. */
  datatype Session = Session(
    registered: bool, read: Option<GuildsRead>, user: Option<UserId>, ready: set<GuildId>, guilds: set<GuildId>,
    offered: seq<Event>)

  /** The dispatcher goroutine: idle, scanning the registry under its lock, or sending to the sessions it chose. */
  datatype Dispatch =
    | Idle
    | Scanning(event: Event, left: set<SessionId>, targets: set<SessionId>)
    | Sending(event: Event, targets: set<SessionId>)

  datatype System = System(
    guilds: set<GuildId>, members: set<(GuildId, UserId)>, userGuilds: set<(UserId, GuildId)>, calls: map<CallId, Call>,
    bus: seq<Event>, dispatched: seq<Event>, dispatch: Dispatch, sessions: map<SessionId, Session>)

  const EMPTY := System({}, {}, {}, map[], [], [], Idle, map[])

  datatype Action =
    | BeginCreate(call: CallId, user: UserId, guild: GuildId)
    | BeginJoin(call: CallId, user: UserId, guild: GuildId)
    | WriteGuildMembers(call: CallId, ok: bool)
    | WriteUserGuilds(call: CallId, ok: bool)
    | Prepare(call: CallId, ok: bool)
    | PublishMemberAdd(call: CallId, body: nat, ok: bool)
    | PublishGuildCreate(call: CallId, ok: bool)
    | Publish(guild: GuildId, body: nat)
    | Lose(index: nat)
    | Accept(id: SessionId)
    | Unregister(id: SessionId)
    | ReadGuilds(id: SessionId, user: UserId)
    | Identify(id: SessionId)
    | BeginScan
    | Scan(id: SessionId)
    | EndScan
    | Deliver(id: SessionId)
    | EndSend

  predicate CallAt(w: System, call: CallId, stage: Stage) {
    call in w.calls && w.calls[call].stage == stage
  }

  predicate Unidentified(w: System, id: SessionId) {
    id in w.sessions && w.sessions[id].registered && w.sessions[id].user.None?
  }

  /** A guild's id is random, so a new one is unused. The registry does not change under a scan. */
  predicate Enabled(w: System, a: Action) {
    match a
    case BeginCreate(c, _, g) => c !in w.calls && g !in w.guilds
    case BeginJoin(c, _, g) => c !in w.calls && g in w.guilds
    case WriteGuildMembers(c, _) => CallAt(w, c, AtGuildMembers)
    case WriteUserGuilds(c, _) => CallAt(w, c, AtUserGuilds)
    case Prepare(c, _) => CallAt(w, c, AtPrepare)
    case PublishMemberAdd(c, _, _) => CallAt(w, c, AtMemberAdd)
    case PublishGuildCreate(c, _) => CallAt(w, c, AtGuildCreate)
    case Publish(_, _) => true
    case Lose(i) => i < |w.bus|
    case Accept(id) => id !in w.sessions && !w.dispatch.Scanning?
    case Unregister(id) => id in w.sessions && w.sessions[id].registered && !w.dispatch.Scanning?
    case ReadGuilds(id, _) => Unidentified(w, id) && w.sessions[id].read.None?
    case Identify(id) => Unidentified(w, id) && w.sessions[id].read.Some?
    case BeginScan => w.dispatch.Idle? && w.bus != []
    case Scan(id) => w.dispatch.Scanning? && id in w.dispatch.left && id in w.sessions
    case EndScan => w.dispatch.Scanning? && w.dispatch.left == {}
    case Deliver(id) => w.dispatch.Sending? && id in w.dispatch.targets && id in w.sessions
    case EndSend => w.dispatch.Sending? && w.dispatch.targets == {}
  }

  function GuildIdsOf(w: System, user: UserId): set<GuildId> {
    set row <- w.userGuilds | row.0 == user :: row.1
  }

  function RegisteredIds(w: System): set<SessionId> {
    set id <- w.sessions | w.sessions[id].registered
  }

  /** `inGuild` for a guild's event, the user id for a user's. */
  predicate Matches(s: Session, e: Event) {
    match e
    case GuildEvent(g, _) => s.user.Some? && g in s.guilds
    case GuildCreate(u, _) => s.user == Some(u)
  }

  /** One turn of the sending loop. */
  function Offered(s: Session, e: Event): Session {
    var t := if e.GuildCreate? && s.user.Some? then s.(guilds := s.guilds + {e.guild}) else s;
    t.(offered := t.offered + [e])
  }

  function AfterStage(c: Call): Stage {
    match c.stage
    case AtGuildMembers => AtUserGuilds
    case AtUserGuilds => AtPrepare
    case AtPrepare => if c.creating then AtGuildCreate else AtMemberAdd
    case AtMemberAdd => AtGuildCreate
    case AtGuildCreate => AtGuildCreate
  }

  /** A failed statement ends the request. */
  function Advance(w: System, call: CallId, ok: bool): System
    requires call in w.calls
  {
    if ok then w.(calls := w.calls[call := w.calls[call].(stage := AfterStage(w.calls[call]))])
    else w.(calls := w.calls - {call})
  }

  function Post(w: System, e: Event, ok: bool): System {
    if ok then w.(bus := w.bus + [e]) else w
  }

  function Put(w: System, id: SessionId, s: Session): System {
    w.(sessions := w.sessions[id := s])
  }

  function Next(w: System, a: Action): System
    requires Enabled(w, a)
  {
    match a
    case BeginCreate(c, u, g) => w.(guilds := w.guilds + {g}, calls := w.calls[c := Call(u, g, true, AtGuildMembers)])
    case BeginJoin(c, u, g) =>
      if (g, u) in w.members then w else w.(calls := w.calls[c := Call(u, g, false, AtGuildMembers)])
    case WriteGuildMembers(c, ok) =>
      var row := (w.calls[c].guild, w.calls[c].user);
      Advance(if ok then w.(members := w.members + {row}) else w, c, ok)
    case WriteUserGuilds(c, ok) =>
      var row := (w.calls[c].user, w.calls[c].guild);
      Advance(if ok then w.(userGuilds := w.userGuilds + {row}) else w, c, ok)
    case Prepare(c, ok) => Advance(w, c, ok)
    case PublishMemberAdd(c, body, ok) => Advance(Post(w, GuildEvent(w.calls[c].guild, body), ok), c, true)
    case PublishGuildCreate(c, ok) =>
      Advance(Post(w, GuildCreate(w.calls[c].user, w.calls[c].guild), ok), c, false)
    case Publish(g, body) => Post(w, GuildEvent(g, body), true)
    case Lose(i) => w.(bus := w.bus[..i] + w.bus[i + 1..])
    case Accept(id) => Put(w, id, Session(true, None, None, {}, {}, []))
    case Unregister(id) => Put(w, id, w.sessions[id].(registered := false))
    case ReadGuilds(id, u) => Put(w, id, w.sessions[id].(read := Some(GuildsRead(u, GuildIdsOf(w, u)))))
    case Identify(id) =>
      var read := w.sessions[id].read.value;
      Put(w, id, w.sessions[id].(read := None, user := Some(read.user), ready := read.ids, guilds := read.ids))
    case BeginScan =>
      w.(bus := w.bus[1..], dispatched := w.dispatched + [w.bus[0]],
         dispatch := Scanning(w.bus[0], RegisteredIds(w), {}))
    case Scan(id) =>
      var d := w.dispatch;
      var targets := if Matches(w.sessions[id], d.event) then d.targets + {id} else d.targets;
      w.(dispatch := Scanning(d.event, d.left - {id}, targets))
    case EndScan => w.(dispatch := Sending(w.dispatch.event, w.dispatch.targets))
    case Deliver(id) =>
      var d := w.dispatch;
      Put(w, id, Offered(w.sessions[id], d.event)).(dispatch := Sending(d.event, d.targets - {id}))
    case EndSend => w.(dispatch := Idle)
  }

  // ---- the invariant ----

  ghost predicate EventStored(w: System, e: Event) {
    e.GuildCreate? ==> (e.user, e.guild) in w.userGuilds
  }

  ghost predicate CallStored(w: System, c: Call) {
    && c.guild in w.guilds
    && (!c.stage.AtGuildMembers? ==> (c.guild, c.user) in w.members)
    && (!c.stage.AtGuildMembers? && !c.stage.AtUserGuilds? ==> (c.user, c.guild) in w.userGuilds)
  }

  ghost predicate RowsOk(w: System) {
    && (forall row <- w.userGuilds :: (row.1, row.0) in w.members)
    && (forall row <- w.members :: row.0 in w.guilds)
    && (forall c <- w.calls :: CallStored(w, w.calls[c]))
  }

  ghost predicate EventsOk(w: System) {
    && (forall e <- w.bus :: EventStored(w, e))
    && (!w.dispatch.Idle? ==> EventStored(w, w.dispatch.event))
  }

  /** What a session was offered and what it may receive agree with the stored memberships. */
  ghost predicate SessionOk(w: System, s: Session) {
    && (s.read.Some? ==> forall g <- s.read.value.ids :: (s.read.value.user, g) in w.userGuilds)
    && (s.user.None? ==> s.guilds == {} && s.ready == {} && s.offered == [])
    && (s.user.Some? ==> forall g <- s.guilds :: (s.user.value, g) in w.userGuilds)
    && (forall e <- s.offered :: Matches(s, e) && e.guild in s.guilds)
    && s.ready <= s.guilds
    && (s.user.Some? ==> forall g <- s.guilds :: g in s.ready || GuildCreate(s.user.value, g) in s.offered)
  }

  ghost predicate DispatchOk(w: System) {
    && (w.dispatch.Scanning? ==> forall id <- w.dispatch.left :: id in w.sessions && w.sessions[id].registered)
    && (!w.dispatch.Idle? ==>
      forall id <- w.dispatch.targets :: id in w.sessions && Matches(w.sessions[id], w.dispatch.event))
    && (w.dispatch.Scanning? ==> w.dispatch.left !! w.dispatch.targets)
    && (!w.dispatch.Idle? ==> w.dispatched != [] && w.dispatched[|w.dispatched| - 1] == w.dispatch.event)
  }

  ghost predicate Inv(w: System) {
    && RowsOk(w)
    && EventsOk(w)
    && (forall id <- w.sessions :: SessionOk(w, w.sessions[id]))
    && DispatchOk(w)
  }

  lemma StepOnlyAddsRows(w: System, a: Action)
    requires Enabled(w, a)
    ensures w.guilds <= Next(w, a).guilds
    ensures w.members <= Next(w, a).members && w.userGuilds <= Next(w, a).userGuilds
  {
  }

  lemma StepKeepsRows(w: System, a: Action)
    requires RowsOk(w) && Enabled(w, a)
    ensures RowsOk(Next(w, a))
  {
  }

  lemma StepKeepsEvents(w: System, a: Action)
    requires RowsOk(w) && EventsOk(w) && Enabled(w, a)
    ensures EventsOk(Next(w, a))
  {
    var v := Next(w, a);
    StepOnlyAddsRows(w, a);
    if a.BeginScan? { assert w.bus[0] in w.bus; }
    forall e <- v.bus ensures EventStored(v, e) {
      assert e in w.bus || a.PublishMemberAdd? || a.PublishGuildCreate? || a.Publish?;
    }
  }

  lemma SessionOkGrows(w: System, v: System, s: Session)
    requires SessionOk(w, s) && w.userGuilds <= v.userGuilds
    ensures SessionOk(v, s)
  {
  }

  lemma OfferKeepsSession(w: System, s: Session, e: Event)
    requires SessionOk(w, s) && EventStored(w, e) && Matches(s, e)
    ensures SessionOk(w, Offered(s, e))
  {
    var t := Offered(s, e);
    assert t.offered == s.offered + [e];
    assert forall f <- s.offered :: f in t.offered;
    assert e in t.offered;
  }

  lemma StepKeepsSession(w: System, a: Action, id: SessionId)
    requires Inv(w) && Enabled(w, a) && id in Next(w, a).sessions
    ensures SessionOk(Next(w, a), Next(w, a).sessions[id])
  {
    var v := Next(w, a);
    StepOnlyAddsRows(w, a);
    if id in w.sessions && v.sessions[id] == w.sessions[id] {
      SessionOkGrows(w, v, w.sessions[id]);
    } else if a.Deliver? {
      OfferKeepsSession(w, w.sessions[id], w.dispatch.event);
      SessionOkGrows(w, v, v.sessions[id]);
    } else {
      hide RowsOk, EventsOk, DispatchOk;
      assert a.Accept? || a.Unregister? || a.ReadGuilds? || a.Identify?;
      assert id in w.sessions ==> SessionOk(w, w.sessions[id]);
    }
  }

  lemma StepKeepsDispatch(w: System, a: Action)
    requires DispatchOk(w) && Enabled(w, a)
    ensures DispatchOk(Next(w, a))
  {
  }

  lemma StepKeepsInv(w: System, a: Action)
    requires Inv(w) && Enabled(w, a)
    ensures Inv(Next(w, a))
  {
    hide Enabled, Next, RowsOk, EventsOk, SessionOk, DispatchOk;
    StepKeepsRows(w, a);
    StepKeepsEvents(w, a);
    StepKeepsDispatch(w, a);
    forall id <- Next(w, a).sessions ensures SessionOk(Next(w, a), Next(w, a).sessions[id]) {
      StepKeepsSession(w, a, id);
    }
  }

  ghost predicate RunFrom(w: System, actions: seq<Action>)
    decreases |actions|
  {
    actions != [] ==> Enabled(w, actions[0]) && RunFrom(Next(w, actions[0]), actions[1..])
  }

  function Run(w: System, actions: seq<Action>): System
    requires RunFrom(w, actions)
    decreases |actions|
  {
    if actions == [] then w else Run(Next(w, actions[0]), actions[1..])
  }

  lemma {:induction false} RunKeepsInv(w: System, actions: seq<Action>)
    requires Inv(w) && RunFrom(w, actions)
    ensures Inv(Run(w, actions))
    decreases |actions|
  {
    if actions != [] {
      StepKeepsInv(w, actions[0]);
      RunKeepsInv(Next(w, actions[0]), actions[1..]);
    }
  }

  // ---- safety ----

  /** Over every run, with any write or publish failing and any event lost: `user_guilds` is within `guild_members`,
      a GUILD_CREATE in flight means a stored membership, and a frame of a guild has only ever been offered to
      sessions of its members. */
  lemma RoutingIsSafe(actions: seq<Action>)
    requires RunFrom(EMPTY, actions)
    ensures var w := Run(EMPTY, actions);
      && (forall row <- w.userGuilds :: (row.1, row.0) in w.members)
      && (forall e <- w.bus :: e.GuildCreate? ==> (e.user, e.guild) in w.userGuilds && (e.guild, e.user) in w.members)
      && (forall id <- w.sessions, e <- w.sessions[id].offered ::
        w.sessions[id].user.Some? && (e.guild, w.sessions[id].user.value) in w.members)
  {
    RunKeepsInv(EMPTY, actions);
    var w := Run(EMPTY, actions);
    forall id <- w.sessions, e <- w.sessions[id].offered
      ensures w.sessions[id].user.Some? && (e.guild, w.sessions[id].user.value) in w.members
    {
      assert SessionOk(w, w.sessions[id]);
      assert (w.sessions[id].user.value, e.guild) in w.userGuilds;
    }
  }

  /** An identified session keeps its user, its set of guilds only grows, and it never leaves the user's guilds. */
  lemma GuildSetsGrowWithinMembership(w: System, a: Action, id: SessionId)
    requires Inv(w) && Enabled(w, a) && id in w.sessions
    ensures var v := Next(w, a);
      && id in v.sessions
      && (w.sessions[id].user.Some? ==>
        v.sessions[id].user == w.sessions[id].user && w.sessions[id].guilds <= v.sessions[id].guilds)
      && (v.sessions[id].user.Some? ==> v.sessions[id].guilds <= GuildIdsOf(v, v.sessions[id].user.value))
  {
    var v := Next(w, a);
    StepKeepsSession(w, a, id);
    forall g <- v.sessions[id].guilds
      ensures v.sessions[id].user.Some? ==> g in GuildIdsOf(v, v.sessions[id].user.value)
    {
      if v.sessions[id].user.Some? {
        assert (v.sessions[id].user.value, g) in v.userGuilds;
      }
    }
  }

  /** What a session's guild set is made of: a guild is in it exactly when READY listed it or its GUILD_CREATE was
      delivered to the session. */
  lemma KnowsGuildIff(actions: seq<Action>, id: SessionId, g: GuildId)
    requires RunFrom(EMPTY, actions) && id in Run(EMPTY, actions).sessions
    requires Run(EMPTY, actions).sessions[id].user.Some?
    ensures var s := Run(EMPTY, actions).sessions[id];
      g in s.guilds <==> g in s.ready || GuildCreate(s.user.value, g) in s.offered
  {
    RunKeepsInv(EMPTY, actions);
    assert SessionOk(Run(EMPTY, actions), Run(EMPTY, actions).sessions[id]);
  }

  // ---- nothing is missed ----

  /** The guild's own events among `events`, in order. */
  function GuildFrames(events: seq<Event>, g: GuildId): seq<Event> {
    if events == [] then []
    else
      var last := events[|events| - 1];
      GuildFrames(events[..|events| - 1], g) + if last.GuildEvent? && last.guild == g then [last] else []
  }

  /** The dispatcher has yet to get to the session with the event in its hands. */
  predicate Turn(w: System, id: SessionId) {
    match w.dispatch
    case Idle => false
    case Scanning(_, left, targets) => id in left || id in targets
    case Sending(_, targets) => id in targets
  }

  /** The event in the dispatcher's hands, when it is the guild's and the session's turn is still to come. */
  function Owed(w: System, id: SessionId, g: GuildId): seq<Event> {
    if Turn(w, id) && w.dispatch.event.GuildEvent? && w.dispatch.event.guild == g then [w.dispatch.event] else []
  }

  ghost predicate Routed(w: System, id: SessionId, g: GuildId) {
    id in w.sessions && w.sessions[id].registered && g in w.sessions[id].guilds
  }

  lemma FramesOfNone(g: GuildId)
    ensures GuildFrames([], g) == []
  {
  }

  lemma FramesOfOne(events: seq<Event>, e: Event, g: GuildId)
    ensures GuildFrames(events + [e], g) == GuildFrames(events, g) + if e.GuildEvent? && e.guild == g then [e] else []
  {
    assert (events + [e])[..|events|] == events;
  }

  /** What the session has been offered of the guild's events, and what it is about to be. */
  function Due(w: System, id: SessionId, g: GuildId): seq<Event>
    requires id in w.sessions
  {
    GuildFrames(w.sessions[id].offered, g) + Owed(w, id, g)
  }

  lemma StepKeepsRoute(w: System, a: Action, id: SessionId, g: GuildId)
    requires Inv(w) && Enabled(w, a) && Routed(w, id, g) && id in Next(w, a).sessions
    requires Next(w, a).sessions[id].registered
    ensures Routed(Next(w, a), id, g)
  {
    hide RowsOk, EventsOk, DispatchOk;
    assert SessionOk(w, w.sessions[id]);
  }

  lemma TakingUpOwes(w: System, id: SessionId, g: GuildId)
    requires Enabled(w, BeginScan) && Routed(w, id, g)
    ensures var v := Next(w, BeginScan); Due(v, id, g) == Due(w, id, g) + GuildFrames([w.bus[0]], g)
  {
    FramesOfOne([], w.bus[0], g);
    assert [] + [w.bus[0]] == [w.bus[0]];
  }

  lemma DeliveringPays(w: System, id: SessionId, g: GuildId)
    requires Enabled(w, Deliver(id)) && Routed(w, id, g)
    ensures Due(Next(w, Deliver(id)), id, g) == Due(w, id, g)
  {
    FramesOfOne(w.sessions[id].offered, w.dispatch.event, g);
  }

  lemma OtherStepsOfferNothing(w: System, a: Action, id: SessionId)
    requires Enabled(w, a) && id in w.sessions && a != Deliver(id)
    ensures id in Next(w, a).sessions && Next(w, a).sessions[id].offered == w.sessions[id].offered
  {
  }

  lemma OtherStepsOweNothing(w: System, a: Action, id: SessionId, g: GuildId)
    requires Enabled(w, a) && Routed(w, id, g) && SessionOk(w, w.sessions[id])
    requires !a.BeginScan? && a != Deliver(id)
    ensures Owed(Next(w, a), id, g) == Owed(w, id, g)
  {
    if a == Scan(id) {
      assert w.dispatch.event.GuildEvent? && w.dispatch.event.guild == g ==> Matches(w.sessions[id], w.dispatch.event);
    } else {
      hide SessionOk;
    }
  }

  /** One step: what the session has received and is owed grows by exactly what the dispatcher took up. */
  lemma StepOffersWhatItTakes(w: System, a: Action, id: SessionId, g: GuildId)
    requires Inv(w) && Enabled(w, a) && Routed(w, id, g)
    ensures id in Next(w, a).sessions && w.dispatched <= Next(w, a).dispatched
    ensures Due(Next(w, a), id, g) == Due(w, id, g) + GuildFrames(Next(w, a).dispatched[|w.dispatched|..], g)
  {
    hide RowsOk, EventsOk, DispatchOk, SessionOk, GuildFrames, Owed;
    var v := Next(w, a);
    if a.BeginScan? {
      assert v.dispatched[|w.dispatched|..] == [w.bus[0]];
      TakingUpOwes(w, id, g);
    } else {
      assert v.dispatched[|w.dispatched|..] == [];
      if a == Deliver(id) {
        DeliveringPays(w, id, g);
      } else {
        OtherStepsOfferNothing(w, a, id);
        OtherStepsOweNothing(w, a, id, g);
      }
      FramesOfNone(g);
    }
  }

  lemma {:induction false} FramesConcat(a: seq<Event>, b: seq<Event>, g: GuildId)
    ensures GuildFrames(a + b, g) == GuildFrames(a, g) + GuildFrames(b, g)
    decreases |b|
  {
    if b == [] {
      assert a + b == a;
    } else {
      var front, last := b[..|b| - 1], b[|b| - 1];
      assert a + b == (a + front) + [last] && b == front + [last];
      FramesOfOne(a + front, last, g);
      FramesConcat(a, front, g);
    }
  }

  lemma StepKeepsSessions(w: System, a: Action)
    requires Enabled(w, a)
    ensures w.sessions.Keys <= Next(w, a).sessions.Keys
  {
  }

  lemma {:induction false} RegistrationOnlyEnds(w: System, actions: seq<Action>, id: SessionId)
    requires RunFrom(w, actions) && id in w.sessions
    ensures id in Run(w, actions).sessions
    ensures Run(w, actions).sessions[id].registered ==> w.sessions[id].registered
    decreases |actions|
  {
    if actions != [] {
      RegistrationOnlyEnds(Next(w, actions[0]), actions[1..], id);
    }
  }

  /** Once a session knows a guild (from READY or from a GUILD_CREATE) and as long as it stays registered, it is
      offered every event of that guild that is dispatched from then on, each once, in dispatch order. */
  lemma {:induction false} EveryLaterEventIsOffered(w: System, actions: seq<Action>, id: SessionId, g: GuildId)
    requires Inv(w) && RunFrom(w, actions) && Routed(w, id, g)
    requires id in Run(w, actions).sessions && Run(w, actions).sessions[id].registered
    ensures w.dispatched <= Run(w, actions).dispatched
    ensures Due(Run(w, actions), id, g) == Due(w, id, g) + GuildFrames(Run(w, actions).dispatched[|w.dispatched|..], g)
    decreases |actions|
  {
    hide Inv, Due, Enabled, Next, GuildFrames;
    if actions == [] {
      assert w.dispatched[|w.dispatched|..] == [];
      FramesOfNone(g);
    } else {
      var m, v := Next(w, actions[0]), Run(w, actions);
      StepKeepsSessions(w, actions[0]);
      RegistrationOnlyEnds(m, actions[1..], id);
      StepKeepsRoute(w, actions[0], id, g);
      StepOffersWhatItTakes(w, actions[0], id, g);
      StepKeepsInv(w, actions[0]);
      EveryLaterEventIsOffered(m, actions[1..], id, g);
      assert v.dispatched[|w.dispatched|..] == m.dispatched[|w.dispatched|..] + v.dispatched[|m.dispatched|..];
      FramesConcat(m.dispatched[|w.dispatched|..], v.dispatched[|m.dispatched|..], g);
    }
  }

  // ---- what is published reaches the dispatcher ----

  /** What an action puts on the bus. */
  function Emitted(w: System, a: Action): seq<Event>
    requires Enabled(w, a)
  {
    match a
    case Publish(g, body) => [GuildEvent(g, body)]
    case PublishMemberAdd(c, body, ok) => if ok then [GuildEvent(w.calls[c].guild, body)] else []
    case PublishGuildCreate(c, ok) => if ok then [GuildCreate(w.calls[c].user, w.calls[c].guild)] else []
    case _ => []
  }

  function AllEmitted(w: System, actions: seq<Action>): seq<Event>
    requires RunFrom(w, actions)
    decreases |actions|
  {
    if actions == [] then [] else Emitted(w, actions[0]) + AllEmitted(Next(w, actions[0]), actions[1..])
  }

  lemma StepKeepsPublished(w: System, a: Action)
    requires Enabled(w, a) && !a.Lose?
    ensures Next(w, a).dispatched + Next(w, a).bus == w.dispatched + w.bus + Emitted(w, a)
    ensures a.Publish? ==> Next(w, a).bus == w.bus + [GuildEvent(a.guild, a.body)]
  {
  }

  /** As long as the bus loses nothing, the dispatcher takes up every published event once, in the order of the
      publishes, and the bus holds the rest. */
  lemma {:induction false} PublishedIsDispatched(w: System, actions: seq<Action>)
    requires RunFrom(w, actions) && forall a <- actions :: !a.Lose?
    ensures Run(w, actions).dispatched + Run(w, actions).bus == w.dispatched + w.bus + AllEmitted(w, actions)
    decreases |actions|
  {
    if actions != [] {
      hide Next, Enabled, Emitted;
      StepKeepsPublished(w, actions[0]);
      assert forall a <- actions[1..] :: a in actions;
      PublishedIsDispatched(Next(w, actions[0]), actions[1..]);
    }
  }

  /** A join whose statements go well stores both rows; then its member event is due. */
  lemma JoinStores(w: System, c: CallId, u: UserId, g: GuildId)
    requires c !in w.calls && g in w.guilds && (g, u) !in w.members
    ensures var join := [BeginJoin(c, u, g), WriteGuildMembers(c, true), WriteUserGuilds(c, true), Prepare(c, true)];
      RunFrom(w, join) && Run(w, join) ==
        w.(members := w.members + {(g, u)}, userGuilds := w.userGuilds + {(u, g)},
           calls := w.calls[c := Call(u, g, false, AtMemberAdd)])
  {
    var join := [BeginJoin(c, u, g), WriteGuildMembers(c, true), WriteUserGuilds(c, true), Prepare(c, true)];
    var w1 := Next(w, join[0]);
    var w2 := Next(w1, join[1]);
    var w3 := Next(w2, join[2]);
    var w4 := Next(w3, join[3]);
    assert w4.calls == w.calls[c := Call(u, g, false, AtMemberAdd)];
    hide RunFrom, Run, Next, Enabled;
    RunOfNone(w4);
    Unroll(w3, join[3..]);
    Unroll(w2, join[2..]);
    Unroll(w1, join[1..]);
    Unroll(w, join);
  }

  /** It publishes two events: to the guild that it has a new member, then to the user that it has a new guild. A
      publish that fails stops nothing. */
  lemma JoinPublishes(w: System, c: CallId, body: nat, sent: bool, told: bool)
    requires CallAt(w, c, AtMemberAdd)
    ensures var publish := [PublishMemberAdd(c, body, sent), PublishGuildCreate(c, told)];
      RunFrom(w, publish) && Run(w, publish) ==
        w.(calls := w.calls - {c},
           bus := w.bus + (if sent then [GuildEvent(w.calls[c].guild, body)] else [])
                        + (if told then [GuildCreate(w.calls[c].user, w.calls[c].guild)] else []))
  {
    var publish := [PublishMemberAdd(c, body, sent), PublishGuildCreate(c, told)];
    var w1 := Next(w, publish[0]);
    var w2 := Next(w1, publish[1]);
    assert w2.calls == w.calls - {c};
    assert w1.bus == w.bus + if sent then [GuildEvent(w.calls[c].guild, body)] else [];
    assert w2.bus == w1.bus + if told then [GuildCreate(w.calls[c].user, w.calls[c].guild)] else [];
    hide RunFrom, Run, Next, Enabled;
    RunOfNone(w2);
    Unroll(w1, publish[1..]);
    Unroll(w, publish);
  }

  /** A statement that fails ends its request: what was written before stays, and nothing is published. */
  lemma FailureEndsRequest(w: System, a: Action)
    requires Enabled(w, a)
    requires (a.WriteGuildMembers? || a.WriteUserGuilds? || a.Prepare?) && !a.ok
    ensures Next(w, a) == w.(calls := w.calls - {a.call})
  {
  }

  /** Creating a guild stores both rows and tells only its owner. */
  lemma CreateStoresAndPublishes(w: System, c: CallId, u: UserId, g: GuildId)
    requires c !in w.calls && g !in w.guilds
    ensures var create := [BeginCreate(c, u, g), WriteGuildMembers(c, true), WriteUserGuilds(c, true), Prepare(c, true),
                           PublishGuildCreate(c, true)];
      RunFrom(w, create) && Run(w, create) ==
        w.(guilds := w.guilds + {g}, members := w.members + {(g, u)}, userGuilds := w.userGuilds + {(u, g)},
           bus := w.bus + [GuildCreate(u, g)])
  {
    var create := [BeginCreate(c, u, g), WriteGuildMembers(c, true), WriteUserGuilds(c, true), Prepare(c, true),
                   PublishGuildCreate(c, true)];
    var w1 := Next(w, create[0]);
    var w2 := Next(w1, create[1]);
    var w3 := Next(w2, create[2]);
    var w4 := Next(w3, create[3]);
    var w5 := Next(w4, create[4]);
    assert w5.calls == w.calls;
    hide RunFrom, Run, Next, Enabled;
    RunOfNone(w5);
    Unroll(w4, create[4..]);
    Unroll(w3, create[3..]);
    Unroll(w2, create[2..]);
    Unroll(w1, create[1..]);
    Unroll(w, create);
  }

  /** A join about to publish its GUILD_CREATE. */
  predicate PastMemberAdd(w: System, c: CallId) {
    c in w.calls && !w.calls[c].creating && w.calls[c].stage.AtGuildCreate?
  }

  /** No join comes to its GUILD_CREATE without having published its member event, whatever else runs. */
  lemma {:induction false} JoinAnnouncesMember(w: System, actions: seq<Action>, c: CallId)
    requires RunFrom(w, actions) && !PastMemberAdd(w, c) && PastMemberAdd(Run(w, actions), c)
    ensures exists a <- actions :: a.PublishMemberAdd? && a.call == c
    decreases |actions|
  {
    var a, v := actions[0], Next(w, actions[0]);
    if PastMemberAdd(v, c) {
      assert a in actions;
    } else {
      JoinAnnouncesMember(v, actions[1..], c);
      var b :| b in actions[1..] && b.PublishMemberAdd? && b.call == c;
      assert b in actions;
    }
  }

  // ---- what READY lists ----

  /** The session has the answer `ids` in hand, or is past its identify. */
  ghost predicate HasRead(w: System, id: SessionId, read: GuildsRead) {
    id in w.sessions && (w.sessions[id].read == Some(read) || (w.sessions[id].read.None? && w.sessions[id].user.Some?))
  }

  lemma {:induction false} ReadIsKept(w: System, actions: seq<Action>, id: SessionId, read: GuildsRead)
    requires RunFrom(w, actions) && HasRead(w, id, read)
    ensures HasRead(Run(w, actions), id, read)
    decreases |actions|
  {
    if actions != [] { ReadIsKept(Next(w, actions[0]), actions[1..], id, read); }
  }

  /** READY lists exactly the guilds stored for the user when the identify read them, and makes them the session's set,
      whatever happens between the read and the commit. */
  lemma ReadyIsWhatWasStored(w: System, id: SessionId, u: UserId, actions: seq<Action>)
    requires Enabled(w, ReadGuilds(id, u)) && RunFrom(Next(w, ReadGuilds(id, u)), actions)
    requires Enabled(Run(Next(w, ReadGuilds(id, u)), actions), Identify(id))
    ensures var s := Next(Run(Next(w, ReadGuilds(id, u)), actions), Identify(id)).sessions[id];
      && s.user == Some(u) && s.guilds == s.ready
      && (forall g :: g in s.ready <==> (u, g) in w.userGuilds)
  {
    var read := GuildsRead(u, GuildIdsOf(w, u));
    ReadIsKept(Next(w, ReadGuilds(id, u)), actions, id, read);
    forall g ensures g in GuildIdsOf(w, u) <==> (u, g) in w.userGuilds {
      if (u, g) in w.userGuilds { assert (u, g).0 == u; }
    }
  }

  lemma StepAfterLeaving(w: System, a: Action, id: SessionId)
    requires Inv(w) && Enabled(w, a) && id in w.sessions && !w.sessions[id].registered
    ensures id in Next(w, a).sessions && !Next(w, a).sessions[id].registered
    ensures if a == Deliver(id) then
        Turn(w, id) && !Turn(Next(w, a), id)
        && Next(w, a).sessions[id].offered == w.sessions[id].offered + [w.dispatch.event]
      else
        Next(w, a).sessions[id].offered == w.sessions[id].offered && (Turn(Next(w, a), id) ==> Turn(w, id))
        && (Turn(Next(w, a), id) ==> Next(w, a).dispatch.event == w.dispatch.event)
  {
    hide RowsOk, EventsOk, SessionOk;
  }

  /** A session that has left the registry is offered nothing more, over every run, but possibly the one event that the
      dispatcher had already chosen it for. */
  lemma {:induction false} LeavingEndsDelivery(w: System, actions: seq<Action>, id: SessionId)
    requires Inv(w) && RunFrom(w, actions) && id in w.sessions && !w.sessions[id].registered
    ensures id in Run(w, actions).sessions
    ensures var before, after := w.sessions[id].offered, Run(w, actions).sessions[id].offered;
      after == before || (Turn(w, id) && after == before + [w.dispatch.event])
    decreases |actions|
  {
    if actions != [] {
      StepAfterLeaving(w, actions[0], id);
      StepKeepsInv(w, actions[0]);
      LeavingEndsDelivery(Next(w, actions[0]), actions[1..], id);
      hide Inv, Enabled, Next, Turn;
    }
  }

  /** The turn that hands a session its GUILD_CREATE puts the guild in its set. */
  lemma GuildCreateOpensRoute(w: System, id: SessionId)
    requires Inv(w) && Enabled(w, Deliver(id)) && w.dispatch.event.GuildCreate? && w.sessions[id].registered
    ensures Routed(Next(w, Deliver(id)), id, w.dispatch.event.guild)
    ensures Owed(Next(w, Deliver(id)), id, w.dispatch.event.guild) == []
  {
  }

  // ---- half a membership ----

  /** The first of the two rows is stored and the second is not. */
  ghost predicate Half(w: System, g: GuildId, u: UserId) {
    (g, u) in w.members && (u, g) !in w.userGuilds
  }

  /** A request that has yet to write the second row. */
  predicate Writing(c: Call, g: GuildId, u: UserId) {
    c.guild == g && c.user == u && (c.stage.AtGuildMembers? || c.stage.AtUserGuilds?)
  }

  lemma HalfStaysHalf(w: System, a: Action, g: GuildId, u: UserId)
    requires Inv(w) && Enabled(w, a) && Half(w, g, u) && forall c <- w.calls :: !Writing(w.calls[c], g, u)
    ensures Half(Next(w, a), g, u)
    ensures forall c <- Next(w, a).calls :: !Writing(Next(w, a).calls[c], g, u)
  {
    hide EventsOk, SessionOk, DispatchOk;
    assert g in w.guilds by { assert (g, u) in w.members; }
  }

  lemma {:induction false} HalfIsForever(w: System, actions: seq<Action>, g: GuildId, u: UserId)
    requires Inv(w) && RunFrom(w, actions) && Half(w, g, u) && forall c <- w.calls :: !Writing(w.calls[c], g, u)
    ensures Half(Run(w, actions), g, u)
    decreases |actions|
  {
    if actions != [] {
      HalfStaysHalf(w, actions[0], g, u);
      StepKeepsInv(w, actions[0]);
      HalfIsForever(Next(w, actions[0]), actions[1..], g, u);
    }
  }

  ghost predicate CanBeCompleted(w: System, g: GuildId, u: UserId) {
    exists actions: seq<Action> :: RunFrom(w, actions) && (u, g) in Run(w, actions).userGuilds
  }

  /** A half-written membership can still become whole exactly when a request for it is at its writes. Joining again
      does not help: the member is found and nothing is written. */
  lemma HalfCanBeCompletedIff(w: System, g: GuildId, u: UserId)
    requires Inv(w) && Half(w, g, u)
    ensures CanBeCompleted(w, g, u) <==> exists c <- w.calls :: Writing(w.calls[c], g, u)
  {
    if c :| c in w.calls && Writing(w.calls[c], g, u) {
      var second := [WriteUserGuilds(c, true)];
      if w.calls[c].stage.AtUserGuilds? {
        Unroll(w, second);
      } else {
        var both := [WriteGuildMembers(c, true), WriteUserGuilds(c, true)];
        assert both[1..] == second;
        Unroll(Next(w, both[0]), second);
        Unroll(w, both);
      }
    } else if CanBeCompleted(w, g, u) {
      var actions: seq<Action> :| RunFrom(w, actions) && (u, g) in Run(w, actions).userGuilds;
      HalfIsForever(w, actions, g, u);
    }
  }

  lemma RunOfNone(w: System)
    ensures RunFrom(w, []) && Run(w, []) == w
  {
  }

  lemma Unroll(w: System, actions: seq<Action>)
    requires actions != [] && Enabled(w, actions[0]) && RunFrom(Next(w, actions[0]), actions[1..])
    ensures RunFrom(w, actions) && Run(w, actions) == Run(Next(w, actions[0]), actions[1..])
  {
  }

  // ---- a guild an identify did not see ----

  /** The session's user has the guild stored, but the session does not know it. */
  ghost predicate Missed(w: System, id: SessionId, g: GuildId) {
    && id in w.sessions && w.sessions[id].user.Some?
    && (w.sessions[id].user.value, g) in w.userGuilds && g !in w.sessions[id].guilds
  }

  ghost predicate InRequest(w: System, u: UserId, g: GuildId) {
    exists c <- w.calls :: w.calls[c].user == u && w.calls[c].guild == g
  }

  /** Something still announces the guild: a request that has not published, a GUILD_CREATE on the bus, or one in
      the dispatcher's hands with the session's turn to come. */
  ghost predicate Announcing(w: System, id: SessionId, u: UserId, g: GuildId) {
    || InRequest(w, u, g)
    || GuildCreate(u, g) in w.bus
    || (Turn(w, id) && w.dispatch.event == GuildCreate(u, g))
  }

  predicate Knows(w: System, id: SessionId, g: GuildId) {
    id in w.sessions && g in w.sessions[id].guilds
  }

  ghost predicate CanLearn(w: System, id: SessionId, g: GuildId) {
    exists actions: seq<Action> :: RunFrom(w, actions) && Knows(Run(w, actions), id, g)
  }

  /** No request for a stored membership begins: joining finds the member, and a created guild is new. */
  lemma StoredStartsNoRequest(w: System, a: Action, u: UserId, g: GuildId)
    requires RowsOk(w) && Enabled(w, a) && (u, g) in w.userGuilds && !InRequest(w, u, g)
    ensures !InRequest(Next(w, a), u, g)
  {
    assert (g, u) in w.members && g in w.guilds by { assert (u, g) in w.userGuilds && (g, u) in w.members; }
  }

  lemma OnlyRequestsAnnounce(w: System, a: Action, u: UserId, g: GuildId)
    requires Enabled(w, a) && !InRequest(w, u, g) && GuildCreate(u, g) !in w.bus
    ensures GuildCreate(u, g) !in Next(w, a).bus
  {
    assert a.PublishGuildCreate? ==> a.call in w.calls;
  }

  lemma MissedStaysMissed(w: System, a: Action, id: SessionId, g: GuildId)
    requires Inv(w) && Enabled(w, a) && Missed(w, id, g) && !Announcing(w, id, w.sessions[id].user.value, g)
    ensures Missed(Next(w, a), id, g) && Next(w, a).sessions[id].user == w.sessions[id].user
    ensures !Announcing(Next(w, a), id, w.sessions[id].user.value, g)
  {
    hide RowsOk, EventsOk, SessionOk, InRequest;
    var u, v := w.sessions[id].user.value, Next(w, a);
    assert !InRequest(w, u, g);
    StoredStartsNoRequest(w, a, u, g);
    OnlyRequestsAnnounce(w, a, u, g);
    assert w.bus != [] ==> w.bus[0] in w.bus;
  }

  lemma {:induction false} MissedForever(w: System, actions: seq<Action>, id: SessionId, g: GuildId)
    requires Inv(w) && RunFrom(w, actions) && Missed(w, id, g) && !Announcing(w, id, w.sessions[id].user.value, g)
    ensures Missed(Run(w, actions), id, g)
    decreases |actions|
  {
    if actions != [] {
      MissedStaysMissed(w, actions[0], id, g);
      StepKeepsInv(w, actions[0]);
      MissedForever(Next(w, actions[0]), actions[1..], id, g);
    }
  }

  lemma LearnLater(w: System, a: Action, id: SessionId, g: GuildId)
    requires Enabled(w, a) && CanLearn(Next(w, a), id, g)
    ensures CanLearn(w, id, g)
  {
    var rest: seq<Action> :| RunFrom(Next(w, a), rest) && Knows(Run(Next(w, a), rest), id, g);
    var actions := [a] + rest;
    assert actions[1..] == rest;
    Unroll(w, actions);
  }

  lemma LearntNow(w: System, id: SessionId, g: GuildId)
    requires id in w.sessions && g in w.sessions[id].guilds
    ensures CanLearn(w, id, g)
  {
    assert Run(w, []) == w;
  }

  /** How far the announcement has got: in the dispatcher's hands, on the bus, or still in the request. */
  function Distance(w: System, id: SessionId, c: CallId, u: UserId, g: GuildId): nat {
    if Turn(w, id) && w.dispatch.event == GuildCreate(u, g) then 0
    else if GuildCreate(u, g) in w.bus then 1
    else if c !in w.calls then 7
    else match w.calls[c].stage
      case AtGuildCreate => 2
      case AtMemberAdd => 3
      case AtPrepare => 4
      case AtUserGuilds => 5
      case AtGuildMembers => 6
  }

  predicate OnItsWay(w: System, id: SessionId, c: CallId, u: UserId, g: GuildId) {
    || (c in w.calls && w.calls[c].user == u && w.calls[c].guild == g)
    || GuildCreate(u, g) in w.bus
    || (Turn(w, id) && w.dispatch.event == GuildCreate(u, g))
  }

  function Phase(d: Dispatch): nat {
    match d
    case Idle => 0
    case Sending(_, targets) => 1 + |targets|
    case Scanning(_, left, targets) => 2 + 2 * |left| + |targets|
  }

  predicate Closer(w: System, v: System, id: SessionId, c: CallId, u: UserId, g: GuildId) {
    var d, e := Distance(w, id, c, u, g), Distance(v, id, c, u, g);
    e < d || (e == d && (|v.bus| < |w.bus| || (|v.bus| == |w.bus| && Phase(v.dispatch) < Phase(w.dispatch))))
  }

  /** One place nearer: the session has learnt the guild, or the announcement has moved on. */
  ghost predicate Nearer(w: System, v: System, id: SessionId, c: CallId, u: UserId, g: GuildId) {
    && id in v.sessions && v.sessions[id].registered && v.sessions[id].user == Some(u)
    && (g in v.sessions[id].guilds || (OnItsWay(v, id, c, u, g) && Closer(w, v, id, c, u, g)))
  }

  lemma ScanMovesOn(w: System, id: SessionId, c: CallId, u: UserId, g: GuildId) returns (a: Action)
    requires DispatchOk(w) && w.dispatch.Scanning?
    requires id in w.sessions && w.sessions[id].registered && w.sessions[id].user == Some(u) && OnItsWay(w, id, c, u, g)
    ensures Enabled(w, a) && Nearer(w, Next(w, a), id, c, u, g)
  {
    if w.dispatch.left == {} {
      a := EndScan;
    } else {
      var x :| x in w.dispatch.left;
      a := Scan(x);
    }
  }

  lemma SendMovesOn(w: System, id: SessionId, c: CallId, u: UserId, g: GuildId) returns (a: Action)
    requires DispatchOk(w) && w.dispatch.Sending?
    requires id in w.sessions && w.sessions[id].registered && w.sessions[id].user == Some(u) && OnItsWay(w, id, c, u, g)
    ensures Enabled(w, a) && Nearer(w, Next(w, a), id, c, u, g)
  {
    if w.dispatch.targets == {} {
      a := EndSend;
    } else {
      var x :| x in w.dispatch.targets;
      a := Deliver(x);
    }
  }

  lemma BusMovesOn(w: System, id: SessionId, c: CallId, u: UserId, g: GuildId) returns (a: Action)
    requires w.dispatch.Idle? && GuildCreate(u, g) in w.bus
    requires id in w.sessions && w.sessions[id].registered && w.sessions[id].user == Some(u)
    ensures Enabled(w, a) && Nearer(w, Next(w, a), id, c, u, g)
  {
    if w.bus[0] == GuildCreate(u, g) {
      a := BeginScan;
    } else {
      a := Lose(0);
      assert w.bus[..0] + w.bus[1..] == w.bus[1..];
    }
  }

  lemma RequestMovesOn(w: System, id: SessionId, c: CallId, u: UserId, g: GuildId) returns (a: Action)
    requires w.dispatch.Idle? && GuildCreate(u, g) !in w.bus && c in w.calls && w.calls[c].user == u
    requires w.calls[c].guild == g
    requires id in w.sessions && w.sessions[id].registered && w.sessions[id].user == Some(u)
    ensures Enabled(w, a) && Nearer(w, Next(w, a), id, c, u, g)
  {
    match w.calls[c].stage
    case AtGuildMembers => a := WriteGuildMembers(c, true);
    case AtUserGuilds => a := WriteUserGuilds(c, true);
    case AtPrepare => a := Prepare(c, true);
    case AtMemberAdd => a := PublishMemberAdd(c, 0, true);
    case AtGuildCreate =>
      a := PublishGuildCreate(c, true);
      assert Next(w, a).bus[|w.bus|] == GuildCreate(u, g);
  }

  lemma {:induction false} AnnouncedCanBeLearnt(w: System, id: SessionId, c: CallId, u: UserId, g: GuildId)
    requires Inv(w) && id in w.sessions && w.sessions[id].registered && w.sessions[id].user == Some(u)
    requires OnItsWay(w, id, c, u, g)
    ensures CanLearn(w, id, g)
    decreases Distance(w, id, c, u, g), |w.bus|, Phase(w.dispatch)
  {
    hide Enabled, Next, CanLearn, Distance, Phase, RowsOk, EventsOk, SessionOk, DispatchOk;
    var a: Action;
    if w.dispatch.Scanning? {
      a := ScanMovesOn(w, id, c, u, g);
    } else if w.dispatch.Sending? {
      a := SendMovesOn(w, id, c, u, g);
    } else if GuildCreate(u, g) in w.bus {
      a := BusMovesOn(w, id, c, u, g);
    } else {
      a := RequestMovesOn(w, id, c, u, g);
    }
    StepKeepsInv(w, a);
    if g in Next(w, a).sessions[id].guilds {
      LearntNow(Next(w, a), id, g);
    } else {
      AnnouncedCanBeLearnt(Next(w, a), id, c, u, g);
    }
    LearnLater(w, a, id, g);
  }

  /** A registered session that missed a guild of its user can still come to know it exactly when the guild is still
      being announced; afterwards only a new connection helps, since joining again announces nothing. */
  lemma MissedCanBeLearntIff(w: System, id: SessionId, g: GuildId)
    requires Inv(w) && Missed(w, id, g) && w.sessions[id].registered
    ensures CanLearn(w, id, g) <==> Announcing(w, id, w.sessions[id].user.value, g)
  {
    var u := w.sessions[id].user.value;
    if Announcing(w, id, u, g) {
      var c: CallId := 0;
      if call :| call in w.calls && w.calls[call].user == u && w.calls[call].guild == g {
        c := call;
      }
      AnnouncedCanBeLearnt(w, id, c, u, g);
    } else if CanLearn(w, id, g) {
      var actions: seq<Action> :| RunFrom(w, actions) && Knows(Run(w, actions), id, g);
      MissedForever(w, actions, id, g);
    }
  }

  /** User 7 is about to identify on socket 1 and has read that it has no guild. */
  const READING := System(
    {}, {}, {}, map[], [], [], Idle, map[1 := Session(true, Some(GuildsRead(7, {})), None, {}, {}, [])])

  /** Meanwhile guild 5 is stored for it and announced. */
  const ANNOUNCED_TOO_EARLY := READING.(
    guilds := {5}, members := {(5, 7)}, userGuilds := {(7, 5)}, bus := [GuildCreate(7, 5)])

  lemma IdentifyReadsFirst()
    ensures var start := [Accept(1), ReadGuilds(1, 7)]; RunFrom(EMPTY, start) && Run(EMPTY, start) == READING
  {
    var start := [Accept(1), ReadGuilds(1, 7)];
    var w1 := Next(EMPTY, start[0]);
    var w2 := Next(w1, start[1]);
    assert GuildIdsOf(w1, 7) == {};
    assert w2 == READING;
    hide RunFrom, Run, Next, Enabled;
    RunOfNone(w2);
    Unroll(w1, start[1..]);
    Unroll(EMPTY, start);
  }

  lemma AnnouncementCanComeTooEarly()
    ensures var create := [BeginCreate(1, 7, 5), WriteGuildMembers(1, true), WriteUserGuilds(1, true),
                           Prepare(1, true), PublishGuildCreate(1, true)];
      RunFrom(READING, create) && Run(READING, create) == ANNOUNCED_TOO_EARLY
  {
    var create := [BeginCreate(1, 7, 5), WriteGuildMembers(1, true), WriteUserGuilds(1, true),
                   Prepare(1, true), PublishGuildCreate(1, true)];
    var w1 := Next(READING, create[0]);
    var w2 := Next(w1, create[1]);
    var w3 := Next(w2, create[2]);
    var w4 := Next(w3, create[3]);
    var w5 := Next(w4, create[4]);
    assert w5 == ANNOUNCED_TOO_EARLY;
    hide RunFrom, Run, Next, Enabled;
    RunOfNone(w5);
    Unroll(w4, create[4..]);
    Unroll(w3, create[3..]);
    Unroll(w2, create[2..]);
    Unroll(w1, create[1..]);
    Unroll(READING, create);
  }

  /** The race: the dispatcher looks for the user's sessions before this one becomes identified. */
  lemma IdentifyCanMissGuild()
    ensures var end := [BeginScan, Scan(1), Identify(1)];
      && RunFrom(ANNOUNCED_TOO_EARLY, end)
      && Missed(Run(ANNOUNCED_TOO_EARLY, end), 1, 5) && !Announcing(Run(ANNOUNCED_TOO_EARLY, end), 1, 7, 5)
  {
    var end := [BeginScan, Scan(1), Identify(1)];
    var w1 := Next(ANNOUNCED_TOO_EARLY, end[0]);
    assert 1 in RegisteredIds(ANNOUNCED_TOO_EARLY);
    var w2 := Next(w1, end[1]);
    var w3 := Next(w2, end[2]);
    assert Missed(w3, 1, 5) && !Announcing(w3, 1, 7, 5);
    hide RunFrom, Run, Next, Enabled, Missed, Announcing;
    RunOfNone(w3);
    Unroll(w2, end[2..]);
    Unroll(w1, end[1..]);
    Unroll(ANNOUNCED_TOO_EARLY, end);
  }
}
