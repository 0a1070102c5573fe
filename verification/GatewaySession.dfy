/** One gateway socket (backend/internal/ws/session.go): its bounded send queue, its writer, and its routing set. */
module GatewaySession {
  import opened Wrappers

  type UserId = nat
  type GuildId = nat

  const QUEUE_CAPACITY: nat := 256
  const CLOSE_POLICY_VIOLATION := 1008
  const CLOSE_INTERNAL_ERROR := 1011
  const CLOSE_AUTH_FAILED := 4001

  datatype Frame = Hello | HeartbeatAck | Ready | Event(guild: Option<GuildId>, body: string)

  /** The outbound side: frames ever accepted, frames waiting, the frame the writer holds, frames on the wire. */
  datatype Outbox = Outbox(
    accepted: seq<Frame>, queue: seq<Frame>, inHand: Option<Frame>, written: seq<Frame>,
    closed: bool, closeCode: int, writerDone: bool)

  const EMPTY_OUTBOX := Outbox([], [], None, [], false, 0, false)

  /** Only the first close counts. */
  function Close(o: Outbox, code: int): Outbox {
    if o.closed then o else o.(closed := true, closeCode := code)
  }

  /** The second half of `send`: enqueue if there is room, else the client is too slow. */
  function Offer(o: Outbox, f: Frame): Outbox {
    if |o.queue| < QUEUE_CAPACITY then o.(queue := o.queue + [f], accepted := o.accepted + [f])
    else Close(o, CLOSE_POLICY_VIOLATION)
  }

  /** A whole `send` with nothing in between. */
  function Send(o: Outbox, f: Frame): Outbox {
    if o.closed then o else Offer(o, f)
  }

  class Session {
    var outbox: Outbox
    var identified: bool
    var userId: UserId
    var guildIds: set<GuildId>

    constructor ()
      ensures outbox == EMPTY_OUTBOX && !identified && guildIds == {}
    {
      outbox, identified, userId, guildIds := EMPTY_OUTBOX, false, 0, {};
    }

    method CloseOnce(code: int)
      modifies `outbox
      ensures outbox == Close(old(outbox), code)
      ensures outbox.closed && outbox.closeCode == (if old(outbox).closed then old(outbox).closeCode else code)
      ensures outbox.queue == old(outbox).queue && outbox.accepted == old(outbox).accepted
    {
      if !outbox.closed {
        outbox := outbox.(closed := true, closeCode := code);
      }
    }

    method SendFrame(f: Frame) returns (ok: bool)
      modifies `outbox
      ensures outbox == Send(old(outbox), f)
      ensures ok <==> !old(outbox).closed && |old(outbox).queue| < 256
      ensures ok ==> outbox.queue == old(outbox).queue + [f] && outbox.accepted == old(outbox).accepted + [f]
      ensures ok ==> !outbox.closed
      ensures !ok ==> outbox.closed && outbox.queue == old(outbox).queue && outbox.accepted == old(outbox).accepted
      ensures !ok && !old(outbox).closed ==> outbox.closeCode == 1008
    {
      if outbox.closed {
        return false;
      }
      if |outbox.queue| < QUEUE_CAPACITY {
        outbox := outbox.(queue := outbox.queue + [f], accepted := outbox.accepted + [f]);
        return true;
      }
      CloseOnce(CLOSE_POLICY_VIOLATION);
      ok := false;
    }

    /** The locked part of identify; a second identify is ignored before it gets here. */
    method BecomeIdentified(user: UserId, guilds: seq<GuildId>)
      requires !identified
      modifies `identified, `userId, `guildIds
      ensures identified && userId == user && guildIds == set g <- guilds
    {
      identified, userId, guildIds := true, user, {};
      for i := 0 to |guilds|
        invariant identified && userId == user && guildIds == set g <- guilds[..i]
      {
        assert guilds[..i + 1] == guilds[..i] + [guilds[i]];
        guildIds := guildIds + {guilds[i]};
      }
      assert guilds[..|guilds|] == guilds;
    }

    /** An identify frame: `claim` is the user a valid token names, `account` and `memberships` what the store
        answers. */
    method HandleIdentify(
        claim: Option<UserId>, account: Result<(), StoreError>, memberships: Result<seq<GuildId>, StoreError>)
      returns (connect: bool)
      modifies `outbox, `identified, `userId, `guildIds
      ensures connect <==> !old(identified) && claim.Some? && account.Success? && memberships.Success?
      ensures connect ==> identified && userId == claim.value && guildIds == (set g <- memberships.value)
      ensures !connect ==> identified == old(identified) && userId == old(userId) && guildIds == old(guildIds)
      ensures outbox ==
        if old(identified) then old(outbox)
        else if claim.None? || account == Failure(NotFound) then Close(old(outbox), CLOSE_AUTH_FAILED)
        else if account.Failure? || memberships.Failure? then Close(old(outbox), CLOSE_INTERNAL_ERROR)
        else Send(old(outbox), Ready)
      ensures !old(identified) && !old(outbox).closed && (claim.None? || account == Failure(NotFound)) ==>
        outbox.closed && outbox.closeCode == 4001
      ensures !old(identified) && !old(outbox).closed && claim.Some? && account != Failure(NotFound) && !connect ==>
        outbox.closed && outbox.closeCode == 1011
      ensures connect && !old(outbox).closed && |old(outbox).queue| < 256 ==>
        outbox.accepted == old(outbox).accepted + [Ready]
    {
      connect := false;
      if identified {
        return;
      }
      if claim.None? {
        CloseOnce(CLOSE_AUTH_FAILED);
        return;
      }
      if account.Failure? {
        CloseOnce(if account.error == NotFound then CLOSE_AUTH_FAILED else CLOSE_INTERNAL_ERROR);
        return;
      }
      if memberships.Failure? {
        CloseOnce(CLOSE_INTERNAL_ERROR);
        return;
      }
      BecomeIdentified(claim.value, memberships.value);
      var sent := SendFrame(Ready);
      connect := true;
    }

    /** Every heartbeat is acknowledged; only an identified session's reaches presence. */
    method HandleHeartbeat() returns (beat: bool)
      modifies `outbox
      ensures outbox == Send(old(outbox), HeartbeatAck)
      ensures !old(outbox).closed && |old(outbox).queue| < 256 ==>
        outbox.accepted == old(outbox).accepted + [HeartbeatAck]
      ensures beat <==> identified
    {
      var sent := SendFrame(HeartbeatAck);
      beat := identified;
    }

    predicate IsUser(user: UserId)
      reads this
    {
      identified && userId == user
    }

    predicate InGuild(guild: GuildId)
      reads this
    {
      identified && guild in guildIds
    }

    method AddGuild(guild: GuildId)
      modifies `guildIds
      ensures guildIds == if identified then old(guildIds) + {guild} else old(guildIds)
    {
      if identified {
        guildIds := guildIds + {guild};
      }
    }
  }

  function Added(guild: Option<GuildId>): set<GuildId> {
    if guild.Some? then {guild.value} else {}
  }

  class Hub {
    var sessions: set<Session>
    var closing: bool

    constructor ()
      ensures sessions == {} && !closing
    {
      sessions, closing := {}, false;
    }

    method Register(s: Session) returns (ok: bool)
      modifies `sessions
      ensures ok <==> !closing
      ensures sessions == if ok then old(sessions) + {s} else old(sessions)
    {
      if closing {
        return false;
      }
      sessions := sessions + {s};
      ok := true;
    }

    method Unregister(s: Session)
      modifies `sessions
      ensures sessions == old(sessions) - {s}
    {
      sessions := sessions - {s};
    }

    /** Exactly the registered sessions that are in the guild are offered the frame; no other session changes. */
    method DispatchToGuild(guild: GuildId, f: Frame)
      modifies sessions
      ensures sessions == old(sessions) && closing == old(closing)
      ensures forall s <- sessions ::
        s.outbox == if old(s.identified && guild in s.guildIds) then Send(old(s.outbox), f) else old(s.outbox)
      ensures forall s <- sessions ::
        s.identified == old(s.identified) && s.userId == old(s.userId) && s.guildIds == old(s.guildIds)
    {
      var targets := set s <- sessions | s.InGuild(guild);
      var rest := targets;
      while rest != {}
        invariant rest <= targets && sessions == old(sessions) && closing == old(closing)
        invariant forall s <- sessions ::
          s.outbox == if s in targets - rest then Send(old(s.outbox), f) else old(s.outbox)
        invariant forall s <- sessions ::
          s.identified == old(s.identified) && s.userId == old(s.userId) && s.guildIds == old(s.guildIds)
        decreases rest
      {
        var s :| s in rest;
        var ok := s.SendFrame(f);
        rest := rest - {s};
      }
    }

    /** A user event reaches exactly that user's sessions; a GUILD_CREATE first adds the guild to their sets. */
    method DispatchToUser(user: UserId, newGuild: Option<GuildId>, f: Frame)
      modifies sessions
      ensures sessions == old(sessions) && closing == old(closing)
      ensures forall s <- sessions ::
        s.outbox == if old(s.identified && s.userId == user) then Send(old(s.outbox), f) else old(s.outbox)
      ensures forall s <- sessions, g :: g in s.guildIds <==>
        g in old(s.guildIds) || (newGuild == Some(g) && old(s.identified && s.userId == user))
      ensures forall s <- sessions :: s.identified == old(s.identified) && s.userId == old(s.userId)
    {
      var targets := set s <- sessions | s.IsUser(user);
      var rest := targets;
      while rest != {}
        invariant rest <= targets && sessions == old(sessions) && closing == old(closing)
        invariant forall s <- sessions ::
          s.outbox == if s in targets - rest then Send(old(s.outbox), f) else old(s.outbox)
        invariant forall s <- sessions ::
          s.guildIds == (if s in targets - rest then old(s.guildIds) + Added(newGuild) else old(s.guildIds))
        invariant forall s <- sessions :: s.identified == old(s.identified) && s.userId == old(s.userId)
        decreases rest
      {
        var s :| s in rest;
        if newGuild.Some? {
          s.AddGuild(newGuild.value);
        }
        var ok := s.SendFrame(f);
        rest := rest - {s};
      }
    }

    /** Every registered session is closed, and none is refused later. */
    method DropAllSessions(code: int)
      modifies sessions
      ensures sessions == old(sessions) && closing == old(closing)
      ensures forall s <- sessions :: s.outbox == Close(old(s.outbox), code) && s.outbox.closed
      ensures forall s <- sessions :: s.identified == old(s.identified) && s.guildIds == old(s.guildIds)
    {
      var rest := sessions;
      while rest != {}
        invariant rest <= sessions && sessions == old(sessions) && closing == old(closing)
        invariant forall s <- sessions :: s.outbox == if s in rest then old(s.outbox) else Close(old(s.outbox), code)
        invariant forall s <- sessions :: s.identified == old(s.identified) && s.guildIds == old(s.guildIds)
        decreases rest
      {
        var s :| s in rest;
        s.CloseOnce(code);
        rest := rest - {s};
      }
    }
  }

  // ---- the output of one session over all interleavings of its threads ----

  /** `greeted`: the accepting thread is past its hello; `announced`: past its READY. `reader` and `hub` are frames
      those threads are about to enqueue, the session having been open when they looked. `attempted` records every
      frame whose enqueueing has been tried to the end, whether it was accepted or refused. */
  datatype Wire = Wire(
    outbox: Outbox, greeted: bool, identified: bool, announced: bool, reader: Option<Frame>, hub: Option<Frame>,
    attempted: seq<Frame>)

  datatype Action =
    | BeginHello
    | BeginAck
    | BeginReady
    | EndReader
    | Identify
    | BeginDispatch(frame: Frame)
    | EndHub
    | CloseNow(code: int)
    | WriterTakes
    | WriterWrites(fails: bool)
    | WriterCloses

  const CONNECTED := Wire(EMPTY_OUTBOX, false, false, false, None, None, [])

  predicate Enabled(w: Wire, a: Action) {
    match a
    case BeginHello => !w.greeted && w.reader.None?
    // The reader handles one frame at a time: an identify it accepted ends with READY.
    case BeginAck => w.greeted && w.reader.None? && (w.identified ==> w.announced)
    case BeginReady => w.identified && !w.announced && w.reader.None?
    case EndReader => w.reader.Some?
    case Identify => w.greeted && w.reader.None? && !w.identified
    case BeginDispatch(f) => w.identified && w.hub.None? && f.Event?
    case EndHub => w.hub.Some?
    case CloseNow(_) => true
    case WriterTakes => !w.outbox.writerDone && w.outbox.inHand.None? && w.outbox.queue != []
    case WriterWrites(_) => !w.outbox.writerDone && w.outbox.inHand.Some?
    case WriterCloses => !w.outbox.writerDone && w.outbox.inHand.None? && w.outbox.closed
  }

  /** The reader's thread starts to send: a closed session refuses at once. */
  function ReaderSends(w: Wire, f: Frame): Wire {
    if w.outbox.closed then w.(attempted := w.attempted + [f]) else w.(reader := Some(f))
  }

  /** The same for the dispatcher's thread. */
  function HubSends(w: Wire, f: Frame): Wire {
    if w.outbox.closed then w.(attempted := w.attempted + [f]) else w.(hub := Some(f))
  }

  function Next(w: Wire, a: Action): Wire
    requires Enabled(w, a)
  {
    var o := w.outbox;
    match a
    case BeginHello => ReaderSends(w, Hello).(greeted := o.closed)
    case BeginAck => ReaderSends(w, HeartbeatAck)
    case BeginReady => ReaderSends(w, Ready).(announced := true)
    case EndReader =>
      w.(outbox := Offer(o, w.reader.value), reader := None, greeted := true,
         attempted := w.attempted + [w.reader.value])
    case Identify => w.(identified := true)
    case BeginDispatch(f) => HubSends(w, f)
    case EndHub => w.(outbox := Offer(o, w.hub.value), hub := None, attempted := w.attempted + [w.hub.value])
    case CloseNow(code) => w.(outbox := Close(o, code))
    case WriterTakes => w.(outbox := o.(inHand := Some(o.queue[0]), queue := o.queue[1..]))
    case WriterWrites(fails) =>
      w.(outbox :=
        if fails then o.(writerDone := true) else o.(written := o.written + [o.inHand.value], inHand := None))
    case WriterCloses => w.(outbox := o.(writerDone := true))
  }

  function InHand(o: Outbox): seq<Frame> {
    if o.inHand.Some? then [o.inHand.value] else []
  }

  /** What was accepted is what was written, then the frame in the writer's hand, then the frames waiting. */
  ghost predicate Accounted(o: Outbox) {
    o.accepted == o.written + InHand(o) + o.queue
  }

  /** Hello comes first and only first; events and READY need identification. */
  ghost predicate Shape(frames: seq<Frame>, identified: bool) {
    && (forall i :: 0 <= i < |frames| ==> (frames[i] == Hello <==> i == 0))
    && (forall i :: 0 <= i < |frames| && (frames[i].Event? || frames[i].Ready?) ==> identified)
    && (forall i, j :: 0 <= i < j < |frames| ==> !(frames[i].Ready? && frames[j].Ready?))
  }

  ghost predicate Inv(w: Wire) {
    var o := w.outbox;
    && Accounted(o)
    && |o.queue| <= QUEUE_CAPACITY
    && (!o.closed ==> o.accepted == w.attempted)
    && Shape(o.accepted, w.identified)
    && (!w.greeted ==> o.accepted == [] && !w.identified && w.hub.None? && (w.reader.Some? ==> w.reader.value == Hello))
    && (w.greeted && !o.closed ==> o.accepted != [])
    && (w.greeted && w.reader.Some? ==>
      w.reader.value != Hello && o.accepted != [] && (w.reader.value.Ready? ==> w.identified))
    && (w.reader.Some? ==> !w.reader.value.Event?)
    && (w.announced ==> w.identified)
    && (w.reader == Some(Ready) || Ready in o.accepted ==> w.announced)
    && !(w.reader == Some(Ready) && Ready in o.accepted)
    && (w.hub.Some? ==> w.identified && w.hub.value.Event? && o.accepted != [])
  }

  lemma OfferKeepsAccount(o: Outbox, f: Frame, identified: bool)
    requires Accounted(o) && |o.queue| <= QUEUE_CAPACITY
    requires Shape(o.accepted, identified) && (f == Hello <==> o.accepted == [])
    requires (f.Event? || f.Ready? ==> identified) && !(f.Ready? && Ready in o.accepted)
    ensures var p := Offer(o, f);
      Accounted(p) && |p.queue| <= QUEUE_CAPACITY && Shape(p.accepted, identified)
  {
  }

  lemma SenderKeepsInv(w: Wire, a: Action)
    requires Inv(w) && Enabled(w, a) && !a.WriterTakes? && !a.WriterWrites? && !a.WriterCloses?
    ensures Inv(Next(w, a))
  {
    if a.EndReader? { OfferKeepsAccount(w.outbox, w.reader.value, w.identified); }
    if a.EndHub? { OfferKeepsAccount(w.outbox, w.hub.value, w.identified); }
    assert Shape(w.outbox.accepted, true);
    hide Accounted, Shape;
  }

  lemma TakingKeepsAccount(o: Outbox)
    requires Accounted(o) && o.inHand.None? && o.queue != []
    ensures Accounted(o.(inHand := Some(o.queue[0]), queue := o.queue[1..]))
  {
    assert o.written + [] == o.written;
    assert o.written + [o.queue[0]] + o.queue[1..] == o.written + o.queue;
  }

  lemma WritingKeepsAccount(o: Outbox)
    requires Accounted(o) && o.inHand.Some?
    ensures Accounted(o.(written := o.written + [o.inHand.value], inHand := None))
  {
    assert o.written + [o.inHand.value] + [] == o.written + [o.inHand.value];
  }

  lemma WriterKeepsInv(w: Wire, a: Action)
    requires Inv(w) && Enabled(w, a) && (a.WriterTakes? || a.WriterWrites? || a.WriterCloses?)
    ensures Inv(Next(w, a))
  {
    if a.WriterTakes? { TakingKeepsAccount(w.outbox); }
    if a == WriterWrites(false) { WritingKeepsAccount(w.outbox); }
    assert Accounted(Next(w, a).outbox) by {
      if a == WriterWrites(true) || a.WriterCloses? { assert Accounted(w.outbox.(writerDone := true)); }
    }
    hide Shape, Accounted;
  }

  /** Frames are only ever appended, and the first close fixes the close code for good. */
  lemma StepOnlyAppends(w: Wire, a: Action)
    requires Enabled(w, a)
    ensures w.outbox.accepted <= Next(w, a).outbox.accepted && w.outbox.written <= Next(w, a).outbox.written
    ensures w.outbox.closed ==> Next(w, a).outbox.closed && Next(w, a).outbox.closeCode == w.outbox.closeCode
  {
  }

  lemma StepKeepsInv(w: Wire, a: Action)
    requires Inv(w) && Enabled(w, a)
    ensures Inv(Next(w, a))
  {
    if a.WriterTakes? || a.WriterWrites? || a.WriterCloses? { WriterKeepsInv(w, a); } else { SenderKeepsInv(w, a); }
  }

  ghost predicate RunFrom(w: Wire, actions: seq<Action>)
    decreases |actions|
  {
    actions != [] ==> Enabled(w, actions[0]) && RunFrom(Next(w, actions[0]), actions[1..])
  }

  function Run(w: Wire, actions: seq<Action>): Wire
    requires RunFrom(w, actions)
    decreases |actions|
  {
    if actions == [] then w else Run(Next(w, actions[0]), actions[1..])
  }

  lemma {:induction false} RunKeepsInv(w: Wire, actions: seq<Action>)
    requires Inv(w) && RunFrom(w, actions)
    ensures Inv(Run(w, actions))
    decreases |actions|
  {
    if actions != [] {
      StepKeepsInv(w, actions[0]);
      RunKeepsInv(Next(w, actions[0]), actions[1..]);
    }
  }

  /** Whatever threads and closes interleave: at most 256 frames wait, what is on the wire is a prefix of what was
      accepted, the first frame is hello, READY comes at most once, and no event is accepted before identification. */
  lemma OutputIsOrdered(actions: seq<Action>)
    requires RunFrom(CONNECTED, actions)
    ensures var w := Run(CONNECTED, actions);
      && |w.outbox.queue| <= 256
      && w.outbox.written <= w.outbox.accepted
      && (w.outbox.written != [] ==> w.outbox.written[0] == Hello)
      && (forall f <- w.outbox.accepted :: (f.Event? || f.Ready?) ==> w.identified)
      && (forall i, j :: 0 <= i < j < |w.outbox.accepted| ==>
            !(w.outbox.accepted[i].Ready? && w.outbox.accepted[j].Ready?))
  {
    RunKeepsInv(CONNECTED, actions);
  }

  /** The queue neither drops nor reorders: at every moment what was accepted is what was written, then the frame in
      the writer's hand, then the frames waiting. */
  lemma NothingAcceptedIsLost(actions: seq<Action>)
    requires RunFrom(CONNECTED, actions)
    ensures var o := Run(CONNECTED, actions).outbox; o.accepted == o.written + InHand(o) + o.queue
  {
    RunKeepsInv(CONNECTED, actions);
  }

  lemma {:induction false} DoneWritesNothing(w: Wire, actions: seq<Action>)
    requires RunFrom(w, actions) && w.outbox.writerDone
    ensures Run(w, actions).outbox.writerDone && Run(w, actions).outbox.written == w.outbox.written
    decreases |actions|
  {
    if actions != [] {
      var v := Next(w, actions[0]);
      assert v.outbox.writerDone && v.outbox.written == w.outbox.written;
      DoneWritesNothing(v, actions[1..]);
    }
  }

  /** A failed write, or the close frame, is the writer's last word: nothing is on the wire after it, over every run. */
  lemma WriterStopsForGood(w: Wire, a: Action, actions: seq<Action>)
    requires (a == WriterWrites(true) || a.WriterCloses?) && Enabled(w, a) && RunFrom(Next(w, a), actions)
    ensures Run(Next(w, a), actions).outbox.written == w.outbox.written
  {
    DoneWritesNothing(Next(w, a), actions);
  }

  /** A frame is refused only by a closed session or together with the close for a full queue; otherwise it is
      accepted. */
  lemma RefusedOnlyWithClose(w: Wire, a: Action)
    requires Enabled(w, a)
    ensures var v := Next(w, a);
      && w.attempted <= v.attempted
      && (v.outbox.accepted == w.outbox.accepted + v.attempted[|w.attempted|..]
        || (v.outbox.accepted == w.outbox.accepted && v.outbox.closed))
      && (!w.outbox.closed && v.outbox.accepted != w.outbox.accepted + v.attempted[|w.attempted|..] ==>
        |w.outbox.queue| >= 256 && v.outbox.closeCode == 1008)
  {
  }

  /** The frame an action starts to send. */
  function Started(a: Action): seq<Frame> {
    match a
    case BeginHello => [Hello]
    case BeginAck => [HeartbeatAck]
    case BeginReady => [Ready]
    case BeginDispatch(f) => [f]
    case _ => []
  }

  /** The events among some frames, or the other frames, in order. */
  function Pick(frames: seq<Frame>, events: bool): seq<Frame> {
    if frames == [] then []
    else
      var last := frames[|frames| - 1];
      Pick(frames[..|frames| - 1], events) + if last.Event? == events then [last] else []
  }

  /** The frames that the dispatcher, or the session's own thread, has started to send. */
  function AllStarted(actions: seq<Action>, events: bool): seq<Frame> {
    if actions == [] then [] else Pick(Started(actions[0]), events) + AllStarted(actions[1..], events)
  }

  /** The frame that thread is about to enqueue. */
  function Pending(w: Wire, events: bool): seq<Frame> {
    var f := if events then w.hub else w.reader;
    if f.Some? then [f.value] else []
  }

  function Handed(w: Wire, events: bool): seq<Frame> {
    Pick(w.outbox.accepted, events) + Pending(w, events)
  }

  predicate HandsOk(w: Wire) {
    (w.reader.Some? ==> !w.reader.value.Event?) && (w.hub.Some? ==> w.hub.value.Event?)
  }

  lemma PickSnoc(frames: seq<Frame>, f: Frame, events: bool)
    ensures Pick(frames + [f], events) == Pick(frames, events) + if f.Event? == events then [f] else []
  {
    assert (frames + [f])[..|frames|] == frames;
  }

  lemma PickOne(f: Frame, events: bool)
    ensures Pick([], events) == []
    ensures Pick([f], events) == if f.Event? == events then [f] else []
  {
    assert [] + [f] == [f];
    PickSnoc([], f, events);
  }

  /** A thread takes up a frame. */
  lemma TakenUp(w: Wire, v: Wire, f: Frame, events: bool)
    requires v.outbox == w.outbox && (if f.Event? then w.hub else w.reader).None?
    requires v.hub == (if f.Event? then Some(f) else w.hub) && v.reader == (if f.Event? then w.reader else Some(f))
    ensures Handed(v, events) == Handed(w, events) + Pick([f], events)
  {
    PickOne(f, events);
    hide Pick;
    var picked := Pick(w.outbox.accepted, events);
    if f.Event? == events {
      assert Pending(w, events) == [] && Pending(v, events) == [f];
      assert picked + [] == picked;
    } else {
      assert Pending(v, events) == Pending(w, events);
    }
  }

  /** A thread's frame is accepted. */
  lemma HandedOver(w: Wire, v: Wire, f: Frame, events: bool)
    requires v.outbox.accepted == w.outbox.accepted + [f] && (if f.Event? then w.hub else w.reader) == Some(f)
    requires v.hub == (if f.Event? then None else w.hub) && v.reader == (if f.Event? then w.reader else None)
    ensures Handed(v, events) == Handed(w, events)
  {
    PickSnoc(w.outbox.accepted, f, events);
    hide Pick;
    var picked := Pick(w.outbox.accepted, events);
    if f.Event? == events {
      assert Pending(w, events) == [f] && Pending(v, events) == [];
      assert picked + [f] + [] == picked + [f];
    } else {
      assert Pending(v, events) == Pending(w, events);
      assert picked + [] == picked;
    }
  }

  lemma NothingHanded(w: Wire, v: Wire, events: bool)
    requires v.outbox.accepted == w.outbox.accepted && v.hub == w.hub && v.reader == w.reader
    ensures Handed(v, events) == Handed(w, events)
  {
  }

  lemma StepKeepsHanded(w: Wire, a: Action, events: bool)
    requires HandsOk(w) && Enabled(w, a) && !Next(w, a).outbox.closed
    ensures HandsOk(Next(w, a)) && !w.outbox.closed
    ensures Handed(Next(w, a), events) == Handed(w, events) + Pick(Started(a), events)
  {
    hide Pick, Pending;
    var v := Next(w, a);
    match a {
      case BeginHello => TakenUp(w, v, Hello, events);
      case BeginAck => TakenUp(w, v, HeartbeatAck, events);
      case BeginReady => TakenUp(w, v, Ready, events);
      case BeginDispatch(f) => TakenUp(w, v, f, events);
      case EndReader => HandedOver(w, v, w.reader.value, events); PickOne(Hello, events);
      case EndHub => HandedOver(w, v, w.hub.value, events); PickOne(Hello, events);
      case _ => PickOne(Hello, events); NothingHanded(w, v, events);
    }
  }

  lemma {:induction false} StaysClosed(w: Wire, actions: seq<Action>)
    requires RunFrom(w, actions) && w.outbox.closed
    ensures Run(w, actions).outbox.closed
    decreases |actions|
  {
    if actions != [] {
      StepOnlyAppends(w, actions[0]);
      StaysClosed(Next(w, actions[0]), actions[1..]);
    }
  }

  lemma {:induction false} RunKeepsHanded(w: Wire, actions: seq<Action>, events: bool)
    requires HandsOk(w) && RunFrom(w, actions) && !Run(w, actions).outbox.closed
    ensures Handed(Run(w, actions), events) == Handed(w, events) + AllStarted(actions, events)
    decreases |actions|
  {
    hide HandsOk, Handed, Next, Enabled, Started, Pick;
    if actions != [] {
      var a, v := actions[0], Next(w, actions[0]);
      if v.outbox.closed { StaysClosed(v, actions[1..]); }
      StepKeepsHanded(w, a, events);
      RunKeepsHanded(v, actions[1..], events);
      var first, rest := Pick(Started(a), events), AllStarted(actions[1..], events);
      assert Handed(w, events) + first + rest == Handed(w, events) + (first + rest);
    }
  }

  /** While a session is open, the accepted frames are exactly those tried so far, in order: nothing is dropped
      silently. Its events, with the one about to be enqueued, are exactly those dispatched to it, in order; and so
      are its other frames those that its own thread started to send: hello, acknowledgements and READY. */
  lemma OpenSessionMissesNothing(actions: seq<Action>, events: bool)
    requires RunFrom(CONNECTED, actions) && !Run(CONNECTED, actions).outbox.closed
    ensures var w := Run(CONNECTED, actions);
      && w.outbox.accepted == w.attempted
      && w.outbox.written + InHand(w.outbox) + w.outbox.queue == w.attempted
      && Pick(w.attempted, events) + Pending(w, events) == AllStarted(actions, events)
  {
    assert Handed(CONNECTED, events) == [];
    RunKeepsInv(CONNECTED, actions);
    RunKeepsHanded(CONNECTED, actions, events);
    hide Pick, RunFrom, Run, Shape, AllStarted, Pending;
  }

  // ---- events ahead of READY ----

  /** Some event was accepted before READY, or without one. */
  ghost predicate EventLeads(frames: seq<Frame>) {
    exists i :: 0 <= i < |frames| && frames[i].Event? && Ready !in frames[..i]
  }

  ghost predicate EventCanLead(w: Wire) {
    exists actions: seq<Action> :: RunFrom(w, actions) && EventLeads(Run(w, actions).outbox.accepted)
  }

  /** An event can still get into the queue: the dispatcher holds one or may take one up, and there is room or the
      writer
      can make some. */
  predicate CanAcceptEvent(w: Wire) {
    (w.hub.Some? || !w.outbox.closed) && (|w.outbox.queue| < QUEUE_CAPACITY || !w.outbox.writerDone)
  }

  lemma NoEventStays(w: Wire, a: Action)
    requires Inv(w) && Enabled(w, a) && w.identified && !CanAcceptEvent(w)
    ensures !CanAcceptEvent(Next(w, a)) && Next(w, a).identified
    ensures EventLeads(Next(w, a).outbox.accepted) ==> EventLeads(w.outbox.accepted)
  {
    var before, after := w.outbox.accepted, Next(w, a).outbox.accepted;
    if i :| 0 <= i < |after| && after[i].Event? && Ready !in after[..i] {
      assert after == before || after == before + [after[|before|]];
      assert i < |before|;
      assert before[..i] == after[..i];
    }
  }

  /** Frames that follow READY do not lead. */
  lemma ReadyStaysFirst(w: Wire, a: Action)
    requires Enabled(w, a) && Ready in w.outbox.accepted
    ensures Ready in Next(w, a).outbox.accepted
    ensures EventLeads(Next(w, a).outbox.accepted) ==> EventLeads(w.outbox.accepted)
  {
    var before, after := w.outbox.accepted, Next(w, a).outbox.accepted;
    assert before <= after by { StepOnlyAppends(w, a); }
    if i :| 0 <= i < |after| && after[i].Event? && Ready !in after[..i] {
      var k :| 0 <= k < |before| && before[k] == Ready;
      forall x | 0 <= x < i ensures after[x] != Ready {
        assert after[..i][x] == after[x];
      }
      assert before[..i] == after[..i];
    }
  }

  lemma {:induction false} NoEventLeadsLater(w: Wire, actions: seq<Action>)
    requires Inv(w) && RunFrom(w, actions) && w.identified
    requires Ready in w.outbox.accepted || !CanAcceptEvent(w)
    ensures EventLeads(Run(w, actions).outbox.accepted) ==> EventLeads(w.outbox.accepted)
    decreases |actions|
  {
    if actions != [] {
      var v := Next(w, actions[0]);
      StepKeepsInv(w, actions[0]);
      if Ready in w.outbox.accepted { ReadyStaysFirst(w, actions[0]); } else { NoEventStays(w, actions[0]); }
      StaysIdentified(w, actions[0]);
      NoEventLeadsLater(v, actions[1..]);
    }
  }

  lemma StaysIdentified(w: Wire, a: Action)
    requires Enabled(w, a) && w.identified
    ensures Next(w, a).identified
  {
  }

  lemma LeadsNow(w: Wire)
    requires EventLeads(w.outbox.accepted)
    ensures EventCanLead(w)
  {
    assert RunFrom(w, []) && Run(w, []) == w;
  }

  lemma LeadsLater(w: Wire, a: Action)
    requires Enabled(w, a) && EventCanLead(Next(w, a))
    ensures EventCanLead(w)
  {
    var rest: seq<Action> :| RunFrom(Next(w, a), rest) && EventLeads(Run(Next(w, a), rest).outbox.accepted);
    var actions := [a] + rest;
    assert actions[1..] == rest && actions[0] == a;
    assert RunFrom(w, actions) && Run(w, actions) == Run(Next(w, a), rest);
  }

  /** The dispatcher hands over its event as soon as there is room. */
  lemma HeldEventCanLead(w: Wire)
    requires Inv(w) && Ready !in w.outbox.accepted && w.hub.Some? && CanAcceptEvent(w)
    ensures EventCanLead(w)
    decreases if w.outbox.inHand.Some? then 1 else 0, |w.outbox.queue|
  {
    hide EventCanLead;
    if |w.outbox.queue| < QUEUE_CAPACITY {
      var v := Next(w, EndHub);
      var at := |w.outbox.accepted|;
      assert v.outbox.accepted[at] == w.hub.value && v.outbox.accepted[..at] == w.outbox.accepted;
      LeadsNow(v);
      LeadsLater(w, EndHub);
    } else if w.outbox.inHand.Some? {
      StepKeepsInv(w, WriterWrites(false));
      HeldEventCanLead(Next(w, WriterWrites(false)));
      LeadsLater(w, WriterWrites(false));
    } else {
      StepKeepsInv(w, WriterTakes);
      RoomEventCanLead(Next(w, WriterTakes));
      LeadsLater(w, WriterTakes);
    }
  }

  lemma RoomEventCanLead(w: Wire)
    requires Ready !in w.outbox.accepted && w.hub.Some? && w.hub.value.Event? && |w.outbox.queue| < QUEUE_CAPACITY
    ensures EventCanLead(w)
  {
    hide EventCanLead;
    var v := Next(w, EndHub);
    var at := |w.outbox.accepted|;
    assert v.outbox.accepted[at] == w.hub.value && v.outbox.accepted[..at] == w.outbox.accepted;
    LeadsNow(v);
    LeadsLater(w, EndHub);
  }

  /** An identified session gets an event ahead of READY (which is queued after the membership is in place) in some
      continuation exactly when one is already ahead, or READY is not accepted yet and an event can still be. */
  lemma EventCanLeadIff(w: Wire)
    requires Inv(w) && w.identified
    ensures EventCanLead(w) <==>
      EventLeads(w.outbox.accepted) || (Ready !in w.outbox.accepted && CanAcceptEvent(w))
  {
    if EventLeads(w.outbox.accepted) {
      LeadsNow(w);
    } else if Ready in w.outbox.accepted || !CanAcceptEvent(w) {
      forall actions: seq<Action> | RunFrom(w, actions) ensures !EventLeads(Run(w, actions).outbox.accepted) {
        NoEventLeadsLater(w, actions);
      }
    } else if w.hub.Some? {
      HeldEventCanLead(w);
    } else {
      var begin := BeginDispatch(Event(None, ""));
      StepKeepsInv(w, begin);
      HeldEventCanLead(Next(w, begin));
      LeadsLater(w, begin);
    }
  }
}
