/** Registration, cleanup and shutdown of gateway sessions (backend/internal/ws/hub.go, session.go): every thread's
    step interleaves with every other. */
module HubLifecycle {

  type SessionId = nat

  /** Where the goroutine that serves a socket stands. */
  datatype Stage =
    | Accepted     // about to register
    | Refused      // the hub is closing: about to close `done`
    | Registered   // about to count itself
    | Serving      // in the read loop
    | Leaving      // in cleanup, session closed, about to unregister
    | Unregistered // about to count itself out
    | Counted      // about to report its departure and close `done`
    | Finished     // `done` is closed
    | TurnedAway   // refused, `done` is closed

  /** `closes` and `dones` count how often the two channels were closed; `writing` says the writer still runs, and
      with it the connection. */
  datatype Session = Session(stage: Stage, closed: bool, closeCode: int, closes: nat, dones: nat, writing: bool)

  /** The shutdown call: not begun, waiting for the sessions it found, or returned. */
  datatype Shutdown = NotBegun | Draining(waiting: set<SessionId>) | Returned

  /** `found` is the registry as the shutdown saw it. */
  datatype Hub = Hub(
    sessions: map<SessionId, Session>, registry: set<SessionId>, closing: bool, gauge: int,
    shutdown: Shutdown, found: set<SessionId>)

  const GOING_AWAY := 1001
  const NORMAL_CLOSURE := 1000

  datatype Action =
    | Accept(id: SessionId)
    | Register(id: SessionId)
    | TurnAway(id: SessionId)
    | CountIn(id: SessionId)
    | CloseSession(id: SessionId, code: int)
    | WriterStops(id: SessionId)
    | ReadEnds(id: SessionId)
    | Unregister(id: SessionId)
    | CountOut(id: SessionId)
    | Finish(id: SessionId)
    | BeginShutdown
    | ShutdownCloses(id: SessionId)
    | ShutdownAwaits(id: SessionId)
    | ShutdownReturns

  const EMPTY := Hub(map[], {}, false, 0, NotBegun, {})

  predicate At(h: Hub, id: SessionId, stage: Stage) {
    id in h.sessions && h.sessions[id].stage == stage
  }

  predicate Admitted(stage: Stage) {
    !stage.Accepted? && !stage.Refused? && !stage.TurnedAway?
  }

  predicate Enabled(h: Hub, a: Action) {
    match a
    case Accept(id) => id !in h.sessions
    case Register(id) => At(h, id, Accepted)
    case TurnAway(id) => At(h, id, Refused)
    case CountIn(id) => At(h, id, Registered)
    case CloseSession(id, _) => id in h.sessions && Admitted(h.sessions[id].stage)
    case WriterStops(id) => id in h.sessions && h.sessions[id].writing
    case ReadEnds(id) => At(h, id, Serving)
    case Unregister(id) => At(h, id, Leaving)
    case CountOut(id) => At(h, id, Unregistered)
    case Finish(id) => At(h, id, Counted)
    case BeginShutdown => h.shutdown.NotBegun?
    case ShutdownCloses(id) => h.shutdown.Draining? && id in h.shutdown.waiting && id in h.sessions
    case ShutdownAwaits(id) => h.shutdown.Draining? && id in h.shutdown.waiting && At(h, id, Finished)
    case ShutdownReturns => h.shutdown.Draining? && h.shutdown.waiting == {}
  }

  /** `closeOnce`. */
  function Closed(s: Session, code: int): Session {
    if s.closed then s else s.(closed := true, closeCode := code, closes := s.closes + 1)
  }

  function Put(h: Hub, id: SessionId, s: Session): Hub {
    h.(sessions := h.sessions[id := s])
  }

  function Next(h: Hub, a: Action): Hub
    requires Enabled(h, a)
  {
    match a
    case Accept(id) => Put(h, id, Session(Accepted, false, 0, 0, 0, false))
    case Register(id) =>
      if h.closing then Put(h, id, h.sessions[id].(stage := Refused))
      else Put(h, id, h.sessions[id].(stage := Registered)).(registry := h.registry + {id})
    case TurnAway(id) => Put(h, id, h.sessions[id].(stage := TurnedAway, dones := h.sessions[id].dones + 1))
    case CountIn(id) => Put(h, id, h.sessions[id].(stage := Serving, writing := true)).(gauge := h.gauge + 1)
    case CloseSession(id, code) => Put(h, id, Closed(h.sessions[id], code))
    case WriterStops(id) => Put(h, id, h.sessions[id].(writing := false))
    // A timeout's own close code is a CloseSession just before.
    case ReadEnds(id) => Put(h, id, Closed(h.sessions[id].(stage := Leaving), NORMAL_CLOSURE))
    case Unregister(id) => Put(h, id, h.sessions[id].(stage := Unregistered)).(registry := h.registry - {id})
    case CountOut(id) => Put(h, id, h.sessions[id].(stage := Counted)).(gauge := h.gauge - 1)
    case Finish(id) => Put(h, id, h.sessions[id].(stage := Finished, dones := h.sessions[id].dones + 1))
    case BeginShutdown => h.(closing := true, shutdown := Draining(h.registry), found := h.registry)
    case ShutdownCloses(id) => Put(h, id, Closed(h.sessions[id], GOING_AWAY))
    case ShutdownAwaits(id) => h.(shutdown := Draining(h.shutdown.waiting - {id}))
    case ShutdownReturns => h.(shutdown := Returned)
  }

  // ---- the invariant ----

  ghost predicate SessionOk(s: Session) {
    && s.closes == (if s.closed then 1 else 0)
    && s.dones == (if s.stage.Finished? || s.stage.TurnedAway? then 1 else 0)
  }

  predicate InRegistry(stage: Stage) {
    stage.Registered? || stage.Serving? || stage.Leaving?
  }

  predicate IsCounted(stage: Stage) {
    stage.Serving? || stage.Leaving? || stage.Unregistered?
  }

  ghost function CountedIn(h: Hub): set<SessionId> {
    set id <- h.sessions | IsCounted(h.sessions[id].stage)
  }

  ghost predicate SessionsOk(h: Hub) {
    forall id <- h.sessions :: SessionOk(h.sessions[id])
  }

  ghost predicate RegistryOk(h: Hub) {
    forall id :: id in h.registry <==> id in h.sessions && InRegistry(h.sessions[id].stage)
  }

  /** The sessions a shutdown found are the ones it still waits for and the ones that have finished. */
  ghost predicate DrainOk(h: Hub) {
    && (h.closing <==> !h.shutdown.NotBegun?)
    && (h.shutdown.Draining? ==> h.registry <= h.shutdown.waiting <= h.found)
    && (h.shutdown.Returned? ==> h.registry == {})
    && (forall id <- h.found :: id in h.sessions && Admitted(h.sessions[id].stage))
    && (h.shutdown.Draining? ==> forall id <- h.found :: id !in h.shutdown.waiting ==> At(h, id, Finished))
    && (h.shutdown.Returned? ==> forall id <- h.found :: At(h, id, Finished))
  }

  ghost predicate Inv(h: Hub) {
    && SessionsOk(h)
    && RegistryOk(h)
    && h.gauge == |CountedIn(h)|
    && DrainOk(h)
  }

  lemma GaugeFollows(h: Hub, v: Hub, id: SessionId)
    requires id in v.sessions && v.sessions == h.sessions[id := v.sessions[id]]
    ensures CountedIn(v) == (if IsCounted(v.sessions[id].stage) then CountedIn(h) + {id} else CountedIn(h) - {id})
    ensures |CountedIn(v)| == |CountedIn(h)| + (if IsCounted(v.sessions[id].stage) then 1 else 0)
                            - (if id in h.sessions && IsCounted(h.sessions[id].stage) then 1 else 0)
  {
    assert CountedIn(v) == (if IsCounted(v.sessions[id].stage) then CountedIn(h) + {id} else CountedIn(h) - {id});
  }

  lemma StepKeepsSessionsOk(h: Hub, a: Action)
    requires SessionsOk(h) && Enabled(h, a)
    ensures SessionsOk(Next(h, a))
  {
  }

  lemma StepKeepsRegistryOk(h: Hub, a: Action)
    requires RegistryOk(h) && Enabled(h, a)
    ensures RegistryOk(Next(h, a))
  {
  }

  lemma SameSessionsCount(h: Hub, v: Hub)
    requires v.sessions == h.sessions
    ensures CountedIn(v) == CountedIn(h)
  {
  }

  lemma StepKeepsGauge(h: Hub, a: Action)
    requires h.gauge == |CountedIn(h)| && Enabled(h, a)
    ensures Next(h, a).gauge == |CountedIn(Next(h, a))|
  {
    hide CountedIn;
    var v := Next(h, a);
    if v.sessions == h.sessions { SameSessionsCount(h, v); } else { GaugeFollows(h, v, a.id); }
  }

  lemma StepKeepsDrainOk(h: Hub, a: Action)
    requires RegistryOk(h) && DrainOk(h) && Enabled(h, a)
    ensures DrainOk(Next(h, a))
  {
  }

  lemma StepKeepsInv(h: Hub, a: Action)
    requires Inv(h) && Enabled(h, a)
    ensures Inv(Next(h, a))
  {
    hide Enabled, Next, SessionsOk, RegistryOk, DrainOk, CountedIn;
    StepKeepsSessionsOk(h, a);
    StepKeepsRegistryOk(h, a);
    StepKeepsGauge(h, a);
    StepKeepsDrainOk(h, a);
  }

  /** Nothing registers once the hub is closing, and a session's first close code stays: 1000 when its read loop ends,
      1001 when the shutdown gets to it. */
  lemma StepIsSafe(h: Hub, a: Action, id: SessionId)
    requires Inv(h) && Enabled(h, a)
    ensures h.closing ==> Next(h, a).closing && Next(h, a).registry <= h.registry
    ensures id in h.sessions ==> id in Next(h, a).sessions
    ensures id in h.sessions && h.sessions[id].closed ==> Next(h, a).sessions[id].closed
    ensures id in h.sessions && h.sessions[id].closed ==> Next(h, a).sessions[id].closeCode == h.sessions[id].closeCode
    ensures a == ReadEnds(id) || a == ShutdownCloses(id) ==> Next(h, a).sessions[id].closed
    ensures a == ReadEnds(id) && !h.sessions[id].closed ==> Next(h, a).sessions[id].closeCode == 1000
    ensures a == ShutdownCloses(id) && !h.sessions[id].closed ==> Next(h, a).sessions[id].closeCode == 1001
  {
    hide CountedIn;
  }

  ghost predicate RunFrom(h: Hub, actions: seq<Action>)
    decreases |actions|
  {
    actions != [] ==> Enabled(h, actions[0]) && RunFrom(Next(h, actions[0]), actions[1..])
  }

  function Run(h: Hub, actions: seq<Action>): Hub
    requires RunFrom(h, actions)
    decreases |actions|
  {
    if actions == [] then h else Run(Next(h, actions[0]), actions[1..])
  }

  lemma {:induction false} RunKeepsInv(h: Hub, actions: seq<Action>)
    requires Inv(h) && RunFrom(h, actions)
    ensures Inv(Run(h, actions))
    decreases |actions|
  {
    if actions != [] {
      StepKeepsInv(h, actions[0]);
      RunKeepsInv(Next(h, actions[0]), actions[1..]);
    }
  }

  /** Over every run each session's `closed` and `done` channels are closed at most once, the gauge is the number
      of sessions between counting in and counting out, and the registry holds exactly those registered and not
      yet unregistered. */
  lemma LifecycleIsSafe(actions: seq<Action>)
    requires RunFrom(EMPTY, actions)
    ensures var h := Run(EMPTY, actions);
      && (forall id <- h.sessions :: h.sessions[id].closes <= 1 && h.sessions[id].dones <= 1)
      && h.gauge == |set id <- h.sessions | At(h, id, Serving) || At(h, id, Leaving) || At(h, id, Unregistered)|
      && (forall id :: id in h.registry <==> At(h, id, Registered) || At(h, id, Serving) || At(h, id, Leaving))
      && (h.closing <==> !h.shutdown.NotBegun?)
  {
    assert CountedIn(EMPTY) == {};
    RunKeepsInv(EMPTY, actions);
    var h := Run(EMPTY, actions);
    assert CountedIn(h) == set id <- h.sessions | At(h, id, Serving) || At(h, id, Leaving) || At(h, id, Unregistered);
  }

  /** When the shutdown has returned, the registry is empty and every session it found has finished. The gauge is 0
      exactly when no session is between leaving the registry and counting itself out: such a session was gone
      from the registry before the shutdown looked, so nobody waits for it. */
  lemma ShutdownDrains(actions: seq<Action>)
    requires RunFrom(EMPTY, actions) && Run(EMPTY, actions).shutdown.Returned?
    ensures var h := Run(EMPTY, actions);
      && h.registry == {}
      && (forall id <- h.found :: At(h, id, Finished))
      && h.gauge == |set id <- h.sessions | At(h, id, Unregistered)|
      && (h.gauge == 0 <==> forall id <- h.sessions :: !At(h, id, Unregistered))
      && (forall id <- h.sessions :: At(h, id, Unregistered) ==> id !in h.found)
  {
    assert CountedIn(EMPTY) == {};
    RunKeepsInv(EMPTY, actions);
    var h := Run(EMPTY, actions);
    assert forall id <- h.sessions :: InRegistry(h.sessions[id].stage) ==> id in h.registry;
    assert CountedIn(h) == set id <- h.sessions | At(h, id, Unregistered);
    if id :| id in h.sessions && At(h, id, Unregistered) { assert id in CountedIn(h); }
  }

  lemma RunOfNone(h: Hub)
    ensures RunFrom(h, []) && Run(h, []) == h
  {
  }

  /** Session 1 has left the registry and has not counted itself out. */
  const LEFT_BUT_COUNTED :=
    Hub(map[1 := Session(Unregistered, true, NORMAL_CLOSURE, 1, 0, true)], {}, false, 1, NotBegun, {})

  lemma SessionCanLeaveFirst()
    ensures var start := [Accept(1), Register(1), CountIn(1), ReadEnds(1), Unregister(1)];
      RunFrom(EMPTY, start) && Run(EMPTY, start) == LEFT_BUT_COUNTED
  {
    var start := [Accept(1), Register(1), CountIn(1), ReadEnds(1), Unregister(1)];
    var h1 := Next(EMPTY, start[0]);
    var h2 := Next(h1, start[1]);
    var h3 := Next(h2, start[2]);
    var h4 := Next(h3, start[3]);
    var h5 := Next(h4, start[4]);
    assert h5 == LEFT_BUT_COUNTED;
    hide RunFrom, Run, Next, Enabled;
    RunOfNone(h5);
    Unroll(h4, start[4..]);
    Unroll(h3, start[3..]);
    Unroll(h2, start[2..]);
    Unroll(h1, start[1..]);
    Unroll(EMPTY, start);
  }

  /** A shutdown that begins then finds nobody and returns at once, with the gauge at 1. */
  lemma ShutdownMayReturnBeforeGaugeDrops()
    ensures var end := [BeginShutdown, ShutdownReturns];
      && RunFrom(LEFT_BUT_COUNTED, end)
      && Run(LEFT_BUT_COUNTED, end).shutdown.Returned? && Run(LEFT_BUT_COUNTED, end).gauge == 1
  {
    var end := [BeginShutdown, ShutdownReturns];
    var h1 := Next(LEFT_BUT_COUNTED, end[0]);
    var h2 := Next(h1, end[1]);
    assert h2.shutdown.Returned? && h2.gauge == 1;
    hide RunFrom, Run, Next, Enabled;
    RunOfNone(h2);
    Unroll(h1, end[1..]);
    Unroll(LEFT_BUT_COUNTED, end);
  }

  lemma Unroll(h: Hub, actions: seq<Action>)
    requires actions != [] && Enabled(h, actions[0]) && RunFrom(Next(h, actions[0]), actions[1..])
    ensures RunFrom(h, actions) && Run(h, actions) == Run(Next(h, actions[0]), actions[1..])
  {
  }

  // ---- the drain can always finish ----

  /** How many steps a session the shutdown waits for still needs, counting its writer and its close. */
  function StepsLeft(s: Session): nat {
    (if s.closed then 0 else 1) + (if s.writing then 1 else 0) +
    match s.stage
    case Accepted => 0
    case Refused => 0
    case Registered => 6
    case Serving => 4
    case Leaving => 3
    case Unregistered => 2
    case Counted => 1
    case Finished => 0
    case TurnedAway => 0
  }

  /** The next step of a session that a shutdown waits for: it is closed, its writer says goodbye and drops the
      connection, its read loop ends, its cleanup runs. */
  function NextStep(h: Hub, id: SessionId): Action
    requires id in h.sessions
  {
    var s := h.sessions[id];
    match s.stage
    case Registered => CountIn(id)
    case Serving => if !s.closed then ShutdownCloses(id) else if s.writing then WriterStops(id) else ReadEnds(id)
    case Leaving => Unregister(id)
    case Unregistered => CountOut(id)
    case Counted => Finish(id)
    case _ => ShutdownAwaits(id)
  }

  /** Only the given sessions have moved. */
  ghost predicate Untouched(h: Hub, v: Hub, moved: set<SessionId>) {
    forall id <- h.sessions :: id !in moved ==> id in v.sessions && v.sessions[id] == h.sessions[id]
  }

  lemma {:induction false} SessionCanFinish(h: Hub, id: SessionId) returns (actions: seq<Action>)
    requires Inv(h) && h.shutdown.Draining? && id in h.shutdown.waiting
    ensures RunFrom(h, actions) && Inv(Run(h, actions))
    ensures Run(h, actions).shutdown == Draining(h.shutdown.waiting - {id})
    ensures Untouched(h, Run(h, actions), {id})
    decreases StepsLeft(h.sessions[id])
  {
    var a := NextStep(h, id);
    var v := Next(h, a);
    StepKeepsInv(h, a);
    if a == ShutdownAwaits(id) {
      actions := [a];
    } else {
      var rest := SessionCanFinish(v, id);
      actions := [a] + rest;
      assert actions[1..] == rest;
    }
    Unroll(h, actions);
  }

  lemma {:induction false} RunConcat(h: Hub, a: seq<Action>, b: seq<Action>)
    requires RunFrom(h, a) && RunFrom(Run(h, a), b)
    ensures RunFrom(h, a + b) && Run(h, a + b) == Run(Run(h, a), b)
    decreases |a|
  {
    if a == [] {
      assert a + b == b;
    } else {
      assert (a + b)[1..] == a[1..] + b;
      RunConcat(Next(h, a[0]), a[1..], b);
    }
  }

  /** A shutdown is never stuck: from every reachable state it can be run to its return, moving only the sessions it
      waits for. */
  lemma {:induction false} ShutdownCanFinish(h: Hub) returns (actions: seq<Action>)
    requires Inv(h) && h.shutdown.Draining?
    ensures RunFrom(h, actions) && Inv(Run(h, actions)) && Run(h, actions).shutdown.Returned?
    ensures Untouched(h, Run(h, actions), h.shutdown.waiting)
    decreases |h.shutdown.waiting|
  {
    if h.shutdown.waiting == {} {
      actions := [ShutdownReturns];
      StepKeepsInv(h, ShutdownReturns);
      Unroll(h, actions);
    } else {
      var id :| id in h.shutdown.waiting;
      var first := SessionCanFinish(h, id);
      var rest := ShutdownCanFinish(Run(h, first));
      RunConcat(h, first, rest);
      actions := first + rest;
    }
  }

  // ---- when the gauge is 0 at the end ----

  /** Every run from here on that returns from the shutdown ends with nobody counted. */
  ghost predicate DrainsGauge(h: Hub) {
    forall actions: seq<Action> :: RunFrom(h, actions) && Run(h, actions).shutdown.Returned? ==>
      Run(h, actions).gauge == 0
  }

  /** Every session still to be counted out is one the shutdown found. */
  ghost predicate AllFound(h: Hub) {
    h.closing && forall id <- h.sessions ::
      InRegistry(h.sessions[id].stage) || h.sessions[id].stage.Unregistered? ==> id in h.found
  }

  lemma StepKeepsAllFound(h: Hub, a: Action)
    requires DrainOk(h) && AllFound(h) && Enabled(h, a)
    ensures AllFound(Next(h, a))
  {
  }

  lemma {:induction false} AllFoundDrains(h: Hub, actions: seq<Action>)
    requires Inv(h) && AllFound(h) && RunFrom(h, actions) && Run(h, actions).shutdown.Returned?
    ensures Run(h, actions).gauge == 0
    decreases |actions|
  {
    if actions == [] {
      assert CountedIn(h) == {};
    } else {
      hide Next, Enabled, CountedIn, SessionsOk, RegistryOk, AllFound;
      StepKeepsInv(h, actions[0]);
      StepKeepsAllFound(h, actions[0]);
      AllFoundDrains(Next(h, actions[0]), actions[1..]);
    }
  }

  /** The gauge is sure to be 0 when a shutdown returns exactly when, as it begins, no session is between leaving
      the registry and counting itself out. */
  lemma ShutdownDrainsGaugeIff(h: Hub)
    requires Inv(h) && h.shutdown.NotBegun?
    ensures DrainsGauge(Next(h, BeginShutdown)) <==> forall id <- h.sessions :: !At(h, id, Unregistered)
  {
    var v := Next(h, BeginShutdown);
    StepKeepsInv(h, BeginShutdown);
    if id :| id in h.sessions && At(h, id, Unregistered) {
      var actions := ShutdownCanFinish(v);
      assert id !in v.shutdown.waiting;
      assert id in CountedIn(Run(v, actions));
    } else {
      assert AllFound(v);
      forall actions: seq<Action> | RunFrom(v, actions) && Run(v, actions).shutdown.Returned?
        ensures Run(v, actions).gauge == 0
      {
        AllFoundDrains(v, actions);
      }
    }
  }
}
