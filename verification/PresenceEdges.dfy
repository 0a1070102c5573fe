/** One user's gateway sessions driving the presence scripts (backend/internal/ws/session.go): which calls answer
    "first" and "last" over whole runs without crashes or Redis errors. */
module PresenceEdges {
  import opened Presence

  const HEARTBEAT_TIMEOUT: int := 90_000
  /** The longest an identify or a cleanup may take: the timeout of its context. */
  const HANDLER_TIMEOUT: int := 10_000

  /** An identified session: when its last script ran, and when its read deadline falls. */
  datatype Session = Session(seenAt: int, deadline: int)

  /** `edges` lists the scripts' answers in the order of the scripts: true for first, false for last. */
  datatype World = World(ops: seq<Op>, active: map<SessionId, Session>, used: set<SessionId>, edges: seq<bool>)

  datatype Action =
    | Identify(session: SessionId, at: int, deadline: int)
    | Heartbeat(session: SessionId, at: int, deadline: int)
    | Cleanup(session: SessionId, at: int)

  const START := World([], map[], {}, [])

  /** Time moves on, and no session outlives its read deadline by more than its cleanup may take. A socket
      identifies once; the deadline is set after the identify's work, or before a heartbeat's script. */
  ghost predicate Enabled(w: World, a: Action) {
    && LastTime(w.ops) <= a.at
    && (forall s <- w.active :: a.at <= w.active[s].deadline + HANDLER_TIMEOUT)
    && match a
       case Identify(s, at, deadline) => s !in w.used && deadline <= at + HANDLER_TIMEOUT + HEARTBEAT_TIMEOUT
       case Heartbeat(s, at, deadline) => s in w.active && deadline <= at + HEARTBEAT_TIMEOUT
       case Cleanup(s, _) => s in w.active
  }

  /** The script an action calls. */
  function OpOf(a: Action): Op {
    match a
    case Identify(s, at, _) => Connected(s, at)
    case Heartbeat(s, at, _) => Beat(s, at)
    case Cleanup(s, at) => Left(s, at)
  }

  function Next(w: World, a: Action): World {
    var live := Live(Replay(w.ops), a.at);
    match a
    case Identify(s, at, deadline) =>
      World(w.ops + [OpOf(a)], w.active[s := Session(at, deadline)], w.used + {s},
            if live == {} then w.edges + [true] else w.edges)
    case Heartbeat(s, at, deadline) =>
      w.(ops := w.ops + [OpOf(a)], active := w.active[s := Session(at, deadline)])
    case Cleanup(s, at) =>
      w.(ops := w.ops + [OpOf(a)], active := w.active - {s},
         edges := if live - {s} == {} then w.edges + [false] else w.edges)
  }

  ghost predicate Alternates(edges: seq<bool>) {
    forall i :: 0 <= i < |edges| ==> edges[i] == (i % 2 == 0)
  }

  ghost predicate Inv(w: World) {
    && Monotone(w.ops)
    && LastSeen(w.ops) == (map s <- w.active :: w.active[s].seenAt)
    && (forall s <- w.active :: w.active[s].deadline <= w.active[s].seenAt + HANDLER_TIMEOUT + HEARTBEAT_TIMEOUT)
    && w.active.Keys <= w.used
    && Alternates(w.edges)
    && (|w.edges| % 2 == 1 <==> w.active != map[])
  }

  /** The read deadline keeps every session inside the liveness window, so the scripts count exactly the
      identified sessions that have not cleaned up. */
  lemma LiveIsActive(w: World, a: Action)
    requires Inv(w) && Enabled(w, a)
    ensures Live(Replay(w.ops), a.at) == w.active.Keys
  {
    LiveRefinesHistory(w.ops, a.at);
    hide Live;
    forall s | s in w.active ensures s in Live(Replay(w.ops), a.at) {
      assert s in LastSeen(w.ops);
    }
  }

  lemma StepKeepsInv(w: World, a: Action)
    requires Inv(w) && Enabled(w, a)
    ensures Inv(Next(w, a))
  {
    hide Live, Monotone, LastSeen, Replay;
    LiveIsActive(w, a);
    Snoc(w.ops, OpOf(a));
    var v := Next(w, a);
    match a {
      case Identify(s, _, _) => assert s in v.active;
      case Heartbeat(s, _, _) => assert s in v.active;
      case Cleanup(s, _) => assert v.active.Keys == w.active.Keys - {s};
    }
  }

  ghost predicate RunFrom(w: World, actions: seq<Action>)
    decreases |actions|
  {
    actions != [] ==> Enabled(w, actions[0]) && RunFrom(Next(w, actions[0]), actions[1..])
  }

  function Run(w: World, actions: seq<Action>): World
    decreases |actions|
  {
    if actions == [] then w else Run(Next(w, actions[0]), actions[1..])
  }

  lemma {:induction false} RunKeepsInv(w: World, actions: seq<Action>)
    requires Inv(w) && RunFrom(w, actions)
    ensures Inv(Run(w, actions))
    decreases |actions|
  {
    if actions != [] {
      StepKeepsInv(w, actions[0]);
      RunKeepsInv(Next(w, actions[0]), actions[1..]);
    }
  }

  lemma StartsInInv()
    ensures Inv(START)
  {
    assert LastSeen([]) == map[];
  }

  /** Over every run the scripts' answers alternate first, last, first, ..., and the latest one is first exactly when
      some identified session has not cleaned up. */
  lemma EdgesAlternate(actions: seq<Action>)
    requires RunFrom(START, actions)
    ensures var w := Run(START, actions);
      && (forall i :: 0 <= i < |w.edges| ==> w.edges[i] == (i % 2 == 0))
      && (w.active != map[] <==> w.edges != [] && w.edges[|w.edges| - 1])
  {
    StartsInInv();
    hide Run, RunFrom, Monotone, LastSeen;
    RunKeepsInv(START, actions);
  }

  /** How long a session may be silent here: 100 s from its identify to its deadline, 90 s after a heartbeat, and 10 s
      more until its cleanup has run. */
  lemma SilenceIsBounded(at: int)
    ensures var w := Next(START, Identify(1, 0, 100_000));
      && Enabled(START, Identify(1, 0, 100_000)) && !Enabled(START, Identify(1, 0, 100_001))
      && (at >= 0 ==> (Enabled(w, Cleanup(1, at)) <==> at <= 110_000))
      && (0 <= at <= 110_000 ==>
            Enabled(w, Heartbeat(1, at, at + 90_000)) && !Enabled(w, Heartbeat(1, at, at + 90_001)))
  {
  }

  /** Without the read deadline the answers need not alternate: a session silent for 121 s is forgotten, and the
      next one answers "first" again. */
  lemma SilentSessionBreaksAlternation()
    ensures Next(Next(START, Identify(1, 0, 100_000)), Identify(2, 121_000, 221_000)).edges == [true, true]
  {
    var w := Next(START, Identify(1, 0, 100_000));
    assert w.ops == [Connected(1, 0)];
    assert w.ops[..0] == [];
    assert Replay(w.ops) == Touch(NO_KEYS, 1, 0);
    assert Live(NO_KEYS, 0) == {} && Live(Touch(NO_KEYS, 1, 0), 121_000) == {};
  }
}
