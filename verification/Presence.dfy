/** Redis-backed presence of one user (backend/internal/presence/presence.go): three atomic scripts over a sorted
    set of sessions and two keys with a lifetime, on one monotone clock in milliseconds. */
module Presence {
  import opened Wrappers

  type SessionId = nat
  type UserId = nat

  const PRESENCE_TTL_SECS: int := 70
  const WINDOW_SECS: int := 120

  /** The scores the gateways write are whole seconds. */
  function Secs(ms: int): int { ms / 1000 }

  /** `conns` with an empty map stands for the missing key; both keys are gone once the clock passes their expiry. */
  datatype Keys = Keys(conns: map<SessionId, int>, connsExpiry: int, presence: Option<int>)

  const NO_KEYS := Keys(map[], 0, None)

  function Conns(k: Keys, now: int): map<SessionId, int> {
    if now > k.connsExpiry then map[] else k.conns
  }

  predicate IsOnline(k: Keys, now: int) {
    k.presence.Some? && now <= k.presence.value
  }

  /** ZREMRANGEBYSCORE -inf (cutoff: members seen before the window go. */
  function Prune(conns: map<SessionId, int>, now: int): map<SessionId, int> {
    map s <- conns | conns[s] >= Secs(now) - WINDOW_SECS :: conns[s]
  }

  function Touch(k: Keys, s: SessionId, now: int): Keys {
    Keys(Prune(Conns(k, now), now)[s := Secs(now)], now + 1000 * WINDOW_SECS, Some(now + 1000 * PRESENCE_TTL_SECS))
  }

  /** The sessions the scripts count as live at `now`. */
  function Live(k: Keys, now: int): set<SessionId> {
    Prune(Conns(k, now), now).Keys
  }

  function Leave(k: Keys, s: SessionId, now: int): Keys {
    var rest := Prune(Conns(k, now) - {s}, now);
    if rest == map[] then k.(conns := map[], presence := None) else k.(conns := rest)
  }

  // ---- the scripts ----

  class Tracker {
    var keys: map<UserId, Keys>

    constructor ()
      ensures keys == map[]
    {
      keys := map[];
    }

    function KeysOf(user: UserId): Keys
      reads this
    {
      if user in keys then keys[user] else NO_KEYS
    }

    method Connect(user: UserId, session: SessionId, now: int) returns (first: bool)
      modifies this
      ensures keys == old(keys)[user := Touch(old(KeysOf(user)), session, now)]
      ensures first <==> old(Live(KeysOf(user), now)) == {}
    {
      var k := KeysOf(user);
      var conns := Prune(Conns(k, now), now);
      var before := |conns|;
      conns := conns[session := Secs(now)];
      keys := keys[user := Keys(conns, now + 1000 * WINDOW_SECS, Some(now + 1000 * PRESENCE_TTL_SECS))];
      first := before == 0;
    }

    method Heartbeat(user: UserId, session: SessionId, now: int)
      modifies this
      ensures keys == old(keys)[user := Touch(old(KeysOf(user)), session, now)]
    {
      var k := KeysOf(user);
      var conns := Prune(Conns(k, now), now);
      conns := conns[session := Secs(now)];
      keys := keys[user := Keys(conns, now + 1000 * WINDOW_SECS, Some(now + 1000 * PRESENCE_TTL_SECS))];
    }

    method Disconnect(user: UserId, session: SessionId, now: int) returns (last: bool)
      modifies this
      ensures keys == old(keys)[user := Leave(old(KeysOf(user)), session, now)]
      ensures last <==> old(Live(KeysOf(user), now)) - {session} == {}
    {
      var k := KeysOf(user);
      var conns := Conns(k, now) - {session};
      conns := Prune(conns, now);
      assert conns.Keys == Live(k, now) - {session};
      var remaining := |conns|;
      if remaining == 0 {
        keys := keys[user := k.(conns := map[], presence := None)];
        return true;
      }
      keys := keys[user := k.(conns := conns)];
      last := false;
    }

    /** MGET over the presence keys. */
    method Statuses(users: seq<UserId>, now: int) returns (out: map<UserId, bool>)
      ensures out == map u <- users :: IsOnline(KeysOf(u), now)
    {
      out := map[];
      for i := 0 to |users|
        invariant out == map u <- users[..i] :: IsOnline(KeysOf(u), now)
      {
        var k := KeysOf(users[i]);
        assert users[..i + 1] == users[..i] + [users[i]];
        out := out[users[i] := k.presence.Some? && now <= k.presence.value];
      }
      assert users[..|users|] == users;
    }
  }

  // ---- against the history of when each session was last seen ----

  datatype Op =
    | Connected(session: SessionId, at: int)
    | Beat(session: SessionId, at: int)
    | Left(session: SessionId, at: int)

  function Apply(k: Keys, op: Op): Keys {
    if op.Left? then Leave(k, op.session, op.at) else Touch(k, op.session, op.at)
  }

  function Replay(ops: seq<Op>): Keys {
    if ops == [] then NO_KEYS else Apply(Replay(ops[..|ops| - 1]), ops[|ops| - 1])
  }

  /** When each session was last seen and has not left since: no windows, no expiry. */
  function LastSeen(ops: seq<Op>): map<SessionId, int> {
    if ops == [] then map[]
    else
      var seen, op := LastSeen(ops[..|ops| - 1]), ops[|ops| - 1];
      if op.Left? then seen - {op.session} else seen[op.session := op.at]
  }

  function LastTime(ops: seq<Op>): int {
    if ops == [] then 0 else ops[|ops| - 1].at
  }

  predicate Monotone(ops: seq<Op>) {
    ops != [] ==> LastTime(ops[..|ops| - 1]) <= LastTime(ops) && Monotone(ops[..|ops| - 1])
  }

  /** One more operation. */
  lemma Snoc(ops: seq<Op>, op: Op)
    requires Monotone(ops) && LastTime(ops) <= op.at
    ensures Monotone(ops + [op]) && LastTime(ops + [op]) == op.at
    ensures Replay(ops + [op]) == Apply(Replay(ops), op)
    ensures LastSeen(ops + [op]) ==
      if op.Left? then LastSeen(ops) - {op.session} else LastSeen(ops)[op.session := op.at]
  {
    assert (ops + [op])[..|ops + [op]| - 1] == ops;
  }

  /** What links the keys to the history. A session the set no longer holds was unseen for over the window; the
      set outlives every member; the presence key follows the set. */
  ghost predicate Tracks(k: Keys, seen: map<SessionId, int>, now: int) {
    && (forall s <- k.conns ::
      s in seen && k.conns[s] == Secs(seen[s]) && seen[s] + 120_000 <= k.connsExpiry)
    && (forall s <- seen :: 0 <= seen[s] <= now && (s !in k.conns ==> now - seen[s] > 120_000))
    && (k.presence.Some? ==>
      k.conns != map[] && k.connsExpiry - k.presence.value == 50_000)
    && (forall s <- seen :: now - seen[s] <= 70_000 ==>
          k.presence.Some? && seen[s] + 70_000 <= k.presence.value)
  }

  lemma TouchTracks(k: Keys, seen: map<SessionId, int>, now: int, s: SessionId, at: int)
    requires Tracks(k, seen, now) && 0 <= now <= at
    ensures Tracks(Touch(k, s, at), seen[s := at], at)
  {
    var conns := Prune(Conns(k, at), at);
    forall x | x in seen && at - seen[x] <= 120_000 ensures x in conns {
      assert x in k.conns;
    }
    assert s in Touch(k, s, at).conns;
  }

  lemma LeaveTracks(k: Keys, seen: map<SessionId, int>, now: int, s: SessionId, at: int)
    requires Tracks(k, seen, now) && 0 <= now <= at
    ensures Tracks(Leave(k, s, at), seen - {s}, at)
  {
    var rest := Prune(Conns(k, at) - {s}, at);
    forall x | x in seen && x != s && at - seen[x] <= 120_000 ensures x in rest {
      assert x in k.conns;
    }
  }

  lemma {:induction false} ReplayTracks(ops: seq<Op>)
    requires Monotone(ops)
    ensures 0 <= LastTime(ops) && Tracks(Replay(ops), LastSeen(ops), LastTime(ops))
  {
    if ops != [] {
      var init, op := ops[..|ops| - 1], ops[|ops| - 1];
      ReplayTracks(init);
      if op.Left? {
        LeaveTracks(Replay(init), LastSeen(init), LastTime(init), op.session, op.at);
      } else {
        TouchTracks(Replay(init), LastSeen(init), LastTime(init), op.session, op.at);
      }
    }
  }

  /** Liveness refines the history: a session seen at most 120 s ago counts, one unseen for 121 s or more, or gone,
      does not. In between (the scores are whole seconds) either may happen. */
  lemma LiveRefinesHistory(ops: seq<Op>, now: int)
    requires Monotone(ops) && LastTime(ops) <= now
    ensures var live, seen := Live(Replay(ops), now), LastSeen(ops);
      && (forall s <- seen :: now - seen[s] <= 120_000 ==> s in live)
      && (forall s <- live :: s in seen && now - seen[s] < 121_000)
  {
    ReplayTracks(ops);
  }

  predicate WholeSeconds(ops: seq<Op>) {
    forall i :: 0 <= i < |ops| ==> ops[i].at % 1000 == 0
  }

  lemma {:induction false} SeenAtAnEvent(ops: seq<Op>, s: SessionId)
    requires s in LastSeen(ops)
    ensures exists i :: 0 <= i < |ops| && ops[i].at == LastSeen(ops)[s]
  {
    var init, op := ops[..|ops| - 1], ops[|ops| - 1];
    if op.session != s {
      SeenAtAnEvent(init, s);
      var i :| 0 <= i < |init| && init[i].at == LastSeen(init)[s];
      assert ops[i].at == LastSeen(ops)[s];
    }
  }

  /** On a clock of whole seconds liveness is exactly "seen within 120 s and not gone since". */
  lemma LiveIsExactOnWholeSeconds(ops: seq<Op>, now: int)
    requires Monotone(ops) && LastTime(ops) <= now && WholeSeconds(ops) && now % 1000 == 0
    ensures Live(Replay(ops), now) == set s <- LastSeen(ops) | now - LastSeen(ops)[s] <= 120_000
  {
    LiveRefinesHistory(ops, now);
    hide Live;
    forall s | s in Live(Replay(ops), now) ensures s in LastSeen(ops) && now - LastSeen(ops)[s] <= 120_000 {
      SeenAtAnEvent(ops, s);
    }
  }

  // ---- liveness, exactly ----

  /** When the user's sessions last connected or beat, whichever it was. */
  function LastTouch(ops: seq<Op>): Option<int> {
    if ops == [] then None
    else if ops[|ops| - 1].Left? then LastTouch(ops[..|ops| - 1])
    else Some(ops[|ops| - 1].at)
  }

  /** The whole set still stands at `now`: some session was touched within the window. */
  predicate Standing(ops: seq<Op>, now: int) {
    LastTouch(ops).Some? && now <= LastTouch(ops).value + 120_000
  }

  /** The sessions that no lapse has swept away: an operation after a silence of the whole user finds nobody. */
  function Unlapsed(ops: seq<Op>): set<SessionId> {
    if ops == [] then {}
    else
      var init, op := ops[..|ops| - 1], ops[|ops| - 1];
      var kept := if Standing(init, op.at) then Unlapsed(init) else {};
      if op.Left? then kept - {op.session} else kept + {op.session}
  }

  /** Seen within the window, as the scores in whole seconds tell it. */
  predicate InScoreWindow(seen: int, now: int) {
    now / 1000 - seen / 1000 <= 120
  }

  /** What links the keys to the history exactly. */
  ghost predicate TracksExactly(
      k: Keys, seen: map<SessionId, int>, touch: Option<int>, unlapsed: set<SessionId>, now: int) {
    && (touch.None? ==> k.conns == map[] && unlapsed == {})
    && (touch.Some? ==> k.connsExpiry == touch.value + 120_000)
    && (forall s <- unlapsed :: s in seen)
    && (forall s <- k.conns :: s in unlapsed && k.conns[s] == Secs(seen[s]))
    && (forall s <- unlapsed :: s !in k.conns ==> !InScoreWindow(seen[s], now))
  }

  /** The sessions an operation at `at` still finds. */
  function Kept(touch: Option<int>, unlapsed: set<SessionId>, at: int): set<SessionId> {
    if touch.Some? && at <= touch.value + 120_000 then unlapsed else {}
  }

  lemma TouchTracksExactly(
      k: Keys, seen: map<SessionId, int>, touch: Option<int>, unlapsed: set<SessionId>, now: int, s: SessionId, at: int)
    requires TracksExactly(k, seen, touch, unlapsed, now) && now <= at
    ensures TracksExactly(Touch(k, s, at), seen[s := at], Some(at), Kept(touch, unlapsed, at) + {s}, at)
  {
  }

  lemma LeaveTracksExactly(
      k: Keys, seen: map<SessionId, int>, touch: Option<int>, unlapsed: set<SessionId>, now: int, s: SessionId, at: int)
    requires TracksExactly(k, seen, touch, unlapsed, now) && now <= at
    ensures TracksExactly(Leave(k, s, at), seen - {s}, touch, Kept(touch, unlapsed, at) - {s}, at)
  {
    var rest := Prune(Conns(k, at) - {s}, at);
    assert Leave(k, s, at).conns == rest;
  }

  lemma {:induction false} ReplayTracksExactly(ops: seq<Op>)
    requires Monotone(ops)
    ensures TracksExactly(Replay(ops), LastSeen(ops), LastTouch(ops), Unlapsed(ops), LastTime(ops))
  {
    if ops != [] {
      var init, op := ops[..|ops| - 1], ops[|ops| - 1];
      ReplayTracksExactly(init);
      var k, seen, touch, unlapsed, now :=
        Replay(init), LastSeen(init), LastTouch(init), Unlapsed(init), LastTime(init);
      if op.Left? {
        LeaveTracksExactly(k, seen, touch, unlapsed, now, op.session, op.at);
      } else {
        TouchTracksExactly(k, seen, touch, unlapsed, now, op.session, op.at);
      }
      hide TracksExactly, Monotone, Touch, Leave;
    }
  }

  /** The scripts' liveness is a function of the history alone: a session is live exactly when it was seen within the
      score window, no lapse has swept it away, and the set still stands. */
  lemma LiveIsExactly(ops: seq<Op>, now: int)
    requires Monotone(ops) && LastTime(ops) <= now
    ensures Live(Replay(ops), now)
         == set s <- LastSeen(ops) | s in Unlapsed(ops) && Standing(ops, now) && InScoreWindow(LastSeen(ops)[s], now)
  {
    ReplayTracksExactly(ops);
    hide Monotone, Replay, LastSeen, LastTouch, Unlapsed;
  }

  /** Nobody but `except` was seen within 120 s: what "first" and "last" are meant to say. */
  ghost predicate NobodySeen(ops: seq<Op>, now: int, except: Option<SessionId>) {
    forall s <- LastSeen(ops) :: except != Some(s) ==> now - LastSeen(ops)[s] > 120_000
  }

  /** A session other than `except`, unseen for over 120 s, that still counts: within its score's last second, and
      kept by somebody's later touch. */
  ghost predicate Lingers(ops: seq<Op>, now: int, except: Option<SessionId>) {
    Standing(ops, now) && exists s <- LastSeen(ops) ::
      except != Some(s) && s in Unlapsed(ops) && InScoreWindow(LastSeen(ops)[s], now)
        && now - LastSeen(ops)[s] > 120_000
  }

  function Others(live: set<SessionId>, except: Option<SessionId>): set<SessionId> {
    if except.Some? then live - {except.value} else live
  }

  lemma NobodyCountsIff(ops: seq<Op>, now: int, except: Option<SessionId>)
    requires Monotone(ops) && LastTime(ops) <= now
    ensures Others(Live(Replay(ops), now), except) == {}
       <==> NobodySeen(ops, now, except) && !Lingers(ops, now, except)
  {
    LiveIsExactly(ops, now);
    LiveRefinesHistory(ops, now);
    hide Live, Monotone, Replay, LastSeen, LastTouch, Unlapsed, Standing, InScoreWindow;
    var others, seen := Others(Live(Replay(ops), now), except), LastSeen(ops);
    if s :| s in others {
      assert now - seen[s] > 120_000 ==> Lingers(ops, now, except);
    } else {
      forall s | s in seen && except != Some(s) ensures now - seen[s] > 120_000 {
        assert s !in others;
      }
      forall s | s in seen && except != Some(s)
        ensures !(s in Unlapsed(ops) && Standing(ops, now) && InScoreWindow(seen[s], now))
      {
        assert s !in others;
      }
    }
  }

  /** A connect answers "first" exactly when nobody was seen within 120 s and nobody lingers; so the answer is what it
      is meant to be exactly unless the only sessions that count are lingering ones. */
  lemma FirstIsExactIff(ops: seq<Op>, now: int)
    requires Monotone(ops) && LastTime(ops) <= now
    ensures Live(Replay(ops), now) == {} <==> NobodySeen(ops, now, None) && !Lingers(ops, now, None)
  {
    NobodyCountsIff(ops, now, None);
    hide NobodySeen, Lingers, Live;
  }

  /** The same for a disconnect of `session` and "last". */
  lemma LastIsExactIff(ops: seq<Op>, session: SessionId, now: int)
    requires Monotone(ops) && LastTime(ops) <= now
    ensures Live(Replay(ops), now) - {session} == {}
       <==> NobodySeen(ops, now, Some(session)) && !Lingers(ops, now, Some(session))
  {
    NobodyCountsIff(ops, now, Some(session));
    hide NobodySeen, Lingers, Live;
  }

  /** After a connect or a heartbeat, of whichever session, nobody lingers alone: "first" is exact to the
      millisecond. */
  lemma FirstIsExactAfterTouch(ops: seq<Op>, now: int)
    requires Monotone(ops) && LastTime(ops) <= now
    requires ops != [] && !ops[|ops| - 1].Left?
    ensures Live(Replay(ops), now) == {} <==> NobodySeen(ops, now, None)
  {
    FirstIsExactIff(ops, now);
    var op := ops[|ops| - 1];
    assert op.session in LastSeen(ops) && LastSeen(ops)[op.session] == op.at;
  }

  /** After a disconnect it need not be: session 2 kept the key alive, and session 1 still counts at 120.5 s although
      it was last seen at 0.1 s, so a new connect does not answer "first". */
  lemma FirstIsLateAfterLeave()
    ensures var ops := [Connected(1, 100), Connected(2, 900), Left(2, 1000)];
      Monotone(ops) && LastSeen(ops) == map[1 := 100] && Live(Replay(ops), 120_500) == {1}
  {
    var one := [Connected(1, 100)];
    var two := one + [Connected(2, 900)];
    var ops := two + [Left(2, 1000)];
    assert [] + [Connected(1, 100)] == one;
    Snoc([], Connected(1, 100));
    Snoc(one, Connected(2, 900));
    Snoc(two, Left(2, 1000));
    assert Replay(one) == Keys(map[1 := 0], 120_100, Some(70_100));
    assert Replay(two) == Keys(map[1 := 0, 2 := 0], 120_900, Some(70_900));
    assert Replay(ops).conns == map[1 := 0] && Replay(ops).connsExpiry == 120_900;
    assert ops == [Connected(1, 100), Connected(2, 900), Left(2, 1000)];
  }

  /** Nor "last", even after a touch: a disconnect of session 2 then leaves session 1 counted. */
  lemma LastIsLateAfterTouch()
    ensures Live(Replay([Connected(1, 100), Connected(2, 900)]), 120_500) - {2} == {1}
  {
    var one := [Connected(1, 100)];
    assert [] + [Connected(1, 100)] == one;
    Snoc([], Connected(1, 100));
    Snoc(one, Connected(2, 900));
    assert Replay(one) == Keys(map[1 := 0], 120_100, Some(70_100));
    assert Replay(one + [Connected(2, 900)]) == Keys(map[1 := 0, 2 := 0], 120_900, Some(70_900));
    assert one + [Connected(2, 900)] == [Connected(1, 100), Connected(2, 900)];
  }

  // ---- what the key-wide expiry costs ----

  /** The same scripts on a set that never expires as a whole. */
  function ReplayByScores(ops: seq<Op>): map<SessionId, int> {
    if ops == [] then map[]
    else
      var before, op := ReplayByScores(ops[..|ops| - 1]), ops[|ops| - 1];
      if op.Left? then Prune(before - {op.session}, op.at) else Prune(before, op.at)[op.session := Secs(op.at)]
  }

  function LiveByScores(ops: seq<Op>, now: int): set<SessionId> {
    Prune(ReplayByScores(ops), now).Keys
  }

  ghost predicate ScoresTrack(ops: seq<Op>) {
    var conns, seen := ReplayByScores(ops), LastSeen(ops);
    && (forall s <- conns :: s in seen && conns[s] == Secs(seen[s]))
    && (forall s <- seen :: s !in conns ==> !InScoreWindow(seen[s], LastTime(ops)))
  }

  lemma {:induction false} ReplayByScoresTracks(ops: seq<Op>)
    requires Monotone(ops)
    ensures ScoresTrack(ops)
  {
    if ops != [] {
      ReplayByScoresTracks(ops[..|ops| - 1]);
      hide Monotone;
    }
  }

  /** The whole-key expiry loses a member that per-member pruning keeps, now or at any operation before, exactly when
      the member is in its score window while the set has lapsed, or had lapsed at an operation since it was seen. */
  lemma ExpiryLosesMemberIff(ops: seq<Op>, now: int, s: SessionId)
    requires Monotone(ops) && LastTime(ops) <= now
    ensures Live(Replay(ops), now) <= LiveByScores(ops, now)
    ensures s in LiveByScores(ops, now) && s !in Live(Replay(ops), now)
       <==> s in LastSeen(ops) && InScoreWindow(LastSeen(ops)[s], now) && !(Standing(ops, now) && s in Unlapsed(ops))
  {
    LiveIsExactly(ops, now);
    ReplayByScoresTracks(ops);
    hide Monotone, Replay, Live, LastSeen, LastTouch, Unlapsed, ReplayByScores;
  }

  /** Whenever that happens, the member was last seen more than 120 s and less than 121 s ago. */
  lemma ExpiryLossIsSubSecond(ops: seq<Op>, now: int, s: SessionId)
    requires Monotone(ops) && LastTime(ops) <= now
    requires s in LiveByScores(ops, now) && s !in Live(Replay(ops), now)
    ensures s in LastSeen(ops) && 120_000 < now - LastSeen(ops)[s] < 121_000
  {
    ExpiryLosesMemberIff(ops, now, s);
    LiveRefinesHistory(ops, now);
  }

  /** A session seen at 0.1 s would be kept by its score at 120.5 s, but the key expired at 120.1 s. */
  lemma ExpiryLossHappens()
    ensures 7 in LiveByScores([Connected(7, 100)], 120_500) && 7 !in Live(Replay([Connected(7, 100)]), 120_500)
  {
    assert [Connected(7, 100)][..0] == [];
  }

  // ---- who is shown online ----

  /** Since the last connect or heartbeat, some disconnect left nobody live: nobody else was seen within 120 s, and
      nobody else lingered. */
  ghost predicate Deserted(ops: seq<Op>) {
    ops != [] && ops[|ops| - 1].Left? &&
      var (init, op) := (ops[..|ops| - 1], ops[|ops| - 1]);
      || Deserted(init)
      || (NobodySeen(init, op.at, Some(op.session)) && !Lingers(init, op.at, Some(op.session)))
  }

  lemma {:induction false} PresenceKeyIs(ops: seq<Op>)
    requires Monotone(ops)
    ensures Replay(ops).presence ==
      if LastTouch(ops).Some? && !Deserted(ops) then Some(LastTouch(ops).value + 70_000) else None
  {
    if ops != [] {
      var init, op := ops[..|ops| - 1], ops[|ops| - 1];
      PresenceKeyIs(init);
      if op.Left? {
        LastIsExactIff(init, op.session, op.at);
        var k := Replay(init);
        assert Prune(Conns(k, op.at) - {op.session}, op.at).Keys == Live(k, op.at) - {op.session};
      }
      hide NobodySeen, Lingers, Monotone;
    }
  }

  /** Exactly when a user is shown online: some session connected or beat at most 70 s ago, and no disconnect since
      left nobody live. */
  lemma OnlineIff(ops: seq<Op>, now: int)
    requires Monotone(ops) && LastTime(ops) <= now
    ensures IsOnline(Replay(ops), now) <==>
      LastTouch(ops).Some? && now - LastTouch(ops).value <= 70_000 && !Deserted(ops)
  {
    PresenceKeyIs(ops);
  }

  /** The presence key stands only over a non-empty session set. */
  lemma OnlineMeansSessions(ops: seq<Op>, now: int)
    requires Monotone(ops) && LastTime(ops) <= now && IsOnline(Replay(ops), now)
    ensures Conns(Replay(ops), now) != map[]
  {
    ReplayTracks(ops);
  }

  /** A live user is never shown offline: 70 s after any of its sessions was last seen, whatever its other
      sessions do meanwhile. */
  lemma SeenMeansOnline(ops: seq<Op>, now: int, s: SessionId)
    requires Monotone(ops) && LastTime(ops) <= now
    requires s in LastSeen(ops) && now - LastSeen(ops)[s] <= 70_000
    ensures IsOnline(Replay(ops), now)
  {
    ReplayTracks(ops);
  }
}
