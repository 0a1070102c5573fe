/** Single-use refresh tokens (backend/internal/auth/refresh.go) and the web client's single-flight refresh
    (web/src/lib/api.js), statement by statement. */
module RefreshTokens {
  import opened Wrappers

  type Token = nat
  type UserId = nat
  type CallId = nat
  /** A login and everything rotated out of it. */
  type Family = nat

  class RefreshStore {
    var live: map<Token, UserId>

    constructor ()
      ensures live == map[]
    {
      live := map[];
    }

    /** `token` is the freshly drawn random value. */
    method Issue(user: UserId, token: Token, fails: bool) returns (r: Result<Token, StoreError>)
      modifies this
      ensures r == if fails then Failure(Unavailable) else Success(token)
      ensures live == if fails then old(live) else old(live)[token := user]
    {
      if fails {
        return Failure(Unavailable);
      }
      live := live[token := user];
      r := Success(token);
    }

    /** GETDEL, then Issue. A failure of the second statement leaves the old token consumed. */
    method Rotate(oldToken: Token, newToken: Token, consumeFails: bool, issueFails: bool)
      returns (r: Result<(UserId, Token), StoreError>)
      modifies this
      ensures consumeFails ==> r == Failure(Unavailable) && live == old(live)
      ensures !consumeFails && oldToken !in old(live) ==> r == Failure(NotFound) && live == old(live)
      ensures !consumeFails && oldToken in old(live) && issueFails ==>
        r == Failure(Unavailable) && live == old(live) - {oldToken}
      ensures !consumeFails && oldToken in old(live) && !issueFails ==>
        && r == Success((old(live)[oldToken], newToken))
        && live == (old(live) - {oldToken})[newToken := old(live)[oldToken]]
    {
      if consumeFails {
        return Failure(Unavailable);
      }
      if oldToken !in live {
        return Failure(NotFound);
      }
      var user := live[oldToken];
      live := live - {oldToken};
      var issued := Issue(user, newToken, issueFails);
      r := match issued
        case Success(t) => Success((user, t))
        case Failure(e) => Failure(e);
    }

    method Revoke(token: Token)
      modifies this
      ensures live == old(live) - {token}
    {
      live := live - {token};
    }
  }

  // ---- the server over interleaved calls ----

  /** `origin` remembers, for every token ever issued, the login it descends from; `rotating` holds the calls that
      have consumed a token and not yet issued its successor. */
  datatype Server = Server(
    live: map<Token, UserId>, origin: map<Token, Family>, owner: map<Family, UserId>,
    rotating: map<CallId, Family>, consumed: set<Token>)

  datatype Action =
    | Login(family: Family, user: UserId, token: Token)
    | Consume(call: CallId, token: Token)
    | IssueNext(call: CallId, token: Token, fails: bool)
    | Revoke(token: Token)
    | Expire(token: Token)

  const NO_TOKENS := Server(map[], map[], map[], map[], {})

  /** Random tokens never repeat. */
  predicate Enabled(s: Server, a: Action) {
    match a
    case Login(f, _, t) => f !in s.owner && t !in s.origin
    case Consume(c, t) => c !in s.rotating && (t in s.live ==> t in s.origin)
    case IssueNext(c, t, _) => c in s.rotating && s.rotating[c] in s.owner && t !in s.origin
    case Revoke(_) => true
    case Expire(_) => true
  }

  function Next(s: Server, a: Action): Server
    requires Enabled(s, a)
  {
    match a
    case Login(f, u, t) => s.(live := s.live[t := u], origin := s.origin[t := f], owner := s.owner[f := u])
    case Consume(c, t) =>
      if t !in s.live then s
      else s.(live := s.live - {t}, rotating := s.rotating[c := s.origin[t]], consumed := s.consumed + {t})
    case IssueNext(c, t, fails) =>
      var f := s.rotating[c];
      if fails then s.(rotating := s.rotating - {c})
      else s.(rotating := s.rotating - {c}, live := s.live[t := s.owner[f]], origin := s.origin[t := f])
    case Revoke(t) => s.(live := s.live - {t})
    case Expire(t) => s.(live := s.live - {t})
  }

  ghost predicate Inv(s: Server) {
    && (forall t <- s.live :: t in s.origin && s.origin[t] in s.owner && s.live[t] == s.owner[s.origin[t]])
    && (forall c <- s.rotating :: s.rotating[c] in s.owner)
    && (forall t <- s.origin :: s.origin[t] in s.owner)
    && (forall t <- s.consumed :: t in s.origin && t !in s.live)
    && (forall t, u :: t in s.live && u in s.live && s.origin[t] == s.origin[u] ==> t == u)
    && (forall c, d :: c in s.rotating && d in s.rotating && s.rotating[c] == s.rotating[d] ==> c == d)
    && (forall t, c :: t in s.live && c in s.rotating ==> s.origin[t] != s.rotating[c])
  }

  lemma ConsumeKeepsInv(s: Server, c: CallId, t: Token)
    requires Inv(s) && Enabled(s, Consume(c, t))
    ensures Inv(Next(s, Consume(c, t)))
  {
  }

  lemma IssueKeepsInv(s: Server, c: CallId, t: Token, fails: bool)
    requires Inv(s) && Enabled(s, IssueNext(c, t, fails))
    ensures Inv(Next(s, IssueNext(c, t, fails)))
  {
  }

  lemma LoginKeepsInv(s: Server, f: Family, u: UserId, t: Token)
    requires Inv(s) && Enabled(s, Login(f, u, t))
    ensures Inv(Next(s, Login(f, u, t)))
  {
  }

  lemma StepKeepsInv(s: Server, a: Action)
    requires Inv(s) && Enabled(s, a)
    ensures Inv(Next(s, a)) && s.consumed <= Next(s, a).consumed
  {
    match a {
      case Login(f, u, t) => LoginKeepsInv(s, f, u, t);
      case Consume(c, t) => ConsumeKeepsInv(s, c, t);
      case IssueNext(c, t, fails) => IssueKeepsInv(s, c, t, fails);
      case Revoke(_) =>
      case Expire(_) =>
    }
  }

  ghost predicate RunFrom(s: Server, actions: seq<Action>)
    decreases |actions|
  {
    actions != [] ==> Enabled(s, actions[0]) && RunFrom(Next(s, actions[0]), actions[1..])
  }

  function Run(s: Server, actions: seq<Action>): Server
    requires RunFrom(s, actions)
    decreases |actions|
  {
    if actions == [] then s else Run(Next(s, actions[0]), actions[1..])
  }

  lemma {:induction false} RunKeepsInv(s: Server, actions: seq<Action>)
    requires Inv(s) && RunFrom(s, actions)
    ensures Inv(Run(s, actions)) && s.consumed <= Run(s, actions).consumed
    decreases |actions|
  {
    if actions != [] {
      StepKeepsInv(s, actions[0]);
      RunKeepsInv(Next(s, actions[0]), actions[1..]);
    }
  }

  /** Over every interleaving each login has at most one live refresh token, and it stands for the user who logged
      in; while a rotation is between its two statements it has none. */
  lemma OneLiveTokenPerLogin(actions: seq<Action>)
    requires RunFrom(NO_TOKENS, actions)
    ensures var s := Run(NO_TOKENS, actions);
      && (forall t <- s.live :: t in s.origin && s.origin[t] in s.owner && s.live[t] == s.owner[s.origin[t]])
      && (forall t, u :: t in s.live && u in s.live && s.origin[t] == s.origin[u] ==> t == u)
      && (forall c <- s.rotating, t <- s.live :: s.origin[t] != s.rotating[c])
  {
    RunKeepsInv(NO_TOKENS, actions);
  }

  /** A consumed token is never accepted again. */
  lemma ConsumedStaysDead(s: Server, c: CallId, t: Token, actions: seq<Action>)
    requires Inv(s) && Enabled(s, Consume(c, t)) && t in s.live && RunFrom(Next(s, Consume(c, t)), actions)
    ensures t !in Run(Next(s, Consume(c, t)), actions).live
  {
    StepKeepsInv(s, Consume(c, t));
    RunKeepsInv(Next(s, Consume(c, t)), actions);
  }

  /** Over every run from here the login never has a live token again. */
  ghost predicate LoginIsOver(s: Server, f: Family) {
    forall actions: seq<Action> :: RunFrom(s, actions) ==> NoLiveToken(Run(s, actions), f)
  }

  ghost predicate NoLiveToken(s: Server, f: Family) {
    forall t <- s.live :: t in s.origin ==> s.origin[t] != f
  }

  /** Nothing live, and no rotation that could still issue. */
  ghost predicate Ended(s: Server, f: Family) {
    f in s.owner && NoLiveToken(s, f) && forall c <- s.rotating :: s.rotating[c] != f
  }

  lemma StepKeepsEnded(s: Server, a: Action, f: Family)
    requires Inv(s) && Enabled(s, a) && Ended(s, f)
    ensures Ended(Next(s, a), f)
  {
  }

  lemma {:induction false} EndedForGood(s: Server, actions: seq<Action>, f: Family)
    requires Inv(s) && RunFrom(s, actions) && Ended(s, f)
    ensures NoLiveToken(Run(s, actions), f)
    decreases |actions|
  {
    if actions != [] {
      StepKeepsEnded(s, actions[0], f);
      StepKeepsInv(s, actions[0]);
      EndedForGood(Next(s, actions[0]), actions[1..], f);
    }
  }

  lemma {:induction false} UnusedToken(used: set<Token>) returns (t: Token)
    ensures forall u :: u in used ==> u < t
    decreases |used|
  {
    if used == {} {
      t := 0;
    } else {
      var u :| u in used;
      var v := UnusedToken(used - {u});
      t := if u < v then v else u + 1;
      assert used == (used - {u}) + {u};
    }
  }

  /** Logging out with a token of a login ends that login for good, over every run, exactly when no other token of it is
      live and no rotation of it is between its two statements: such a rotation still issues a successor. */
  lemma RevokeEndsLoginIff(s: Server, token: Token)
    requires Inv(s) && token in s.origin
    ensures var f := s.origin[token];
      LoginIsOver(Next(s, Revoke(token)), f) <==>
        (forall c <- s.rotating :: s.rotating[c] != f) && (forall t <- s.live :: t != token ==> s.origin[t] != f)
  {
    var f, v := s.origin[token], Next(s, Revoke(token));
    StepKeepsInv(s, Revoke(token));
    if c :| c in s.rotating && s.rotating[c] == f {
      var next := UnusedToken(s.origin.Keys);
      var actions := [IssueNext(c, next, false)];
      var x := Next(v, actions[0]);
      assert RunFrom(x, actions[1..]) && Run(x, actions[1..]) == x;
      assert RunFrom(v, actions) && next in Run(v, actions).live && Run(v, actions).origin[next] == f;
      assert !NoLiveToken(Run(v, actions), f);
    } else if t :| t in s.live && t != token && s.origin[t] == f {
      assert RunFrom(v, []) && Run(v, []) == v && !NoLiveToken(v, f);
    } else {
      forall actions: seq<Action> | RunFrom(v, actions) ensures NoLiveToken(Run(v, actions), f) {
        EndedForGood(v, actions, f);
      }
    }
  }

  // ---- one browser tab ----

  /** The module state of the client: the stored token and the shared refresh, if one is in flight. */
  class Client {
    var refreshToken: Option<Token>
    var refreshInFlight: Option<Token>

    constructor (stored: Option<Token>)
      ensures refreshToken == stored && refreshInFlight == None
    {
      refreshToken, refreshInFlight := stored, None;
    }

    /** The module's state is that of tab `b`. */
    ghost predicate Shows(b: Tab)
      reads this
    {
      refreshToken == b.stored && (refreshInFlight.Some? <==> !b.flight.Idle?) && TabInv(b)
    }

    /** Starts a refresh unless one is in flight, which is then shared; without a token it fails at once. */
    method RefreshSession() returns (request: Option<Token>)
      modifies this
      ensures refreshToken == old(refreshToken)
      ensures request == if old(refreshInFlight).None? then old(refreshToken) else None
      ensures refreshInFlight == if old(refreshInFlight).None? then old(refreshToken) else old(refreshInFlight)
      ensures forall b :: old(Shows(b)) ==> Shows(TabNext(b, NeedsRefresh))
      ensures forall b :: old(Shows(b)) && request.Some? ==>
        TabNext(b, NeedsRefresh).flight == Requested(request.value)
    {
      if refreshInFlight.Some? {
        return None;
      }
      refreshInFlight := refreshToken;
      request := refreshToken;
    }

    /** The response: only 401 and 403 end the session, any other failure keeps it for a retry. */
    method RefreshDone(status: int, token: Token)
      modifies this
      ensures refreshInFlight == None
      ensures refreshToken == if 200 <= status < 300 then Some(token)
        else if status == 401 || status == 403 then None else old(refreshToken)
      ensures forall b :: old(Shows(b)) && IsAnswer(b.flight, status, token) ==> Shows(TabNext(b, ResponseArrives))
    {
      if !(200 <= status < 300) {
        if status == 401 || status == 403 {
          refreshToken := None;
        }
      } else {
        refreshToken := Some(token);
      }
      refreshInFlight := None;
    }

    /** The request or its response is lost: the caller gets the error, and the next refresh may start. */
    method RefreshThrows()
      modifies this
      ensures refreshInFlight == None && refreshToken == old(refreshToken)
      ensures forall b :: old(Shows(b)) && b.flight.Requested? ==> Shows(TabNext(b, RequestDropped))
      ensures forall b :: old(Shows(b)) && TabEnabled(b, ResponseDropped) ==> Shows(TabNext(b, ResponseDropped))
    {
      refreshInFlight := None;
    }
  }

  /** What the server's answer looks like on the wire. */
  predicate IsAnswer(flight: Flight, status: int, token: Token) {
    match flight
    case Answered(t) => 200 <= status < 300 && token == t
    case Refused => status == 401
    case Errored => status >= 500
    case _ => false
  }

  /** The shared refresh, if one is in flight, and how far it has got. */
  datatype Flight =
    | Idle
    | Requested(token: Token)
    | Consuming
    | Answered(token: Token)
    | Refused
    | Errored

  /** The tab's stored token, its flight, the live tokens, all tokens ever issued, and whether a consumed token's
      successor was lost since the last login. `presented` counts the tokens the server has looked up, `dead` those
      it did not know. */
  datatype Tab = Tab(stored: Option<Token>, flight: Flight, live: set<Token>, issued: set<Token>, lost: bool,
      presented: nat, dead: nat)

  datatype TabAction =
    | SignIn(token: Token)
    | NeedsRefresh
    | RequestDropped
    | ServerConsumes
    | ServerIssues(token: Token, fails: bool)
    | ResponseArrives
    | ResponseDropped

  predicate TabEnabled(b: Tab, a: TabAction) {
    match a
    case SignIn(t) => b.flight.Idle? && t !in b.issued
    case NeedsRefresh => true
    case RequestDropped => b.flight.Requested?
    case ServerConsumes => b.flight.Requested?
    case ServerIssues(t, _) => b.flight.Consuming? && t !in b.issued
    case ResponseArrives => b.flight.Answered? || b.flight.Refused? || b.flight.Errored?
    case ResponseDropped => b.flight.Answered? || b.flight.Refused? || b.flight.Errored?
  }

  function TabNext(b: Tab, a: TabAction): Tab
    requires TabEnabled(b, a)
  {
    match a
    case SignIn(t) => b.(stored := Some(t), live := b.live + {t}, issued := b.issued + {t}, lost := false)
    case NeedsRefresh =>
      // Any number of concurrent 401s share the flight; signed out, the refresh fails at once.
      if b.flight.Idle? && b.stored.Some? then b.(flight := Requested(b.stored.value)) else b
    case RequestDropped => b.(flight := Idle)
    case ServerConsumes =>
      if b.flight.token in b.live
      then b.(flight := Consuming, live := b.live - {b.flight.token}, presented := b.presented + 1)
      else b.(flight := Refused, presented := b.presented + 1, dead := b.dead + 1)
    case ServerIssues(t, fails) =>
      if fails then b.(flight := Errored, lost := true)
      else b.(flight := Answered(t), live := b.live + {t}, issued := b.issued + {t})
    case ResponseArrives =>
      (match b.flight
       case Answered(t) => b.(flight := Idle, stored := Some(t))
       case Refused => b.(flight := Idle, stored := None)
       case _ => b.(flight := Idle))
    case ResponseDropped => b.(flight := Idle, lost := b.lost || b.flight.Answered?)
  }

  /** The stored token is live exactly as long as no successor was lost. */
  ghost predicate TabInv(b: Tab) {
    && b.live <= b.issued
    && (b.stored.Some? ==> b.stored.value in b.issued)
    && match b.flight
       case Idle => b.stored.Some? ==> (b.stored.value in b.live <==> !b.lost)
       case Requested(t) => b.stored == Some(t) && (t in b.live <==> !b.lost)
       case Consuming => b.stored.Some? && b.stored.value !in b.live && !b.lost
       case Answered(t) => b.stored.Some? && b.stored.value !in b.live && !b.lost && t in b.live
       case Refused => b.stored.Some? && b.stored.value !in b.live && b.lost
       case Errored => b.stored.Some? && b.stored.value !in b.live && b.lost
  }

  const SIGNED_OUT := Tab(None, Idle, {}, {}, false, 0, 0)

  lemma TabStepKeepsInv(b: Tab, a: TabAction)
    requires TabInv(b) && TabEnabled(b, a)
    ensures TabInv(TabNext(b, a))
  {
  }

  ghost predicate TabRunFrom(b: Tab, actions: seq<TabAction>)
    decreases |actions|
  {
    actions != [] ==> TabEnabled(b, actions[0]) && TabRunFrom(TabNext(b, actions[0]), actions[1..])
  }

  function TabRun(b: Tab, actions: seq<TabAction>): Tab
    requires TabRunFrom(b, actions)
    decreases |actions|
  {
    if actions == [] then b else TabRun(TabNext(b, actions[0]), actions[1..])
  }

  lemma {:induction false} TabRunKeepsInv(b: Tab, actions: seq<TabAction>)
    requires TabInv(b) && TabRunFrom(b, actions)
    ensures TabInv(TabRun(b, actions))
    decreases |actions|
  {
    if actions != [] {
      TabStepKeepsInv(b, actions[0]);
      TabRunKeepsInv(TabNext(b, actions[0]), actions[1..]);
    }
  }

  /** After any run, the server refuses the tab's next refresh exactly when the successor of a consumed token was
      lost since the last login, to a dropped response or a failed issue. */
  lemma RefusedIffSuccessorLost(actions: seq<TabAction>)
    requires TabRunFrom(SIGNED_OUT, actions)
    ensures var b := TabRun(SIGNED_OUT, actions);
      b.flight.Requested? ==> (TabNext(b, ServerConsumes).flight.Refused? <==> b.lost)
  {
    TabRunKeepsInv(SIGNED_OUT, actions);
  }

  predicate Loses(a: TabAction) {
    a.ResponseDropped? || (a.ServerIssues? && a.fails)
  }

  lemma {:induction false} NothingLost(b: Tab, actions: seq<TabAction>)
    requires TabInv(b) && TabRunFrom(b, actions) && !b.lost
    requires forall a <- actions :: !Loses(a)
    ensures !TabRun(b, actions).lost && TabRun(b, actions).dead == b.dead
    decreases |actions|
  {
    if actions != [] {
      assert actions[0] in actions;
      TabStepKeepsInv(b, actions[0]);
      forall a | a in actions[1..] ensures !Loses(a) { assert a in actions; }
      NothingLost(TabNext(b, actions[0]), actions[1..]);
    }
  }

  /** With no lost responses and no failed issues, however many requests find their access token expired at the
      same time, the tab never presents a dead token. */
  lemma SingleFlightNeverPresentsDeadToken(actions: seq<TabAction>)
    requires TabRunFrom(SIGNED_OUT, actions) && forall a <- actions :: !Loses(a)
    ensures TabRun(SIGNED_OUT, actions).dead == 0
  {
    NothingLost(SIGNED_OUT, actions);
  }

  /** One failed issue is enough: the old token is consumed, the tab keeps it, and its next refresh signs the user
      out although the first failure was only transient. */
  lemma FailedIssueSignsOut(b: Tab, next: Token)
    requires TabInv(b) && b.flight.Consuming? && next !in b.issued
    ensures var b1 := TabNext(b, ServerIssues(next, true));
      var b2 := TabNext(b1, ResponseArrives);
      var b3 := TabNext(b2, NeedsRefresh);
      var b4 := TabNext(b3, ServerConsumes);
      b2.stored == b.stored && b4.dead == b.dead + 1 && TabNext(b4, ResponseArrives).stored == None
  {
  }

  // ---- the tab against the server ----

  /** The server's part of a tab: `families` are the logins made in it, `call` is its refresh request. */
  ghost predicate Serves(s: Server, b: Tab, families: set<Family>, call: CallId) {
    && (forall t :: t in b.issued <==> t in s.origin && s.origin[t] in families)
    && (forall t :: t in b.live <==> t in s.live && t in b.issued)
    && (b.flight.Consuming? <==> call in s.rotating)
    && (call in s.rotating ==> s.rotating[call] in families)
    && families <= s.owner.Keys
  }

  /** The server's step behind a tab's step, if it has one. */
  function ServerStep(b: Tab, a: TabAction, family: Family, user: UserId, call: CallId): Option<Action>
    requires TabEnabled(b, a)
  {
    match a
    case SignIn(t) => Some(Login(family, user, t))
    case ServerConsumes => Some(Consume(call, b.flight.token))
    case ServerIssues(t, fails) => Some(IssueNext(call, t, fails))
    case _ => None
  }

  lemma SignInIsLogin(s: Server, b: Tab, families: set<Family>, call: CallId, t: Token, family: Family, user: UserId)
    requires Inv(s) && Serves(s, b, families, call) && TabEnabled(b, SignIn(t)) && family !in s.owner && t !in s.origin
    ensures Enabled(s, Login(family, user, t))
    ensures Serves(Next(s, Login(family, user, t)), TabNext(b, SignIn(t)), families + {family}, call)
  {
  }

  lemma IssueIsIssue(s: Server, b: Tab, families: set<Family>, call: CallId, t: Token, fails: bool)
    requires Inv(s) && Serves(s, b, families, call) && TabEnabled(b, ServerIssues(t, fails)) && t !in s.origin
    ensures Enabled(s, IssueNext(call, t, fails))
    ensures Serves(Next(s, IssueNext(call, t, fails)), TabNext(b, ServerIssues(t, fails)), families, call)
  {
  }

  lemma ConsumeIsConsume(s: Server, b: Tab, families: set<Family>, call: CallId)
    requires Inv(s) && TabInv(b) && Serves(s, b, families, call) && TabEnabled(b, ServerConsumes)
    ensures Enabled(s, Consume(call, b.flight.token))
    ensures Serves(Next(s, Consume(call, b.flight.token)), TabNext(b, ServerConsumes), families, call)
  {
  }

  /** Every step of the tab is, on the server, one step on one of the tab's logins, or none. */
  lemma TabStepIsServerStep(
      s: Server, b: Tab, families: set<Family>, call: CallId, a: TabAction, family: Family, user: UserId)
    requires Inv(s) && TabInv(b) && Serves(s, b, families, call) && TabEnabled(b, a)
    requires a.SignIn? ==> family !in s.owner && a.token !in s.origin
    requires a.ServerIssues? ==> a.token !in s.origin
    ensures var step := ServerStep(b, a, family, user, call);
      && (step.Some? ==> Enabled(s, step.value))
      && Serves(if step.Some? then Next(s, step.value) else s, TabNext(b, a),
           if a.SignIn? then families + {family} else families, call)
  {
    match a {
      case SignIn(t) => SignInIsLogin(s, b, families, call, t, family, user);
      case ServerConsumes => ConsumeIsConsume(s, b, families, call);
      case ServerIssues(t, fails) => IssueIsIssue(s, b, families, call, t, fails);
      case _ =>
    }
  }

  /** A server step that concerns other logins. */
  ghost predicate IsForeign(s: Server, a: Action, families: set<Family>, call: CallId) {
    match a
    case Login(f, _, _) => f !in families
    case Consume(c, t) => c != call && (t in s.origin ==> s.origin[t] !in families)
    case IssueNext(c, _, _) => c != call && (c in s.rotating ==> s.rotating[c] !in families)
    case Revoke(t) => t in s.origin ==> s.origin[t] !in families
    case Expire(t) => t in s.origin ==> s.origin[t] !in families
  }

  /** Other logins never disturb the tab. */
  lemma ForeignStepLeavesTab(s: Server, b: Tab, families: set<Family>, call: CallId, a: Action)
    requires Inv(s) && Serves(s, b, families, call) && Enabled(s, a) && IsForeign(s, a, families, call)
    ensures Serves(Next(s, a), b, families, call)
  {
  }
}
