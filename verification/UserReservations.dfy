/** Email and username reservation (backend/internal/store/users.go): multi-statement calls over three tables,
    interleaved statement by statement, where any statement may fail without being applied. */
module UserReservations {
  import opened Wrappers

  type Uid = nat
  type CallId = nat

  datatype UserRow = UserRow(username: string, email: string)

  datatype Tables = Tables(emails: map<string, Uid>, names: map<string, Uid>, users: map<Uid, UserRow>)

  /** A call, named after the statement it executes next. */
  datatype Call =
    | ReserveEmail(user: Uid, email: string, name: string)
    | ReserveName(user: Uid, email: string, name: string)
    | InsertRow(user: Uid, email: string, name: string)
    | UndoEmail(user: Uid, email: string, error: StoreError)
    | UndoBoth(user: Uid, email: string, name: string)
    | UndoName(user: Uid, name: string)
    | ReserveNew(user: Uid, oldName: string, newName: string)
    | UpdateRow(user: Uid, oldName: string, newName: string)
    | ReleaseOld(user: Uid, oldName: string, newName: string)
    | Done(user: Uid, result: Result<(), StoreError>)

  /** One statement. */
  function Exec(t: Tables, c: Call, fails: bool): (Tables, Call)
    requires !c.Done?
  {
    match c
    case ReserveEmail(u, e, n) =>
      if fails then (t, Done(u, Failure(Unavailable)))
      else if e in t.emails then (t, Done(u, Failure(Conflict)))
      else (t.(emails := t.emails[e := u]), ReserveName(u, e, n))
    case ReserveName(u, e, n) =>
      if fails then (t, UndoEmail(u, e, Unavailable))
      else if n in t.names then (t, UndoEmail(u, e, Conflict))
      else (t.(names := t.names[n := u]), InsertRow(u, e, n))
    case InsertRow(u, e, n) =>
      if fails then (t, UndoBoth(u, e, n))
      else (t.(users := t.users[u := UserRow(n, e)]), Done(u, Success(())))
    case UndoEmail(u, e, error) =>
      (if fails then t else t.(emails := t.emails - {e}), Done(u, Failure(error)))
    case UndoBoth(u, e, n) =>
      (if fails then t else t.(emails := t.emails - {e}), UndoName(u, n))
    case UndoName(u, n) =>
      (if fails then t else t.(names := t.names - {n}), Done(u, Failure(Unavailable)))
    case ReserveNew(u, old_, new_) =>
      if fails then (t, Done(u, Failure(Unavailable)))
      else if new_ in t.names then (t, Done(u, Failure(Conflict)))
      else (t.(names := t.names[new_ := u]), UpdateRow(u, old_, new_))
    case UpdateRow(u, old_, new_) =>
      if fails then (t, Done(u, Failure(Unavailable)))
      else
        var email := if u in t.users then t.users[u].email else "";
        (t.(users := t.users[u := UserRow(new_, email)]), ReleaseOld(u, old_, new_))
    case ReleaseOld(u, old_, new_) =>
      if fails then (t, Done(u, Failure(Unavailable)))
      else (t.(names := t.names - {old_}), Done(u, Success(())))
  }

  /** The statements whose failure leaves a reservation behind. */
  predicate Leaks(c: Call) {
    c.UndoEmail? || c.UndoBoth? || c.UndoName? || c.UpdateRow? || c.ReleaseOld?
  }

  // ---- the system ----

  /** `issued` holds every user id ever drawn; `clean` says no reservation was left behind so far. */
  datatype System = System(t: Tables, calls: map<CallId, Call>, issued: set<Uid>, clean: bool)

  datatype Action =
    | BeginCreate(id: CallId, user: Uid, email: string, name: string)
    | BeginRename(id: CallId, user: Uid, newName: string)
    | Statement(id: CallId, fails: bool)

  predicate Renaming(s: System, u: Uid) {
    exists id <- s.calls :: !s.calls[id].Done? && s.calls[id].user == u
  }

  /** New accounts draw a fresh random id; a rename reads the current name first, one rename per user at a time. */
  predicate Enabled(s: System, a: Action) {
    match a
    case BeginCreate(id, u, _, _) => id !in s.calls && u !in s.issued
    case BeginRename(id, u, newName) =>
      id !in s.calls && u in s.t.users && !Renaming(s, u) && newName != s.t.users[u].username
    case Statement(id, _) => id in s.calls && !s.calls[id].Done?
  }

  function Next(s: System, a: Action): System
    requires Enabled(s, a)
  {
    match a
    case BeginCreate(id, u, e, n) => s.(calls := s.calls[id := ReserveEmail(u, e, n)], issued := s.issued + {u})
    case BeginRename(id, u, newName) => s.(calls := s.calls[id := ReserveNew(u, s.t.users[u].username, newName)])
    case Statement(id, fails) =>
      var (t, c) := Exec(s.t, s.calls[id], fails);
      s.(t := t, calls := s.calls[id := c], clean := s.clean && !(fails && Leaks(s.calls[id])))
  }

  // ---- the invariant ----

  predicate HoldsEmail(t: Tables, e: string, u: Uid) { e in t.emails && t.emails[e] == u }

  predicate HoldsName(t: Tables, n: string, u: Uid) { n in t.names && t.names[n] == u }

  /** Every user row's email and username are held by that user. */
  ghost predicate RowsHeld(t: Tables) {
    forall u <- t.users :: HoldsEmail(t, t.users[u].email, u) && HoldsName(t, t.users[u].username, u)
  }

  /** What a call in flight holds, and where its user stands. */
  ghost predicate CallOk(t: Tables, c: Call) {
    match c
    case ReserveEmail(u, _, _) => u !in t.users
    case ReserveName(u, e, _) => u !in t.users && HoldsEmail(t, e, u)
    case InsertRow(u, e, n) => u !in t.users && HoldsEmail(t, e, u) && HoldsName(t, n, u)
    case UndoEmail(u, e, _) => u !in t.users && HoldsEmail(t, e, u)
    case UndoBoth(u, e, n) => u !in t.users && HoldsEmail(t, e, u) && HoldsName(t, n, u)
    case UndoName(u, n) => u !in t.users && HoldsName(t, n, u)
    case ReserveNew(u, o, n) => u in t.users && t.users[u].username == o && n != o
    case UpdateRow(u, o, n) => u in t.users && t.users[u].username == o && n != o && HoldsName(t, n, u)
    case ReleaseOld(u, o, n) => u in t.users && t.users[u].username == n && n != o && HoldsName(t, o, u)
    case Done(_, _) => true
  }

  ghost predicate Inv(s: System) {
    && RowsHeld(s.t)
    && s.t.users.Keys <= s.issued
    && (forall id <- s.calls :: CallOk(s.t, s.calls[id]) && s.calls[id].user in s.issued)
    && (forall i, j :: i in s.calls && j in s.calls && i != j && !s.calls[i].Done? && !s.calls[j].Done? ==>
          s.calls[i].user != s.calls[j].user)
  }

  /** A statement of one user's call leaves everything another user holds in place. */
  lemma OthersUnmoved(t: Tables, c: Call, fails: bool)
    requires RowsHeld(t) && CallOk(t, c) && !c.Done?
    ensures var t' := Exec(t, c, fails).0;
      && (forall e, u :: u != c.user && HoldsEmail(t, e, u) ==> HoldsEmail(t', e, u))
      && (forall n, u :: u != c.user && HoldsName(t, n, u) ==> HoldsName(t', n, u))
      && (forall u :: u != c.user ==> (u in t.users <==> u in t'.users) && (u in t.users ==> t'.users[u] == t.users[u]))
  {
  }

  /** The call itself moves to a state that is consistent with the new tables. */
  lemma OwnStepOk(t: Tables, c: Call, fails: bool)
    requires RowsHeld(t) && CallOk(t, c) && !c.Done?
    ensures var (t', c') := Exec(t, c, fails); CallOk(t', c') && RowsHeld(t') && c'.user == c.user
  {
  }

  lemma OtherCallOk(t: Tables, c: Call, fails: bool, d: Call)
    requires RowsHeld(t) && CallOk(t, c) && !c.Done? && CallOk(t, d) && (d.Done? || d.user != c.user)
    ensures CallOk(Exec(t, c, fails).0, d)
  {
    OthersUnmoved(t, c, fails);
    hide Exec;
  }

  lemma StatementKeepsInv(s: System, id: CallId, fails: bool)
    requires Inv(s) && Enabled(s, Statement(id, fails))
    ensures Inv(Next(s, Statement(id, fails)))
  {
    var s', c := Next(s, Statement(id, fails)), s.calls[id];
    OthersUnmoved(s.t, c, fails);
    OwnStepOk(s.t, c, fails);
    forall j | j in s.calls && j != id ensures CallOk(s'.t, s.calls[j]) {
      OtherCallOk(s.t, c, fails, s.calls[j]);
    }
    hide Exec, RowsHeld, CallOk;
    assert forall u <- s'.t.users :: u == c.user || u in s.t.users;
  }

  lemma StepKeepsInv(s: System, a: Action)
    requires Inv(s) && Enabled(s, a)
    ensures Inv(Next(s, a))
  {
    if a.Statement? { StatementKeepsInv(s, a.id, a.fails); }
  }

  ghost predicate RunFrom(s: System, actions: seq<Action>)
    decreases |actions|
  {
    actions != [] ==> Enabled(s, actions[0]) && RunFrom(Next(s, actions[0]), actions[1..])
  }

  function Run(s: System, actions: seq<Action>): System
    requires RunFrom(s, actions)
    decreases |actions|
  {
    if actions == [] then s else Run(Next(s, actions[0]), actions[1..])
  }

  const START := System(Tables(map[], map[], map[]), map[], {}, true)

  lemma {:induction false} RunKeepsInv(s: System, actions: seq<Action>)
    requires Inv(s) && RunFrom(s, actions)
    ensures Inv(Run(s, actions))
    decreases |actions|
  {
    if actions != [] {
      StepKeepsInv(s, actions[0]);
      RunKeepsInv(Next(s, actions[0]), actions[1..]);
    }
  }

  // ---- what the invariant gives ----

  /** From the empty database, whatever calls interleave and whatever statements fail, no two users ever share a
      username or an email. */
  lemma IdentitiesAreUnique(actions: seq<Action>, u: Uid, v: Uid)
    requires RunFrom(START, actions)
    requires u in Run(START, actions).t.users && v in Run(START, actions).t.users && u != v
    ensures var users := Run(START, actions).t.users;
      users[u].username != users[v].username && users[u].email != users[v].email
  {
    RunKeepsInv(START, actions);
  }

  // ---- what a call answers ----

  /** What the call is about to reserve is reserved already. */
  predicate Clashes(t: Tables, c: Call) {
    match c
    case ReserveEmail(_, email, _) => email in t.emails
    case ReserveName(_, _, name) => name in t.names
    case ReserveNew(_, _, newName) => newName in t.names
    case _ => false
  }

  /** At some moment of the run. */
  ghost predicate EverClashes(s: System, actions: seq<Action>, id: CallId)
    requires RunFrom(s, actions)
    decreases |actions|
  {
    || (id in s.calls && Clashes(s.t, s.calls[id]))
    || (actions != [] && EverClashes(Next(s, actions[0]), actions[1..], id))
  }

  /** The call answers Conflict, at the latest once its rollback is over. */
  predicate Conflicted(c: Call) {
    (c.Done? && c.result == Failure(Conflict)) || (c.UndoEmail? && c.error == Conflict)
  }

  /** A call answers Conflict only if, when it came to reserve a value, that value was reserved. */
  lemma {:induction false} ConflictMeansClash(s: System, actions: seq<Action>, id: CallId)
    requires RunFrom(s, actions) && id in s.calls && !Conflicted(s.calls[id])
    ensures var v := Run(s, actions); id in v.calls && (Conflicted(v.calls[id]) ==> EverClashes(s, actions, id))
    decreases |actions|
  {
    if actions != [] {
      var v := Next(s, actions[0]);
      if !Conflicted(v.calls[id]) {
        ConflictMeansClash(v, actions[1..], id);
      } else {
        CallsStay(v, actions[1..], id);
      }
    }
  }

  lemma {:induction false} CallsStay(s: System, actions: seq<Action>, id: CallId)
    requires RunFrom(s, actions) && id in s.calls
    ensures id in Run(s, actions).calls
    decreases |actions|
  {
    if actions != [] { CallsStay(Next(s, actions[0]), actions[1..], id); }
  }

  /** Another call of the same user was begun. */
  predicate OtherCall(s: System, id: CallId, u: Uid) {
    exists j <- s.calls :: j != id && s.calls[j].user == u
  }

  /** How far the registration `id` of `u` has got, and what its answer says about the row: it is there exactly when
      the answer is Success, with the given email, and with the given name unless a rename of `u` was begun. */
  ghost predicate Registers(s: System, id: CallId, u: Uid, email: string, name: string) {
    && id in s.calls && s.calls[id].user == u && u in s.issued
    && (OtherCall(s, id, u) ==> u in s.t.users)
    && match s.calls[id] {
         case ReserveEmail(_, e, n) => u !in s.t.users && e == email && n == name
         case ReserveName(_, e, n) => u !in s.t.users && e == email && n == name
         case InsertRow(_, e, n) => u !in s.t.users && e == email && n == name
         case Done(_, r) => (r.Success? <==> u in s.t.users) && (r.Success? ==> Registered(s, id, u, email, name))
         case c => u !in s.t.users && (c.UndoEmail? || c.UndoBoth? || c.UndoName?)
       }
  }

  predicate Registered(s: System, id: CallId, u: Uid, email: string, name: string)
    requires u in s.t.users
  {
    s.t.users[u].email == email && (OtherCall(s, id, u) || s.t.users[u].username == name)
  }

  lemma OtherCallStays(s: System, a: Action, id: CallId, u: Uid)
    requires Enabled(s, a) && id in s.calls
    ensures OtherCall(s, id, u) ==> OtherCall(Next(s, a), id, u)
    ensures OtherCall(Next(s, a), id, u) ==> OtherCall(s, id, u) || (!a.Statement? && a.user == u)
  {
    var v := Next(s, a);
    if j :| j in s.calls && j != id && s.calls[j].user == u {
      assert j in v.calls && v.calls[j].user == u;
    }
    if j :| j in v.calls && j != id && v.calls[j].user == u && (a.Statement? || a.user != u) {
      assert j in s.calls && s.calls[j].user == u;
    }
  }

  lemma StepKeepsRegisters(s: System, a: Action, id: CallId, u: Uid, email: string, name: string)
    requires Inv(s) && Enabled(s, a) && Registers(s, id, u, email, name)
    ensures Registers(Next(s, a), id, u, email, name)
  {
    OtherCallStays(s, a, id, u);
    if a.Statement? {
      var c := s.calls[a.id];
      assert CallOk(s.t, c);
      OthersUnmoved(s.t, c, a.fails);
      if a.id != id && c.user == u { assert OtherCall(s, id, u); }
    }
  }

  lemma {:induction false} RunKeepsRegisters(
      s: System, actions: seq<Action>, id: CallId, u: Uid, email: string, name: string)
    requires Inv(s) && RunFrom(s, actions) && Registers(s, id, u, email, name)
    ensures Registers(Run(s, actions), id, u, email, name)
    decreases |actions|
  {
    hide Inv, Registers;
    if actions != [] {
      StepKeepsInv(s, actions[0]);
      StepKeepsRegisters(s, actions[0], id, u, email, name);
      RunKeepsRegisters(Next(s, actions[0]), actions[1..], id, u, email, name);
    }
  }

  /** Whatever else runs and whatever fails: an answered registration has its row exactly when the answer was Success,
      under the email it asked for, and under the name it asked for as long as its user has begun no rename. It
      answers Conflict only if the email or the name was reserved when it came to reserve it. */
  lemma RegistrationAnswersTruly(
      s: System, id: CallId, u: Uid, email: string, name: string, actions: seq<Action>)
    requires Inv(s) && Enabled(s, BeginCreate(id, u, email, name))
    requires RunFrom(Next(s, BeginCreate(id, u, email, name)), actions)
    ensures var v := Run(Next(s, BeginCreate(id, u, email, name)), actions); id in v.calls && (v.calls[id].Done? ==>
      var r := v.calls[id].result;
      && (r.Success? <==> u in v.t.users)
      && (r.Success? ==> v.t.users[u].email == email)
      && (r.Success? && (forall j <- v.calls :: j == id || v.calls[j].user != u) ==> v.t.users[u].username == name)
      && (r == Failure(Conflict) ==> EverClashes(Next(s, BeginCreate(id, u, email, name)), actions, id)))
  {
    var begun := Next(s, BeginCreate(id, u, email, name));
    StepKeepsInv(s, BeginCreate(id, u, email, name));
    RunKeepsRegisters(begun, actions, id, u, email, name);
    ConflictMeansClash(begun, actions, id);
  }

  /** How far the rename `id` of `u` has got, and what its answer says about the row. */
  ghost predicate Renames(s: System, id: CallId, u: Uid, oldName: string, newName: string) {
    && id in s.calls && s.calls[id].user == u && u in s.t.users && oldName != newName
    && (forall j <- s.calls :: j != id && s.calls[j].user == u ==> s.calls[j].Done?)
    && match s.calls[id] {
         case ReserveNew(_, o, n) => o == oldName && n == newName
         case UpdateRow(_, o, n) => o == oldName && n == newName
         case ReleaseOld(_, o, n) => o == oldName && n == newName
         case Done(_, r) =>
           && (r.Success? ==> s.t.users[u].username == newName && !HoldsName(s.t, oldName, u))
           && (r == Failure(Conflict) ==> s.t.users[u].username == oldName)
         case _ => false
       }
  }

  lemma StepKeepsRenames(s: System, a: Action, id: CallId, u: Uid, oldName: string, newName: string)
    requires Inv(s) && Enabled(s, a) && Renames(s, id, u, oldName, newName) && (a.BeginRename? ==> a.user != u)
    ensures Renames(Next(s, a), id, u, oldName, newName)
  {
    if a.Statement? {
      assert CallOk(s.t, s.calls[a.id]);
      OthersUnmoved(s.t, s.calls[a.id], a.fails);
    }
  }

  lemma {:induction false} RunKeepsRenames(
      s: System, actions: seq<Action>, id: CallId, u: Uid, oldName: string, newName: string)
    requires Inv(s) && RunFrom(s, actions) && Renames(s, id, u, oldName, newName)
    requires forall a <- actions :: a.BeginRename? ==> a.user != u
    ensures Renames(Run(s, actions), id, u, oldName, newName)
    decreases |actions|
  {
    hide Inv, Renames;
    if actions != [] {
      StepKeepsInv(s, actions[0]);
      StepKeepsRenames(s, actions[0], id, u, oldName, newName);
      RunKeepsRenames(Next(s, actions[0]), actions[1..], id, u, oldName, newName);
    }
  }

  /** Until the user begins another rename: after Success the row carries the new name and the user has given up the
      old one; after Conflict it still carries the old one, and the new one was reserved when the call came to it. */
  lemma RenameAnswersTruly(s: System, id: CallId, u: Uid, newName: string, actions: seq<Action>)
    requires Inv(s) && Enabled(s, BeginRename(id, u, newName))
    requires RunFrom(Next(s, BeginRename(id, u, newName)), actions)
    requires forall a <- actions :: a.BeginRename? ==> a.user != u
    ensures var v, oldName := Run(Next(s, BeginRename(id, u, newName)), actions), s.t.users[u].username;
      id in v.calls && u in v.t.users && (v.calls[id].Done? ==>
        var r, row := v.calls[id].result, v.t.users[u];
        && (r.Success? ==> row.username == newName && newName in v.t.names && v.t.names[newName] == u)
        && (r.Success? && oldName in v.t.names ==> v.t.names[oldName] != u)
        && (r == Failure(Conflict) ==> row.username == oldName)
        && (r == Failure(Conflict) ==> EverClashes(Next(s, BeginRename(id, u, newName)), actions, id)))
  {
    var begun := Next(s, BeginRename(id, u, newName));
    StepKeepsInv(s, BeginRename(id, u, newName));
    RunKeepsRenames(begun, actions, id, u, s.t.users[u].username, newName);
    ConflictMeansClash(begun, actions, id);
    RunKeepsInv(begun, actions);
  }

  /** Index lookup, then row lookup. */
  function GetByEmail(t: Tables, email: string): Result<(Uid, UserRow), StoreError> {
    if email !in t.emails || t.emails[email] !in t.users then Failure(NotFound)
    else Success((t.emails[email], t.users[t.emails[email]]))
  }

  /** A user id holds no email but the one of its row, or of its registration in flight. */
  ghost predicate EmailIndexOk(s: System) {
    && (forall e <- s.t.emails :: s.t.emails[e] in s.issued)
    && (forall e <- s.t.emails :: s.t.emails[e] in s.t.users ==> s.t.users[s.t.emails[e]].email == e)
    && (forall id <- s.calls, e <- s.t.emails :: s.t.emails[e] == s.calls[id].user ==> OnlyEmail(s.calls[id], e))
  }

  predicate OnlyEmail(c: Call, e: string) {
    match c
    case ReserveEmail(_, _, _) => false
    case ReserveName(_, email, _) => email == e
    case InsertRow(_, email, _) => email == e
    case _ => true
  }

  lemma StepKeepsEmailIndex(s: System, a: Action)
    requires Inv(s) && EmailIndexOk(s) && Enabled(s, a)
    ensures EmailIndexOk(Next(s, a))
  {
    var s' := Next(s, a);
    if a.Statement? {
      assert CallOk(s.t, s.calls[a.id]);
      forall id, e | id in s'.calls && e in s'.t.emails && s'.t.emails[e] == s'.calls[id].user
        ensures OnlyEmail(s'.calls[id], e)
      {
        if id != a.id {
          assert s'.calls[id] == s.calls[id];
          assert s.calls[id].Done? || s.calls[id].user != s.calls[a.id].user;
        }
      }
    }
  }

  lemma {:induction false} RunKeepsEmailIndex(s: System, actions: seq<Action>)
    requires Inv(s) && EmailIndexOk(s) && RunFrom(s, actions)
    ensures EmailIndexOk(Run(s, actions))
    decreases |actions|
  {
    if actions != [] {
      StepKeepsInv(s, actions[0]);
      StepKeepsEmailIndex(s, actions[0]);
      RunKeepsEmailIndex(Next(s, actions[0]), actions[1..]);
    }
  }

  /** At every moment of every run, leaked reservations included, login by email answers with an account exactly
      when that account's row carries that address. */
  lemma LoginIsExact(actions: seq<Action>, email: string, u: Uid, row: UserRow)
    requires RunFrom(START, actions)
    ensures var t := Run(START, actions).t;
      GetByEmail(t, email) == Success((u, row)) <==> u in t.users && t.users[u] == row && row.email == email
  {
    RunKeepsInv(START, actions);
    RunKeepsEmailIndex(START, actions);
  }

  predicate ClaimsEmail(c: Call, e: string) {
    (c.ReserveName? || c.InsertRow? || c.UndoEmail? || c.UndoBoth?) && c.email == e
  }

  predicate ClaimsName(c: Call, n: string) {
    || ((c.InsertRow? || c.UndoBoth? || c.UndoName?) && c.name == n)
    || (c.UpdateRow? && c.newName == n)
    || (c.ReleaseOld? && c.oldName == n)
  }

  ghost predicate OwnedEmail(s: System, e: string)
    requires e in s.t.emails
  {
    var u := s.t.emails[e];
    || (u in s.t.users && s.t.users[u].email == e)
    || exists id <- s.calls :: s.calls[id].user == u && ClaimsEmail(s.calls[id], e)
  }

  ghost predicate OwnedName(s: System, n: string)
    requires n in s.t.names
  {
    var u := s.t.names[n];
    || (u in s.t.users && s.t.users[u].username == n)
    || exists id <- s.calls :: s.calls[id].user == u && ClaimsName(s.calls[id], n)
  }

  /** As long as no rollback or rename statement failed, every reservation belongs to a row or to a running call. */
  ghost predicate NoLeak(s: System) {
    s.clean ==> (forall e <- s.t.emails :: OwnedEmail(s, e)) && (forall n <- s.t.names :: OwnedName(s, n))
  }

  lemma StepKeepsNoLeak(s: System, a: Action)
    requires Inv(s) && NoLeak(s) && Enabled(s, a)
    ensures NoLeak(Next(s, a))
  {
    var s' := Next(s, a);
    if s'.clean {
      forall e | e in s'.t.emails ensures OwnedEmail(s', e) { EmailStaysOwned(s, a, e); }
      forall n | n in s'.t.names ensures OwnedName(s', n) { NameStaysOwned(s, a, n); }
    }
  }

  predicate RowEmail(t: Tables, u: Uid, e: string) { u in t.users && t.users[u].email == e }

  predicate RowName(t: Tables, u: Uid, n: string) { u in t.users && t.users[u].username == n }

  /** After a statement, a reservation belongs to the moved call or to a row, or it was there before and neither
      the call nor a row accounted for it. */
  lemma StatementAccounts(t: Tables, c: Call, fails: bool)
    requires RowsHeld(t) && CallOk(t, c) && !c.Done? && !(fails && Leaks(c))
    ensures var (t', c') := Exec(t, c, fails);
      && (forall e, u :: HoldsEmail(t', e, u) ==>
            (c.user == u && ClaimsEmail(c', e)) || RowEmail(t', u, e)
            || (HoldsEmail(t, e, u) && !(c.user == u && ClaimsEmail(c, e)) && !RowEmail(t, u, e)))
      && (forall n, u :: HoldsName(t', n, u) ==>
            (c.user == u && ClaimsName(c', n)) || RowName(t', u, n)
            || (HoldsName(t, n, u) && !(c.user == u && ClaimsName(c, n)) && !RowName(t, u, n)))
  {
  }

  /** A reservation that another call accounted for before is accounted for by the same call afterwards. */
  lemma EmailStillClaimed(s: System, v: System, moved: CallId, e: string)
    requires e in s.t.emails && e in v.t.emails && s.t.emails[e] == v.t.emails[e] && OwnedEmail(s, e)
    requires !RowEmail(s.t, s.t.emails[e], e)
    requires moved in s.calls ==> !(s.calls[moved].user == s.t.emails[e] && ClaimsEmail(s.calls[moved], e))
    requires forall id <- s.calls :: id != moved ==> id in v.calls && v.calls[id] == s.calls[id]
    ensures OwnedEmail(v, e)
  {
    hide ClaimsEmail;
    var id :| id in s.calls && s.calls[id].user == s.t.emails[e] && ClaimsEmail(s.calls[id], e);
    assert v.calls[id] == s.calls[id];
  }

  lemma NameStillClaimed(s: System, v: System, moved: CallId, n: string)
    requires n in s.t.names && n in v.t.names && s.t.names[n] == v.t.names[n] && OwnedName(s, n)
    requires !RowName(s.t, s.t.names[n], n)
    requires moved in s.calls ==> !(s.calls[moved].user == s.t.names[n] && ClaimsName(s.calls[moved], n))
    requires forall id <- s.calls :: id != moved ==> id in v.calls && v.calls[id] == s.calls[id]
    ensures OwnedName(v, n)
  {
    hide ClaimsName;
    var id :| id in s.calls && s.calls[id].user == s.t.names[n] && ClaimsName(s.calls[id], n);
    assert v.calls[id] == s.calls[id];
  }

  lemma EmailStaysOwned(s: System, a: Action, e: string)
    requires Inv(s) && NoLeak(s) && Enabled(s, a) && Next(s, a).clean && e in Next(s, a).t.emails
    ensures OwnedEmail(Next(s, a), e)
  {
    hide Exec, CallOk, RowsHeld, ClaimsEmail, ClaimsName, OwnedEmail, OwnedName, Leaks;
    var v, u := Next(s, a), Next(s, a).t.emails[e];
    if a.Statement? {
      StatementAccounts(s.t, s.calls[a.id], a.fails);
      OwnStepOk(s.t, s.calls[a.id], a.fails);
      assert HoldsEmail(v.t, e, u);
      if v.calls[a.id].user == u && ClaimsEmail(v.calls[a.id], e) {
        ClaimIsOwned(v, a.id, e);
      } else if RowEmail(v.t, u, e) {
        RowIsOwned(v, e);
      } else {
        EmailStillClaimed(s, v, a.id, e);
      }
    } else if RowEmail(s.t, u, e) {
      RowIsOwned(v, e);
    } else {
      EmailStillClaimed(s, v, a.id, e);
    }
  }

  lemma ClaimIsOwned(s: System, id: CallId, e: string)
    requires e in s.t.emails && id in s.calls && s.calls[id].user == s.t.emails[e] && ClaimsEmail(s.calls[id], e)
    ensures OwnedEmail(s, e)
  {
  }

  lemma RowIsOwned(s: System, e: string)
    requires e in s.t.emails && RowEmail(s.t, s.t.emails[e], e)
    ensures OwnedEmail(s, e)
  {
  }

  lemma NameStaysOwned(s: System, a: Action, n: string)
    requires Inv(s) && NoLeak(s) && Enabled(s, a) && Next(s, a).clean && n in Next(s, a).t.names
    ensures OwnedName(Next(s, a), n)
  {
    hide Exec, CallOk, RowsHeld, ClaimsEmail, ClaimsName, OwnedEmail, OwnedName, Leaks;
    var v, u := Next(s, a), Next(s, a).t.names[n];
    if a.Statement? {
      StatementAccounts(s.t, s.calls[a.id], a.fails);
      OwnStepOk(s.t, s.calls[a.id], a.fails);
      assert HoldsName(v.t, n, u);
      if v.calls[a.id].user == u && ClaimsName(v.calls[a.id], n) {
        NameClaimIsOwned(v, a.id, n);
      } else if RowName(v.t, u, n) {
        NameRowIsOwned(v, n);
      } else {
        NameStillClaimed(s, v, a.id, n);
      }
    } else if RowName(s.t, u, n) {
      NameRowIsOwned(v, n);
    } else {
      NameStillClaimed(s, v, a.id, n);
    }
  }

  lemma NameClaimIsOwned(s: System, id: CallId, n: string)
    requires n in s.t.names && id in s.calls && s.calls[id].user == s.t.names[n] && ClaimsName(s.calls[id], n)
    ensures OwnedName(s, n)
  {
  }

  lemma NameRowIsOwned(s: System, n: string)
    requires n in s.t.names && RowName(s.t, s.t.names[n], n)
    ensures OwnedName(s, n)
  {
  }

  lemma {:induction false} RunKeepsNoLeak(s: System, actions: seq<Action>)
    requires Inv(s) && NoLeak(s) && RunFrom(s, actions)
    ensures NoLeak(Run(s, actions))
    decreases |actions|
  {
    if actions != [] {
      StepKeepsInv(s, actions[0]);
      StepKeepsNoLeak(s, actions[0]);
      RunKeepsNoLeak(Next(s, actions[0]), actions[1..]);
    }
  }

  // ---- a leaked reservation is lost ----

  /** A reservation that neither a row nor a running call accounts for. */
  ghost predicate LeakedEmail(s: System, e: string) {
    e in s.t.emails && !OwnedEmail(s, e)
  }

  ghost predicate LeakedName(s: System, n: string) {
    n in s.t.names && !OwnedName(s, n)
  }

  /** A statement neither frees nor takes up what its call does not claim. */
  lemma StatementIgnoresUnclaimedEmails(t: Tables, c: Call, fails: bool)
    requires RowsHeld(t) && CallOk(t, c) && !c.Done?
    ensures var (t', c') := Exec(t, c, fails);
      forall e, u :: HoldsEmail(t, e, u) && !(c.user == u && ClaimsEmail(c, e)) ==>
        HoldsEmail(t', e, u) && !(c'.user == u && ClaimsEmail(c', e)) && (RowEmail(t', u, e) <==> RowEmail(t, u, e))
  {
  }

  lemma StatementIgnoresUnclaimedNames(t: Tables, c: Call, fails: bool)
    requires RowsHeld(t) && CallOk(t, c) && !c.Done?
    ensures var (t', c') := Exec(t, c, fails);
      forall n, u :: HoldsName(t, n, u) && !(c.user == u && ClaimsName(c, n)) && !RowName(t, u, n) ==>
        HoldsName(t', n, u) && !(c'.user == u && ClaimsName(c', n)) && !RowName(t', u, n)
  {
  }

  lemma StepKeepsLeakedEmail(s: System, a: Action, e: string)
    requires Inv(s) && Enabled(s, a) && LeakedEmail(s, e)
    ensures LeakedEmail(Next(s, a), e) && Next(s, a).t.emails[e] == s.t.emails[e]
  {
    var v, u := Next(s, a), s.t.emails[e];
    if a.Statement? {
      StatementIgnoresUnclaimedEmails(s.t, s.calls[a.id], a.fails);
      OwnStepOk(s.t, s.calls[a.id], a.fails);
      hide Exec, CallOk, RowsHeld, ClaimsEmail;
      assert HoldsEmail(s.t, e, u);
      assert HoldsEmail(v.t, e, u);
      forall id | id in v.calls ensures !(v.calls[id].user == u && ClaimsEmail(v.calls[id], e)) {
        assert id != a.id ==> v.calls[id] == s.calls[id];
      }
    } else {
      forall id | id in v.calls ensures !(v.calls[id].user == u && ClaimsEmail(v.calls[id], e)) {
        assert id != a.id ==> v.calls[id] == s.calls[id];
      }
    }
  }

  lemma StepKeepsLeakedName(s: System, a: Action, n: string)
    requires Inv(s) && Enabled(s, a) && LeakedName(s, n)
    ensures LeakedName(Next(s, a), n) && Next(s, a).t.names[n] == s.t.names[n]
  {
    var v, u := Next(s, a), s.t.names[n];
    if a.Statement? {
      StatementIgnoresUnclaimedNames(s.t, s.calls[a.id], a.fails);
      OwnStepOk(s.t, s.calls[a.id], a.fails);
      hide Exec, CallOk, RowsHeld, ClaimsName;
      assert HoldsName(s.t, n, u);
      assert HoldsName(v.t, n, u);
      forall id | id in v.calls ensures !(v.calls[id].user == u && ClaimsName(v.calls[id], n)) {
        assert id != a.id ==> v.calls[id] == s.calls[id];
      }
    } else {
      forall id | id in v.calls ensures !(v.calls[id].user == u && ClaimsName(v.calls[id], n)) {
        assert id != a.id ==> v.calls[id] == s.calls[id];
      }
    }
  }

  /** A leaked email or username stays reserved over every run: nobody can register it again. */
  lemma {:induction false} LeakIsForever(s: System, actions: seq<Action>)
    requires Inv(s) && RunFrom(s, actions)
    ensures forall e :: LeakedEmail(s, e) ==> LeakedEmail(Run(s, actions), e)
    ensures forall n :: LeakedName(s, n) ==> LeakedName(Run(s, actions), n)
    decreases |actions|
  {
    if actions != [] {
      StepKeepsInv(s, actions[0]);
      forall e | LeakedEmail(s, e) ensures LeakedEmail(Next(s, actions[0]), e) {
        StepKeepsLeakedEmail(s, actions[0], e);
      }
      forall n | LeakedName(s, n) ensures LeakedName(Next(s, actions[0]), n) {
        StepKeepsLeakedName(s, actions[0], n);
      }
      LeakIsForever(Next(s, actions[0]), actions[1..]);
    }
  }

  /** A failed rollback or rename statement leaves a reservation to nobody. */
  lemma FailureLeaks(s: System, id: CallId)
    requires Inv(s) && id in s.calls && Leaks(s.calls[id])
    ensures var c, v := s.calls[id], Next(s, Statement(id, true));
      if c.UndoEmail? || c.UndoBoth? then LeakedEmail(v, c.email)
      else LeakedName(v, if c.UndoName? then c.name else if c.UpdateRow? then c.newName else c.oldName)
  {
    var c, v := s.calls[id], Next(s, Statement(id, true));
    assert CallOk(s.t, c);
    forall other | other in v.calls && v.calls[other].user == c.user
      ensures forall e :: !ClaimsEmail(v.calls[other], e)
      ensures other != id ==> forall n :: !ClaimsName(v.calls[other], n)
    {
      assert other != id ==> v.calls[other] == s.calls[other] && s.calls[other].Done?;
    }
  }

  ghost predicate LeakRecorded(s: System) {
    !s.clean ==> (exists e :: LeakedEmail(s, e)) || (exists n :: LeakedName(s, n))
  }

  lemma StepKeepsLeakRecorded(s: System, a: Action)
    requires Inv(s) && LeakRecorded(s) && Enabled(s, a)
    ensures LeakRecorded(Next(s, a))
  {
    if !s.clean {
      hide LeakedEmail, LeakedName;
      if e :| LeakedEmail(s, e) {
        StepKeepsLeakedEmail(s, a, e);
      } else {
        var n :| LeakedName(s, n);
        StepKeepsLeakedName(s, a, n);
      }
    } else if !Next(s, a).clean {
      FailureLeaks(s, a.id);
      hide LeakedEmail, LeakedName;
    }
  }

  lemma {:induction false} RunKeepsLeakRecorded(s: System, actions: seq<Action>)
    requires Inv(s) && LeakRecorded(s) && RunFrom(s, actions)
    ensures LeakRecorded(Run(s, actions))
    decreases |actions|
  {
    if actions != [] {
      StepKeepsInv(s, actions[0]);
      StepKeepsLeakRecorded(s, actions[0]);
      RunKeepsLeakRecorded(Next(s, actions[0]), actions[1..]);
    }
  }

  /** The index tables are exactly the inverse of the user table. */
  ghost predicate TablesExact(t: Tables) {
    && (forall e, u :: HoldsEmail(t, e, u) <==> RowEmail(t, u, e))
    && (forall n, u :: HoldsName(t, n, u) <==> RowName(t, u, n))
  }

  /** Between calls the index tables are exact (a failed registration burns neither its email nor its username) exactly
      when no rollback and no rename statement has ever failed. */
  lemma QuietTablesAreExactIff(actions: seq<Action>)
    requires RunFrom(START, actions) && forall id <- Run(START, actions).calls :: Run(START, actions).calls[id].Done?
    ensures TablesExact(Run(START, actions).t) <==> Run(START, actions).clean
  {
    RunKeepsInv(START, actions);
    RunKeepsNoLeak(START, actions);
    RunKeepsLeakRecorded(START, actions);
    var s := Run(START, actions);
    if s.clean {
      forall e, u | HoldsEmail(s.t, e, u) ensures RowEmail(s.t, u, e) { assert OwnedEmail(s, e); }
      forall n, u | HoldsName(s.t, n, u) ensures RowName(s.t, u, n) { assert OwnedName(s, n); }
    } else if e :| LeakedEmail(s, e) {
      assert HoldsEmail(s.t, e, s.t.emails[e]);
    } else {
      var n :| LeakedName(s, n);
      assert HoldsName(s.t, n, s.t.names[n]);
    }
  }

  ghost predicate CanBeFreed(s: System, e: string) {
    exists actions: seq<Action> :: RunFrom(s, actions) && e !in Run(s, actions).t.emails
  }

  lemma Unroll(s: System, actions: seq<Action>)
    requires actions != [] && Enabled(s, actions[0]) && RunFrom(Next(s, actions[0]), actions[1..])
    ensures RunFrom(s, actions) && Run(s, actions) == Run(Next(s, actions[0]), actions[1..])
  {
  }

  lemma RunOfNone(s: System)
    ensures RunFrom(s, []) && Run(s, []) == s
  {
  }

  /** The claiming call fails and rolls back. */
  lemma ClaimCanRollBack(s: System, id: CallId, e: string)
    requires Inv(s) && id in s.calls && ClaimsEmail(s.calls[id], e)
    ensures CanBeFreed(s, e)
    decreases StepsLeft(s.calls[id])
  {
    hide CanBeFreed;
    if s.calls[id].ReserveName? || s.calls[id].InsertRow? {
      var v := Next(s, Statement(id, true));
      StepKeepsInv(s, Statement(id, true));
      ClaimCanRollBack(v, id, e);
      FreedLater(s, Statement(id, true), e);
    } else {
      FreedNow(Next(s, Statement(id, false)), e);
      FreedLater(s, Statement(id, false), e);
    }
  }

  lemma FreedNow(s: System, e: string)
    requires e !in s.t.emails
    ensures CanBeFreed(s, e)
  {
    RunOfNone(s);
  }

  lemma FreedLater(s: System, a: Action, e: string)
    requires Enabled(s, a) && CanBeFreed(Next(s, a), e)
    ensures CanBeFreed(s, e)
  {
    var rest: seq<Action> :| RunFrom(Next(s, a), rest) && e !in Run(Next(s, a), rest).t.emails;
    var actions := [a] + rest;
    assert actions[1..] == rest;
    Unroll(s, actions);
  }

  lemma StepKeepsRowEmail(s: System, a: Action, u: Uid, e: string)
    requires Inv(s) && Enabled(s, a) && RowEmail(s.t, u, e)
    ensures RowEmail(Next(s, a).t, u, e)
  {
    if a.Statement? { assert CallOk(s.t, s.calls[a.id]); }
  }

  lemma {:induction false} UnclaimedStays(s: System, actions: seq<Action>, e: string)
    requires Inv(s) && RunFrom(s, actions) && e in s.t.emails
    requires LeakedEmail(s, e) || RowEmail(s.t, s.t.emails[e], e)
    ensures e in Run(s, actions).t.emails
    decreases |actions|
  {
    if actions != [] {
      var a, u := actions[0], s.t.emails[e];
      StepKeepsInv(s, a);
      if LeakedEmail(s, e) {
        StepKeepsLeakedEmail(s, a, e);
      } else {
        StepKeepsRowEmail(s, a, u, e);
        assert HoldsEmail(Next(s, a).t, e, u);
      }
      UnclaimedStays(Next(s, a), actions[1..], e);
    }
  }

  /** A reserved email can become free again exactly when a registration in flight claims it: neither a used nor a
      leaked one is ever released. */
  lemma EmailCanBeFreedIff(s: System, e: string)
    requires Inv(s) && e in s.t.emails
    ensures CanBeFreed(s, e) <==>
      exists id <- s.calls :: s.calls[id].user == s.t.emails[e] && ClaimsEmail(s.calls[id], e)
  {
    hide Exec, CallOk, RowsHeld, ClaimsEmail;
    if id :| id in s.calls && s.calls[id].user == s.t.emails[e] && ClaimsEmail(s.calls[id], e) {
      ClaimCanRollBack(s, id, e);
    } else if CanBeFreed(s, e) {
      var actions: seq<Action> :| RunFrom(s, actions) && e !in Run(s, actions).t.emails;
      UnclaimedStays(s, actions, e);
    }
  }

  ghost predicate NameCanBeFreed(s: System, n: string) {
    exists actions: seq<Action> :: RunFrom(s, actions) && n !in Run(s, actions).t.names
  }

  lemma NameFreedNow(s: System, n: string)
    requires n !in s.t.names
    ensures NameCanBeFreed(s, n)
  {
    RunOfNone(s);
  }

  lemma NameFreedLater(s: System, a: Action, n: string)
    requires Enabled(s, a) && NameCanBeFreed(Next(s, a), n)
    ensures NameCanBeFreed(s, n)
  {
    var rest: seq<Action> :| RunFrom(Next(s, a), rest) && n !in Run(Next(s, a), rest).t.names;
    var actions := [a] + rest;
    assert actions[1..] == rest;
    Unroll(s, actions);
  }

  lemma {:induction false} UnusedCall(used: set<CallId>) returns (id: CallId)
    ensures forall u :: u in used ==> u < id
    decreases |used|
  {
    if used == {} {
      id := 0;
    } else {
      var u :| u in used;
      var v := UnusedCall(used - {u});
      id := if u < v then v else u + 1;
      assert used == (used - {u}) + {u};
    }
  }

  lemma {:induction false} UnusedName(used: set<string>) returns (n: string)
    ensures forall u :: u in used ==> |u| < |n|
    decreases |used|
  {
    if used == {} {
      n := "";
    } else {
      var u :| u in used;
      var m := UnusedName(used - {u});
      n := if |u| < |m| then m else u + "a";
      assert used == (used - {u}) + {u};
    }
  }

  /** A rename away from the name, step by step: the old name goes last. */
  lemma ReleaseFrees(s: System, id: CallId, n: string)
    requires Inv(s) && id in s.calls && s.calls[id].ReleaseOld? && s.calls[id].oldName == n
    ensures NameCanBeFreed(s, n)
  {
    NameFreedNow(Next(s, Statement(id, false)), n);
    NameFreedLater(s, Statement(id, false), n);
  }

  lemma UpdateFrees(s: System, id: CallId, n: string)
    requires Inv(s) && id in s.calls && s.calls[id].UpdateRow? && s.calls[id].oldName == n
    ensures NameCanBeFreed(s, n)
  {
    StepKeepsInv(s, Statement(id, false));
    ReleaseFrees(Next(s, Statement(id, false)), id, n);
    NameFreedLater(s, Statement(id, false), n);
  }

  lemma IdleUserCanRename(s: System, u: Uid)
    requires Inv(s) && u in s.t.users && !Renaming(s, u)
    ensures NameCanBeFreed(s, s.t.users[u].username)
  {
    hide NameCanBeFreed;
    var n := s.t.users[u].username;
    var id := UnusedCall(s.calls.Keys);
    var other := UnusedName(s.t.names.Keys);
    assert HoldsName(s.t, n, u);
    assert other !in s.t.names && id !in s.calls && other != n;
    var begin, reserve := BeginRename(id, u, other), Statement(id, false);
    var s1 := Next(s, begin);
    var s2 := Next(s1, reserve);
    StepKeepsInv(s, begin);
    StepKeepsInv(s1, reserve);
    UpdateFrees(s2, id, n);
    NameFreedLater(s1, reserve, n);
    NameFreedLater(s, begin, n);
  }

  /** A name in use can be given up: a rename in flight is brought to its end, then its user renames away. */
  lemma UsedNameCanBeFreed(s: System, u: Uid)
    requires Inv(s) && u in s.t.users
    ensures NameCanBeFreed(s, s.t.users[u].username)
  {
    hide NameCanBeFreed;
    if id :| id in s.calls && !s.calls[id].Done? && s.calls[id].user == u {
      var n := s.t.users[u].username;
      assert CallOk(s.t, s.calls[id]);
      if s.calls[id].UpdateRow? {
        UpdateFrees(s, id, n);
      } else {
        var stop := Statement(id, true);
        var v := Next(s, stop);
        StepKeepsInv(s, stop);
        assert v.calls[id].Done? && !Renaming(v, u);
        IdleUserCanRename(v, u);
        NameFreedLater(s, stop, n);
      }
    } else {
      IdleUserCanRename(s, u);
    }
  }

  lemma ClaimedNameCanBeFreed(s: System, id: CallId, n: string)
    requires Inv(s) && id in s.calls && ClaimsName(s.calls[id], n)
    ensures NameCanBeFreed(s, n)
    decreases StepsLeft(s.calls[id])
  {
    hide NameCanBeFreed;
    var c := s.calls[id];
    if c.ReleaseOld? {
      ReleaseFrees(s, id, n);
    } else if c.UpdateRow? {
      StepKeepsInv(s, Statement(id, false));
      UsedNameCanBeFreed(Next(s, Statement(id, false)), c.user);
      NameFreedLater(s, Statement(id, false), n);
    } else if c.UndoName? {
      NameFreedNow(Next(s, Statement(id, false)), n);
      NameFreedLater(s, Statement(id, false), n);
    } else {
      StepKeepsInv(s, Statement(id, true));
      ClaimedNameCanBeFreed(Next(s, Statement(id, true)), id, n);
      NameFreedLater(s, Statement(id, true), n);
    }
  }

  /** A reserved username can become free again exactly when it is not leaked. */
  lemma NameCanBeFreedIff(s: System, n: string)
    requires Inv(s) && n in s.t.names
    ensures NameCanBeFreed(s, n) <==> !LeakedName(s, n)
  {
    hide ClaimsName;
    var u := s.t.names[n];
    if LeakedName(s, n) {
      forall actions: seq<Action> | RunFrom(s, actions) ensures n in Run(s, actions).t.names {
        LeakIsForever(s, actions);
      }
    } else if u in s.t.users && s.t.users[u].username == n {
      UsedNameCanBeFreed(s, u);
    } else {
      var id :| id in s.calls && s.calls[id].user == u && ClaimsName(s.calls[id], n);
      ClaimedNameCanBeFreed(s, id, n);
    }
  }

  // ---- why renames of one user must not overlap ----

  /** The unconditional delete of the old name is sound exactly when no row has that name: neither another user's nor,
      after an overlapping rename back, the user's own. */
  lemma ReleaseIsSafeIff(t: Tables, u: Uid, oldName: string, newName: string)
    requires RowsHeld(t)
    ensures RowsHeld(Exec(t, ReleaseOld(u, oldName, newName), false).0)
       <==> forall v <- t.users :: t.users[v].username != oldName
  {
    var t' := Exec(t, ReleaseOld(u, oldName, newName), false).0;
    if v :| v in t.users && t.users[v].username == oldName {
      assert v in t'.users && !HoldsName(t', t'.users[v].username, v);
    }
  }

  /** Runs the statements of a call one after another without failures. */
  function Finish(t: Tables, c: Call): Tables {
    Complete(t, c, _ => false).0
  }

  function StepsLeft(c: Call): nat {
    match c
    case ReserveEmail(_, _, _) => 5
    case ReserveName(_, _, _) => 4
    case InsertRow(_, _, _) => 3
    case UndoEmail(_, _, _) => 1
    case UndoBoth(_, _, _) => 2
    case UndoName(_, _) => 1
    case ReserveNew(_, _, _) => 3
    case UpdateRow(_, _, _) => 2
    case ReleaseOld(_, _, _) => 1
    case Done(_, _) => 0
  }

  /** Two renames of user 1 that both read the name "a": between them user 2 registers "a"; the second rename
      deletes user 2's reservation, and user 3 can register "a" as well. */
  lemma OverlappingRenamesBreakUniqueness()
    ensures var t0 := Tables(map["1@x" := 1], map["a" := 1], map[1 := UserRow("a", "1@x")]);
      var t1 := Finish(t0, ReserveNew(1, "a", "b"));
      var t2 := Finish(t1, ReserveEmail(2, "2@x", "a"));
      var t3 := Finish(t2, ReserveNew(1, "a", "c"));
      var t4 := Finish(t3, ReserveEmail(3, "3@x", "a"));
      RowsHeld(t0) && 2 in t4.users && 3 in t4.users && t4.users[2].username == t4.users[3].username == "a"
  {
    var t0 := Tables(map["1@x" := 1], map["a" := 1], map[1 := UserRow("a", "1@x")]);
    var t1 := Tables(map["1@x" := 1], map["b" := 1], map[1 := UserRow("b", "1@x")]);
    assert Finish(t0, ReserveNew(1, "a", "b")) == t1 by { RenameRuns(t0, 1, "a", "b"); }
    var t2 := Tables(map["1@x" := 1, "2@x" := 2], map["b" := 1, "a" := 2],
                     map[1 := UserRow("b", "1@x"), 2 := UserRow("a", "2@x")]);
    assert Finish(t1, ReserveEmail(2, "2@x", "a")) == t2 by { CreateRuns(t1, 2, "2@x", "a"); }
    var t3 := Finish(t2, ReserveNew(1, "a", "c"));
    RenameRuns(t2, 1, "a", "c");
    CreateRuns(t3, 3, "3@x", "a");
  }

  lemma RenameRuns(t: Tables, u: Uid, o: string, n: string)
    requires n !in t.names && u in t.users
    ensures Finish(t, ReserveNew(u, o, n))
         == Tables(t.emails, t.names[n := u] - {o}, t.users[u := UserRow(n, t.users[u].email)])
  {
    var (t1, c1) := Exec(t, ReserveNew(u, o, n), false);
    var (t2, c2) := Exec(t1, c1, false);
    var (t3, c3) := Exec(t2, c2, false);
    assert Finish(t3, c3) == t3 && Finish(t2, c2) == t3 && Finish(t1, c1) == t3;
  }

  lemma CreateRuns(t: Tables, u: Uid, e: string, n: string)
    requires e !in t.emails && n !in t.names
    ensures Finish(t, ReserveEmail(u, e, n)) == Tables(t.emails[e := u], t.names[n := u], t.users[u := UserRow(n, e)])
  {
    var (t1, c1) := Exec(t, ReserveEmail(u, e, n), false);
    var (t2, c2) := Exec(t1, c1, false);
    var (t3, c3) := Exec(t2, c2, false);
    assert Finish(t3, c3) == t3 && Finish(t2, c2) == t3 && Finish(t1, c1) == t3;
  }

  // ---- the repository ----

  /** A call run to its end; `fails` says which of its statements fail. */
  function Complete(t: Tables, c: Call, fails: Call -> bool): (Tables, Call)
    decreases StepsLeft(c)
  {
    if c.Done? then (t, c) else var (t', c') := Exec(t, c, fails(c)); Complete(t', c', fails)
  }

  /** One statement of a complete run; a finished call changes nothing more. */
  lemma OneStatement(t: Tables, c: Call, fails: Call -> bool)
    requires !c.Done?
    ensures var (t', c') := Exec(t, c, fails(c));
      Complete(t, c, fails) == Complete(t', c', fails) && (c'.Done? ==> Complete(t', c', fails) == (t', c'))
  {
  }

  /** A registration's statements in order, with the rollback of what it reserved. */
  lemma CreateCompletes(t: Tables, u: Uid, email: string, name: string, fails: Call -> bool)
    ensures var end := Complete(t, ReserveEmail(u, email, name), fails);
      var (emails, names) := (t.emails[email := u], t.names[name := u]);
      if fails(ReserveEmail(u, email, name)) then end == (t, Done(u, Failure(Unavailable)))
      else if email in t.emails then end == (t, Done(u, Failure(Conflict)))
      else if fails(ReserveName(u, email, name)) || name in t.names then
        var error := if fails(ReserveName(u, email, name)) then Unavailable else Conflict;
        end == (if fails(UndoEmail(u, email, error)) then t.(emails := emails) else t, Done(u, Failure(error)))
      else if fails(InsertRow(u, email, name)) then
        end == (t.(emails := if fails(UndoBoth(u, email, name)) then emails else t.emails,
                   names := if fails(UndoName(u, name)) then names else t.names), Done(u, Failure(Unavailable)))
      else end == (Tables(emails, names, t.users[u := UserRow(name, email)]), Done(u, Success(())))
  {
    hide Complete;
    var (emails, names) := (t.emails[email := u], t.names[name := u]);
    OneStatement(t, ReserveEmail(u, email, name), fails);
    if !fails(ReserveEmail(u, email, name)) && email !in t.emails {
      var t1 := t.(emails := emails);
      assert emails - {email} == t.emails;
      OneStatement(t1, ReserveName(u, email, name), fails);
      if fails(ReserveName(u, email, name)) || name in t.names {
        var error := if fails(ReserveName(u, email, name)) then Unavailable else Conflict;
        OneStatement(t1, UndoEmail(u, email, error), fails);
      } else {
        var t2 := t1.(names := names);
        assert names - {name} == t.names;
        OneStatement(t2, InsertRow(u, email, name), fails);
        if fails(InsertRow(u, email, name)) {
          OneStatement(t2, UndoBoth(u, email, name), fails);
          OneStatement(if fails(UndoBoth(u, email, name)) then t2 else t.(names := names), UndoName(u, name), fails);
        }
      }
    }
  }

  class Users {
    var emails: map<string, Uid>
    var names: map<string, Uid>
    var users: map<Uid, UserRow>

    function View(): Tables
      reads this
    {
      Tables(emails, names, users)
    }

    constructor ()
      ensures View() == START.t && emails == map[] && names == map[] && users == map[]
    {
      emails, names, users := map[], map[], map[];
    }

    method Create(u: Uid, email: string, name: string, fails: Call -> bool) returns (r: Result<(), StoreError>)
      modifies this
      ensures (View(), Done(u, r)) == Complete(old(View()), ReserveEmail(u, email, name), fails)
      ensures u !in old(users) ==> (r.Success? <==> u in users && users[u] == UserRow(name, email))
      ensures r.Success? <==>
        && email !in old(emails) && !fails(ReserveEmail(u, email, name))
        && name !in old(names) && !fails(ReserveName(u, email, name)) && !fails(InsertRow(u, email, name))
      ensures r == Failure(Conflict) <==>
        && !fails(ReserveEmail(u, email, name))
        && (email in old(emails) || (name in old(names) && !fails(ReserveName(u, email, name))))
      ensures r.Success? || r == Failure(Conflict) || r == Failure(Unavailable)
      ensures users == if r.Success? then old(users)[u := UserRow(name, email)] else old(users)
    {
      hide Complete, Exec;
      CreateCompletes(View(), u, email, name, fails);
      if fails(ReserveEmail(u, email, name)) {
        return Failure(Unavailable);
      }
      if email in emails {
        return Failure(Conflict);
      }
      emails := emails[email := u];
      assert emails - {email} == old(emails);
      if fails(ReserveName(u, email, name)) || name in names {
        var error := if fails(ReserveName(u, email, name)) then Unavailable else Conflict;
        if !fails(UndoEmail(u, email, error)) {
          emails := emails - {email};
        }
        return Failure(error);
      }
      names := names[name := u];
      assert names - {name} == old(names);
      if fails(InsertRow(u, email, name)) {
        if !fails(UndoBoth(u, email, name)) {
          emails := emails - {email};
        }
        if !fails(UndoName(u, name)) {
          names := names - {name};
        }
        return Failure(Unavailable);
      }
      users := users[u := UserRow(name, email)];
      r := Success(());
    }

    method UpdateUsername(u: Uid, oldName: string, newName: string, fails: Call -> bool)
      returns (r: Result<(), StoreError>)
      modifies this
      ensures (View(), Done(u, r)) == Complete(old(View()), ReserveNew(u, oldName, newName), fails)
      ensures r.Success? <==>
        && newName !in old(names) && !fails(ReserveNew(u, oldName, newName))
        && !fails(UpdateRow(u, oldName, newName)) && !fails(ReleaseOld(u, oldName, newName))
      ensures r == Failure(Conflict) <==> newName in old(names) && !fails(ReserveNew(u, oldName, newName))
      ensures r.Success? || r == Failure(Conflict) || r == Failure(Unavailable)
      ensures r.Success? ==> u in users && users[u].username == newName && names == old(names)[newName := u] - {oldName}
      ensures users == old(users) ||
        users == old(users)[u := UserRow(newName, if u in old(users) then old(users)[u].email else "")]
      ensures emails == old(emails) && names - {oldName, newName} == old(names) - {oldName, newName}
      ensures newName in old(names) ==> names == old(names) && users == old(users)
    {
      hide Complete;
      OneStatement(View(), ReserveNew(u, oldName, newName), fails);
      if fails(ReserveNew(u, oldName, newName)) {
        return Failure(Unavailable);
      }
      if newName in names {
        return Failure(Conflict);
      }
      names := names[newName := u];
      OneStatement(View(), UpdateRow(u, oldName, newName), fails);
      if fails(UpdateRow(u, oldName, newName)) {
        return Failure(Unavailable);
      }
      users := users[u := UserRow(newName, if u in users then users[u].email else "")];
      OneStatement(View(), ReleaseOld(u, oldName, newName), fails);
      if fails(ReleaseOld(u, oldName, newName)) {
        return Failure(Unavailable);
      }
      names := names - {oldName};
      r := Success(());
    }

    method LookUpByEmail(email: string) returns (r: Result<(Uid, UserRow), StoreError>)
      ensures r == GetByEmail(View(), email)
      ensures r.Success? <==> email in emails && emails[email] in users
      ensures r == if r.Success? then Success((emails[email], users[emails[email]])) else Failure(NotFound)
    {
      if email !in emails {
        return Failure(NotFound);
      }
      var id := emails[email];
      r := if id in users then Success((id, users[id])) else Failure(NotFound);
    }
  }
}
