/** The in-process user cache (backend/internal/store/usercache.go): two locked regions around an unlocked fetch,
    interleaved with other calls, invalidations and store updates. */
module AuthorCache {
  import opened Wrappers

  type Uid = nat
  type User = string
  type CallId = nat

  datatype Entry = Entry(user: User, expires: int)

  predicate IsHit(entries: map<Uid, Entry>, id: Uid, now: int) {
    id in entries && now < entries[id].expires
  }

  function Hits(entries: map<Uid, Entry>, ids: seq<Uid>, now: int): map<Uid, User> {
    map id <- ids | IsHit(entries, id, now) :: entries[id].user
  }

  /** The requested ids that must be fetched, each once, in order of first request. */
  function Misses(entries: map<Uid, Entry>, ids: seq<Uid>, now: int): seq<Uid> {
    if ids == [] then []
    else
      var init, id := ids[..|ids| - 1], ids[|ids| - 1];
      Misses(entries, init, now) + if id in init || IsHit(entries, id, now) then [] else [id]
  }

  ghost predicate NoRepeats(s: seq<Uid>) {
    forall i, j :: 0 <= i < j < |s| ==> s[i] != s[j]
  }

  /** Hits and misses split the requested ids, and the fetch batch has no repeats. */
  lemma {:induction false} LookupSplits(entries: map<Uid, Entry>, ids: seq<Uid>, now: int)
    ensures NoRepeats(Misses(entries, ids, now))
    ensures forall id :: id in Misses(entries, ids, now) <==> id in ids && id !in Hits(entries, ids, now)
  {
    if ids != [] {
      var init, id := ids[..|ids| - 1], ids[|ids| - 1];
      assert ids == init + [id];
      LookupSplits(entries, init, now);
    }
  }

  function Stored(entries: map<Uid, Entry>, fetched: map<Uid, User>, expires: int): map<Uid, Entry> {
    entries + map id <- fetched :: Entry(fetched[id], expires)
  }

  /** What one read of the user table finds; unknown ids are absent. */
  function Found(users: map<Uid, User>, ids: seq<Uid>): map<Uid, User> {
    map id <- ids | id in users :: users[id]
  }

  /** The fetched rows taken over so far. */
  function Part(fetched: map<Uid, User>, done: set<Uid>): map<Uid, User> {
    map id <- fetched | id in done :: fetched[id]
  }

  lemma OneMore(entries: map<Uid, Entry>, fetched: map<Uid, User>, done: set<Uid>, id: Uid, expires: int,
      out: map<Uid, User>)
    requires id in fetched && id !in done
    ensures out + Part(fetched, done + {id}) == (out + Part(fetched, done))[id := fetched[id]]
    ensures Stored(entries, Part(fetched, done + {id}), expires)
         == Stored(entries, Part(fetched, done), expires)[id := Entry(fetched[id], expires)]
  {
  }

  class UserCache {
    const ttl: int
    var entries: map<Uid, Entry>

    constructor (ttl: int)
      ensures this.ttl == ttl && entries == map[]
    {
      this.ttl, entries := ttl, map[];
    }

    /** First locked region. */
    method Lookup(ids: seq<Uid>, now: int) returns (out: map<Uid, User>, misses: seq<Uid>)
      ensures out == Hits(entries, ids, now) && misses == Misses(entries, ids, now)
      ensures forall id :: id in out <==> id in ids && id in entries && now < entries[id].expires
      ensures forall id <- out :: out[id] == entries[id].user
      ensures forall id :: id in misses <==> id in ids && id !in out
      ensures forall i, j :: 0 <= i < j < |misses| ==> misses[i] != misses[j]
    {
      out, misses := map[], [];
      var seen: set<Uid> := {};
      for i := 0 to |ids|
        invariant out == Hits(entries, ids[..i], now) && misses == Misses(entries, ids[..i], now)
        invariant forall id :: id in seen <==> id in ids[..i]
      {
        var id := ids[i];
        assert ids[..i + 1] == ids[..i] + [id] && ids[..i + 1][..i] == ids[..i];
        if id in seen {
          continue;
        }
        seen := seen + {id};
        if id in entries && now < entries[id].expires {
          out := out[id := entries[id].user];
        } else {
          misses := misses + [id];
        }
      }
      assert ids[..|ids|] == ids;
      LookupSplits(entries, ids, now);
    }

    /** Second locked region: `now` is the time the call started. */
    method Fill(fetched: map<Uid, User>, now: int, out: map<Uid, User>) returns (all: map<Uid, User>)
      modifies this
      ensures entries == Stored(old(entries), fetched, now + ttl)
      ensures all == out + fetched
    {
      all := out;
      var expires := now + ttl;
      var rest := fetched.Keys;
      assert Part(fetched, {}) == map[] && Part(fetched, fetched.Keys) == fetched;
      assert Stored(entries, map[], expires) == entries;
      assert fetched.Keys - rest == {} && fetched.Keys - {} == fetched.Keys && out + map[] == out;
      hide Part, Stored;
      while rest != {}
        invariant rest <= fetched.Keys
        invariant all == out + Part(fetched, fetched.Keys - rest)
        invariant entries == Stored(old(entries), Part(fetched, fetched.Keys - rest), expires)
        decreases rest
      {
        var id :| id in rest;
        OneMore(old(entries), fetched, fetched.Keys - rest, id, expires, out);
        assert fetched.Keys - (rest - {id}) == fetched.Keys - rest + {id};
        entries := entries[id := Entry(fetched[id], expires)];
        all := all[id := fetched[id]];
        rest := rest - {id};
      }
    }

    /** A whole call with nothing in between. */
    method GetByIDs(ids: seq<Uid>, now: int, users: map<Uid, User>, unavailable: bool)
      returns (r: Result<map<Uid, User>, StoreError>)
      modifies this
      // A request fails exactly when some id is not held, or no longer, and the table cannot be read.
      ensures r.Failure? <==>
        unavailable && exists id <- ids :: id !in old(entries) || now >= old(entries)[id].expires
      ensures r.Failure? ==> entries == old(entries)
      // What is held is answered from the cache, the rest from the table, and that is then held for one ttl.
      ensures r.Success? ==> forall id :: id in r.value <==>
        id in ids && ((id in old(entries) && now < old(entries)[id].expires) || id in users)
      ensures r.Success? ==> forall id <- r.value ::
        r.value[id] == if id in old(entries) && now < old(entries)[id].expires then old(entries)[id].user else users[id]
      ensures r.Success? ==> forall id :: id in entries <==> id in old(entries) || (id in ids && id in users)
      ensures r.Success? ==> forall id <- entries ::
        entries[id] == if id in ids && id in users && !(id in old(entries) && now < old(entries)[id].expires)
          then Entry(users[id], now + ttl) else old(entries)[id]
    {
      var out, misses := Lookup(ids, now);
      LookupSplits(entries, ids, now);
      if misses == [] {
        assert Found(users, misses) == map[];
        return Success(out);
      }
      if unavailable {
        assert misses[0] in misses;
        return Failure(Unavailable);
      }
      var all := Fill(Found(users, misses), now, out);
      r := Success(all);
    }

    method Invalidate(id: Uid)
      modifies this
      ensures entries == old(entries) - {id}
    {
      entries := entries - {id};
    }
  }

  // ---- interleavings ----

  /** A call: before its first region, reading the store id by id, or finished with a result. */
  datatype Call =
    | Started(ids: seq<Uid>, now: int)
    | Fetching(ids: seq<Uid>, now: int, out: map<Uid, User>, todo: seq<Uid>, fetched: map<Uid, User>)
    | Returned(ids: seq<Uid>, now: int, out: map<Uid, User>)
    | Failed

  /** What the user table held at one moment; `timeline` lists every moment so far, the last being the present. */
  datatype Moment = Moment(time: int, users: map<Uid, User>)

  datatype World = World(ttl: int, timeline: seq<Moment>, entries: map<Uid, Entry>, calls: map<CallId, Call>)

  datatype Action =
    | Begin(call: CallId, ids: seq<Uid>)
    | LookUp(call: CallId)
    | ReadOne(call: CallId)
    | ReadFails(call: CallId)
    | StoreFetched(call: CallId)
    | Invalidate(id: Uid)
    | Update(users: map<Uid, User>)
    | Tick(time: int)

  function Present(w: World): Moment
    requires w.timeline != []
  {
    w.timeline[|w.timeline| - 1]
  }

  predicate Enabled(w: World, a: Action) {
    && w.timeline != []
    && match a
       case Begin(c, _) => c !in w.calls
       case LookUp(c) => c in w.calls && w.calls[c].Started?
       case ReadOne(c) => c in w.calls && w.calls[c].Fetching? && w.calls[c].todo != []
       case ReadFails(c) => c in w.calls && w.calls[c].Fetching?
       case StoreFetched(c) => c in w.calls && w.calls[c].Fetching? && w.calls[c].todo == []
       case Invalidate(_) => true
       case Update(_) => true
       case Tick(time) => Present(w).time <= time
  }

  function Next(w: World, a: Action): World
    requires Enabled(w, a)
  {
    match a
    case Begin(c, ids) => w.(calls := w.calls[c := Started(ids, Present(w).time)])
    case LookUp(c) =>
      var call := w.calls[c];
      var out, misses := Hits(w.entries, call.ids, call.now), Misses(w.entries, call.ids, call.now);
      w.(calls := w.calls[c := if misses == [] then Returned(call.ids, call.now, out)
                               else Fetching(call.ids, call.now, out, misses, map[])])
    case ReadOne(c) =>
      var call, id := w.calls[c], w.calls[c].todo[0];
      var users := Present(w).users;
      w.(calls := w.calls[c := call.(todo := call.todo[1..],
                                     fetched := if id in users then call.fetched[id := users[id]] else call.fetched)])
    case ReadFails(c) => w.(calls := w.calls[c := Failed])
    case StoreFetched(c) =>
      var call := w.calls[c];
      w.(entries := Stored(w.entries, call.fetched, call.now + w.ttl),
         calls := w.calls[c := Returned(call.ids, call.now, call.out + call.fetched)])
    case Invalidate(id) => w.(entries := w.entries - {id})
    case Update(users) => w.(timeline := w.timeline + [Moment(Present(w).time, users)])
    case Tick(time) => w.(timeline := w.timeline + [Moment(time, Present(w).users)])
  }

  predicate HadValue(m: Moment, id: Uid, user: User) {
    id in m.users && m.users[id] == user
  }

  /** The store held `user` under `id` at some moment not before `from`, among the moments from index `n` on. */
  ghost predicate WasValue(timeline: seq<Moment>, n: nat, id: Uid, user: User, from: int) {
    exists i :: n <= i < |timeline| && timeline[i].time >= from && HadValue(timeline[i], id, user)
  }

  lemma StillWasValue(timeline: seq<Moment>, more: seq<Moment>, n: nat, id: Uid, user: User, from: int)
    requires WasValue(timeline, n, id, user, from)
    ensures WasValue(timeline + more, n, id, user, from)
  {
    var i :| n <= i < |timeline| && timeline[i].time >= from && HadValue(timeline[i], id, user);
    assert (timeline + more)[i] == timeline[i];
  }

  ghost predicate CallOk(w: World, c: Call)
    requires w.timeline != []
  {
    match c
    case Started(_, now) => now <= Present(w).time
    case Fetching(ids, now, out, todo, fetched) =>
      && now <= Present(w).time
      && (forall id <- out :: id in ids && WasValue(w.timeline, 0, id, out[id], now - w.ttl + 1))
      && NoRepeats(todo) && (forall id <- todo :: id in ids && id !in fetched)
      && (forall id <- fetched :: id in ids && WasValue(w.timeline, 0, id, fetched[id], now))
    case Returned(ids, now, out) =>
      forall id <- out :: id in ids && WasValue(w.timeline, 0, id, out[id], now - w.ttl + 1)
    case Failed => true
  }

  ghost predicate Inv(w: World) {
    && w.timeline != [] && w.ttl > 0
    && (forall id <- w.entries :: WasValue(w.timeline, 0, id, w.entries[id].user, w.entries[id].expires - w.ttl))
    && (forall c <- w.calls :: CallOk(w, w.calls[c]))
  }

  lemma Later(timeline: seq<Moment>, n: nat, id: Uid, user: User, from: int, from': int)
    requires WasValue(timeline, n, id, user, from) && from' <= from
    ensures WasValue(timeline, n, id, user, from')
  {
  }

  lemma MoreTime(w: World, m: Moment)
    requires Inv(w) && Present(w).time <= m.time
    ensures Inv(w.(timeline := w.timeline + [m]))
  {
    var v := w.(timeline := w.timeline + [m]);
    forall id, user, from | WasValue(w.timeline, 0, id, user, from) ensures WasValue(v.timeline, 0, id, user, from) {
      StillWasValue(w.timeline, [m], 0, id, user, from);
    }
    hide WasValue;
    forall c | c in v.calls ensures CallOk(v, v.calls[c]) {
      assert CallOk(w, w.calls[c]);
    }
  }

  lemma LookUpOk(w: World, c: CallId)
    requires Inv(w) && Enabled(w, LookUp(c))
    ensures CallOk(w, Next(w, LookUp(c)).calls[c])
  {
    var call := w.calls[c];
    assert CallOk(w, call);
    LookupSplits(w.entries, call.ids, call.now);
    var out := Hits(w.entries, call.ids, call.now);
    forall id | id in out ensures WasValue(w.timeline, 0, id, out[id], call.now - w.ttl + 1) {
      Later(w.timeline, 0, id, out[id], w.entries[id].expires - w.ttl, call.now - w.ttl + 1);
    }
  }

  lemma StoreFetchedOk(w: World, c: CallId)
    requires Inv(w) && Enabled(w, StoreFetched(c))
    ensures Inv(Next(w, StoreFetched(c)))
  {
    var call, v := w.calls[c], Next(w, StoreFetched(c));
    assert CallOk(w, call);
    forall id | id in call.fetched ensures WasValue(w.timeline, 0, id, call.fetched[id], call.now - w.ttl + 1) {
      Later(w.timeline, 0, id, call.fetched[id], call.now, call.now - w.ttl + 1);
    }
    hide WasValue;
    forall k | k in v.calls ensures CallOk(v, v.calls[k]) {
      if k != c { assert CallOk(w, w.calls[k]); }
    }
  }

  lemma StepKeepsInv(w: World, a: Action)
    requires Inv(w) && Enabled(w, a)
    ensures Inv(Next(w, a))
  {
    var v := Next(w, a);
    match a {
      case Update(users) => MoreTime(w, Moment(Present(w).time, users));
      case Tick(time) => MoreTime(w, Moment(time, Present(w).users));
      case StoreFetched(c) => StoreFetchedOk(w, c);
      case Begin(c, _) => CallsKeepInv(w, v, c);
      case LookUp(c) => LookUpOk(w, c); CallsKeepInv(w, v, c);
      case ReadOne(c) => ReadOk(w, c); CallsKeepInv(w, v, c);
      case ReadFails(c) => CallsKeepInv(w, v, c);
      case Invalidate(_) => assert forall c <- v.calls :: CallOk(w, w.calls[c]) ==> CallOk(v, v.calls[c]);
    }
  }

  lemma ReadOk(w: World, c: CallId)
    requires Inv(w) && Enabled(w, ReadOne(c))
    ensures CallOk(w, Next(w, ReadOne(c)).calls[c])
  {
    var call, id := w.calls[c], w.calls[c].todo[0];
    assert CallOk(w, call);
    var users := Present(w).users;
    if id in users {
      assert w.timeline[|w.timeline| - 1].users[id] == users[id];
      assert WasValue(w.timeline, 0, id, users[id], call.now);
    }
  }

  lemma CallsKeepInv(w: World, v: World, c: CallId)
    requires Inv(w) && v == w.(calls := v.calls) && c in v.calls
    requires forall k <- v.calls :: k != c ==> k in w.calls && v.calls[k] == w.calls[k]
    requires CallOk(w, v.calls[c])
    ensures Inv(v)
  {
    hide WasValue;
    forall k | k in v.calls ensures CallOk(v, v.calls[k]) {
      assert CallOk(w, v.calls[k]);
    }
  }

  ghost predicate RunFrom(w: World, actions: seq<Action>)
    decreases |actions|
  {
    actions != [] ==> Enabled(w, actions[0]) && RunFrom(Next(w, actions[0]), actions[1..])
  }

  function Run(w: World, actions: seq<Action>): World
    requires RunFrom(w, actions)
    decreases |actions|
  {
    if actions == [] then w else Run(Next(w, actions[0]), actions[1..])
  }

  lemma {:induction false} RunKeepsInv(w: World, actions: seq<Action>)
    requires Inv(w) && RunFrom(w, actions)
    ensures Inv(Run(w, actions))
    decreases |actions|
  {
    if actions != [] {
      StepKeepsInv(w, actions[0]);
      RunKeepsInv(Next(w, actions[0]), actions[1..]);
    }
  }

  function Start(ttl: int, time: int, users: map<Uid, User>): World {
    World(ttl, [Moment(time, users)], map[], map[])
  }

  /** Bounded staleness: over every interleaving, a fetch racing an invalidation included, each record a call
      returns was asked for, and was the store's value at some moment later than the call's start minus the ttl. */
  lemma ResultsAreRecent(ttl: int, time: int, users: map<Uid, User>, actions: seq<Action>, c: CallId, id: Uid)
    requires ttl > 0 && RunFrom(Start(ttl, time, users), actions)
    requires var w := Run(Start(ttl, time, users), actions);
      c in w.calls && w.calls[c].Returned? && id in w.calls[c].out
    ensures var w := Run(Start(ttl, time, users), actions);
      && id in w.calls[c].ids
      && exists i :: 0 <= i < |w.timeline| && w.timeline[i].time > w.calls[c].now - ttl
           && id in w.timeline[i].users && w.timeline[i].users[id] == w.calls[c].out[id]
  {
    var w := Run(Start(ttl, time, users), actions);
    RunKeepsTtl(Start(ttl, time, users), actions);
    RunKeepsInv(Start(ttl, time, users), actions);
    assert CallOk(w, w.calls[c]);
    assert WasValue(w.timeline, 0, id, w.calls[c].out[id], w.calls[c].now - ttl + 1);
  }

  lemma {:induction false} RunKeepsTtl(w: World, actions: seq<Action>)
    requires RunFrom(w, actions)
    ensures Run(w, actions).ttl == w.ttl
    decreases |actions|
  {
    if actions != [] { RunKeepsTtl(Next(w, actions[0]), actions[1..]); }
  }

  // ---- nothing that was asked for is left out ----

  /** The table lacked the id at some moment not before `from`. */
  ghost predicate WasAbsent(timeline: seq<Moment>, id: Uid, from: int) {
    exists i :: 0 <= i < |timeline| && timeline[i].time >= from && id !in timeline[i].users
  }

  /** Every requested id has an answer, is still to be read, or was found missing. */
  ghost predicate SkipsNothing(w: World, c: Call) {
    match c
    case Fetching(ids, now, out, todo, fetched) =>
      forall id <- ids :: id in out || id in todo || id in fetched || WasAbsent(w.timeline, id, now)
    case Returned(ids, now, out) => forall id <- ids :: id in out || WasAbsent(w.timeline, id, now)
    case _ => true
  }

  lemma StepSkipsNothing(w: World, a: Action, c: CallId)
    requires Inv(w) && Enabled(w, a) && c in Next(w, a).calls
    requires c in w.calls ==> SkipsNothing(w, w.calls[c])
    ensures SkipsNothing(Next(w, a), Next(w, a).calls[c])
  {
    var v := Next(w, a);
    if c in w.calls && v.calls[c] == w.calls[c] {
      forall id, from | WasAbsent(w.timeline, id, from) ensures WasAbsent(v.timeline, id, from) {
        var i :| 0 <= i < |w.timeline| && w.timeline[i].time >= from && id !in w.timeline[i].users;
        assert v.timeline[i] == w.timeline[i];
      }
    } else if a.LookUp? {
      LookupSplits(w.entries, w.calls[c].ids, w.calls[c].now);
    } else if a.ReadOne? {
      assert CallOk(w, w.calls[c]);
      assert w.timeline[|w.timeline| - 1] == Present(w);
    }
  }

  lemma {:induction false} RunSkipsNothing(w: World, actions: seq<Action>)
    requires Inv(w) && RunFrom(w, actions) && forall c <- w.calls :: SkipsNothing(w, w.calls[c])
    ensures forall c <- Run(w, actions).calls :: SkipsNothing(Run(w, actions), Run(w, actions).calls[c])
    decreases |actions|
  {
    hide Inv, Next, Enabled, SkipsNothing;
    if actions != [] {
      StepKeepsInv(w, actions[0]);
      forall c | c in Next(w, actions[0]).calls
        ensures SkipsNothing(Next(w, actions[0]), Next(w, actions[0]).calls[c])
      {
        StepSkipsNothing(w, actions[0], c);
      }
      RunSkipsNothing(Next(w, actions[0]), actions[1..]);
    }
  }

  /** Completeness: over every interleaving, a requested id that a returned answer lacks was missing in the table at
      some moment since the call began. */
  lemma ResultsAreComplete(ttl: int, time: int, users: map<Uid, User>, actions: seq<Action>, c: CallId, id: Uid)
    requires ttl > 0 && RunFrom(Start(ttl, time, users), actions)
    requires var w := Run(Start(ttl, time, users), actions);
      c in w.calls && w.calls[c].Returned? && id in w.calls[c].ids && id !in w.calls[c].out
    ensures var w := Run(Start(ttl, time, users), actions);
      exists i :: 0 <= i < |w.timeline| && w.timeline[i].time >= w.calls[c].now && id !in w.timeline[i].users
  {
    RunSkipsNothing(Start(ttl, time, users), actions);
    var w := Run(Start(ttl, time, users), actions);
    assert SkipsNothing(w, w.calls[c]);
    assert WasAbsent(w.timeline, id, w.calls[c].now);
  }

  // ---- what an invalidation achieves ----

  /** Nothing held or being fetched for `id` is older than moment `n`. */
  ghost predicate CleanSince(w: World, id: Uid, n: nat) {
    && (id in w.entries ==> WasValue(w.timeline, n, id, w.entries[id].user, w.entries[id].expires - w.ttl))
    && (forall c <- w.calls :: w.calls[c].Fetching? && id in w.calls[c].fetched ==>
          WasValue(w.timeline, n, id, w.calls[c].fetched[id], w.calls[c].now))
  }

  /** No running call has read a value for `id` other than the present one. */
  ghost predicate NoStaleRead(w: World, id: Uid) {
    && w.timeline != []
    && forall c <- w.calls :: w.calls[c].Fetching? && id in w.calls[c].fetched ==>
         id in Present(w).users && w.calls[c].fetched[id] == Present(w).users[id]
  }

  /** A record held for `id` was the store's value at moment `n` or later. */
  ghost predicate HeldSince(w: World, id: Uid, n: nat) {
    id in w.entries ==>
      exists i :: n <= i < |w.timeline| && id in w.timeline[i].users && w.timeline[i].users[id] == w.entries[id].user
  }

  /** Over every run from here. */
  ghost predicate NeverHoldsOlder(w: World, id: Uid, n: nat) {
    forall actions: seq<Action> :: RunFrom(w, actions) ==> HeldSince(Run(w, actions), id, n)
  }

  lemma CleanAfterInvalidateIff(w: World, id: Uid)
    requires Inv(w)
    ensures CleanSince(Next(w, Invalidate(id)), id, |w.timeline| - 1) <==> NoStaleRead(w, id)
  {
    var n := |w.timeline| - 1;
    forall c | c in w.calls && w.calls[c].Fetching? && id in w.calls[c].fetched
      ensures WasValue(w.timeline, n, id, w.calls[c].fetched[id], w.calls[c].now)
         <==> id in Present(w).users && w.calls[c].fetched[id] == Present(w).users[id]
    {
      assert CallOk(w, w.calls[c]);
      assert w.timeline[n] == Present(w);
    }
  }

  lemma StepKeepsClean(w: World, a: Action, id: Uid, n: nat)
    requires Inv(w) && Enabled(w, a) && CleanSince(w, id, n) && n < |w.timeline|
    ensures CleanSince(Next(w, a), id, n)
  {
    var v := Next(w, a);
    forall user, from | WasValue(w.timeline, n, id, user, from) ensures WasValue(v.timeline, n, id, user, from) {
      var more := v.timeline[|w.timeline|..];
      StillWasValue(w.timeline, more, n, id, user, from);
      assert v.timeline == w.timeline + more;
    }
    if a.ReadOne? && w.calls[a.call].todo[0] == id && id in Present(w).users {
      assert CallOk(w, w.calls[a.call]);
      assert w.timeline[|w.timeline| - 1].users[id] == Present(w).users[id];
      assert WasValue(w.timeline, n, id, Present(w).users[id], w.calls[a.call].now);
    }
  }

  /** From then on, over every run, nothing from before that moment is held. */
  lemma {:induction false} NeverOlderAfterClean(w: World, actions: seq<Action>, id: Uid, n: nat)
    requires Inv(w) && RunFrom(w, actions) && CleanSince(w, id, n) && n < |w.timeline|
    ensures HeldSince(Run(w, actions), id, n)
    decreases |actions|
  {
    if actions != [] {
      StepKeepsInv(w, actions[0]);
      StepKeepsClean(w, actions[0], id, n);
      NeverOlderAfterClean(Next(w, actions[0]), actions[1..], id, n);
    }
  }

  lemma Unroll(w: World, actions: seq<Action>)
    requires actions != [] && Enabled(w, actions[0]) && RunFrom(Next(w, actions[0]), actions[1..])
    ensures RunFrom(w, actions) && Run(w, actions) == Run(Next(w, actions[0]), actions[1..])
  {
  }

  /** A call in flight can finish its reads and store them; what it has read it does not read again. */
  lemma {:induction false} FetchCanFinish(w: World, c: CallId, id: Uid) returns (actions: seq<Action>)
    requires Inv(w) && c in w.calls && w.calls[c].Fetching? && id in w.calls[c].fetched
    ensures RunFrom(w, actions) && Run(w, actions).timeline == w.timeline
    ensures id in Run(w, actions).entries && Run(w, actions).entries[id].user == w.calls[c].fetched[id]
    decreases |w.calls[c].todo|
  {
    assert CallOk(w, w.calls[c]);
    if w.calls[c].todo == [] {
      actions := [StoreFetched(c)];
      assert actions[1..] == [];
      assert Run(Next(w, StoreFetched(c)), []) == Next(w, StoreFetched(c));
    } else {
      assert w.calls[c].todo[0] in w.calls[c].todo;
      StepKeepsInv(w, ReadOne(c));
      var rest := FetchCanFinish(Next(w, ReadOne(c)), c, id);
      actions := [ReadOne(c)] + rest;
      assert actions[1..] == rest;
    }
    Unroll(w, actions);
  }

  /** An invalidation keeps every older value out of the cache for good, over every run, exactly when no running call
      has already read another value for the id: that call would still store it. */
  lemma InvalidateIsCleanIff(w: World, id: Uid)
    requires Inv(w)
    ensures NeverHoldsOlder(Next(w, Invalidate(id)), id, |w.timeline| - 1) <==> NoStaleRead(w, id)
  {
    hide RunFrom, Run, CallOk, WasValue, CleanSince;
    var v, n := Next(w, Invalidate(id)), |w.timeline| - 1;
    StepKeepsInv(w, Invalidate(id));
    CleanAfterInvalidateIff(w, id);
    if NoStaleRead(w, id) {
      forall actions: seq<Action> | RunFrom(v, actions) ensures HeldSince(Run(v, actions), id, n) {
        NeverOlderAfterClean(v, actions, id, n);
      }
    } else {
      var c :| c in w.calls && w.calls[c].Fetching? && id in w.calls[c].fetched
        && !(id in Present(w).users && w.calls[c].fetched[id] == Present(w).users[id]);
      var actions := FetchCanFinish(v, c, id);
      assert !HeldSince(Run(v, actions), id, n);
    }
  }

  /** After an invalidation the next request for the id reads the table, and nobody else's hit is lost. */
  lemma InvalidatedIsFetched(entries: map<Uid, Entry>, id: Uid, ids: seq<Uid>, now: int)
    ensures id in ids ==> id in Misses(entries - {id}, ids, now)
    ensures Hits(entries - {id}, ids, now) == Hits(entries, ids, now) - {id}
  {
    LookupSplits(entries - {id}, ids, now);
  }

  /** A racing call that stores what it read after the invalidation: every later call within the ttl is answered with
      it, whatever the store holds by then. */
  lemma RacingFetchOutlivesInvalidate(w: World, c: CallId, id: Uid, ids: seq<Uid>, now: int)
    requires Enabled(w, StoreFetched(c)) && id in w.calls[c].fetched
    requires id in ids && now < w.calls[c].now + w.ttl
    ensures var v := Next(Next(w, Invalidate(id)), StoreFetched(c));
      id in Hits(v.entries, ids, now) && Hits(v.entries, ids, now)[id] == w.calls[c].fetched[id]
  {
  }
}
