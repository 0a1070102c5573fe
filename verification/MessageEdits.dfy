/** Edits and deletes of one message that race (backend/internal/httpapi/message_handlers.go): each loads the row,
    checks its author, and writes later. The store's UPDATE creates a missing row. */
module MessageEdits {
  import opened Wrappers
  import opened TimeUuids
  import opened MessageLog

  type CallId = nat

  /** A request that has loaded its message and passed its check. */
  datatype Call = Editing(key: Key, user: UserId, content: string) | Deleting(key: Key, user: UserId, owner: UserId)

  /** A write that has reached the table. */
  datatype Write = Posted(key: Key) | Edited(key: Key) | Deleted(key: Key)

  /** `authors` remembers who posted each message. */
  datatype World = World(rows: Table, calls: map<CallId, Call>, writes: seq<Write>, authors: map<Key, UserId>)

  const EMPTY := World(map[], map[], [], map[])

  datatype Action =
    | Post(key: Key, author: UserId, content: string)
    | LoadEdit(call: CallId, key: Key, user: UserId, content: string)
    | LoadDelete(call: CallId, key: Key, user: UserId, owner: UserId)
    | WriteBack(call: CallId, at: int)

  /** A new message's id was never used. Only the author may edit; the author and the guild's owner may delete. */
  predicate Enabled(w: World, a: Action) {
    match a
    case Post(key, _, _) => Posted(key) !in w.writes
    case LoadEdit(c, key, user, _) => c !in w.calls && key in w.rows && w.rows[key].author == Some(user)
    case LoadDelete(c, key, user, owner) =>
      c !in w.calls && key in w.rows && (w.rows[key].author == Some(user) || owner == user)
    case WriteBack(c, _) => c in w.calls
  }

  function Updated(rows: Table, key: Key, content: string, at: int): Table {
    rows[key := (if key in rows then rows[key] else NO_COLUMNS).(content := content, editedAt := Some(at))]
  }

  function Next(w: World, a: Action): World
    requires Enabled(w, a)
  {
    match a
    case Post(key, author, content) =>
      w.(rows := w.rows[key := Columns(Some(author), content, [], None)], writes := w.writes + [Posted(key)],
         authors := w.authors[key := author])
    case LoadEdit(c, key, user, content) => w.(calls := w.calls[c := Editing(key, user, content)])
    case LoadDelete(c, key, user, owner) => w.(calls := w.calls[c := Deleting(key, user, owner)])
    case WriteBack(c, at) =>
      match w.calls[c]
      case Editing(key, _, content) =>
        w.(rows := Updated(w.rows, key, content, at), calls := w.calls - {c}, writes := w.writes + [Edited(key)])
      case Deleting(key, _, _) =>
        w.(rows := w.rows - {key}, calls := w.calls - {c}, writes := w.writes + [Deleted(key)])
  }

  /** The last write of a message, if it was written at all. */
  function LastWrite(writes: seq<Write>, key: Key): Option<Write> {
    if writes == [] then None
    else if writes[|writes| - 1].key == key then Some(writes[|writes| - 1])
    else LastWrite(writes[..|writes| - 1], key)
  }

  ghost predicate Authorless(w: World, key: Key) {
    key in w.rows && w.rows[key].author.None?
  }

  ghost predicate KeyOk(w: World, key: Key) {
    && (key in w.rows <==> LastWrite(w.writes, key).Some? && !LastWrite(w.writes, key).value.Deleted?)
    && (key in w.rows ==> (w.rows[key].author.None? <==> Deleted(key) in w.writes))
    && (key in w.rows ==> Posted(key) in w.writes)
    && (Edited(key) in w.writes || Deleted(key) in w.writes ==> Posted(key) in w.writes)
    && (forall c <- w.calls :: w.calls[c].key == key ==> Posted(key) in w.writes)
  }

  lemma LastWriteSnoc(writes: seq<Write>, write: Write, key: Key)
    ensures LastWrite(writes + [write], key) == if write.key == key then Some(write) else LastWrite(writes, key)
  {
    assert (writes + [write])[..|writes|] == writes;
  }

  lemma {:induction false} LastWriteIsWrite(writes: seq<Write>, key: Key)
    ensures LastWrite(writes, key).None? <==> forall x <- writes :: x.key != key
    ensures LastWrite(writes, key).Some? ==>
      LastWrite(writes, key).value in writes && LastWrite(writes, key).value.key == key
  {
    if writes != [] {
      assert writes == writes[..|writes| - 1] + [writes[|writes| - 1]];
      LastWriteIsWrite(writes[..|writes| - 1], key);
    }
  }

  /** What a write adds to the history of a message. */
  lemma WriteAdds(w: World, v: World, write: Write, key: Key)
    requires v.writes == w.writes + [write]
    ensures LastWrite(v.writes, key) == if write.key == key then Some(write) else LastWrite(w.writes, key)
    ensures LastWrite(w.writes, key).Some? ==>
      LastWrite(w.writes, key).value in w.writes && LastWrite(w.writes, key).value.key == key
    ensures Posted(key) in w.writes ==> LastWrite(w.writes, key).Some?
    ensures Posted(key) in v.writes <==> Posted(key) in w.writes || write == Posted(key)
    ensures Edited(key) in v.writes <==> Edited(key) in w.writes || write == Edited(key)
    ensures Deleted(key) in v.writes <==> Deleted(key) in w.writes || write == Deleted(key)
  {
    LastWriteSnoc(w.writes, write, key);
    LastWriteIsWrite(w.writes, key);
  }

  lemma PostKeepsKeyOk(w: World, a: Action, key: Key)
    requires a.Post? && Enabled(w, a) && KeyOk(w, key)
    ensures KeyOk(Next(w, a), key)
  {
    WriteAdds(w, Next(w, a), Posted(a.key), key);
    hide LastWrite;
  }

  lemma WriteBackKeepsKeyOk(w: World, a: Action, key: Key)
    requires a.WriteBack? && Enabled(w, a) && KeyOk(w, key)
    ensures KeyOk(Next(w, a), key)
  {
    var c := w.calls[a.call];
    WriteAdds(w, Next(w, a), if c.Editing? then Edited(c.key) else Deleted(c.key), key);
    hide LastWrite;
  }

  lemma StepKeepsKeyOk(w: World, a: Action, key: Key)
    requires Enabled(w, a) && KeyOk(w, key)
    ensures KeyOk(Next(w, a), key)
  {
    if a.Post? {
      PostKeepsKeyOk(w, a, key);
    } else if a.WriteBack? {
      WriteBackKeepsKeyOk(w, a, key);
    } else {
      hide LastWrite;
    }
  }

  ghost predicate RunFrom(w: World, actions: seq<Action>)
    decreases |actions|
  {
    actions != [] ==> Enabled(w, actions[0]) && RunFrom(Next(w, actions[0]), actions[1..])
  }

  function Run(w: World, actions: seq<Action>): World
    requires RunFrom(w, actions)
    decreases |actions|
  {
    if actions == [] then w else Run(Next(w, actions[0]), actions[1..])
  }

  lemma {:induction false} RunKeepsKeyOk(w: World, actions: seq<Action>, key: Key)
    requires KeyOk(w, key) && RunFrom(w, actions)
    ensures KeyOk(Run(w, actions), key)
    decreases |actions|
  {
    if actions != [] {
      StepKeepsKeyOk(w, actions[0], key);
      RunKeepsKeyOk(Next(w, actions[0]), actions[1..], key);
    }
  }

  /** Over every run a message is served without an author exactly when the last thing written to it is an edit although
      it had been deleted: the edit had loaded the row before. */
  lemma AuthorlessIff(actions: seq<Action>, key: Key)
    requires RunFrom(EMPTY, actions)
    ensures var w := Run(EMPTY, actions);
      Authorless(w, key) <==> LastWrite(w.writes, key) == Some(Edited(key)) && Deleted(key) in w.writes
  {
    RunKeepsKeyOk(EMPTY, actions, key);
    var w := Run(EMPTY, actions);
    LastWriteIsWrite(w.writes, key);
    PostIsFirst(EMPTY, actions, key);
  }

  /** A message is posted before anything else is written to it. */
  ghost predicate PostLeads(w: World, key: Key) {
    Deleted(key) in w.writes ==> LastWrite(w.writes, key) != Some(Posted(key))
  }

  lemma {:induction false} PostIsFirst(w: World, actions: seq<Action>, key: Key)
    requires KeyOk(w, key) && PostLeads(w, key) && RunFrom(w, actions)
    ensures PostLeads(Run(w, actions), key)
    decreases |actions|
  {
    if actions != [] {
      var v := Next(w, actions[0]);
      StepKeepsKeyOk(w, actions[0], key);
      if v.writes != w.writes {
        var write := v.writes[|w.writes|];
        assert v.writes == w.writes + [write];
        LastWriteSnoc(w.writes, write, key);
      }
      PostIsFirst(v, actions[1..], key);
    }
  }

  // ---- who may change a message ----

  /** A request that got past its check. */
  ghost predicate IsAllowed(w: World, c: Call) {
    c.key in w.authors && (c.user == w.authors[c.key] || (c.Deleting? && c.user == c.owner))
  }

  ghost predicate ByAuthor(w: World) {
    && (forall k <- w.rows :: k in w.authors && (w.rows[k].author.Some? ==> w.rows[k].author.value == w.authors[k]))
    && (forall c <- w.calls :: IsAllowed(w, w.calls[c]))
    && (forall k <- w.authors :: Posted(k) in w.writes)
  }

  lemma StepKeepsByAuthor(w: World, a: Action)
    requires ByAuthor(w) && Enabled(w, a)
    ensures ByAuthor(Next(w, a))
  {
    var v := Next(w, a);
    forall c | c in v.calls ensures IsAllowed(v, v.calls[c]) {
      if c in w.calls && v.calls[c] == w.calls[c] { assert IsAllowed(w, w.calls[c]); }
    }
    if a.WriteBack? { assert IsAllowed(w, w.calls[a.call]); }
  }

  lemma {:induction false} RunKeepsByAuthor(w: World, actions: seq<Action>)
    requires ByAuthor(w) && RunFrom(w, actions)
    ensures ByAuthor(Run(w, actions))
    decreases |actions|
  {
    if actions != [] {
      StepKeepsByAuthor(w, actions[0]);
      RunKeepsByAuthor(Next(w, actions[0]), actions[1..]);
    }
  }

  /** At every moment of every run, races included: an edit about to be written is its message's poster's, a delete the
      poster's or the guild owner's, and a message that shows an author shows its poster. */
  lemma OnlyAuthorsEdit(actions: seq<Action>)
    requires RunFrom(EMPTY, actions)
    ensures var w := Run(EMPTY, actions);
      && (forall c <- w.calls :: w.calls[c].key in w.authors)
      && (forall c <- w.calls :: w.calls[c].Editing? ==> w.calls[c].user == w.authors[w.calls[c].key])
      && (forall c <- w.calls :: w.calls[c].Deleting? ==>
            w.calls[c].user == w.authors[w.calls[c].key] || w.calls[c].user == w.calls[c].owner)
      && (forall k <- w.rows :: w.rows[k].author.Some? ==> k in w.authors && w.rows[k].author.value == w.authors[k])
  {
    RunKeepsByAuthor(EMPTY, actions);
    var w := Run(EMPTY, actions);
    forall c | c in w.calls ensures IsAllowed(w, w.calls[c]) {
    }
  }

  /** An edit that is written replaces the text and nothing else of a message that is still there; a delete removes the
      message; neither touches another. */
  lemma WriteBackIsLocal(w: World, c: CallId, at: int)
    requires Enabled(w, WriteBack(c, at))
    ensures var call, rows := w.calls[c], Next(w, WriteBack(c, at)).rows;
      && (call.Deleting? ==> rows == w.rows - {call.key})
      && (call.Editing? ==> call.key in rows && rows - {call.key} == w.rows - {call.key})
      && (call.Editing? ==> rows[call.key].content == call.content && rows[call.key].editedAt == Some(at))
      && (call.Editing? && call.key in w.rows ==>
            rows[call.key] == w.rows[call.key].(content := call.content, editedAt := Some(at)))
  {
  }

  ghost predicate CanReturn(w: World, key: Key) {
    exists actions: seq<Action> :: RunFrom(w, actions) && key in Run(w, actions).rows
  }

  ghost predicate EditInFlight(w: World, key: Key) {
    exists c <- w.calls :: w.calls[c].Editing? && w.calls[c].key == key
  }

  lemma GoneStaysGone(w: World, a: Action, key: Key)
    requires Enabled(w, a) && key !in w.rows && Posted(key) in w.writes && !EditInFlight(w, key)
    ensures key !in Next(w, a).rows && Posted(key) in Next(w, a).writes && !EditInFlight(Next(w, a), key)
  {
  }

  lemma {:induction false} GoneForGood(w: World, actions: seq<Action>, key: Key)
    requires RunFrom(w, actions) && key !in w.rows && Posted(key) in w.writes && !EditInFlight(w, key)
    ensures key !in Run(w, actions).rows
    decreases |actions|
  {
    if actions != [] {
      GoneStaysGone(w, actions[0], key);
      GoneForGood(Next(w, actions[0]), actions[1..], key);
    }
  }

  /** A deleted message can come back, without its author, exactly when an edit that loaded it is still to be
      written. */
  lemma DeletedCanReturnIff(w: World, key: Key)
    requires KeyOk(w, key) && Posted(key) in w.writes && key !in w.rows
    ensures CanReturn(w, key) <==> EditInFlight(w, key)
    ensures EditInFlight(w, key) ==>
      exists actions: seq<Action> :: RunFrom(w, actions) && Authorless(Run(w, actions), key)
  {
    if c :| c in w.calls && w.calls[c].Editing? && w.calls[c].key == key {
      var actions := [WriteBack(c, 0)];
      RunOfNone(Next(w, actions[0]));
      assert actions[1..] == [];
      Unroll(w, actions);
      assert Authorless(Run(w, actions), key);
    } else if CanReturn(w, key) {
      var actions: seq<Action> :| RunFrom(w, actions) && key in Run(w, actions).rows;
      GoneForGood(w, actions, key);
    }
  }

  /** The race: an edit and a delete load the same message, and the delete is written first. */
  lemma EditRacesDelete(key: Key, author: UserId)
    ensures var race := [Post(key, author, "a"), LoadEdit(1, key, author, "b"), LoadDelete(2, key, author, author),
                         WriteBack(2, 0), WriteBack(1, 1)];
      RunFrom(EMPTY, race) && Authorless(Run(EMPTY, race), key)
  {
    var race := [Post(key, author, "a"), LoadEdit(1, key, author, "b"), LoadDelete(2, key, author, author),
                 WriteBack(2, 0), WriteBack(1, 1)];
    var w1 := Next(EMPTY, race[0]);
    var w2 := Next(w1, race[1]);
    var w3 := Next(w2, race[2]);
    var w4 := Next(w3, race[3]);
    var w5 := Next(w4, race[4]);
    assert Authorless(w5, key);
    hide RunFrom, Run, Next, Enabled, Authorless;
    RunOfNone(w5);
    Unroll(w4, race[4..]);
    Unroll(w3, race[3..]);
    Unroll(w2, race[2..]);
    Unroll(w1, race[1..]);
    Unroll(EMPTY, race);
  }

  lemma RunOfNone(w: World)
    ensures RunFrom(w, []) && Run(w, []) == w
  {
  }

  lemma Unroll(w: World, actions: seq<Action>)
    requires actions != [] && Enabled(w, actions[0]) && RunFrom(Next(w, actions[0]), actions[1..])
    ensures RunFrom(w, actions) && Run(w, actions) == Run(Next(w, actions[0]), actions[1..])
  {
  }
}
