/** One message's reactions: the row set, the server's batch aggregation (backend/internal/httpapi/message_handlers.go)
    and the client's incremental folding of events (web/src/store/chatStore.js). */
module Reactions {
  import opened Wrappers
  import opened MessageLog

  type Emoji = string

  datatype Row = Row(emoji: Emoji, user: UserId)

  /** What the API returns per emoji. */
  datatype Aggregate = Aggregate(emoji: Emoji, count: nat, me: bool)

  /** What the client holds per emoji. */
  datatype Reaction = Reaction(emoji: Emoji, count: int, me: bool, users: seq<UserId>)

  /** A reaction operation: a row write on the server, an event on the client. */
  datatype Op = Add(emoji: Emoji, user: UserId) | Remove(emoji: Emoji, user: UserId)

  // ---- the server ----

  function Write(rows: set<Row>, op: Op): set<Row> {
    match op
    case Add(e, u) => rows + {Row(e, u)}
    case Remove(e, u) => rows - {Row(e, u)}
  }

  function RowsAfter(ops: seq<Op>): set<Row> {
    if ops == [] then {} else Write(RowsAfter(ops[..|ops| - 1]), ops[|ops| - 1])
  }

  ghost function UsersOf(rows: set<Row>, e: Emoji): set<UserId> {
    set r <- rows | r.emoji == e :: r.user
  }

  /** What a reader should see: who reacted with what, counted. */
  ghost function Summary(rows: set<Row>, requester: UserId): map<Emoji, (nat, bool)> {
    map e | e in (set r <- rows :: r.emoji) :: (|UsersOf(rows, e)|, Row(e, requester) in rows)
  }

  ghost function RowSet(scan: seq<Row>): set<Row> { set r <- scan }

  /** `scan` lists exactly the stored rows, each once (a partition scan). */
  ghost predicate Scans(scan: seq<Row>, rows: set<Row>) {
    NoRepeats(scan) && forall r :: r in scan <==> r in rows
  }

  ghost predicate NoRepeats<T>(s: seq<T>) {
    forall i, j :: 0 <= i < j < |s| ==> s[i] != s[j]
  }

  function CountEmoji(rows: seq<Row>, e: Emoji): nat {
    if rows == [] then 0
    else CountEmoji(rows[..|rows| - 1], e) + if rows[|rows| - 1].emoji == e then 1 else 0
  }

  /** Emojis in the order in which they first occur. */
  function FirstSeen(rows: seq<Row>): seq<Emoji> {
    if rows == [] then []
    else
      var before, e := FirstSeen(rows[..|rows| - 1]), rows[|rows| - 1].emoji;
      if e in before then before else before + [e]
  }

  function AggregateOf(rows: seq<Row>, requester: UserId, e: Emoji): Aggregate {
    Aggregate(e, CountEmoji(rows, e), Row(e, requester) in rows)
  }

  /** One entry per emoji, in order of first occurrence. */
  function BatchOf(rows: seq<Row>, requester: UserId): (r: seq<Aggregate>)
    ensures |r| == |FirstSeen(rows)|
  {
    seq(|FirstSeen(rows)|, i requires 0 <= i < |FirstSeen(rows)| => AggregateOf(rows, requester, FirstSeen(rows)[i]))
  }

  function Bump(a: Aggregate, mine: bool): Aggregate {
    a.(count := a.count + 1, me := a.me || mine)
  }

  /** One more row adds to its emoji's entry, which is new if the emoji was not seen before. */
  lemma BatchStep(rows: seq<Row>, row: Row, requester: UserId)
    ensures FirstSeen(rows + [row]) == FirstSeen(rows) + if row.emoji in FirstSeen(rows) then [] else [row.emoji]
    ensures row.emoji !in FirstSeen(rows) ==>
      BatchOf(rows + [row], requester) == BatchOf(rows, requester) + [Aggregate(row.emoji, 1, row.user == requester)]
    ensures forall i :: 0 <= i < |FirstSeen(rows)| && FirstSeen(rows)[i] == row.emoji ==>
      BatchOf(rows + [row], requester) ==
        BatchOf(rows, requester)[i := Bump(BatchOf(rows, requester)[i], row.user == requester)]
  {
    var more, seen := rows + [row], FirstSeen(rows);
    assert more[..|more| - 1] == rows;
    FirstSeenMembers(rows);
    UnseenIsZero(rows, row.emoji);
    forall i | 0 <= i < |seen| ensures BatchOf(more, requester)[i]
      == var was := BatchOf(rows, requester)[i]; if seen[i] == row.emoji then Bump(was, row.user == requester) else was
    {
      assert FirstSeen(more)[i] == seen[i];
    }
  }

  lemma {:induction false} UnseenIsZero(rows: seq<Row>, e: Emoji)
    ensures e !in FirstSeen(rows) ==> CountEmoji(rows, e) == 0
  {
    if rows != [] {
      UnseenIsZero(rows[..|rows| - 1], e);
    }
  }

  /** The batch aggregation loop. */
  method AggregateReactions(rows: seq<Row>, requester: UserId) returns (out: seq<Aggregate>)
    ensures out == BatchOf(rows, requester)
  {
    assert BatchOf([], requester) == [] && FirstSeen([]) == [];
    hide BatchOf, FirstSeen;
    out := [];
    var idx: map<Emoji, nat> := map[];
    for n := 0 to |rows|
      invariant out == BatchOf(rows[..n], requester)
      invariant forall e :: e in idx <==> e in FirstSeen(rows[..n])
      invariant forall e <- idx :: idx[e] < |FirstSeen(rows[..n])| && FirstSeen(rows[..n])[idx[e]] == e
    {
      var row := rows[n];
      assert rows[..n + 1][..n] == rows[..n] && rows[..n + 1] == rows[..n] + [row];
      BatchStep(rows[..n], row, requester);
      if row.emoji !in idx {
        idx := idx[row.emoji := |out|];
        out := out + [Aggregate(row.emoji, 0, false)];
      }
      var i := idx[row.emoji];
      out := out[i := out[i].(count := out[i].count + 1)];
      if row.user == requester {
        out := out[i := out[i].(me := true)];
      }
    }
    assert rows[..|rows|] == rows;
  }

  lemma {:induction false} FirstSeenMembers(rows: seq<Row>)
    ensures forall e :: e in FirstSeen(rows) <==> exists r <- rows :: r.emoji == e
    ensures NoRepeats(FirstSeen(rows))
  {
    if rows != [] {
      var init, last := rows[..|rows| - 1], rows[|rows| - 1];
      assert rows == init + [last];
      FirstSeenMembers(init);
      forall e ensures e in FirstSeen(rows) <==> exists r <- rows :: r.emoji == e {
        if e == last.emoji { assert last in rows; }
        if r :| r in init && r.emoji == e { assert r in rows; }
      }
    }
  }

  lemma {:induction false} CountIsUsers(scan: seq<Row>, e: Emoji)
    requires NoRepeats(scan)
    ensures CountEmoji(scan, e) == |UsersOf(RowSet(scan), e)|
  {
    if scan == [] {
      assert UsersOf(RowSet(scan), e) == {};
    } else {
      var init, last := scan[..|scan| - 1], scan[|scan| - 1];
      assert scan == init + [last];
      CountIsUsers(init, e);
      if last.emoji == e {
        assert last !in init;
        assert UsersOf(RowSet(scan), e) == UsersOf(RowSet(init), e) + {last.user};
      } else {
        assert UsersOf(RowSet(scan), e) == UsersOf(RowSet(init), e);
      }
    }
  }

  ghost function AggregateMap(out: seq<Aggregate>): map<Emoji, (nat, bool)>
    requires forall i, j :: 0 <= i < j < |out| ==> out[i].emoji != out[j].emoji
  {
    map a <- out :: a.emoji := (a.count, a.me)
  }

  lemma BatchEntries(scan: seq<Row>, requester: UserId)
    ensures var out := BatchOf(scan, requester);
      && (forall i, j :: 0 <= i < j < |out| ==> out[i].emoji != out[j].emoji)
      && (forall e :: e in AggregateMap(out) <==> exists r <- scan :: r.emoji == e)
      && (forall e <- AggregateMap(out) :: AggregateMap(out)[e] == (CountEmoji(scan, e), Row(e, requester) in scan))
  {
    var out := BatchOf(scan, requester);
    FirstSeenMembers(scan);
    var m := AggregateMap(out);
    forall e ensures e in m <==> e in FirstSeen(scan) {
      if i :| 0 <= i < |FirstSeen(scan)| && FirstSeen(scan)[i] == e { assert out[i] in out; }
    }
    forall e | e in m ensures m[e] == (CountEmoji(scan, e), Row(e, requester) in scan) {
      var a :| a in out && a.emoji == e;
      assert a == AggregateOf(scan, requester, e);
    }
  }

  /** Whatever order the partition scan uses, the batch aggregation is the summary of the stored rows. */
  lemma AggregationIsSummary(scan: seq<Row>, rows: set<Row>, requester: UserId)
    requires Scans(scan, rows)
    ensures var out := BatchOf(scan, requester);
      && (forall i, j :: 0 <= i < j < |out| ==> out[i].emoji != out[j].emoji)
      && AggregateMap(out) == Summary(rows, requester)
  {
    hide BatchOf;
    BatchEntries(scan, requester);
    assert rows == RowSet(scan);
    forall e ensures CountEmoji(scan, e) == |UsersOf(rows, e)| {
      CountIsUsers(scan, e);
    }
    assert AggregateMap(BatchOf(scan, requester)).Keys == Summary(rows, requester).Keys;
  }

  /** The reaction rows of one message (backend/internal/store/reactions.go). */
  class ReactionTable {
    var rows: set<Row>

    constructor ()
      ensures rows == {}
    {
      rows := {};
    }

    method Add(e: Emoji, user: UserId)
      modifies this
      ensures rows == Write(old(rows), Op.Add(e, user)) == old(rows) + {Row(e, user)}
    {
      rows := rows + {Row(e, user)};
    }

    method Remove(e: Emoji, user: UserId)
      modifies this
      ensures rows == Write(old(rows), Op.Remove(e, user)) == old(rows) - {Row(e, user)}
    {
      rows := rows - {Row(e, user)};
    }

    /** A partition scan: every row once. */
    method ForMessage() returns (scan: seq<Row>)
      ensures Scans(scan, rows)
    {
      scan := [];
      var rest := rows;
      while rest != {}
        invariant rest <= rows
        invariant NoRepeats(scan)
        invariant forall r :: r in scan <==> r in rows - rest
        decreases rest
      {
        var row :| row in rest;
        assert row !in scan;
        scan := scan + [row];
        rest := rest - {row};
      }
    }
  }

  // ---- the client ----

  predicate IsMe(me: Option<UserId>, user: UserId) {
    me == Some(user)
  }

  /** `findIndex`: the first entry of an emoji. */
  function FindEmoji(list: seq<Reaction>, e: Emoji): (r: Option<nat>)
    ensures r.Some? ==> r.value < |list| && list[r.value].emoji == e
    ensures r.Some? ==> forall i :: 0 <= i < r.value ==> list[i].emoji != e
    ensures r.None? ==> forall i :: 0 <= i < |list| ==> list[i].emoji != e
  {
    if list == [] then None
    else if list[0].emoji == e then Some(0)
    else match FindEmoji(list[1..], e)
      case None => None
      case Some(i) => Some(i + 1)
  }

  function ApplyAdd(list: seq<Reaction>, e: Emoji, user: UserId, me: Option<UserId>): seq<Reaction> {
    var isMe := IsMe(me, user);
    match FindEmoji(list, e)
    case None => list + [Reaction(e, 1, isMe, [user])]
    case Some(i) =>
      var r := list[i];
      if isMe then
        if r.me then list else list[i := r.(count := r.count + 1, me := true, users := r.users + [user])]
      else if user in r.users then list
      else list[i := r.(count := r.count + 1, users := r.users + [user])]
  }

  function WithoutUser(users: seq<UserId>, user: UserId): seq<UserId> {
    if users == [] then []
    else WithoutUser(users[..|users| - 1], user) + if users[|users| - 1] == user then [] else [users[|users| - 1]]
  }

  function ApplyRemove(list: seq<Reaction>, e: Emoji, user: UserId, me: Option<UserId>): seq<Reaction> {
    var isMe := IsMe(me, user);
    match FindEmoji(list, e)
    case None => list
    case Some(i) =>
      var r := list[i];
      if isMe && !r.me then list
      else if !isMe && r.users != [] && user !in r.users then list
      else if r.count - 1 <= 0 then list[..i] + list[i + 1..]
      else list[i := r.(count := r.count - 1, me := if isMe then false else r.me, users := WithoutUser(r.users, user))]
  }

  function Apply(list: seq<Reaction>, op: Op, me: Option<UserId>): seq<Reaction> {
    match op
    case Add(e, u) => ApplyAdd(list, e, u, me)
    case Remove(e, u) => ApplyRemove(list, e, u, me)
  }

  function Fold(ops: seq<Op>, me: Option<UserId>): seq<Reaction> {
    if ops == [] then [] else Apply(Fold(ops[..|ops| - 1], me), ops[|ops| - 1], me)
  }

  // ---- the client refines the row set ----

  ghost predicate EntryOk(r: Reaction, rows: set<Row>, me: Option<UserId>) {
    && NoRepeats(r.users)
    && (forall u :: u in r.users <==> Row(r.emoji, u) in rows)
    && r.count == |r.users| >= 1
    && (r.me <==> me.Some? && me.value in r.users)
  }

  /** Emojis are unique; each entry lists its users once, counts them, and flags the reader. */
  ghost predicate Agrees(list: seq<Reaction>, rows: set<Row>, me: Option<UserId>) {
    && (forall i, j :: 0 <= i < j < |list| ==> list[i].emoji != list[j].emoji)
    && (forall i :: 0 <= i < |list| ==> EntryOk(list[i], rows, me))
    && (forall row <- rows :: FindEmoji(list, row.emoji).Some?)
  }

  lemma {:induction false} WithoutUserFacts(users: seq<UserId>, user: UserId)
    requires NoRepeats(users)
    ensures forall u :: u in WithoutUser(users, user) <==> u in users && u != user
    ensures NoRepeats(WithoutUser(users, user))
    ensures |WithoutUser(users, user)| == |users| - if user in users then 1 else 0
  {
    if users != [] {
      var init, last := users[..|users| - 1], users[|users| - 1];
      assert users == init + [last];
      WithoutUserFacts(init, user);
      assert last !in init;
    }
  }

  /** An emoji without an entry has no rows. */
  lemma NoEntryNoRows(list: seq<Reaction>, rows: set<Row>, e: Emoji, me: Option<UserId>)
    requires Agrees(list, rows, me) && FindEmoji(list, e).None?
    ensures forall u :: Row(e, u) !in rows
  {
    forall row | row in rows ensures row.emoji != e {
      assert FindEmoji(list, row.emoji).Some?;
    }
  }

  /** Changing one entry leaves every emoji findable. */
  lemma StillFound(list: seq<Reaction>, i: nat, r: Reaction, e: Emoji)
    requires i < |list| && r.emoji == list[i].emoji && FindEmoji(list, e).Some?
    ensures FindEmoji(list[i := r], e).Some?
  {
    var k := FindEmoji(list, e).value;
    assert list[i := r][k].emoji == e;
  }

  lemma ChangedEntryAgrees(list: seq<Reaction>, rows: set<Row>, rows': set<Row>, i: nat, r: Reaction,
      me: Option<UserId>)
    requires Agrees(list, rows, me) && i < |list| && r.emoji == list[i].emoji && EntryOk(r, rows', me)
    requires forall row: Row :: row.emoji != r.emoji ==> (row in rows <==> row in rows')
    ensures Agrees(list[i := r], rows', me)
  {
    var after := list[i := r];
    forall k | 0 <= k < |after| ensures EntryOk(after[k], rows', me) {
      if k != i { assert EntryOk(list[k], rows, me) && list[k].emoji != r.emoji; }
    }
    forall row | row in rows' ensures FindEmoji(after, row.emoji).Some? {
      if row.emoji == r.emoji { assert after[i].emoji == row.emoji; } else { StillFound(list, i, r, row.emoji); }
    }
  }

  lemma NewEntryAgrees(list: seq<Reaction>, rows: set<Row>, e: Emoji, u: UserId, me: Option<UserId>)
    requires Agrees(list, rows, me) && FindEmoji(list, e).None?
    ensures Agrees(list + [Reaction(e, 1, IsMe(me, u), [u])], rows + {Row(e, u)}, me)
  {
    var after, rows' := list + [Reaction(e, 1, IsMe(me, u), [u])], rows + {Row(e, u)};
    NoEntryNoRows(list, rows, e, me);
    forall k | 0 <= k < |list| ensures EntryOk(after[k], rows', me) {
      assert EntryOk(list[k], rows, me);
    }
    forall row | row in rows' ensures FindEmoji(after, row.emoji).Some? {
      if row.emoji == e { assert after[|list|].emoji == e; }
      else { assert after[FindEmoji(list, row.emoji).value].emoji == row.emoji; }
    }
  }

  lemma AddKeepsAgreement(list: seq<Reaction>, rows: set<Row>, e: Emoji, u: UserId, me: Option<UserId>)
    requires Agrees(list, rows, me)
    ensures Agrees(ApplyAdd(list, e, u, me), Write(rows, Add(e, u)), me)
  {
    var at := FindEmoji(list, e);
    if at.None? {
      NewEntryAgrees(list, rows, e, u, me);
    } else {
      var r := list[at.value];
      assert EntryOk(r, rows, me);
      if u in r.users {
        assert rows + {Row(e, u)} == rows;
      } else {
        ChangedEntryAgrees(list, rows, rows + {Row(e, u)}, at.value, ApplyAdd(list, e, u, me)[at.value], me);
      }
    }
  }

  lemma RemoveKeepsAgreement(list: seq<Reaction>, rows: set<Row>, e: Emoji, u: UserId, me: Option<UserId>)
    requires Agrees(list, rows, me)
    ensures Agrees(ApplyRemove(list, e, u, me), Write(rows, Remove(e, u)), me)
  {
    var at := FindEmoji(list, e);
    if at.None? {
      NoEntryNoRows(list, rows, e, me);
      assert rows - {Row(e, u)} == rows;
    } else {
      var r := list[at.value];
      assert EntryOk(r, rows, me);
      if u !in r.users {
        assert rows - {Row(e, u)} == rows;
      } else if r.count == 1 {
        assert r.users == [u];
        RemovedEntry(list, rows, at.value, u, me);
      } else {
        WithoutUserFacts(r.users, u);
        ChangedEntryAgrees(list, rows, rows - {Row(e, u)}, at.value, ApplyRemove(list, e, u, me)[at.value], me);
      }
    }
  }

  /** Dropping the entry of an emoji whose only user leaves. */
  lemma RemovedEntry(list: seq<Reaction>, rows: set<Row>, i: nat, u: UserId, me: Option<UserId>)
    requires Agrees(list, rows, me) && i < |list| && list[i].users == [u]
    ensures Agrees(list[..i] + list[i + 1..], rows - {Row(list[i].emoji, u)}, me)
  {
    var after, rows' := list[..i] + list[i + 1..], rows - {Row(list[i].emoji, u)};
    forall k | 0 <= k < |after| ensures EntryOk(after[k], rows', me) && after[k].emoji != list[i].emoji {
      assert after[k] == list[if k < i then k else k + 1];
    }
    assert EntryOk(list[i], rows, me);
    forall v | Row(list[i].emoji, v) in rows ensures v == u {
      assert v in list[i].users;
    }
    forall row | row in rows' ensures FindEmoji(after, row.emoji).Some? {
      var k := FindEmoji(list, row.emoji).value;
      assert row == Row(row.emoji, row.user);
      assert k != i;
      assert after[if k < i then k else k - 1].emoji == row.emoji;
    }
  }

  lemma {:induction false} FoldAgrees(ops: seq<Op>, me: Option<UserId>)
    ensures Agrees(Fold(ops, me), RowsAfter(ops), me)
  {
    if ops != [] {
      var init := ops[..|ops| - 1];
      FoldAgrees(init, me);
      match ops[|ops| - 1] {
        case Add(e, u) => AddKeepsAgreement(Fold(init, me), RowsAfter(init), e, u, me);
        case Remove(e, u) => RemoveKeepsAgreement(Fold(init, me), RowsAfter(init), e, u, me);
      }
    }
  }

  /** Entries keep their places: a new emoji goes to the end, and one whose last user leaves closes up. */
  lemma EventKeepsPlaces(list: seq<Reaction>, op: Op, me: Option<UserId>)
    ensures var after := Apply(list, op, me);
      if |after| > |list| then
        && op.Add? && after == list + [Reaction(op.emoji, 1, me == Some(op.user), [op.user])]
        && forall r <- list :: r.emoji != op.emoji
      else if |after| == |list| then
        && (forall i :: 0 <= i < |list| ==> after[i].emoji == list[i].emoji)
        && (forall i :: 0 <= i < |list| && list[i].emoji != op.emoji ==> after[i] == list[i])
      else exists i :: 0 <= i < |list| && list[i].emoji == op.emoji && after == list[..i] + list[i + 1..]
  {
    var after, at := Apply(list, op, me), FindEmoji(list, op.emoji);
    if at.Some? && |after| < |list| {
      assert after == list[..at.value] + list[at.value + 1..];
    }
    hide FindEmoji;
  }

  ghost function ReactionMap(list: seq<Reaction>): map<Emoji, (int, bool)>
    requires forall i, j :: 0 <= i < j < |list| ==> list[i].emoji != list[j].emoji
  {
    map r <- list :: r.emoji := (r.count, r.me)
  }

  lemma {:induction false} CardinalityOfUsers(users: seq<UserId>, s: set<UserId>)
    requires NoRepeats(users) && forall u :: u in users <==> u in s
    ensures |users| == |s|
  {
    if users == [] {
      assert s == {};
    } else {
      var init, last := users[..|users| - 1], users[|users| - 1];
      assert users == init + [last];
      assert last !in init;
      CardinalityOfUsers(init, s - {last});
    }
  }

  lemma AgreeingKeys(list: seq<Reaction>, rows: set<Row>, me: Option<UserId>, e: Emoji)
    requires Agrees(list, rows, me)
    ensures (exists r <- list :: r.emoji == e) <==> (exists row <- rows :: row.emoji == e)
  {
    if r :| r in list && r.emoji == e {
      var i :| 0 <= i < |list| && list[i] == r;
      assert EntryOk(list[i], rows, me);
      assert r.users[0] in r.users;
      assert Row(e, r.users[0]) in rows;
    }
    if row :| row in rows && row.emoji == e {
      assert list[FindEmoji(list, row.emoji).value] in list;
    }
  }

  lemma AgreeingEntry(list: seq<Reaction>, rows: set<Row>, me: UserId, r: Reaction)
    requires Agrees(list, rows, Some(me)) && r in list
    ensures r.count == |UsersOf(rows, r.emoji)| && (r.me <==> Row(r.emoji, me) in rows)
  {
    var i :| 0 <= i < |list| && list[i] == r;
    assert EntryOk(list[i], rows, Some(me));
    CardinalityOfUsers(r.users, UsersOf(rows, r.emoji));
  }

  lemma AgreementIsSummary(list: seq<Reaction>, rows: set<Row>, me: UserId)
    requires Agrees(list, rows, Some(me))
    ensures ReactionMap(list) == Summary(rows, me)
  {
    var m, s := ReactionMap(list), Summary(rows, me);
    forall e ensures e in m <==> e in s {
      AgreeingKeys(list, rows, Some(me), e);
    }
    forall r | r in list ensures r.count == |UsersOf(rows, r.emoji)| && (r.me <==> Row(r.emoji, me) in rows) {
      AgreeingEntry(list, rows, me, r);
    }
    hide Agrees, EntryOk, UsersOf;
    assert m.Keys == s.Keys;
    forall e | e in m ensures m[e] == s[e] {
      var r :| r in list && r.emoji == e;
    }
  }

  /** The client's incremental view and the server's batch answer agree after any operations, duplicates and
      spurious removals included: same emojis, same counts, same flags. */
  lemma ClientMatchesServer(ops: seq<Op>, me: UserId, scan: seq<Row>)
    requires Scans(scan, RowsAfter(ops))
    ensures Agrees(Fold(ops, Some(me)), RowsAfter(ops), Some(me))
    ensures var out := BatchOf(scan, me);
      && (forall i, j :: 0 <= i < j < |out| ==> out[i].emoji != out[j].emoji)
      && ReactionMap(Fold(ops, Some(me))) == AggregateMap(out)
  {
    FoldAgrees(ops, Some(me));
    AgreementIsSummary(Fold(ops, Some(me)), RowsAfter(ops), me);
    AggregationIsSummary(scan, RowsAfter(ops), me);
  }

  // ---- optimistic toggles ----

  function Inverse(op: Op): Op {
    match op
    case Add(e, u) => Remove(e, u)
    case Remove(e, u) => Add(e, u)
  }

  predicate SameRow(a: Op, b: Op) {
    a.emoji == b.emoji && a.user == b.user
  }

  lemma {:induction false} ToggleCommutes(ops: seq<Op>, toggle: Op, others: seq<Op>)
    requires forall o <- others :: !SameRow(o, toggle)
    ensures RowsAfter(ops + [toggle] + others) == Write(RowsAfter(ops + others), toggle)
  {
    var left, right := ops + [toggle] + others, ops + others;
    if others == [] {
      assert right == ops && left[..|left| - 1] == ops;
    } else {
      var init, last := others[..|others| - 1], others[|others| - 1];
      assert left[..|left| - 1] == ops + [toggle] + init && right[..|right| - 1] == ops + init;
      assert last in others;
      ToggleCommutes(ops, toggle, init);
    }
  }

  /** A toggle that fails is undone by its inverse, whatever other users did meanwhile; the toggle is an add
      exactly when the reader had not reacted. */
  lemma RevertUndoesToggle(ops: seq<Op>, toggle: Op, others: seq<Op>, me: UserId)
    requires toggle.user == me && (toggle.Remove? <==> Row(toggle.emoji, me) in RowsAfter(ops))
    requires forall o <- others :: !SameRow(o, toggle)
    ensures RowsAfter(ops + [toggle] + others + [Inverse(toggle)]) == RowsAfter(ops + others)
    ensures Agrees(Fold(ops + [toggle] + others + [Inverse(toggle)], Some(me)), RowsAfter(ops + others), Some(me))
  {
    var all := ops + [toggle] + others + [Inverse(toggle)];
    assert all[..|all| - 1] == ops + [toggle] + others;
    ToggleCommutes(ops, toggle, others);
    RowUntouched(ops, others, toggle);
    FoldAgrees(all, Some(me));
  }

  lemma {:induction false} RowUntouched(ops: seq<Op>, others: seq<Op>, toggle: Op)
    requires forall o <- others :: !SameRow(o, toggle)
    ensures Row(toggle.emoji, toggle.user) in RowsAfter(ops + others) <==>
      Row(toggle.emoji, toggle.user) in RowsAfter(ops)
  {
    if others == [] {
      assert ops + others == ops;
    } else {
      var init, last := others[..|others| - 1], others[|others| - 1];
      assert (ops + others)[..|ops + others| - 1] == ops + init;
      assert last in others;
      RowUntouched(ops, init, toggle);
    }
  }

  /** The server's echo of a toggle the client already applied changes nothing. */
  lemma EchoOfToggleIsAbsorbed(ops: seq<Op>, toggle: Op, others: seq<Op>, me: Option<UserId>)
    requires forall o <- others :: !SameRow(o, toggle)
    ensures Agrees(Fold(ops + [toggle] + others + [toggle], me), RowsAfter(ops + [toggle] + others), me)
  {
    var all := ops + [toggle] + others + [toggle];
    assert all[..|all| - 1] == ops + [toggle] + others;
    ToggleCommutes(ops, toggle, others);
    FoldAgrees(all, me);
  }

  // ---- lists hydrated from the server carry no users ----

  /** The count shown for an emoji; an emoji without an entry shows none. */
  function CountAt(list: seq<Reaction>, e: Emoji): int {
    match FindEmoji(list, e)
    case None => 0
    case Some(i) => list[i].count
  }

  ghost predicate CountIsRight(list: seq<Reaction>, rows: set<Row>, e: Emoji) {
    CountAt(list, e) == |UsersOf(rows, e)|
  }

  ghost predicate UniqueEmojis(list: seq<Reaction>) {
    forall i, j :: 0 <= i < j < |list| ==> list[i].emoji != list[j].emoji
  }

  ghost predicate EntryPartlyKnown(r: Reaction, rows: set<Row>, me: UserId) {
    && NoRepeats(r.users)
    && (forall u <- r.users :: Row(r.emoji, u) in rows)
    && r.count == |UsersOf(rows, r.emoji)| >= 1
    && (r.me <==> Row(r.emoji, me) in rows)
  }

  /** A server snapshot: right counts and flags, no user lists. */
  ghost predicate Hydrated(list: seq<Reaction>, rows: set<Row>, me: UserId) {
    && UniqueEmojis(list)
    && (forall i :: 0 <= i < |list| ==> list[i].users == [] && EntryPartlyKnown(list[i], rows, me))
    && (forall row <- rows :: FindEmoji(list, row.emoji).Some?)
  }

  /** What a snapshot and the events after it leave of an emoji: the count and the flag are right, but only some of its
      users are known by name. */
  ghost predicate PartlyKnown(list: seq<Reaction>, rows: set<Row>, e: Emoji, me: UserId) {
    && UniqueEmojis(list)
    && (FindEmoji(list, e).None? ==> UsersOf(rows, e) == {})
    && (FindEmoji(list, e).Some? ==> EntryPartlyKnown(list[FindEmoji(list, e).value], rows, me))
  }

  /** The client can tell what the event means for its count. An add of somebody else must be new, or of a user known by
      name; a removal of somebody else must be of a user known by name, or of one who is there while nobody is known, or
      of one who is not there while somebody is known. */
  predicate CanCount(list: seq<Reaction>, rows: set<Row>, op: Op, me: UserId) {
    var at, there := FindEmoji(list, op.emoji), Row(op.emoji, op.user) in rows;
    if at.None? || op.user == me then true
    else if op.Add? then !there || op.user in list[at.value].users
    else if there then list[at.value].users == [] || op.user in list[at.value].users
    else list[at.value].users != []
  }

  lemma HydratedIsPartlyKnown(list: seq<Reaction>, rows: set<Row>, e: Emoji, me: UserId)
    requires Hydrated(list, rows, me)
    ensures PartlyKnown(list, rows, e, me)
  {
    if FindEmoji(list, e).None? {
      forall u ensures u !in UsersOf(rows, e) {
        assert Row(e, u) in rows ==> FindEmoji(list, Row(e, u).emoji).Some?;
      }
    }
  }

  /** The entries of the server's answer, as the client takes them over. */
  function FromServer(out: seq<Aggregate>): seq<Reaction> {
    seq(|out|, i requires 0 <= i < |out| => Reaction(out[i].emoji, out[i].count, out[i].me, []))
  }

  lemma SummaryAt(rows: set<Row>, me: UserId, e: Emoji)
    ensures e in Summary(rows, me) <==> exists r <- rows :: r.emoji == e
    ensures e in Summary(rows, me) ==>
      Summary(rows, me)[e] == (|UsersOf(rows, e)|, Row(e, me) in rows) && |UsersOf(rows, e)| >= 1
  {
    if r :| r in rows && r.emoji == e {
      assert r.user in UsersOf(rows, e);
    }
  }

  /** Every answer of the batch aggregation is such a snapshot. */
  lemma AnswerIsHydrated(scan: seq<Row>, rows: set<Row>, me: UserId)
    requires Scans(scan, rows)
    ensures Hydrated(FromServer(BatchOf(scan, me)), rows, me)
  {
    var out := BatchOf(scan, me);
    var list := FromServer(out);
    AggregationIsSummary(scan, rows, me);
    forall i | 0 <= i < |list| ensures EntryPartlyKnown(list[i], rows, me) {
      var a := out[i];
      assert a in out && AggregateMap(out)[a.emoji] == (a.count, a.me);
      SummaryAt(rows, me, a.emoji);
    }
    forall row | row in rows ensures FindEmoji(list, row.emoji).Some? {
      SummaryAt(rows, me, row.emoji);
      var a :| a in out && a.emoji == row.emoji;
      var i :| 0 <= i < |out| && out[i] == a;
      assert list[i].emoji == row.emoji;
    }
  }

  lemma UsersAfterWrite(rows: set<Row>, op: Op, e: Emoji)
    ensures op.emoji != e ==> UsersOf(Write(rows, op), e) == UsersOf(rows, e)
    ensures op.emoji == e ==>
      UsersOf(Write(rows, op), e) == if op.Add? then UsersOf(rows, e) + {op.user} else UsersOf(rows, e) - {op.user}
    ensures forall u :: u in UsersOf(rows, e) <==> Row(e, u) in rows
    ensures forall u :: u in UsersOf(Write(rows, op), e) <==> Row(e, u) in Write(rows, op)
  {
    forall u ensures u in UsersOf(rows, e) <==> Row(e, u) in rows {
      if Row(e, u) in rows { assert Row(e, u).user == u; }
    }
    forall u ensures u in UsersOf(Write(rows, op), e) <==> Row(e, u) in Write(rows, op) {
      if Row(e, u) in Write(rows, op) { assert Row(e, u).user == u; }
    }
  }

  lemma FoundAt(list: seq<Reaction>, e: Emoji, i: nat)
    requires UniqueEmojis(list) && i < |list| && list[i].emoji == e
    ensures FindEmoji(list, e) == Some(i)
  {
  }

  lemma NotFound(list: seq<Reaction>, e: Emoji)
    requires forall i :: 0 <= i < |list| ==> list[i].emoji != e
    ensures FindEmoji(list, e) == None
  {
  }

  /** Where an emoji is found after an event on the list's entry `i`, or after a new entry. */
  lemma FindAfterChange(list: seq<Reaction>, i: nat, r: Reaction, e: Emoji)
    requires UniqueEmojis(list) && i < |list| && r.emoji == list[i].emoji
    ensures UniqueEmojis(list[i := r]) && FindEmoji(list[i := r], e) == FindEmoji(list, e)
  {
    var at := FindEmoji(list, e);
    if at.Some? { FoundAt(list[i := r], e, at.value); } else { NotFound(list[i := r], e); }
  }

  lemma FindAfterDrop(list: seq<Reaction>, i: nat, e: Emoji)
    requires UniqueEmojis(list) && i < |list|
    ensures var after := list[..i] + list[i + 1..];
      && UniqueEmojis(after)
      && (e == list[i].emoji ==> FindEmoji(after, e) == None)
      && (e != list[i].emoji && FindEmoji(list, e).None? ==> FindEmoji(after, e) == None)
      && (e != list[i].emoji && FindEmoji(list, e).Some? ==>
            FindEmoji(after, e).Some? && after[FindEmoji(after, e).value] == list[FindEmoji(list, e).value])
  {
    var after := list[..i] + list[i + 1..];
    forall k | 0 <= k < |after| ensures after[k] == list[if k < i then k else k + 1] {
    }
    var at := FindEmoji(list, e);
    if at.Some? && at.value != i {
      FoundAt(after, e, if at.value < i then at.value else at.value - 1);
    } else {
      NotFound(after, e);
    }
  }

  lemma FindAfterAppend(list: seq<Reaction>, r: Reaction, e: Emoji)
    requires UniqueEmojis(list) && FindEmoji(list, r.emoji).None?
    ensures UniqueEmojis(list + [r])
    ensures FindEmoji(list + [r], e) == if e == r.emoji then Some(|list|) else FindEmoji(list, e)
  {
    var at, after := FindEmoji(list, e), list + [r];
    if e == r.emoji {
      FoundAt(after, e, |list|);
    } else if at.Some? {
      FoundAt(after, e, at.value);
    } else {
      NotFound(after, e);
    }
  }

  /** An event on another emoji leaves an emoji's entry alone. */
  lemma OtherEntryUntouched(list: seq<Reaction>, op: Op, e: Emoji, me: UserId)
    requires UniqueEmojis(list) && op.emoji != e
    ensures var after := Apply(list, op, Some(me));
      && UniqueEmojis(after)
      && (FindEmoji(list, e).None? ==> FindEmoji(after, e).None?)
      && (FindEmoji(list, e).Some? ==>
            FindEmoji(after, e).Some? && after[FindEmoji(after, e).value] == list[FindEmoji(list, e).value])
  {
    var at, after := FindEmoji(list, op.emoji), Apply(list, op, Some(me));
    if at.None? {
      if op.Add? { FindAfterAppend(list, Reaction(op.emoji, 1, IsMe(Some(me), op.user), [op.user]), e); }
    } else {
      FindAfterDrop(list, at.value, e);
      if after != list && after != list[..at.value] + list[at.value + 1..] {
        FindAfterChange(list, at.value, after[at.value], e);
        assert after == list[at.value := after[at.value]];
      }
    }
  }

  lemma OtherEmojiUntouched(list: seq<Reaction>, rows: set<Row>, op: Op, e: Emoji, me: UserId)
    requires PartlyKnown(list, rows, e, me) && op.emoji != e
    ensures PartlyKnown(Apply(list, op, Some(me)), Write(rows, op), e, me)
  {
    OtherEntryUntouched(list, op, e, me);
    UsersAfterWrite(rows, op, e);
    hide UsersOf, Apply, FindEmoji, UniqueEmojis;
  }

  /** On a partly known emoji an add is counted right exactly when it is the reader's own, really new, or of a user
      known
      by name; the emoji then stays partly known. */
  lemma HydratedAddIff(list: seq<Reaction>, rows: set<Row>, e: Emoji, u: UserId, me: UserId)
    requires PartlyKnown(list, rows, e, me)
    ensures var after, rows' := ApplyAdd(list, e, u, Some(me)), Write(rows, Add(e, u));
      && (CountIsRight(after, rows', e) <==> CanCount(list, rows, Add(e, u), me))
      && (CountIsRight(after, rows', e) ==> PartlyKnown(after, rows', e, me))
  {
    var at, after, rows' := FindEmoji(list, e), ApplyAdd(list, e, u, Some(me)), Write(rows, Add(e, u));
    UsersAfterWrite(rows, Add(e, u), e);
    if at.None? {
      FindAfterAppend(list, Reaction(e, 1, IsMe(Some(me), u), [u]), e);
      assert UsersOf(rows', e) == {u};
    } else {
      FindAfterChange(list, at.value, after[at.value], e);
      if u in UsersOf(rows, e) {
        assert UsersOf(rows', e) == UsersOf(rows, e);
      }
    }
  }

  /** And a removal exactly when it is the reader's own, of a user known by name, of one who is there while nobody is
      known by name, or of one who is not there while somebody is. */
  lemma HydratedRemoveIff(list: seq<Reaction>, rows: set<Row>, e: Emoji, u: UserId, me: UserId)
    requires PartlyKnown(list, rows, e, me)
    ensures var after, rows' := ApplyRemove(list, e, u, Some(me)), Write(rows, Remove(e, u));
      && (CountIsRight(after, rows', e) <==> CanCount(list, rows, Remove(e, u), me))
      && (CountIsRight(after, rows', e) ==> PartlyKnown(after, rows', e, me))
  {
    UsersAfterWrite(rows, Remove(e, u), e);
    if FindEmoji(list, e).Some? {
      var i := FindEmoji(list, e).value;
      var r := list[i];
      WithoutUserFacts(r.users, u);
      if (u == me && !r.me) || (u != me && r.users != [] && u !in r.users) {
        assert u !in UsersOf(rows, e) ==> UsersOf(Write(rows, Remove(e, u)), e) == UsersOf(rows, e);
      } else if r.count == 1 {
        LastRemovalIff(list, rows, i, u, me);
      } else {
        RemovalIff(list, rows, i, u, me);
      }
    }
  }

  lemma LastRemovalIff(list: seq<Reaction>, rows: set<Row>, i: nat, u: UserId, me: UserId)
    requires UniqueEmojis(list) && i < |list| && EntryPartlyKnown(list[i], rows, me) && list[i].count == 1
    ensures var after, rows' := list[..i] + list[i + 1..], Write(rows, Remove(list[i].emoji, u));
      && (CountIsRight(after, rows', list[i].emoji) <==> Row(list[i].emoji, u) in rows)
      && (CountIsRight(after, rows', list[i].emoji) ==> PartlyKnown(after, rows', list[i].emoji, me))
  {
    var e := list[i].emoji;
    var users := UsersOf(rows, e);
    UsersAfterWrite(rows, Remove(e, u), e);
    FindAfterDrop(list, i, e);
    hide UsersOf, FindEmoji;
    if u in users {
      assert |users - {u}| == 0;
    } else {
      assert users - {u} == users;
    }
  }

  function Less(r: Reaction, u: UserId, me: UserId): Reaction {
    r.(count := r.count - 1, me := if u == me then false else r.me, users := WithoutUser(r.users, u))
  }

  lemma LessIsPartlyKnown(r: Reaction, rows: set<Row>, u: UserId, me: UserId)
    requires EntryPartlyKnown(r, rows, me) && r.count > 1 && Row(r.emoji, u) in rows
    ensures EntryPartlyKnown(Less(r, u, me), Write(rows, Remove(r.emoji, u)), me)
  {
    UsersAfterWrite(rows, Remove(r.emoji, u), r.emoji);
    WithoutUserFacts(r.users, u);
    hide UsersOf, WithoutUser;
  }

  lemma RemovalIff(list: seq<Reaction>, rows: set<Row>, i: nat, u: UserId, me: UserId)
    requires UniqueEmojis(list) && i < |list| && EntryPartlyKnown(list[i], rows, me) && list[i].count > 1
    ensures var after, rows' := list[i := Less(list[i], u, me)], Write(rows, Remove(list[i].emoji, u));
      && (CountIsRight(after, rows', list[i].emoji) <==> Row(list[i].emoji, u) in rows)
      && (CountIsRight(after, rows', list[i].emoji) ==> PartlyKnown(after, rows', list[i].emoji, me))
  {
    var e, r := list[i].emoji, list[i];
    var users := UsersOf(rows, e);
    UsersAfterWrite(rows, Remove(e, u), e);
    FoundAt(list, e, i);
    FindAfterChange(list, i, Less(r, u, me), e);
    if u in users { LessIsPartlyKnown(r, rows, u, me); } else { assert users - {u} == users; }
    hide UsersOf, FindEmoji, WithoutUser, UniqueEmojis, Write;
  }

  function FoldFrom(list: seq<Reaction>, ops: seq<Op>, me: Option<UserId>): seq<Reaction>
    decreases |ops|
  {
    if ops == [] then list else FoldFrom(Apply(list, ops[0], me), ops[1..], me)
  }

  function RowsFrom(rows: set<Row>, ops: seq<Op>): set<Row>
    decreases |ops|
  {
    if ops == [] then rows else RowsFrom(Write(rows, ops[0]), ops[1..])
  }

  /** The count is right after each of the events. */
  ghost predicate RightThroughout(list: seq<Reaction>, rows: set<Row>, ops: seq<Op>, e: Emoji, me: UserId)
    decreases |ops|
  {
    && CountIsRight(list, rows, e)
    && (ops != [] ==> RightThroughout(Apply(list, ops[0], Some(me)), Write(rows, ops[0]), ops[1..], e, me))
  }

  /** The client can count each event on the emoji as it comes. */
  ghost predicate CanCountEach(list: seq<Reaction>, rows: set<Row>, ops: seq<Op>, e: Emoji, me: UserId)
    decreases |ops|
  {
    ops != [] ==>
      && (ops[0].emoji == e ==> CanCount(list, rows, ops[0], me))
      && CanCountEach(Apply(list, ops[0], Some(me)), Write(rows, ops[0]), ops[1..], e, me)
  }

  /** From a server snapshot on, for any events on any emojis: the count shown for an emoji is right after every event
      exactly when the client can count each event on that emoji. */
  lemma {:induction false} PartlyKnownCountsIff(
      list: seq<Reaction>, rows: set<Row>, ops: seq<Op>, e: Emoji, me: UserId)
    requires PartlyKnown(list, rows, e, me)
    ensures RightThroughout(list, rows, ops, e, me) <==> CanCountEach(list, rows, ops, e, me)
    decreases |ops|
  {
    assert CountIsRight(list, rows, e);
    if ops != [] {
      var op := ops[0];
      var after, rows' := Apply(list, op, Some(me)), Write(rows, op);
      if op.emoji != e {
        OtherEmojiUntouched(list, rows, op, e, me);
      } else if op.Add? {
        HydratedAddIff(list, rows, e, op.user, me);
      } else {
        HydratedRemoveIff(list, rows, e, op.user, me);
      }
      hide PartlyKnown, CountIsRight, CanCount, Apply, Write;
      if op.emoji != e || CanCount(list, rows, op, me) {
        PartlyKnownCountsIff(after, rows', ops[1..], e, me);
      }
    }
  }

  lemma HydratedCountsIff(list: seq<Reaction>, rows: set<Row>, ops: seq<Op>, e: Emoji, me: UserId)
    requires Hydrated(list, rows, me)
    ensures RightThroughout(list, rows, ops, e, me) <==> CanCountEach(list, rows, ops, e, me)
  {
    HydratedIsPartlyKnown(list, rows, e, me);
    PartlyKnownCountsIff(list, rows, ops, e, me);
  }

  /** Two events, one after the other. */
  lemma TwoEvents(list: seq<Reaction>, rows: set<Row>, a: Op, b: Op, me: Option<UserId>)
    ensures FoldFrom(list, [a, b], me) == Apply(Apply(list, a, me), b, me)
    ensures RowsFrom(rows, [a, b]) == Write(Write(rows, a), b)
  {
    assert [a, b][1..] == [b] && [b][1..] == [];
    hide Apply, Write;
    assert FoldFrom(Apply(list, a, me), [b], me) == Apply(Apply(list, a, me), b, me);
    assert RowsFrom(Write(rows, a), [b]) == Write(Write(rows, a), b);
  }

  /** A removal that is lost: after somebody new is known by name, the removal of a user whom the snapshot only counted
      is taken for a repeat. */
  lemma SnapshotLosesRemoval(e: Emoji)
    ensures var list, rows, ops := [Reaction(e, 1, false, [])], {Row(e, 1)}, [Add(e, 2), Remove(e, 1)];
      && Hydrated(list, rows, 3) && CountAt(FoldFrom(list, ops, Some(3)), e) == 2
      && |UsersOf(RowsFrom(rows, ops), e)| == 1
  {
    var list, rows := [Reaction(e, 1, false, [])], {Row(e, 1)};
    var added := [Reaction(e, 2, false, [2])];
    FoundAt(list, e, 0);
    assert ([] + [2]) == [2];
    assert Apply(list, Add(e, 2), Some(3)) == added;
    FoundAt(added, e, 0);
    assert Apply(added, Remove(e, 1), Some(3)) == added;
    TwoEvents(list, rows, Add(e, 2), Remove(e, 1), Some(3));
    UsersAfterWrite(rows, Add(e, 2), e);
    UsersAfterWrite(Write(rows, Add(e, 2)), Remove(e, 1), e);
    assert UsersOf(rows, e) == {1} by { UsersAfterWrite({}, Add(e, 1), e); assert {} + {Row(e, 1)} == rows; }
    assert UsersOf(RowsFrom(rows, [Add(e, 2), Remove(e, 1)]), e) == {2};
  }
}
