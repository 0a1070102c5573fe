/** One channel's message list in the web client (web/src/store/chatStore.js): the reducers as expressions. */
module ChatConversation {
  import opened Wrappers
  import opened TimeUuids
  import opened MessageLog

  const PAGE_SIZE: nat := 50

  datatype Message = Message(id: Id, author: UserId, content: string)

  /** A list entry: a server message, or the local stand-in of a send under its temporary id. */
  datatype Item =
    | Posted(msg: Message)
    | Optimistic(temp: nat, text: string, failed: bool)

  /** The `id` field of an entry; temporary ids never look like a uuid. */
  datatype ItemKey = ServerKey(id: Id) | TempKey(temp: nat)

  datatype Conv = Conv(items: seq<Item>, hasMore: bool, loaded: bool, loadingInitial: bool, loadingOlder: bool,
      pending: seq<Message>)

  function KeyOf(item: Item): ItemKey {
    match item
    case Posted(msg) => ServerKey(msg.id)
    case Optimistic(temp, _, _) => TempKey(temp)
  }

  predicate HasKey(items: seq<Item>, key: ItemKey) {
    exists i :: 0 <= i < |items| && KeyOf(items[i]) == key
  }

  ghost predicate Distinct(items: seq<Item>) {
    forall i, j :: 0 <= i < j < |items| ==> KeyOf(items[i]) != KeyOf(items[j])
  }

  function Reverse<T>(s: seq<T>): (r: seq<T>) {
    seq(|s|, i requires 0 <= i < |s| => s[|s| - 1 - i])
  }

  function AsItems(msgs: seq<Message>): seq<Item> {
    seq(|msgs|, i requires 0 <= i < |msgs| => Posted(msgs[i]))
  }

  function FreshConv(newestFirst: seq<Message>): Conv {
    Conv(AsItems(Reverse(newestFirst)), |newestFirst| >= PAGE_SIZE, true, false, false, [])
  }

  const LOADING: Conv := Conv([], false, false, true, false, [])

  /** Buffered creations that the fetched page does not hold, in order of arrival. */
  function Unseen(buffered: seq<Message>, seen: seq<Item>): seq<Message> {
    if buffered == [] then []
    else
      var m := buffered[|buffered| - 1];
      Unseen(buffered[..|buffered| - 1], seen) + if HasKey(seen, ServerKey(m.id)) then [] else [m]
  }

  /** The initial page has arrived: it replaces the loading list, followed by what the socket buffered. */
  function FinishLoad(cur: Conv, newestFirst: seq<Message>): Conv {
    var page := FreshConv(newestFirst);
    page.(items := page.items + AsItems(Unseen(cur.pending, page.items)))
  }

  /** `m.id === msg.id ? msg : m` over the list. */
  function ReplaceSame(items: seq<Item>, msg: Message): seq<Item> {
    seq(|items|, i requires 0 <= i < |items| => if KeyOf(items[i]) == ServerKey(msg.id) then Posted(msg) else items[i])
  }

  predicate Echoes(item: Item, content: string) {
    item.Optimistic? && !item.failed && item.text == content
  }

  /** `findIndex` of the first stand-in with this content. */
  function FindEcho(items: seq<Item>, content: string): (r: Option<nat>)
    ensures r.Some? ==> r.value < |items| && Echoes(items[r.value], content)
    ensures r.Some? ==> forall i :: 0 <= i < r.value ==> !Echoes(items[i], content)
    ensures r.None? ==> forall i :: 0 <= i < |items| ==> !Echoes(items[i], content)
  {
    FindEchoFrom(items, content, 0)
  }

  function FindEchoFrom(items: seq<Item>, content: string, from: nat): (r: Option<nat>)
    requires from <= |items|
    ensures r.Some? ==> from <= r.value < |items| && Echoes(items[r.value], content)
    ensures r.Some? ==> forall i :: from <= i < r.value ==> !Echoes(items[i], content)
    ensures r.None? ==> forall i :: from <= i < |items| ==> !Echoes(items[i], content)
    decreases |items| - from
  {
    if from == |items| then None
    else if Echoes(items[from], content) then Some(from)
    else FindEchoFrom(items, content, from + 1)
  }

  function Place(items: seq<Item>, msg: Message, me: Option<UserId>): seq<Item> {
    if HasKey(items, ServerKey(msg.id)) then ReplaceSame(items, msg)
    else
      var slot := if me == Some(msg.author) then FindEcho(items, msg.content) else None;
      if slot.Some? then items[slot.value := Posted(msg)] else items + [Posted(msg)]
  }

  predicate Holds(msgs: seq<Message>, id: Id) {
    exists i :: 0 <= i < |msgs| && msgs[i].id == id
  }

  /** MESSAGE_CREATE. */
  function ApplyCreate(cur: Conv, msg: Message, me: Option<UserId>): Conv {
    if cur.loaded then cur.(items := Place(cur.items, msg, me))
    else if Holds(cur.pending, msg.id) then cur
    else cur.(pending := cur.pending + [msg])
  }

  function AddOptimistic(cur: Conv, temp: nat, content: string): Conv {
    cur.(items := cur.items + [Optimistic(temp, content, false)])
  }

  function WithoutTemp(items: seq<Item>, temp: nat): seq<Item> {
    if items == [] then []
    else
      var last := items[|items| - 1];
      WithoutTemp(items[..|items| - 1], temp) + if KeyOf(last) == TempKey(temp) then [] else [last]
  }

  function SwapTemp(items: seq<Item>, temp: nat, msg: Message): seq<Item> {
    seq(|items|, i requires 0 <= i < |items| => if KeyOf(items[i]) == TempKey(temp) then Posted(msg) else items[i])
  }

  /** The POST response: swap the stand-in for the message, or drop it if the socket was faster. */
  function Resolve(cur: Conv, temp: nat, msg: Message): Conv {
    cur.(items :=
      if HasKey(cur.items, ServerKey(msg.id)) then WithoutTemp(cur.items, temp) else SwapTemp(cur.items, temp, msg))
  }

  function Flagged(items: seq<Item>, temp: nat): seq<Item> {
    seq(|items|, i requires 0 <= i < |items| =>
      if KeyOf(items[i]) == TempKey(temp) then Optimistic(temp, items[i].text, true) else items[i])
  }

  function MarkFailed(cur: Conv, temp: nat): Conv {
    cur.(items := Flagged(cur.items, temp))
  }

  function FirstPosted(items: seq<Item>): Option<Message> {
    if items == [] then None
    else if items[0].Posted? then Some(items[0].msg)
    else FirstPosted(items[1..])
  }

  /** Which message `loadOlder` pages below, if it fetches at all. */
  function OlderAnchor(cur: Conv): Option<Id> {
    if !cur.loaded || !cur.hasMore || cur.loadingOlder then None
    else match FirstPosted(cur.items)
      case None => None
      case Some(m) => Some(m.id)
  }

  function PrependOlder(cur: Conv, older: seq<Message>): Conv {
    cur.(items := AsItems(Reverse(older)) + cur.items, hasMore := |older| >= PAGE_SIZE, loadingOlder := false)
  }

  // ---- where the reducers put a message ----

  /** An entry that stands in for `msg`: its text, not yet failed. */
  ghost predicate StandsIn(items: seq<Item>, i: nat, msg: Message)
    requires i < |items|
  {
    items[i].Optimistic? && items[i].text == msg.content && !items[i].failed
  }

  /** A creation on a loaded list, said of its entries: a known message is replaced where it is; an own one takes the
      place of its first stand-in; any other goes to the end. */
  lemma CreationIsPlaced(cur: Conv, msg: Message, me: Option<UserId>)
    requires cur.loaded
    ensures var items, r := cur.items, ApplyCreate(cur, msg, me).items;
      if exists i :: 0 <= i < |items| && items[i].Posted? && items[i].msg.id == msg.id then
        && |r| == |items|
        && forall i :: 0 <= i < |r| ==>
             r[i] == if items[i].Posted? && items[i].msg.id == msg.id then Posted(msg) else items[i]
      else if me == Some(msg.author) && exists i :: 0 <= i < |items| && StandsIn(items, i, msg) then
        exists at :: 0 <= at < |items| && StandsIn(items, at, msg) && r == items[at := Posted(msg)]
          && forall i :: 0 <= i < at ==> !StandsIn(items, i, msg)
      else r == items + [Posted(msg)]
    ensures ApplyCreate(cur, msg, me) == cur.(items := ApplyCreate(cur, msg, me).items)
  {
    var items := cur.items;
    if i :| 0 <= i < |items| && items[i].Posted? && items[i].msg.id == msg.id {
      assert KeyOf(items[i]) == ServerKey(msg.id);
    } else {
      forall i | 0 <= i < |items| ensures KeyOf(items[i]) != ServerKey(msg.id) {
      }
      forall i: nat | i < |items| ensures Echoes(items[i], msg.content) <==> StandsIn(items, i, msg) {
      }
    }
  }

  /** Around its own entry no other has the temporary id. */
  lemma OneStandIn(a: seq<Item>, x: Item, b: seq<Item>)
    requires Distinct(a + [x] + b) && x.Optimistic?
    ensures forall i :: 0 <= i < |a| ==> KeyOf(a[i]) != TempKey(x.temp)
    ensures forall i :: 0 <= i < |b| ==> KeyOf(b[i]) != TempKey(x.temp)
  {
    var items := a + [x] + b;
    assert KeyOf(items[|a|]) == TempKey(x.temp);
    forall i | 0 <= i < |a| ensures KeyOf(a[i]) != TempKey(x.temp) { assert items[i] == a[i]; }
    forall i | 0 <= i < |b| ensures KeyOf(b[i]) != TempKey(x.temp) { assert items[|a| + 1 + i] == b[i]; }
  }

  /** The answer to a send, said of its stand-in `x`: the message takes its place, or if it is listed already the
      stand-in just goes. Nothing else moves. */
  lemma AnswerIsPlaced(cur: Conv, a: seq<Item>, x: Item, b: seq<Item>, msg: Message)
    requires cur.items == a + [x] + b && Distinct(cur.items) && x.Optimistic?
    ensures Resolve(cur, x.temp, msg) == cur.(items :=
      if exists i :: 0 <= i < |cur.items| && cur.items[i].Posted? && cur.items[i].msg.id == msg.id then a + b
      else a + [Posted(msg)] + b)
  {
    OneStandIn(a, x, b);
    var items := cur.items;
    if i :| 0 <= i < |items| && items[i].Posted? && items[i].msg.id == msg.id {
      assert KeyOf(items[i]) == ServerKey(msg.id);
      DropsOne(a, x, b);
    } else {
      hide Distinct;
      assert !HasKey(items, ServerKey(msg.id));
      assert SwapTemp(items, x.temp, msg) == a + [Posted(msg)] + b;
    }
  }

  lemma {:induction false} DropsOne(a: seq<Item>, x: Item, b: seq<Item>)
    requires x.Optimistic?
    requires forall i :: 0 <= i < |a| ==> KeyOf(a[i]) != TempKey(x.temp)
    requires forall i :: 0 <= i < |b| ==> KeyOf(b[i]) != TempKey(x.temp)
    ensures WithoutTemp(a + [x] + b, x.temp) == a + b
    decreases |b|
  {
    var items := a + [x] + b;
    if b == [] {
      NothingIsDropped(a, x.temp);
      assert items[..|items| - 1] == a == a + b;
    } else {
      var init := b[..|b| - 1];
      DropsOne(a, x, init);
      assert items[..|items| - 1] == a + [x] + init;
      assert b == init + [b[|b| - 1]];
    }
  }

  /** A rejection flags the stand-in where it is. */
  lemma RejectionIsFlagged(cur: Conv, a: seq<Item>, x: Item, b: seq<Item>)
    requires cur.items == a + [x] + b && Distinct(cur.items) && x.Optimistic?
    ensures MarkFailed(cur, x.temp) == cur.(items := a + [Optimistic(x.temp, x.text, true)] + b)
  {
    OneStandIn(a, x, b);
    hide Distinct;
    assert Flagged(cur.items, x.temp) == a + [Optimistic(x.temp, x.text, true)] + b;
  }

  lemma {:induction false} NothingIsDropped(items: seq<Item>, temp: nat)
    requires forall i :: 0 <= i < |items| ==> KeyOf(items[i]) != TempKey(temp)
    ensures WithoutTemp(items, temp) == items
  {
    if items != [] {
      NothingIsDropped(items[..|items| - 1], temp);
    }
  }

  // ---- how the reducers act on keys ----

  lemma {:induction false} WithoutTempKeys(items: seq<Item>, temp: nat)
    ensures forall x :: x in WithoutTemp(items, temp) <==> x in items && KeyOf(x) != TempKey(temp)
    ensures Distinct(items) ==> Distinct(WithoutTemp(items, temp))
  {
    if items != [] {
      var init, last := items[..|items| - 1], items[|items| - 1];
      assert items == init + [last];
      WithoutTempKeys(init, temp);
      if Distinct(items) {
        forall x | x in WithoutTemp(init, temp) ensures KeyOf(x) != KeyOf(last) {
          assert x in init;
        }
      }
    }
  }

  lemma {:induction false} WithoutTempConcat(a: seq<Item>, b: seq<Item>, temp: nat)
    ensures WithoutTemp(a + b, temp) == WithoutTemp(a, temp) + WithoutTemp(b, temp)
  {
    if b == [] {
      assert a + b == a;
    } else {
      assert (a + b)[..|a + b| - 1] == a + b[..|b| - 1];
      WithoutTempConcat(a, b[..|b| - 1], temp);
    }
  }

  /** Server messages are never dropped. */
  lemma {:induction false} WithoutTempPosted(msgs: seq<Message>, temp: nat)
    ensures WithoutTemp(AsItems(msgs), temp) == AsItems(msgs)
  {
    if msgs == [] {
      assert AsItems(msgs) == [];
    } else {
      var init, last := msgs[..|msgs| - 1], msgs[|msgs| - 1];
      var items := AsItems(msgs);
      assert items == AsItems(init) + [Posted(last)];
      hide AsItems;
      assert items[..|items| - 1] == AsItems(init);
      WithoutTempPosted(init, temp);
    }
  }

  // ---- the initial load ----

  /** The socket's creations while the first page is loading. */
  function Buffer(events: seq<Message>, me: Option<UserId>): Conv {
    if events == [] then LOADING
    else ApplyCreate(Buffer(events[..|events| - 1], me), events[|events| - 1], me)
  }

  ghost predicate DistinctIds(msgs: seq<Message>) {
    forall i, j :: 0 <= i < j < |msgs| ==> msgs[i].id != msgs[j].id
  }

  lemma BufferOne(cur: Conv, msg: Message, me: Option<UserId>)
    requires !cur.loaded && DistinctIds(cur.pending)
    ensures var after := ApplyCreate(cur, msg, me).pending;
      && DistinctIds(after) && cur.pending <= after <= cur.pending + [msg]
      && Holds(after, msg.id)
  {
    var after := ApplyCreate(cur, msg, me).pending;
    if !Holds(cur.pending, msg.id) {
      assert after[|cur.pending|].id == msg.id;
    }
  }

  lemma {:induction false} BufferHolds(events: seq<Message>, me: Option<UserId>)
    ensures var c := Buffer(events, me);
      && !c.loaded && c.loadingInitial && !c.hasMore && !c.loadingOlder && c.items == []
      && DistinctIds(c.pending)
      && (forall m <- c.pending :: m in events)
      && (forall e <- events :: Holds(c.pending, e.id))
  {
    if events != [] {
      var init, last := events[..|events| - 1], events[|events| - 1];
      BufferHolds(init, me);
      var before, after := Buffer(init, me).pending, Buffer(events, me).pending;
      BufferOne(Buffer(init, me), last, me);
      forall e | e in events ensures Holds(after, e.id) {
        if e in init {
          var i :| 0 <= i < |before| && before[i].id == e.id;
          assert after[i].id == e.id;
        }
      }
      forall m | m in after ensures m in events {
        if m in before { assert m in init; }
      }
    }
  }

  lemma {:induction false} UnseenHolds(buffered: seq<Message>, seen: seq<Item>)
    ensures forall m :: m in Unseen(buffered, seen) <==> m in buffered && !HasKey(seen, ServerKey(m.id))
    ensures DistinctIds(buffered) ==> DistinctIds(Unseen(buffered, seen))
  {
    if buffered != [] {
      var init, last := buffered[..|buffered| - 1], buffered[|buffered| - 1];
      assert buffered == init + [last];
      UnseenHolds(init, seen);
      if DistinctIds(buffered) {
        forall m | m in Unseen(init, seen) ensures m.id != last.id {
          assert m in init;
        }
      }
    }
  }

  /** Appending messages whose ids are new keeps ids distinct. */
  lemma JoinDistinct(front: seq<Item>, extra: seq<Message>)
    requires Distinct(front) && DistinctIds(extra)
    requires forall m <- extra :: !HasKey(front, ServerKey(m.id))
    ensures Distinct(front + AsItems(extra))
    ensures forall m <- extra :: HasKey(front + AsItems(extra), ServerKey(m.id))
    ensures forall key :: HasKey(front, key) ==> HasKey(front + AsItems(extra), key)
  {
    var items := front + AsItems(extra);
    forall i, j | 0 <= i < j < |items| ensures KeyOf(items[i]) != KeyOf(items[j]) {
      if j >= |front| {
        assert extra[j - |front|] in extra;
      }
    }
    forall m | m in extra ensures HasKey(items, ServerKey(m.id)) {
      var i :| 0 <= i < |extra| && extra[i] == m;
      assert KeyOf(items[|front| + i]) == ServerKey(m.id);
    }
    forall key | HasKey(front, key) ensures HasKey(items, key) {
      var i :| 0 <= i < |front| && KeyOf(front[i]) == key;
      assert KeyOf(items[i]) == key;
    }
  }

  /** No creation is lost while the first page loads: whatever the page and the events, the loaded list has
      distinct ids, is the page oldest first followed by event messages the page lacks, and holds every event's id. */
  lemma LoadLosesNothing(page: seq<Message>, events: seq<Message>, me: Option<UserId>)
    requires DistinctIds(page)
    ensures var c, front := FinishLoad(Buffer(events, me), page), AsItems(Reverse(page)); exists extra: seq<Message> ::
      && c == Conv(front + AsItems(extra), |page| >= PAGE_SIZE, true, false, false, [])
      && Distinct(c.items)
      && (forall e <- events :: HasKey(c.items, ServerKey(e.id)))
      && (forall m <- extra :: m in events && !HasKey(front, ServerKey(m.id)))
  {
    var front := AsItems(Reverse(page));
    var pending := Buffer(events, me).pending;
    var extra := Unseen(pending, front);
    BufferHolds(events, me);
    UnseenHolds(pending, front);
    JoinDistinct(front, extra);
    var c := FinishLoad(Buffer(events, me), page);
    assert c == Conv(front + AsItems(extra), |page| >= PAGE_SIZE, true, false, false, []);
    forall e | e in events ensures HasKey(c.items, ServerKey(e.id)) {
      var i :| 0 <= i < |pending| && pending[i].id == e.id;
      if !HasKey(front, ServerKey(e.id)) {
        assert pending[i] in extra;
      }
    }
  }
}
