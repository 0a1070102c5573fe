/** Order in the message list when the socket delivers the history in order, repeats allowed: a channel is followed
    from its load through every run. */
module ChatOrder {
  import opened Wrappers
  import opened TimeUuids
  import opened MessageLog
  import opened ChatConversation
  import opened ChatRun
  import opened ChannelPaging

  // ---- an in-order stream with repeats ----

  /** The index after the newest one delivered, when the deliveries `indices` follow the stream position `from`. */
  function Position(from: nat, indices: seq<nat>): nat {
    if indices == [] then from
    else
      var before := Position(from, indices[..|indices| - 1]);
      if indices[|indices| - 1] == before then before + 1 else before
  }

  /** Each delivery is the next message or a repeat. */
  predicate Streams(from: nat, indices: seq<nat>) {
    indices != [] ==>
      Streams(from, indices[..|indices| - 1]) && indices[|indices| - 1] <= Position(from, indices[..|indices| - 1])
  }

  lemma {:induction false} StreamCovers(from: nat, indices: seq<nat>)
    requires Streams(from, indices)
    ensures from <= Position(from, indices)
    ensures forall k <- indices :: k < Position(from, indices)
    ensures forall k :: from <= k < Position(from, indices) ==> k in indices
    decreases |indices|
  {
    if indices != [] {
      var init, last := indices[..|indices| - 1], indices[|indices| - 1];
      assert indices == init + [last];
      StreamCovers(from, init);
    }
  }

  /** The stream position after the deliveries of a run. */
  function HighAfter(high: nat, actions: seq<Action>): nat
    decreases |actions|
  {
    if actions == [] then high
    else HighAfter(if actions[0] == Echo(high) then high + 1 else high, actions[1..])
  }

  predicate DeliversInOrder(high: nat, actions: seq<Action>)
    decreases |actions|
  {
    actions != [] ==>
      && (actions[0].Echo? ==> actions[0].index <= high)
      && DeliversInOrder(if actions[0] == Echo(high) then high + 1 else high, actions[1..])
  }

  // ---- without own sends: the list is the history ----

  /** The list is the history from the oldest fetched message up to `high`. */
  ghost predicate InOrder(w: World, high: nat) {
    w.sends == map[] && w.base <= high <= |w.log| && InvWith(w, AsItems(w.log[w.base..high]))
  }

  lemma InOrderStep(w: World, high: nat, a: Action)
    requires InOrder(w, high) && Enabled(w, a) && !a.StartSend? && (a.Echo? ==> a.index <= high)
    ensures InOrder(Next(w, a), if a == Echo(high) then high + 1 else high)
  {
    hide InvWith;
    var v, tail := Next(w, a), AsItems(w.log[w.base..high]);
    match a {
      case OthersPost(msg) => GrowLog(w, tail, msg); assert v.log[w.base..high] == w.log[w.base..high];
      case ServerReadsPage => ReadKeepsInv(w, tail);
      case AskOlder => AskKeepsInv(w, tail);
      case PageFails => PageFailKeepsInv(w, tail);
      case PageArrives => PageKeepsInv(w, tail);
      case Echo(k) =>
        var after := EchoKeepsInv(w, tail, k);
        if k >= w.base { PlaceNext(w, high, k); }
    }
  }

  lemma PlaceNext(w: World, high: nat, k: nat)
    requires InOrder(w, high) && w.base <= k <= high && k < |w.log|
    ensures Place(AsItems(w.log[w.base..high]), w.log[k], Some(w.me))
         == AsItems(w.log[w.base..if k == high then high + 1 else high])
  {
    var tail, msg := AsItems(w.log[w.base..high]), w.log[k];
    if k < high {
      assert tail[k - w.base] == Posted(msg);
      forall x | x in tail && KeyOf(x) == ServerKey(msg.id) ensures x == Posted(msg) {
        SameIdSameMessage(w, tail, k, x);
      }
      PlaceKnown(tail, msg, Some(w.me));
    } else {
      forall i | 0 <= i < |tail| ensures KeyOf(tail[i]) != ServerKey(msg.id) {
        assert Less(w.log[w.base + i].id, msg.id);
      }
      assert w.log[w.base..high + 1] == w.log[w.base..high] + [msg];
    }
  }

  lemma InOrderListIsSuffix(w: World, high: nat)
    requires InOrder(w, high)
    ensures w.low <= high <= |w.log| && w.conv.items == AsItems(w.log[w.low..high]) && (!w.conv.hasMore ==> w.low == 0)
  {
    assert w.log[w.low..high] == w.log[w.low..w.base] + w.log[w.base..high];
  }

  lemma {:induction false} InOrderRun(w: World, high: nat, actions: seq<Action>)
    requires InOrder(w, high) && RunFrom(w, actions) && DeliversInOrder(high, actions)
    requires forall a <- actions :: !a.StartSend?
    ensures InOrder(Run(w, actions), HighAfter(high, actions))
    decreases |actions|
  {
    if actions != [] {
      var a, rest := actions[0], actions[1..];
      assert a in actions && forall b <- rest :: b in actions;
      InOrderStep(w, high, a);
      InOrderRun(Next(w, a), if a == Echo(high) then high + 1 else high, rest);
    }
  }

  // ---- the load ----

  /** What the load takes over from its buffer is the stretch of history behind the page, as far as the stream got. */
  lemma {:induction false} UnseenIsNextStretch(me: UserId, log: seq<Message>, at: nat, from: nat, indices: seq<nat>)
    requires Ascending(log) && from <= at <= |log| && Streams(from, indices)
    requires forall k <- indices :: Max(0, at - PAGE_SIZE) <= k < |log|
    requires Position(from, indices) <= |log|
    ensures Unseen(Buffer(Pick(log, indices), Some(me)).pending, AsItems(log[Max(0, at - PAGE_SIZE)..at]))
         == log[at..Max(at, Position(from, indices))]
    decreases |indices|
  {
    if indices == [] {
      assert Pick(log, indices) == [];
    } else {
      var init, k := indices[..|indices| - 1], indices[|indices| - 1];
      assert indices == init + [k];
      assert forall n <- init :: n in indices;
      assert k in indices;
      StreamCovers(from, init);
      StreamCovers(from, indices);
      UnseenIsNextStretch(me, log, at, from, init);
      var low, pos := Max(0, at - PAGE_SIZE), Position(from, init);
      hide Pick, AsItems, Buffer, Unseen, Ascending, HasKey;
      FrontHolds(log, low, at, k);
      UnseenSnoc(log, init, k, Some(me), AsItems(log[low..at]));
      StretchGrows(log, at, pos, low, k, k in init);
    }
  }

  /** The next message extends the stretch; a repeat, or one the page holds, does not. */
  lemma StretchGrows(log: seq<Message>, at: nat, pos: nat, low: nat, k: nat, repeat: bool)
    requires at <= |log| && pos <= |log| && low <= k < |log| && k <= pos
    requires (k == pos ==> !repeat) && (at <= k < pos ==> repeat)
    ensures log[at..Max(at, pos)] + (if repeat || low <= k < at then [] else [log[k]])
         == log[at..Max(at, if k == pos then k + 1 else pos)]
  {
  }

  lemma UnseenSnoc(log: seq<Message>, init: seq<nat>, k: nat, me: Option<UserId>, front: seq<Item>)
    requires Ascending(log) && k < |log| && forall n <- init :: n < |log|
    requires forall n <- init + [k] :: n < |log|
    ensures Unseen(Buffer(Pick(log, init + [k]), me).pending, front)
         == Unseen(Buffer(Pick(log, init), me).pending, front)
          + if k in init || HasKey(front, ServerKey(log[k].id)) then [] else [log[k]]
  {
    var pending := Buffer(Pick(log, init), me).pending;
    PickSnoc(log, init, k);
    BufferHolds(Pick(log, init), me);
    HeldIffDelivered(log, init, pending, k);
    assert (pending + [log[k]])[..|pending|] == pending;
    hide Pick, HasKey, Holds;
  }

  lemma PickSnoc(log: seq<Message>, init: seq<nat>, k: nat)
    requires k < |log| && forall n <- init :: n < |log|
    ensures forall n <- init + [k] :: n < |log|
    ensures var events := Pick(log, init + [k]);
      |events| > 0 && events[..|events| - 1] == Pick(log, init) && events[|events| - 1] == log[k]
  {
  }

  lemma FrontHolds(log: seq<Message>, low: nat, at: nat, k: nat)
    requires Ascending(log) && low <= at <= |log| && k < |log|
    ensures HasKey(AsItems(log[low..at]), ServerKey(log[k].id)) <==> low <= k < at
  {
    var front := AsItems(log[low..at]);
    if low <= k < at {
      assert KeyOf(front[k - low]) == ServerKey(log[k].id);
    }
    if HasKey(front, ServerKey(log[k].id)) {
      var i :| 0 <= i < |front| && KeyOf(front[i]) == ServerKey(log[k].id);
      IdsAreUnique(log, low + i, k);
    }
  }

  lemma HeldIffDelivered(log: seq<Message>, indices: seq<nat>, pending: seq<Message>, k: nat)
    requires Ascending(log) && k < |log| && forall n <- indices :: n < |log|
    requires forall m <- pending :: m in Pick(log, indices)
    requires forall e <- Pick(log, indices) :: Holds(pending, e.id)
    ensures Holds(pending, log[k].id) <==> k in indices
  {
    if i :| 0 <= i < |indices| && indices[i] == k {
      assert Pick(log, indices)[i] == log[k];
    }
    if i :| 0 <= i < |pending| && pending[i].id == log[k].id {
      assert pending[i] in pending;
      var n := PickedFrom(log, indices, pending[i]);
      IdsAreUnique(log, n, k);
    }
  }

  /** A load whose deliveries come in order (from a position the server had reached when it read the page) leaves
      the history from the page on, up to where page or stream got. */
  lemma LoadedIsInOrder(me: UserId, log: seq<Message>, at: nat, from: nat, indices: seq<nat>)
    requires Ascending(log) && from <= at <= |log| && Streams(from, indices)
    requires forall k <- indices :: Max(0, at - PAGE_SIZE) <= k < |log|
    ensures InOrder(Loaded(me, log, at, indices), Max(at, Position(from, indices)))
  {
    StreamCovers(from, indices);
    var w, high := Loaded(me, log, at, indices), Max(at, Position(from, indices));
    assert |log| !in indices;
    assert Position(from, indices) <= |log|;
    UnseenIsNextStretch(me, log, at, from, indices);
    PageIsDistinct(log, at);
    var extra := log[at..high];
    var loaded := LoadedItems(me, log, at, indices);
    assert w.conv.items == AsItems(log[w.low..at]) + AsItems(extra);
    assert loaded == extra by {
      assert AsItems(loaded) == w.conv.items[at - w.low..] == AsItems(extra);
      forall i | 0 <= i < |extra| ensures |loaded| == |extra| && loaded[i] == extra[i] {
        assert |AsItems(loaded)| == |AsItems(extra)| && AsItems(loaded)[i] == AsItems(extra)[i];
      }
    }
    LoadedCleanly(w, indices, loaded);
  }

  /** From the load on, without own sends: over every run of posts, in-order deliveries with repeats, and paging,
      the list is exactly the history from the oldest fetched message to the last delivered one. */
  lemma LoadedListIsSuffix(me: UserId, log: seq<Message>, at: nat, from: nat, indices: seq<nat>, actions: seq<Action>)
    requires Ascending(log) && from <= at <= |log| && Streams(from, indices)
    requires forall k <- indices :: Max(0, at - PAGE_SIZE) <= k < |log|
    requires RunFrom(Loaded(me, log, at, indices), actions) && forall a <- actions :: !a.StartSend?
    requires DeliversInOrder(Max(at, Position(from, indices)), actions)
    ensures var v, high :=
      Run(Loaded(me, log, at, indices), actions), HighAfter(Max(at, Position(from, indices)), actions);
      v.low <= high <= |v.log| && v.conv.items == AsItems(v.log[v.low..high]) && (!v.conv.hasMore ==> v.low == 0)
  {
    hide InOrder, Loaded, Streams, Position, Ascending;
    LoadedIsInOrder(me, log, at, from, indices);
    InOrderRun(Loaded(me, log, at, indices), Max(at, Position(from, indices)), actions);
    InOrderListIsSuffix(
      Run(Loaded(me, log, at, indices), actions), HighAfter(Max(at, Position(from, indices)), actions));
  }

  // ---- with own sends: everybody else's messages ----

  predicate IsTheirs(x: Item, me: UserId) {
    x.Posted? && x.msg.author != me
  }

  /** The other users' messages among `items`, in list order. */
  function Theirs(items: seq<Item>, me: UserId): seq<Message> {
    if items == [] then []
    else
      var last := items[|items| - 1];
      Theirs(items[..|items| - 1], me) + if IsTheirs(last, me) then [last.msg] else []
  }

  lemma {:induction false} TheirsConcat(a: seq<Item>, b: seq<Item>, me: UserId)
    ensures Theirs(a + b, me) == Theirs(a, me) + Theirs(b, me)
    decreases |b|
  {
    if b == [] {
      assert a + b == a;
    } else {
      var front, last := b[..|b| - 1], b[|b| - 1];
      assert (a + b)[..|a + b| - 1] == a + front;
      TheirsConcat(a, front, me);
    }
  }

  lemma {:induction false} TheirsMembers(items: seq<Item>, me: UserId)
    ensures forall m :: m in Theirs(items, me) <==> Posted(m) in items && m.author != me
  {
    if items != [] {
      assert items == items[..|items| - 1] + [items[|items| - 1]];
      TheirsMembers(items[..|items| - 1], me);
    }
  }

  /** Changing entries that are not theirs into entries that are not theirs. */
  lemma {:induction false} TheirsPointwise(a: seq<Item>, b: seq<Item>, me: UserId)
    requires |a| == |b| && forall i :: 0 <= i < |a| ==> a[i] == b[i] || (!IsTheirs(a[i], me) && !IsTheirs(b[i], me))
    ensures Theirs(a, me) == Theirs(b, me)
    decreases |a|
  {
    if a != [] {
      TheirsPointwise(a[..|a| - 1], b[..|b| - 1], me);
    }
  }

  lemma {:induction false} TheirsWithoutTemp(items: seq<Item>, temp: nat, me: UserId)
    ensures Theirs(WithoutTemp(items, temp), me) == Theirs(items, me)
  {
    if items != [] {
      var front, last := items[..|items| - 1], items[|items| - 1];
      TheirsWithoutTemp(front, temp, me);
      TheirsConcat(WithoutTemp(front, temp), if KeyOf(last) == TempKey(temp) then [] else [last], me);
      assert Theirs([last], me) == if IsTheirs(last, me) then [last.msg] else [] by { assert [last][..0] == []; }
    }
  }

  lemma TheirsPlace(items: seq<Item>, msg: Message, me: UserId)
    requires !HasKey(items, ServerKey(msg.id))
    ensures Theirs(Place(items, msg, Some(me)), me) == Theirs(items, me) + if msg.author != me then [msg] else []
  {
    var slot := if me == msg.author then FindEcho(items, msg.content) else None;
    if slot.Some? {
      TheirsPointwise(items, items[slot.value := Posted(msg)], me);
    } else {
      assert (items + [Posted(msg)])[..|items|] == items;
    }
  }

  /** Every message before `high` was fetched or delivered; the list shows the others' ones exactly, in order. */
  ghost predicate OthersInOrder(w: World, high: nat) {
    && Inv(w) && w.base <= high <= |w.log|
    && (forall k :: w.base <= k < high ==> k in w.echoed)
    && (forall t <- w.sends :: w.sends[t].Stored? || w.sends[t].Answered? ==> w.sends[t].msg.author == w.me)
    && Theirs(w.conv.items, w.me) == Theirs(AsItems(w.log[w.low..high]), w.me)
  }

  lemma KnownEntry(w: World, k: nat)
    requires Inv(w) && k < |w.log|
    ensures forall x <- w.conv.items :: KeyOf(x) == ServerKey(w.log[k].id) ==> x == Posted(w.log[k])
  {
    SendsConverge(w);
    forall x | x in w.conv.items && KeyOf(x) == ServerKey(w.log[k].id) ensures x == Posted(w.log[k]) {
      var i :| 0 <= i < |w.log[w.low..]| && w.log[w.low..][i] == x.msg;
      IdsAreUnique(w.log, w.low + i, k);
    }
  }

  /** A message is in the others' part of a stretch only at its own index. */
  lemma NotInStretch(log: seq<Message>, low: nat, high: nat, k: nat, me: UserId)
    requires Ascending(log) && low <= high <= k < |log|
    ensures log[k] !in Theirs(AsItems(log[low..high]), me)
  {
    var part := AsItems(log[low..high]);
    TheirsMembers(part, me);
    forall i | 0 <= i < |part| ensures part[i] != Posted(log[k]) {
      assert Less(log[low + i].id, log[k].id);
    }
  }

  lemma StretchSnoc(log: seq<Message>, low: nat, high: nat, me: UserId)
    requires low <= high < |log|
    ensures Theirs(AsItems(log[low..high + 1]), me)
         == Theirs(AsItems(log[low..high]), me) + if log[high].author != me then [log[high]] else []
  {
    var part := AsItems(log[low..high + 1]);
    assert part[..|part| - 1] == AsItems(log[low..high]);
  }

  lemma EchoOfListed(w: World, k: nat)
    requires Inv(w) && k < |w.log| && HasKey(w.conv.items, ServerKey(w.log[k].id))
    ensures ApplyCreate(w.conv, w.log[k], Some(w.me)) == w.conv && Posted(w.log[k]) in w.conv.items
  {
    var tail :| InvWith(w, tail);
    KnownEntry(w, k);
    PlaceKnown(w.conv.items, w.log[k], Some(w.me));
    var i :| 0 <= i < |w.conv.items| && KeyOf(w.conv.items[i]) == ServerKey(w.log[k].id);
    assert w.conv.items[i] in w.conv.items;
  }

  lemma EchoKeepsOthers(w: World, high: nat, k: nat)
    requires OthersInOrder(w, high) && Enabled(w, Echo(k)) && k <= high
    ensures Theirs(Next(w, Echo(k)).conv.items, w.me)
         == Theirs(AsItems(w.log[w.low..if k == high then high + 1 else high]), w.me)
  {
    hide Place, Theirs, HasKey, AsItems;
    var msg := w.log[k];
    WindowFacts(w);
    if k == high { StretchSnoc(w.log, w.low, high, w.me); } else { DeliveredIsListed(w, high, k); }
    if HasKey(w.conv.items, ServerKey(msg.id)) {
      EchoOfListed(w, k);
      TheirsMembers(w.conv.items, w.me);
      if k == high { NotInStretch(w.log, w.low, high, k, w.me); }
    } else {
      TheirsPlace(w.conv.items, msg, w.me);
    }
  }

  lemma WindowFacts(w: World)
    requires Inv(w)
    ensures Ascending(w.log) && w.low <= w.base <= |w.log| && w.conv.loaded
  {
    var tail :| InvWith(w, tail);
  }

  lemma DeliveredIsListed(w: World, high: nat, k: nat)
    requires Inv(w) && w.base <= high <= |w.log| && w.low <= k < high
    requires forall n :: w.base <= n < high ==> n in w.echoed
    ensures HasKey(w.conv.items, ServerKey(w.log[k].id))
  {
    InvIsSound(w);
    if k < w.base {
      PagedHistoryIsContiguous(w);
      assert w.conv.items[k - w.low] == AsItems(w.log[w.low..w.base])[k - w.low];
    } else {
      var i :| 0 <= i < |w.conv.items| && w.conv.items[i] == Posted(w.log[k]);
      assert KeyOf(w.conv.items[i]) == ServerKey(w.log[k].id);
    }
  }

  lemma AnswerKeepsOthers(items: seq<Item>, t: nat, msg: Message, me: UserId)
    requires msg.author == me
    ensures Theirs(WithoutTemp(items, t), me) == Theirs(items, me)
    ensures Theirs(SwapTemp(items, t, msg), me) == Theirs(items, me)
  {
    TheirsWithoutTemp(items, t, me);
    TheirsPointwise(items, SwapTemp(items, t, msg), me);
  }

  lemma FlagKeepsOthers(items: seq<Item>, t: nat, me: UserId)
    ensures Theirs(Flagged(items, t), me) == Theirs(items, me)
  {
    TheirsPointwise(items, Flagged(items, t), me);
  }

  lemma StandInKeepsOthers(items: seq<Item>, t: nat, content: string, me: UserId)
    ensures Theirs(items + [Optimistic(t, content, false)], me) == Theirs(items, me)
  {
    assert (items + [Optimistic(t, content, false)])[..|items|] == items;
  }

  lemma ReducersKeepOthers(w: World, high: nat, a: Action)
    requires OthersInOrder(w, high) && Enabled(w, a) && !a.Echo? && !a.PageArrives?
    ensures Theirs(Next(w, a).conv.items, w.me) == Theirs(w.conv.items, w.me)
  {
    hide Inv, Theirs, WithoutTemp, SwapTemp, Flagged, HasKey;
    match a {
      case StartSend(t, content) => StandInKeepsOthers(w.conv.items, t, content, w.me);
      case Respond(t) => AnswerKeepsOthers(w.conv.items, t, w.sends[t].msg, w.me);
      case FailSend(t) => FlagKeepsOthers(w.conv.items, t, w.me);
      case _ =>
    }
  }

  lemma PageKeepsOthers(w: World, high: nat)
    requires OthersInOrder(w, high) && Enabled(w, PageArrives)
    ensures var v := Next(w, PageArrives);
      v.low <= v.base && Theirs(v.conv.items, w.me) == Theirs(AsItems(w.log[v.low..high]), w.me)
  {
    hide TailOk, SendsOk, Ascending, Theirs;
    var v := Next(w, PageArrives);
    var tail :| InvWith(w, tail);
    PageExtendsWindow(w);
    var older := w.log[v.low..w.low];
    assert Reverse(w.fetch.page) == older;
    assert w.log[v.low..high] == older + w.log[w.low..high];
    assert AsItems(older + w.log[w.low..high]) == AsItems(older) + AsItems(w.log[w.low..high]);
    TheirsConcat(AsItems(older), w.conv.items, w.me);
    TheirsConcat(AsItems(older), AsItems(w.log[w.low..high]), w.me);
  }

  lemma OthersInOrderStep(w: World, high: nat, a: Action)
    requires OthersInOrder(w, high) && Enabled(w, a) && (a.Echo? ==> a.index <= high)
    ensures OthersInOrder(Next(w, a), if a == Echo(high) then high + 1 else high)
  {
    hide Inv, Theirs;
    var v := Next(w, a);
    WindowFacts(w);
    StepKeepsInv(w, a);
    assert v.log[w.low..high] == w.log[w.low..high];
    if a.Echo? {
      EchoKeepsOthers(w, high, a.index);
    } else if a.PageArrives? {
      PageKeepsOthers(w, high);
    } else {
      ReducersKeepOthers(w, high, a);
    }
  }

  lemma {:induction false} OthersInOrderRun(w: World, high: nat, actions: seq<Action>)
    requires OthersInOrder(w, high) && RunFrom(w, actions) && DeliversInOrder(high, actions)
    ensures OthersInOrder(Run(w, actions), HighAfter(high, actions))
    decreases |actions|
  {
    hide OthersInOrder, Next, Enabled;
    if actions != [] {
      var a := actions[0];
      OthersInOrderStep(w, high, a);
      OthersInOrderRun(Next(w, a), if a == Echo(high) then high + 1 else high, actions[1..]);
    }
  }

  /** From the load on, own sends and all their races included: over every run with in-order deliveries the other
      users' entries are exactly their part of the history from the oldest fetched message to the last delivered
      one, in order, without a gap or a repeat. */
  lemma OthersAreNeverDisturbed(
      me: UserId, log: seq<Message>, at: nat, from: nat, indices: seq<nat>, actions: seq<Action>)
    requires Ascending(log) && from <= at <= |log| && Streams(from, indices)
    requires forall k <- indices :: Max(0, at - PAGE_SIZE) <= k < |log|
    requires RunFrom(Loaded(me, log, at, indices), actions)
    requires DeliversInOrder(Max(at, Position(from, indices)), actions)
    ensures var v, high :=
      Run(Loaded(me, log, at, indices), actions), HighAfter(Max(at, Position(from, indices)), actions);
      v.low <= high <= |v.log| && Theirs(v.conv.items, v.me) == Theirs(AsItems(v.log[v.low..high]), v.me)
  {
    var w, high := Loaded(me, log, at, indices), Max(at, Position(from, indices));
    LoadedIsInOrder(me, log, at, from, indices);
    StreamCovers(from, indices);
    InOrderIsOthersInOrder(w, high);
    hide InvWith, Loaded, Streams, Position;
    OthersInOrderRun(w, high, actions);
    WindowFacts(Run(w, actions));
  }

  lemma InOrderIsOthersInOrder(w: World, high: nat)
    requires InOrder(w, high) && forall k :: w.base <= k < high ==> k in w.echoed
    ensures OthersInOrder(w, high)
  {
    assert w.log[w.low..high] == w.log[w.low..w.base] + w.log[w.base..high];
    assert w.conv.items == AsItems(w.log[w.low..high]);
  }

  // ---- gaps ----

  /** The listed messages are the history from the oldest fetched one up to `n`, none missing in between. */
  ghost predicate Unbroken(w: World, n: nat) {
    w.low <= n <= |w.log| && forall k :: 0 <= k < |w.log| ==> (Posted(w.log[k]) in w.conv.items <==> w.low <= k < n)
  }

  ghost predicate Gapless(w: World) {
    exists n :: Unbroken(w, n)
  }

  /** Listing message `k` on top of an unbroken list leaves no gap exactly when `k` is not beyond the next one. */
  lemma OneMoreIsGaplessIff(w: World, v: World, n: nat, k: nat)
    requires Unbroken(w, n) && v.log == w.log && v.low == w.low && w.low <= k < |w.log|
    requires forall j :: 0 <= j < |w.log| ==>
      (Posted(w.log[j]) in v.conv.items <==> Posted(w.log[j]) in w.conv.items || j == k)
    ensures Gapless(v) <==> k <= n
  {
    if k <= n {
      assert Unbroken(v, if k == n then n + 1 else n);
    } else {
      forall m ensures !Unbroken(v, m) {
        assert Posted(w.log[k]) in v.conv.items && Posted(w.log[n]) !in v.conv.items;
      }
    }
  }

  lemma ResponseLists(w: World, t: nat, k: nat, j: nat)
    requires Inv(w) && Enabled(w, Respond(t)) && k < |w.log| && w.log[k] == w.sends[t].msg && j < |w.log|
    ensures Posted(w.log[j]) in Next(w, Respond(t)).conv.items
       <==> Posted(w.log[j]) in w.conv.items || (j == k && HasKey(w.conv.items, TempKey(t)))
  {
    hide Inv, WithoutTemp, SwapTemp, Ascending;
    var items, msg := w.conv.items, w.sends[t].msg;
    WindowFacts(w);
    SendsConverge(w);
    KnownEntry(w, k);
    var known := HasKey(items, ServerKey(msg.id));
    ResolveFacts(items, t, msg, known);
    if known {
      var i :| 0 <= i < |items| && KeyOf(items[i]) == ServerKey(msg.id);
      assert items[i] in items;
    } else {
      SwapLists(items, t, msg);
      if w.log[j] == w.log[k] { IdsAreUnique(w.log, j, k); }
    }
  }

  lemma SwapLists(items: seq<Item>, t: nat, msg: Message)
    requires Posted(msg) !in items
    ensures Posted(msg) in SwapTemp(items, t, msg) <==> HasKey(items, TempKey(t))
  {
    if i :| 0 <= i < |items| && KeyOf(items[i]) == TempKey(t) {
      assert SwapTemp(items, t, msg)[i] == Posted(msg);
    } else {
      assert SwapTemp(items, t, msg) == items;
    }
  }

  /** An answer that overtakes the stream: on an unbroken list it leaves a gap exactly when its message is beyond the
      next undelivered one and its stand-in is still there to be replaced. */
  lemma AnswerLeavesNoGapIff(w: World, n: nat, t: nat, k: nat)
    requires Inv(w) && Unbroken(w, n) && Enabled(w, Respond(t)) && k < |w.log| && w.log[k] == w.sends[t].msg
    ensures Gapless(Next(w, Respond(t))) <==> k <= n || !HasKey(w.conv.items, TempKey(t))
  {
    var v := Next(w, Respond(t));
    forall j | 0 <= j < |w.log| ensures Posted(w.log[j]) in v.conv.items
      <==> Posted(w.log[j]) in w.conv.items || (j == k && HasKey(w.conv.items, TempKey(t)))
    {
      ResponseLists(w, t, k, j);
    }
    AnswerIsNew(w, t, k);
    if HasKey(w.conv.items, TempKey(t)) {
      OneMoreIsGaplessIff(w, v, n, k);
    } else {
      assert Unbroken(v, n);
    }
  }

  lemma AnswerIsNew(w: World, t: nat, k: nat)
    requires Inv(w) && Enabled(w, Respond(t)) && k < |w.log| && w.log[k] == w.sends[t].msg
    ensures w.low <= w.base <= k
  {
    var tail :| InvWith(w, tail);
    var i :| w.base <= i < |w.log| && w.log[i] == w.sends[t].msg;
    IdsAreUnique(w.log, i, k);
  }

  /** A delivery leaves a gap exactly when it skips a message. */
  lemma DeliveryLeavesNoGapIff(w: World, n: nat, k: nat)
    requires Inv(w) && Unbroken(w, n) && Enabled(w, Echo(k))
    ensures Gapless(Next(w, Echo(k))) <==> k <= n
  {
    var v, items, msg := Next(w, Echo(k)), w.conv.items, w.log[k];
    WindowFacts(w);
    SendsConverge(w);
    KnownEntry(w, k);
    PlaceFacts(items, msg, Some(w.me));
    forall j | 0 <= j < |w.log|
      ensures Posted(w.log[j]) in v.conv.items <==> Posted(w.log[j]) in items || j == k
    {
      if w.log[j] == msg { IdsAreUnique(w.log, j, k); }
    }
    OneMoreIsGaplessIff(w, v, n, k);
  }

  /** The list of `LoadedListIsSuffix` is unbroken. */
  lemma SuffixIsUnbroken(w: World, n: nat)
    requires Ascending(w.log) && w.low <= n <= |w.log| && w.conv.items == AsItems(w.log[w.low..n])
    ensures Unbroken(w, n)
  {
    forall k | 0 <= k < |w.log| ensures Posted(w.log[k]) in w.conv.items <==> w.low <= k < n {
      if w.low <= k < n {
        assert w.conv.items[k - w.low] == Posted(w.log[k]);
      }
      if i :| 0 <= i < |w.conv.items| && w.conv.items[i] == Posted(w.log[k]) {
        IdsAreUnique(w.log, w.low + i, k);
      }
    }
  }

  // ---- the place of an own message ----

  ghost predicate PostedAscend(items: seq<Item>) {
    forall i, j :: 0 <= i < j < |items| && items[i].Posted? && items[j].Posted? ==>
      Less(items[i].msg.id, items[j].msg.id)
  }

  lemma {:induction false} WithoutTempAscends(items: seq<Item>, t: nat)
    requires PostedAscend(items)
    ensures PostedAscend(WithoutTemp(items, t))
  {
    if items != [] {
      var front, last := items[..|items| - 1], items[|items| - 1];
      WithoutTempAscends(front, t);
      WithoutTempKeys(front, t);
      var kept := WithoutTemp(front, t);
      forall i | 0 <= i < |kept| && kept[i].Posted? && last.Posted? ensures Less(kept[i].msg.id, last.msg.id) {
        assert kept[i] in front;
        var n :| 0 <= n < |front| && front[n] == kept[i];
        assert items[n] == kept[i];
      }
    }
  }

  /** What is listed before the place is older than the message, what is listed after it is newer. */
  ghost predicate FitsAt(items: seq<Item>, at: int, id: Id) {
    forall i :: 0 <= i < |items| && i != at && items[i].Posted? ==>
      if i < at then Less(items[i].msg.id, id) else Less(id, items[i].msg.id)
  }

  /** It fits in the place of every (that is, the one) stand-in of the send. */
  ghost predicate FitsInPlaceOf(items: seq<Item>, t: nat, msg: Message) {
    forall at :: 0 <= at < |items| && KeyOf(items[at]) == TempKey(t) ==> FitsAt(items, at, msg.id)
  }

  /** Where a delivered creation that is not listed goes: the first stand-in of an own message, else the end. */
  function Slot(items: seq<Item>, msg: Message, me: UserId): nat {
    var slot := if me == msg.author then FindEcho(items, msg.content) else None;
    if slot.Some? then slot.value else |items|
  }

  /** Putting a message in the place of a stand-in, or at the end. */
  lemma PlacedInOrderIff(items: seq<Item>, at: nat, msg: Message, r: seq<Item>)
    requires PostedAscend(items) && at <= |items| && (at < |items| ==> items[at].Optimistic?)
    requires |r| == if at < |items| then |items| else |items| + 1
    requires forall i :: 0 <= i < |r| ==> r[i] == if i == at then Posted(msg) else items[i]
    ensures PostedAscend(r) <==> FitsAt(items, at, msg.id)
  {
    if PostedAscend(r) {
      forall i | 0 <= i < |items| && i != at && items[i].Posted?
        ensures if i < at then Less(items[i].msg.id, msg.id) else Less(msg.id, items[i].msg.id)
      {
        assert r[i] == items[i] && r[at] == Posted(msg);
      }
    }
  }

  /** An answer: the message takes its stand-in's place, whatever else was delivered by then. The list stays in history
      order exactly when the message is already listed or fits there. */
  lemma AnswerKeepsOrderIff(cur: Conv, t: nat, msg: Message)
    requires Distinct(cur.items) && PostedAscend(cur.items)
    ensures PostedAscend(Resolve(cur, t, msg).items)
       <==> HasKey(cur.items, ServerKey(msg.id)) || FitsInPlaceOf(cur.items, t, msg)
  {
    var items := cur.items;
    if HasKey(items, ServerKey(msg.id)) {
      WithoutTempAscends(items, t);
    } else if at :| 0 <= at < |items| && KeyOf(items[at]) == TempKey(t) {
      var r := SwapTemp(items, t, msg);
      OnlyStandIn(items, at, t);
      forall i | 0 <= i < |items| ensures r[i] == if i == at then Posted(msg) else items[i] {
      }
      PlacedInOrderIff(items, at, msg, r);
      hide PostedAscend, FitsAt;
    } else {
      assert SwapTemp(items, t, msg) == items;
    }
  }

  lemma OnlyStandIn(items: seq<Item>, at: nat, t: nat)
    requires Distinct(items) && at < |items| && KeyOf(items[at]) == TempKey(t)
    ensures forall b :: 0 <= b < |items| && b != at ==> KeyOf(items[b]) != TempKey(t)
  {
    forall b | 0 <= b < |items| && b != at ensures KeyOf(items[b]) != TempKey(t) {
      assert if b < at then KeyOf(items[b]) != KeyOf(items[at]) else KeyOf(items[at]) != KeyOf(items[b]);
    }
  }

  /** A delivery: an own message takes the first stand-in of equal content, anything else goes to the end. The list
      stays
      in history order exactly when the message is already listed or fits there. */
  lemma DeliveryKeepsOrderIff(items: seq<Item>, msg: Message, me: UserId)
    requires PostedAscend(items)
    ensures PostedAscend(Place(items, msg, Some(me)))
       <==> HasKey(items, ServerKey(msg.id)) || FitsAt(items, Slot(items, msg, me), msg.id)
  {
    var r := Place(items, msg, Some(me));
    if HasKey(items, ServerKey(msg.id)) {
      forall i | 0 <= i < |items| ensures KeyOf(r[i]) == KeyOf(items[i]) {
      }
      forall i, j | 0 <= i < j < |r| && r[i].Posted? && r[j].Posted? ensures Less(r[i].msg.id, r[j].msg.id) {
        assert KeyOf(items[i]) == ServerKey(r[i].msg.id) && KeyOf(items[j]) == ServerKey(r[j].msg.id);
      }
    } else {
      PlacedInOrderIff(items, Slot(items, msg, me), msg, r);
    }
  }

  /** An answered or delivered message fits where it goes; no other action can disturb the order. */
  ghost predicate Fits(w: World, a: Action)
    requires Enabled(w, a)
  {
    match a
    case Respond(t) =>
      HasKey(w.conv.items, ServerKey(w.sends[t].msg.id)) || FitsInPlaceOf(w.conv.items, t, w.sends[t].msg)
    case Echo(k) =>
      var items, msg := w.conv.items, w.log[k];
      HasKey(items, ServerKey(msg.id)) || FitsAt(items, Slot(items, msg, w.me), msg.id)
    case _ => true
  }

  lemma PageKeepsOrder(w: World)
    requires Inv(w) && PostedAscend(w.conv.items) && Enabled(w, PageArrives)
    ensures PostedAscend(Next(w, PageArrives).conv.items)
  {
    WindowFacts(w);
    SendsConverge(w);
    var v := Next(w, PageArrives);
    var tail :| InvWith(w, tail);
    PageExtendsWindow(w);
    assert Reverse(w.fetch.page) == w.log[v.low..w.low];
    OlderKeepOrder(w.log, v.low, w.low, w.conv.items);
  }

  lemma OlderKeepOrder(log: seq<Message>, from: nat, low: nat, items: seq<Item>)
    requires Ascending(log) && from <= low <= |log| && PostedAscend(items)
    requires forall x <- items :: x.Posted? ==> x.msg in log[low..]
    ensures PostedAscend(AsItems(log[from..low]) + items)
  {
    var older, all := log[from..low], AsItems(log[from..low]) + items;
    forall i, j | 0 <= i < j < |all| && all[i].Posted? && all[j].Posted? ensures Less(all[i].msg.id, all[j].msg.id) {
      if j < |older| {
        assert Less(log[from + i].id, log[from + j].id);
      } else if i < |older| {
        assert items[j - |older|] in items;
        var n :| 0 <= n < |log[low..]| && log[low..][n] == all[j].msg;
        assert Less(log[from + i].id, log[low + n].id);
      }
    }
  }

  /** Any step on a list in history order keeps it in order exactly when its message fits. */
  lemma StepKeepsOrderIff(w: World, a: Action)
    requires Inv(w) && PostedAscend(w.conv.items) && Enabled(w, a)
    ensures PostedAscend(Next(w, a).conv.items) <==> Fits(w, a)
  {
    WindowFacts(w);
    match a {
      case Respond(t) => SendsConverge(w); AnswerKeepsOrderIff(w.conv, t, w.sends[t].msg);
      case Echo(k) => DeliveryKeepsOrderIff(w.conv.items, w.log[k], w.me);
      case PageArrives => PageKeepsOrder(w);
      case FailSend(t) => FlagsKeepOrder(w.conv.items, t);
      case _ =>
    }
  }

  lemma FlagsKeepOrder(items: seq<Item>, t: nat)
    requires PostedAscend(items)
    ensures PostedAscend(Flagged(items, t))
  {
    forall i | 0 <= i < |items| && Flagged(items, t)[i].Posted? ensures Flagged(items, t)[i] == items[i] {
    }
  }

  /** The list is in history order after every step. */
  ghost predicate OrderedThroughout(w: World, actions: seq<Action>)
    requires RunFrom(w, actions)
    decreases |actions|
  {
    PostedAscend(w.conv.items) && (actions != [] ==> OrderedThroughout(Next(w, actions[0]), actions[1..]))
  }

  ghost predicate EachFits(w: World, actions: seq<Action>)
    requires RunFrom(w, actions)
    decreases |actions|
  {
    actions != [] ==> Fits(w, actions[0]) && EachFits(Next(w, actions[0]), actions[1..])
  }

  /** Over every run, answers and deliveries in any order: the list is always in history order exactly when every
      answered or delivered message fits where it goes. */
  lemma {:induction false} RunKeepsOrderIff(w: World, actions: seq<Action>)
    requires Inv(w) && PostedAscend(w.conv.items) && RunFrom(w, actions)
    ensures OrderedThroughout(w, actions) <==> EachFits(w, actions)
    decreases |actions|
  {
    if actions != [] {
      hide Inv, PostedAscend, Fits, Enabled, Next;
      StepKeepsOrderIff(w, actions[0]);
      StepKeepsInv(w, actions[0]);
      if Fits(w, actions[0]) {
        RunKeepsOrderIff(Next(w, actions[0]), actions[1..]);
      }
    }
  }

  /** An own message that was answered while an older one of somebody else is still to be delivered. */
  function AnsweredAhead(me: UserId, theirs: Message, mine: Message): World {
    var conv := Conv([Posted(mine)], false, true, false, false, []);
    World(me, [theirs, mine], conv, map[1 := Answered(mine.content, mine)], Idle, 0, 0, {})
  }

  lemma AnswerCanGetAhead(me: UserId, theirs: Message, mine: Message)
    requires mine.author == me && Less(theirs.id, mine.id)
    ensures var send :=
        [StartSend(1, mine.content), OthersPost(theirs), ServerStores(1, mine.id), Respond(1)];
      RunFrom(Loaded(me, [], 0, []), send) && Run(Loaded(me, [], 0, []), send) == AnsweredAhead(me, theirs, mine)
  {
    var send := [StartSend(1, mine.content), OthersPost(theirs), ServerStores(1, mine.id), Respond(1)];
    LoadedIsEmpty(me);
    var w0 := Loaded(me, [], 0, []);
    var w1 := Next(w0, send[0]);
    var w2 := Next(w1, send[1]);
    var w3 := Next(w2, send[2]);
    assert w3.log == [theirs, mine] && w3.conv.items == [Optimistic(1, mine.content, false)];
    var w4 := Next(w3, send[3]);
    assert w4.conv.items == [Posted(mine)];
    assert w4 == AnsweredAhead(me, theirs, mine);
    hide RunFrom, Run, Next, Enabled, Loaded;
    NoActions(w4);
    Unroll(w3, send[3..]);
    Unroll(w2, send[2..]);
    Unroll(w1, send[1..]);
    Unroll(w0, send);
  }

  /** Deliveries in order and an answer that fits do not suffice: the older message is then delivered to the end. */
  lemma InOrderDeliveryCanBreakOrder(me: UserId, theirs: Message, mine: Message)
    requires theirs.author != me && Less(theirs.id, mine.id)
    ensures var w := AnsweredAhead(me, theirs, mine);
      && PostedAscend(w.conv.items) && RunFrom(w, [Echo(0)]) && DeliversInOrder(0, [Echo(0)])
      && Run(w, [Echo(0)]).conv.items == [Posted(mine), Posted(theirs)]
      && !PostedAscend(Run(w, [Echo(0)]).conv.items)
  {
    var w := AnsweredAhead(me, theirs, mine);
    var v := Next(w, Echo(0));
    assert v.conv.items == [Posted(mine), Posted(theirs)];
    assert [Echo(0)][1..] == [];
    NoActions(v);
    assert Run(w, [Echo(0)]) == v;
    assert v.conv.items[0] == Posted(mine) && v.conv.items[1] == Posted(theirs);
  }

  lemma NoActions(w: World)
    ensures RunFrom(w, []) && Run(w, []) == w
  {
  }

  lemma LoadedIsEmpty(me: UserId)
    ensures Loaded(me, [], 0, []) == World(me, [], Conv([], false, true, false, false, []), map[], Idle, 0, 0, {})
  {
    assert Pick([], []) == [] && PageBelow([], 0) == [] && AsItems(Reverse<Message>([])) == [];
    assert Buffer([], Some(me)).pending == [] && AsItems([]) == [];
  }
}
