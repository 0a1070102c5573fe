/** The client's view tied to the bucketed store: what a page request returns, and how a loaded channel starts. */
module ChannelPaging {
  import opened Wrappers
  import opened TimeUuids
  import opened IdOrder
  import opened MessageLog
  import opened ChatConversation
  import opened ChatRun

  function IdsOf(msgs: seq<Message>): seq<Id> {
    seq(|msgs|, i requires 0 <= i < |msgs| => msgs[i].id)
  }

  /** The table holds exactly the history `log`, written since the channel's creation by clocks at most ten days
      ahead. */
  ghost predicate Stores(rows: Table, channel: ChannelId, createdAt: int, now: int, log: seq<Message>) {
    && WellBucketed(rows) && Ascending(log)
    && (forall k <- rows :: k.channel == channel ==>
      k.id in IdsOf(log) && createdAt <= Millis(k.id) <= now + 864_000_000)
    && (forall m <- log :: Key(channel, BucketOf(m.id), m.id) in rows)
  }

  /** Posting a message with a newer id, by a clock at most ten days ahead, extends the stored history by it. */
  lemma PostExtendsHistory(rows: Table, channel: ChannelId, createdAt: int, now: int, log: seq<Message>,
      msg: Message, columns: Columns)
    requires Stores(rows, channel, createdAt, now, log) && ExtendsLog(log, msg.id)
    requires createdAt <= Millis(msg.id) <= now + 864_000_000
    ensures Stores(rows[HomeKey(channel, msg.id) := columns], channel, createdAt, now, log + [msg])
  {
    hide BucketOf, Millis;
    var rows', log' := rows[HomeKey(channel, msg.id) := columns], log + [msg];
    forall i, j | 0 <= i < j < |log'| ensures Less(log'[i].id, log'[j].id) {
      if j == |log| && i < |log| - 1 { assert Less(log[i].id, log[|log| - 1].id); }
    }
    assert IdsOf(log') == IdsOf(log) + [msg.id];
  }

  lemma ReversedIds(log: seq<Message>, top: nat, x: Id)
    requires top <= |log|
    ensures x in IdsOf(Reverse(log[..top])) <==> exists i :: 0 <= i < top && log[i].id == x
  {
    var newestFirst := IdsOf(Reverse(log[..top]));
    if i :| 0 <= i < top && log[i].id == x {
      assert newestFirst[top - 1 - i] == x;
    }
    if x in newestFirst {
      var i :| 0 <= i < top && newestFirst[i] == x;
      assert log[top - 1 - i].id == x;
    }
  }

  lemma ReversedDescends(log: seq<Message>, top: nat)
    requires Ascending(log) && top <= |log|
    ensures var ids := IdsOf(Reverse(log[..top])); forall i, j | 0 <= i < j < |ids| :: Less(ids[j], ids[i])
  {
    var ids := IdsOf(Reverse(log[..top]));
    forall i, j | 0 <= i < j < |ids| ensures Less(ids[j], ids[i]) {
      assert Less(log[top - 1 - j].id, log[top - 1 - i].id);
    }
  }

  /** The ids the walk can see below `before` are those of the first `top` messages. */
  lemma VisibleIds(rows: Table, channel: ChannelId, createdAt: int, now: int, log: seq<Message>, before: Option<Id>,
      top: nat)
    requires Stores(rows, channel, createdAt, now, log) && top <= |log|
    requires forall i :: 0 <= i < |log| ==> (IsBelow(log[i].id, before) <==> i < top)
    ensures forall x :: x in IdsOf(Reverse(log[..top])) <==>
      x in IdsWithin(rows, channel, before, MinBucket(createdAt), CeilingBucket(now))
  {
    hide Reverse, BucketOf, Millis, MinBucket, CeilingBucket;
    forall k | k in rows && k.channel == channel ensures MinBucket(createdAt) <= k.bucket <= CeilingBucket(now) {
      TimelyIsVisited(k.id, createdAt, now);
    }
    var ids := IdsWithin(rows, channel, before, MinBucket(createdAt), CeilingBucket(now));
    forall x ensures x in IdsOf(Reverse(log[..top])) <==> x in ids {
      ReversedIds(log, top, x);
      if i :| 0 <= i < top && log[i].id == x {
        assert log[i] in log;
        assert HomeKey(channel, x) in rows;
      }
      if x in ids {
        assert x in IdsOf(log);
      }
    }
  }

  lemma PageIsFront(log: seq<Message>, top: nat)
    requires top <= |log|
    ensures FirstN(IdsOf(Reverse(log[..top])), PAGE_SIZE) == IdsOf(PageBelow(log, top))
  {
    var n := if top < PAGE_SIZE then top else PAGE_SIZE;
    var front, page := IdsOf(Reverse(log[..top]))[..n], IdsOf(PageBelow(log, top));
    forall i | 0 <= i < n ensures front[i] == page[i] {
      assert log[..top][top - 1 - i] == log[Max(0, top - PAGE_SIZE)..top][n - 1 - i];
    }
    assert front == page;
  }

  /** The server's answer to a page request is the page the client machine expects: the newest messages of the
      history below `before`, whatever buckets they span. */
  lemma ServerPageIsPageBelow(rows: Table, channel: ChannelId, createdAt: int, now: int, log: seq<Message>,
      before: Option<Id>)
    requires Stores(rows, channel, createdAt, now, log)
    ensures Page(rows, channel, createdAt, now, before, 50)
         == IdsOf(PageBelow(log, if before.Some? then CountBelow(log, before.value) else |log|))
  {
    hide IdsWithin, Descending, Reverse, IdsOf, CountBelow, PageBelow, WellBucketed;
    var top := if before.Some? then CountBelow(log, before.value) else |log|;
    if before.Some? { CountBelowSplits(log, before.value); }
    var newestFirst := IdsOf(Reverse(log[..top]));
    VisibleIds(rows, channel, createdAt, now, log, before, top);
    ReversedDescends(log, top);
    DescendingUnique(IdsWithin(rows, channel, before, MinBucket(createdAt), CeilingBucket(now)), newestFirst);
    PageIsFront(log, top);
  }

  lemma {:induction false} CountBelowSplits(log: seq<Message>, before: Id)
    requires Ascending(log)
    ensures var n := CountBelow(log, before);
      forall i :: 0 <= i < |log| ==> (Less(log[i].id, before) <==> i < n)
    decreases |log|
  {
    if log != [] {
      var init := log[..|log| - 1];
      if Less(log[|log| - 1].id, before) {
        forall i | 0 <= i < |log| - 1 ensures Less(log[i].id, before) {
          assert Less(log[i].id, log[|log| - 1].id);
        }
      } else {
        CountBelowSplits(init, before);
        assert forall i :: 0 <= i < |init| ==> init[i] == log[i];
      }
    }
  }

  function Pick(log: seq<Message>, indices: seq<nat>): seq<Message>
    requires forall k <- indices :: k < |log|
  {
    seq(|indices|, i requires 0 <= i < |indices| => assert indices[i] in indices; log[indices[i]])
  }

  lemma PickedFrom(log: seq<Message>, indices: seq<nat>, m: Message) returns (k: nat)
    requires forall k <- indices :: k < |log|
    requires m in Pick(log, indices)
    ensures k in indices && k < |log| && log[k] == m
  {
    var i :| 0 <= i < |indices| && Pick(log, indices)[i] == m;
    k := indices[i];
  }

  /** A channel right after its first page arrived: the server read the history when it had `at` messages, and
      the socket delivered the creations at `indices` (repeats included) while the request was in flight. */
  function Loaded(me: UserId, log: seq<Message>, at: nat, indices: seq<nat>): World
    requires at <= |log| && forall k <- indices :: k < |log|
  {
    var page := PageBelow(log, at);
    World(me, log, FinishLoad(Buffer(Pick(log, indices), Some(me)), page), map[], Idle, Max(0, at - PAGE_SIZE), at,
          set k <- indices)
  }

  lemma PageIsDistinct(log: seq<Message>, at: nat)
    requires Ascending(log) && at <= |log|
    ensures DistinctIds(PageBelow(log, at))
    ensures Reverse(PageBelow(log, at)) == log[Max(0, at - PAGE_SIZE)..at]
  {
    var from, page := Max(0, at - PAGE_SIZE), PageBelow(log, at);
    forall i, j | 0 <= i < j < |page| ensures page[i].id != page[j].id {
      assert Less(log[at - 1 - j].id, log[at - 1 - i].id);
    }
  }

  /** What a load leaves: the page, then exactly the delivered messages that the page lacks. */
  lemma LoadedItems(me: UserId, log: seq<Message>, at: nat, indices: seq<nat>) returns (extra: seq<Message>)
    requires Ascending(log) && at <= |log| && forall k <- indices :: k < |log|
    ensures var w := Loaded(me, log, at, indices); var front := AsItems(log[w.low..at]);
      && w.low == (if at < 50 then 0 else at - 50)
      && w.conv == Conv(front + AsItems(extra), at >= 50, true, false, false, [])
      && Distinct(w.conv.items) && WindowOk(w)
      && (forall e <- Pick(log, indices) :: HasKey(w.conv.items, ServerKey(e.id)))
      && (forall m <- extra :: m in Pick(log, indices) && !HasKey(front, ServerKey(m.id)))
  {
    var w := Loaded(me, log, at, indices);
    var page, events := PageBelow(log, at), Pick(log, indices);
    var front := AsItems(log[w.low..at]);
    PageIsDistinct(log, at);
    LoadLosesNothing(page, events, Some(me));
    extra :|
      && w.conv == Conv(front + AsItems(extra), |page| >= PAGE_SIZE, true, false, false, [])
      && Distinct(w.conv.items)
      && (forall e <- events :: HasKey(w.conv.items, ServerKey(e.id)))
      && (forall m <- extra :: m in events && !HasKey(front, ServerKey(m.id)));
  }

  /** A load during which nothing older than the page was delivered starts in the invariant. */
  lemma LoadedInInv(me: UserId, log: seq<Message>, at: nat, indices: seq<nat>)
    requires Ascending(log) && at <= |log| && forall k <- indices :: Max(0, at - PAGE_SIZE) <= k < |log|
    ensures Inv(Loaded(me, log, at, indices))
  {
    var extra := LoadedItems(me, log, at, indices);
    LoadedCleanly(Loaded(me, log, at, indices), indices, extra);
  }

  lemma LoadedCleanly(w: World, indices: seq<nat>, extra: seq<Message>)
    requires Ascending(w.log) && w.low == Max(0, w.base - PAGE_SIZE) <= w.base <= |w.log|
    requires w.sends == map[] && w.fetch == Idle && w.echoed == (set k <- indices)
    requires forall k <- indices :: w.low <= k < |w.log|
    requires w.conv ==
      Conv(AsItems(w.log[w.low..w.base]) + AsItems(extra), w.base - w.low >= PAGE_SIZE, true, false, false, [])
    requires Distinct(w.conv.items)
    requires forall e <- Pick(w.log, indices) :: HasKey(w.conv.items, ServerKey(e.id))
    requires forall m <- extra :: m in Pick(w.log, indices) && !HasKey(AsItems(w.log[w.low..w.base]), ServerKey(m.id))
    ensures InvWith(w, AsItems(extra))
  {
    var front, tail := AsItems(w.log[w.low..w.base]), AsItems(extra);
    forall i, j | 0 <= i < j < |tail| ensures KeyOf(tail[i]) != KeyOf(tail[j]) {
      assert KeyOf(w.conv.items[|front| + i]) != KeyOf(w.conv.items[|front| + j]);
    }
    forall x | x in tail ensures TailEntryOk(w, x) {
      var i :| 0 <= i < |extra| && tail[i] == x;
      assert extra[i] in extra;
      var k := PickedFrom(w.log, indices, extra[i]);
      PagesHold(w, k);
    }
    forall k | k in w.echoed && w.base <= k ensures Posted(w.log[k]) in tail {
      var n :| 0 <= n < |indices| && indices[n] == k;
      assert Pick(w.log, indices)[n] == w.log[k];
      assert HasKey(w.conv.items, ServerKey(w.log[k].id));
      PagesHold(w, k);
      HasKeySplit(front, tail, ServerKey(w.log[k].id));
      var i :| 0 <= i < |tail| && KeyOf(tail[i]) == ServerKey(w.log[k].id);
      assert extra[i] in extra;
      var l := PickedFrom(w.log, indices, extra[i]);
      IdsAreUnique(w.log, l, k);
      assert tail[i] == Posted(w.log[k]);
    }
  }

  /** What a user may rely on. Ids are unique; the list starts with an unbroken stretch of the history, which
      reaches the first message once nothing older is offered; an answered send has no stand-in; and every
      delivered creation from that stretch on is listed. */
  ghost predicate Sound(w: World) {
    && Distinct(w.conv.items)
    && w.low <= w.base <= |w.log|
    && AsItems(w.log[w.low..w.base]) <= w.conv.items
    && (!w.conv.hasMore ==> w.low == 0)
    && (forall t <- w.sends :: w.sends[t].Answered? ==> !HasKey(w.conv.items, TempKey(t)))
    && (forall k <- w.echoed :: w.low <= k ==> k < |w.log| && Posted(w.log[k]) in w.conv.items)
  }

  lemma InvIsSound(w: World)
    requires Inv(w)
    ensures Sound(w)
  {
    SendsConverge(w);
    PagedHistoryIsContiguous(w);
    forall k | k in w.echoed && w.low <= k < w.base ensures Posted(w.log[k]) in w.conv.items {
      assert w.conv.items[k - w.low] == AsItems(w.log[w.low..w.base])[k - w.low];
    }
  }

  /** From the load on, over every interleaving of sends, answers, deliveries and page requests. */
  lemma EveryRunStaysSound(me: UserId, log: seq<Message>, at: nat, indices: seq<nat>, actions: seq<Action>)
    requires Ascending(log) && at <= |log|
    requires forall k <- indices :: Max(0, at - PAGE_SIZE) <= k < |log|
    requires RunFrom(Loaded(me, log, at, indices), actions)
    ensures Sound(Run(Loaded(me, log, at, indices), actions))
  {
    hide Inv, Run, RunFrom, Loaded, Sound;
    LoadedInInv(me, log, at, indices);
    RunKeepsInv(Loaded(me, log, at, indices), actions);
    InvIsSound(Run(Loaded(me, log, at, indices), actions));
  }

  // ---- messages delivered too late ----

  /** The guarantees hold now and after every run from here. */
  ghost predicate StaysSound(w: World) {
    forall actions: seq<Action> :: RunFrom(w, actions) ==> Sound(Run(w, actions))
  }

  lemma Unroll(w: World, actions: seq<Action>)
    requires actions != [] && Enabled(w, actions[0]) && RunFrom(Next(w, actions[0]), actions[1..])
    ensures RunFrom(w, actions) && Run(w, actions) == Run(Next(w, actions[0]), actions[1..])
  {
  }

  /** The next step towards an older page. */
  function PagingStep(w: World): Action {
    if w.fetch.Idle? then AskOlder else if w.fetch.Asked? then ServerReadsPage else PageArrives
  }

  function PagingPhase(w: World): nat {
    if w.fetch.Idle? then 2 else if w.fetch.Asked? then 1 else 0
  }

  lemma PagingGoesOn(w: World, tail: seq<Item>)
    requires WindowOk(w) && 0 < w.low && w.conv.items == AsItems(w.log[w.low..w.base]) + tail
    ensures Enabled(w, PagingStep(w))
    ensures var v := Next(w, PagingStep(w));
      && WindowOk(v) && v.log == w.log && v.base == w.base
      && v.conv.items == AsItems(v.log[v.low..v.base]) + tail
      && (v.low < w.low || (v.low == w.low && PagingPhase(v) < PagingPhase(w)))
  {
    if w.fetch.Idle? {
      assert w.conv.items[0] == Posted(w.log[w.low]);
    } else if w.fetch.Asked? {
      CountBelowIs(w.log, w.low);
    } else {
      PageExtendsWindow(w);
    }
  }

  /** A message listed behind the fetched pages although it is older than they are gets listed twice: paging down
      reaches it. */
  lemma {:induction false} PagingListsItTwice(w: World, tail: seq<Item>, k: nat) returns (actions: seq<Action>)
    requires WindowOk(w) && w.conv.items == AsItems(w.log[w.low..w.base]) + tail
    requires k < w.base && Posted(w.log[k]) in tail
    ensures RunFrom(w, actions) && !Distinct(Run(w, actions).conv.items)
    decreases w.low, PagingPhase(w)
  {
    if w.low <= k {
      actions := [];
      var i :| 0 <= i < |tail| && tail[i] == Posted(w.log[k]);
      var items := w.conv.items;
      assert items[k - w.low] == items[w.base - w.low + i];
    } else {
      PagingGoesOn(w, tail);
      var rest := PagingListsItTwice(Next(w, PagingStep(w)), tail, k);
      actions := [PagingStep(w)] + rest;
      assert actions[1..] == rest;
      Unroll(w, actions);
    }
  }

  lemma InvStaysSound(w: World)
    requires Inv(w)
    ensures StaysSound(w)
  {
    forall actions: seq<Action> | RunFrom(w, actions) ensures Sound(Run(w, actions)) {
      RunKeepsInv(w, actions);
      InvIsSound(Run(w, actions));
    }
  }

  lemma ListedTwiceIsUnsound(w: World, tail: seq<Item>, k: nat)
    requires WindowOk(w) && w.conv.items == AsItems(w.log[w.low..w.base]) + tail
    requires k < w.base && Posted(w.log[k]) in tail
    ensures !StaysSound(w)
  {
    var actions := PagingListsItTwice(w, tail, k);
    assert !Sound(Run(w, actions));
  }

  /** After a load the guarantees hold over every run exactly when nothing delivered during the load is older than
      the page. Otherwise the load appends an old message, and paging down lists it a second time. */
  lemma LoadedStaysSoundIff(me: UserId, log: seq<Message>, at: nat, indices: seq<nat>)
    requires Ascending(log) && at <= |log| && forall k <- indices :: k < |log|
    ensures StaysSound(Loaded(me, log, at, indices)) <==> forall k <- indices :: Max(0, at - PAGE_SIZE) <= k
  {
    var w := Loaded(me, log, at, indices);
    if forall k <- indices :: w.low <= k {
      LoadedInInv(me, log, at, indices);
      InvStaysSound(w);
    } else {
      var k :| k in indices && k < w.low;
      var extra := LoadedItems(me, log, at, indices);
      OldOneIsExtra(w, indices, extra, k);
      ListedTwiceIsUnsound(w, AsItems(extra), k);
    }
  }

  lemma OldOneIsExtra(w: World, indices: seq<nat>, extra: seq<Message>, k: nat)
    requires WindowOk(w) && k in indices && k < w.low && forall n <- indices :: n < |w.log|
    requires w.conv.items == AsItems(w.log[w.low..w.base]) + AsItems(extra)
    requires forall e <- Pick(w.log, indices) :: HasKey(w.conv.items, ServerKey(e.id))
    requires forall m <- extra :: m in Pick(w.log, indices)
    ensures Posted(w.log[k]) in AsItems(extra)
  {
    var n :| 0 <= n < |indices| && indices[n] == k;
    assert Pick(w.log, indices)[n] == w.log[k];
    PagesHold(w, k);
    HasKeySplit(AsItems(w.log[w.low..w.base]), AsItems(extra), ServerKey(w.log[k].id));
    var i :| 0 <= i < |extra| && KeyOf(AsItems(extra)[i]) == ServerKey(w.log[k].id);
    assert extra[i] in extra;
    var l := PickedFrom(w.log, indices, extra[i]);
    IdsAreUnique(w.log, l, k);
    assert AsItems(extra)[i] == Posted(w.log[k]);
  }

  /** The same for a delivery at any later moment: the guarantees survive it, over every run, exactly when the
      message is not older than everything fetched. */
  lemma DeliveryStaysSoundIff(w: World, k: nat)
    requires Inv(w) && k < |w.log|
    ensures StaysSound(Delivered(w, k)) <==> w.low <= k
  {
    if w.low <= k {
      StepKeepsInv(w, Echo(k));
      InvStaysSound(Delivered(w, k));
    } else {
      var tail :| InvWith(w, tail);
      var after := LateDeliveryIsAppended(w, tail, k);
      ListedTwiceIsUnsound(Delivered(w, k), after, k);
    }
  }
}
