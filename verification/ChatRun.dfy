/** One loaded channel over whole runs: sends, POST responses, socket echoes and paging, in any interleaving. */
module ChatRun {
  import opened Wrappers
  import opened TimeUuids
  import opened MessageLog
  import opened ChatConversation

  /** How far one optimistic send has got. */
  datatype Send =
    | Uploading(content: string)
    | Stored(content: string, msg: Message)
    | Answered(content: string, msg: Message)
    | Rejected(content: string)

  /** A `loadOlder` request in flight: not yet read by the server, or read and on its way back. */
  datatype Fetch = Idle | Asked(before: Id) | Read(before: Id, page: seq<Message>)

  /** `log` is the channel's append-only history. `low` and `base` say that the list starts with
      log[low..base]: the pages fetched so far. `sends` is keyed by temporary id; `echoed` holds the indices of the
      creations delivered so far. */
  datatype World = World(
    me: UserId, log: seq<Message>, conv: Conv, sends: map<nat, Send>, fetch: Fetch,
    low: nat, base: nat, echoed: set<nat>)

  datatype Action =
    | OthersPost(msg: Message)
    | StartSend(temp: nat, content: string)
    | ServerStores(temp: nat, id: Id)
    | Respond(temp: nat)
    | FailSend(temp: nat)
    | Echo(index: nat)
    | AskOlder
    | ServerReadsPage
    | PageArrives
    | PageFails

  /** An append-only history: ids grow. */
  ghost predicate Ascending(log: seq<Message>) {
    forall i, j :: 0 <= i < j < |log| ==> Less(log[i].id, log[j].id)
  }

  lemma IdsAreUnique(log: seq<Message>, i: nat, j: nat)
    requires Ascending(log) && i < |log| && j < |log| && log[i].id == log[j].id
    ensures i == j
  {
    if i < j { assert false; }
    if j < i { assert false; }
  }

  predicate ExtendsLog(log: seq<Message>, id: Id) {
    |log| > 0 ==> Less(log[|log| - 1].id, id)
  }

  function Max(a: int, b: int): int { if a < b then b else a }

  /** The newest page strictly older than log[top..], newest first. */
  function PageBelow(log: seq<Message>, top: nat): (page: seq<Message>)
    requires top <= |log|
  {
    Reverse(log[Max(0, top - PAGE_SIZE)..top])
  }

  /** How many messages of the history are older than `before`. */
  function CountBelow(log: seq<Message>, before: Id): (n: nat)
    ensures n <= |log|
  {
    if log == [] then 0
    else if Less(log[|log| - 1].id, before) then |log|
    else CountBelow(log[..|log| - 1], before)
  }

  predicate Enabled(w: World, a: Action) {
    match a
    case OthersPost(msg) => ExtendsLog(w.log, msg.id)
    case StartSend(t, _) => t !in w.sends
    case ServerStores(t, id) => t in w.sends && w.sends[t].Uploading? && ExtendsLog(w.log, id)
    case Respond(t) => t in w.sends && w.sends[t].Stored?
    case FailSend(t) => t in w.sends && (w.sends[t].Uploading? || w.sends[t].Stored?)
    case Echo(k) => w.low <= k < |w.log|
    case AskOlder => true
    case ServerReadsPage => w.fetch.Asked?
    case PageArrives => w.fetch.Read?
    case PageFails => !w.fetch.Idle?
  }

  /** The socket delivers the creation of the `k`-th message. */
  function Delivered(w: World, k: nat): World
    requires k < |w.log|
  {
    w.(echoed := w.echoed + {k}, conv := ApplyCreate(w.conv, w.log[k], Some(w.me)))
  }

  function Next(w: World, a: Action): World
    requires Enabled(w, a)
  {
    match a
    case OthersPost(msg) => w.(log := w.log + [msg])
    case StartSend(t, content) =>
      w.(sends := w.sends[t := Uploading(content)], conv := AddOptimistic(w.conv, t, content))
    case ServerStores(t, id) =>
      var msg := Message(id, w.me, w.sends[t].content);
      w.(log := w.log + [msg], sends := w.sends[t := Stored(w.sends[t].content, msg)])
    case Respond(t) =>
      w.(sends := w.sends[t := Answered(w.sends[t].content, w.sends[t].msg)],
         conv := Resolve(w.conv, t, w.sends[t].msg))
    case FailSend(t) =>
      w.(sends := w.sends[t := Rejected(w.sends[t].content)], conv := MarkFailed(w.conv, t))
    case Echo(k) => Delivered(w, k)
    case AskOlder =>
      var anchor := OlderAnchor(w.conv);
      if anchor.None? then w else w.(fetch := Asked(anchor.value), conv := w.conv.(loadingOlder := true))
    case ServerReadsPage =>
      w.(fetch := Read(w.fetch.before, PageBelow(w.log, CountBelow(w.log, w.fetch.before))))
    case PageArrives =>
      w.(fetch := Idle, conv := PrependOlder(w.conv, w.fetch.page), low := Max(0, w.low - |w.fetch.page|))
    case PageFails =>
      w.(fetch := Idle, conv := w.conv.(loadingOlder := false))
  }

  // ---- the invariant ----

  /** `msg` entered the history after the first page was read. */
  ghost predicate IsNew(w: World, msg: Message) {
    exists k :: w.base <= k < |w.log| && w.log[k] == msg
  }

  ghost predicate TailEntryOk(w: World, x: Item) {
    match x
    case Posted(msg) => IsNew(w, msg)
    case Optimistic(t, text, failed) =>
      && t in w.sends && !w.sends[t].Answered?
      && text == w.sends[t].content && failed == w.sends[t].Rejected?
  }

  ghost predicate TailOk(w: World, tail: seq<Item>) {
    && Distinct(tail)
    && (forall x <- tail :: TailEntryOk(w, x))
    && (forall k <- w.echoed :: w.base <= k ==> k < |w.log| && Posted(w.log[k]) in tail)
  }

  ghost predicate SendsOk(w: World) {
    forall t <- w.sends :: (w.sends[t].Stored? || w.sends[t].Answered?) ==> IsNew(w, w.sends[t].msg)
  }

  ghost predicate WindowOk(w: World) {
    && Ascending(w.log)
    && w.low <= w.base <= |w.log|
    && w.conv.loaded
    && (w.conv.hasMore ==> w.low < w.base)
    && (!w.conv.hasMore ==> w.low == 0)
    && (w.conv.loadingOlder <==> !w.fetch.Idle?)
    && (!w.fetch.Idle? ==> w.low < w.base && w.fetch.before == w.log[w.low].id)
    && (w.fetch.Read? ==> w.fetch.page == PageBelow(w.log, w.low))
  }

  /** The list is log[low..base] in order, then a tail that holds every delivered newer message once, and
      stand-ins only for sends that have not been answered. */
  ghost predicate InvWith(w: World, tail: seq<Item>) {
    && WindowOk(w) && SendsOk(w)
    && w.conv.items == AsItems(w.log[w.low..w.base]) + tail
    && TailOk(w, tail)
  }

  ghost predicate Inv(w: World) {
    exists tail :: InvWith(w, tail)
  }

  // ---- what each reducer does to the tail ----

  lemma FirstEcho(items: seq<Item>, content: string, at: nat)
    requires at < |items| && Echoes(items[at], content)
    requires forall i :: 0 <= i < at ==> !Echoes(items[i], content)
    ensures FindEcho(items, content) == Some(at)
  {
  }

  lemma FindEchoSkips(pre: seq<Message>, tail: seq<Item>, content: string)
    ensures FindEcho(AsItems(pre) + tail, content) ==
      (match FindEcho(tail, content) case None => None case Some(i) => Some(|pre| + i))
  {
    var items, inTail := AsItems(pre) + tail, FindEcho(tail, content);
    forall i | 0 <= i < |items| ensures Echoes(items[i], content) == (i >= |pre| && Echoes(tail[i - |pre|], content)) {
    }
    if inTail.Some? {
      FirstEcho(items, content, |pre| + inTail.value);
    }
  }

  lemma HasKeySplit(pre: seq<Item>, tail: seq<Item>, key: ItemKey)
    ensures HasKey(pre + tail, key) <==> HasKey(pre, key) || HasKey(tail, key)
  {
    var items := pre + tail;
    if HasKey(pre, key) {
      var i :| 0 <= i < |pre| && KeyOf(pre[i]) == key;
      assert KeyOf(items[i]) == key;
    }
    if HasKey(tail, key) {
      var i :| 0 <= i < |tail| && KeyOf(tail[i]) == key;
      assert KeyOf(items[|pre| + i]) == key;
    }
  }

  /** A creation that is not among the fetched pages only concerns the tail. */
  lemma PlaceSkipsPages(pre: seq<Message>, tail: seq<Item>, msg: Message, me: Option<UserId>)
    requires !HasKey(AsItems(pre), ServerKey(msg.id))
    ensures Place(AsItems(pre) + tail, msg, me) == AsItems(pre) + Place(tail, msg, me)
  {
    HasKeySplit(AsItems(pre), tail, ServerKey(msg.id));
    FindEchoSkips(pre, tail, msg.content);
    if HasKey(tail, ServerKey(msg.id)) {
      assert ReplaceSame(AsItems(pre) + tail, msg) == AsItems(pre) + ReplaceSame(tail, msg);
    }
  }

  /** A creation that is already listed with the same contents changes nothing. */
  lemma PlaceKnown(items: seq<Item>, msg: Message, me: Option<UserId>)
    requires HasKey(items, ServerKey(msg.id))
    requires forall x <- items :: KeyOf(x) == ServerKey(msg.id) ==> x == Posted(msg)
    ensures Place(items, msg, me) == items
  {
    assert forall i :: 0 <= i < |items| ==> items[i] in items;
  }

  /** Placing a creation: it is listed, ids stay distinct, no server message is lost, and only stand-ins make room. */
  lemma PlaceFacts(tail: seq<Item>, msg: Message, me: Option<UserId>)
    requires Distinct(tail)
    requires forall x <- tail :: KeyOf(x) == ServerKey(msg.id) ==> x == Posted(msg)
    ensures var r := Place(tail, msg, me);
      && Distinct(r) && Posted(msg) in r
      && (forall x <- r :: x in tail || x == Posted(msg))
      && (forall x <- tail :: x.Posted? ==> x in r)
  {
    var r := Place(tail, msg, me);
    if HasKey(tail, ServerKey(msg.id)) {
      PlaceKnown(tail, msg, me);
      var i :| 0 <= i < |tail| && KeyOf(tail[i]) == ServerKey(msg.id);
      assert tail[i] in tail;
    } else {
      var slot := if me == Some(msg.author) then FindEcho(tail, msg.content) else None;
      var at := if slot.Some? then slot.value else |tail|;
      assert r[at] == Posted(msg);
      forall i, j | 0 <= i < j < |r| ensures KeyOf(r[i]) != KeyOf(r[j]) {
        if i == at { assert KeyOf(tail[j]) != ServerKey(msg.id); }
        if j == at { assert KeyOf(tail[i]) != ServerKey(msg.id); }
      }
      forall x | x in tail && x.Posted? ensures x in r {
        var i :| 0 <= i < |tail| && tail[i] == x;
        assert r[i] == x;
      }
    }
  }

  /** Answering a send: its stand-in is gone, ids stay distinct, nothing else leaves, only the message may enter. */
  lemma ResolveFacts(tail: seq<Item>, t: nat, msg: Message, known: bool)
    requires Distinct(tail)
    requires known || !HasKey(tail, ServerKey(msg.id))
    ensures var r := if known then WithoutTemp(tail, t) else SwapTemp(tail, t, msg);
      && Distinct(r) && !HasKey(r, TempKey(t))
      && (forall x <- r :: (x in tail && KeyOf(x) != TempKey(t)) || x == Posted(msg))
      && (forall x <- tail :: KeyOf(x) != TempKey(t) ==> x in r)
  {
    if known {
      WithoutTempKeys(tail, t);
      assert forall i :: 0 <= i < |WithoutTemp(tail, t)| ==> WithoutTemp(tail, t)[i] in WithoutTemp(tail, t);
    } else {
      var r := SwapTemp(tail, t, msg);
      forall i, j | 0 <= i < j < |r| ensures KeyOf(r[i]) != KeyOf(r[j]) {
        assert KeyOf(tail[i]) != KeyOf(tail[j]);
        assert KeyOf(tail[i]) != ServerKey(msg.id) && KeyOf(tail[j]) != ServerKey(msg.id);
      }
      forall x | x in r ensures (x in tail && KeyOf(x) != TempKey(t)) || x == Posted(msg) {
        var i :| 0 <= i < |r| && r[i] == x;
        assert tail[i] in tail;
      }
      forall x | x in tail && KeyOf(x) != TempKey(t) ensures x in r {
        var i :| 0 <= i < |tail| && tail[i] == x;
        assert r[i] == x;
      }
    }
  }

  ghost predicate StoodIn(items: seq<Item>, t: nat, text: string) {
    exists y <- items :: KeyOf(y) == TempKey(t) && y.text == text
  }

  lemma FlaggedFacts(tail: seq<Item>, t: nat)
    requires Distinct(tail)
    ensures var r := Flagged(tail, t);
      && Distinct(r)
      && (forall x <- r :: if KeyOf(x) == TempKey(t) then x.failed && StoodIn(tail, t, x.text) else x in tail)
      && (forall x <- tail :: x.Posted? ==> x in r)
  {
    var r := Flagged(tail, t);
    forall i | 0 <= i < |r| ensures KeyOf(r[i]) == KeyOf(tail[i]) {
    }
    forall i, j | 0 <= i < j < |r| ensures KeyOf(r[i]) != KeyOf(r[j]) {
      assert KeyOf(tail[i]) != KeyOf(tail[j]);
    }
    forall x | x in r
      ensures if KeyOf(x) == TempKey(t) then x.failed && StoodIn(tail, t, x.text) else x in tail
    {
      var i :| 0 <= i < |r| && r[i] == x;
      assert tail[i] in tail;
    }
    forall x | x in tail && x.Posted? ensures x in r {
      var i :| 0 <= i < |tail| && tail[i] == x;
      assert r[i] == x;
    }
  }

  // ---- every action keeps the invariant ----

  lemma {:induction false} CountBelowIs(log: seq<Message>, index: nat)
    requires Ascending(log) && index < |log|
    ensures CountBelow(log, log[index].id) == index
    decreases |log|
  {
    var init := log[..|log| - 1];
    if index < |log| - 1 {
      assert !Less(log[|log| - 1].id, log[index].id);
      CountBelowIs(init, index);
    } else if |init| > 0 {
      assert Less(init[|init| - 1].id, log[index].id);
    }
  }

  /** The history grows; nothing the invariant speaks of moves. */
  lemma GrowLog(w: World, tail: seq<Item>, msg: Message)
    requires InvWith(w, tail) && ExtendsLog(w.log, msg.id)
    ensures InvWith(w.(log := w.log + [msg]), tail)
  {
    var v := w.(log := w.log + [msg]);
    forall i, j | 0 <= i < j < |v.log| ensures Less(v.log[i].id, v.log[j].id) {
      if j == |w.log| && i < |w.log| - 1 { assert Less(w.log[i].id, w.log[|w.log| - 1].id); }
    }
    assert v.log[w.low..w.base] == w.log[w.low..w.base];
    assert PageBelow(v.log, w.low) == PageBelow(w.log, w.low) by {
      var from := Max(0, w.low - PAGE_SIZE);
      assert v.log[from..w.low] == w.log[from..w.low];
    }
    forall m | IsNew(w, m) ensures IsNew(v, m) {
      var k :| w.base <= k < |w.log| && w.log[k] == m;
      assert v.log[k] == m;
    }
  }

  /** A server message of the list is one message of the history. */
  lemma SameIdSameMessage(w: World, tail: seq<Item>, k: nat, x: Item)
    requires InvWith(w, tail) && k < |w.log| && x in tail && KeyOf(x) == ServerKey(w.log[k].id)
    ensures x == Posted(w.log[k]) && w.base <= k
  {
    var j :| w.base <= j < |w.log| && w.log[j] == x.msg;
    IdsAreUnique(w.log, j, k);
  }

  lemma PagesHold(w: World, k: nat)
    requires WindowOk(w) && k < |w.log|
    ensures HasKey(AsItems(w.log[w.low..w.base]), ServerKey(w.log[k].id)) <==> w.low <= k < w.base
  {
    var pre := AsItems(w.log[w.low..w.base]);
    if w.low <= k < w.base {
      assert KeyOf(pre[k - w.low]) == ServerKey(w.log[k].id);
    }
    if HasKey(pre, ServerKey(w.log[k].id)) {
      var i :| 0 <= i < |pre| && KeyOf(pre[i]) == ServerKey(w.log[k].id);
      IdsAreUnique(w.log, w.low + i, k);
    }
  }

  lemma TailIsNew(w: World, tail: seq<Item>, k: nat, x: Item)
    requires InvWith(w, tail) && k < w.base && x in tail
    ensures KeyOf(x) != ServerKey(w.log[k].id)
  {
    if x.Posted? {
      var j :| w.base <= j < |w.log| && w.log[j] == x.msg;
      assert Less(w.log[k].id, w.log[j].id);
    }
  }

  /** A delivery from among the fetched pages changes nothing. */
  lemma EchoOfPageKeepsInv(w: World, tail: seq<Item>, k: nat)
    requires InvWith(w, tail) && Enabled(w, Echo(k)) && k < w.base
    ensures InvWith(Next(w, Echo(k)), tail)
  {
    var v, msg, pre := Next(w, Echo(k)), w.log[k], w.log[w.low..w.base];
    PagesHold(w, k);
    forall x | x in w.conv.items && KeyOf(x) == ServerKey(msg.id) ensures x == Posted(msg) {
      if x in tail {
        TailIsNew(w, tail, k, x);
      } else {
        var i :| 0 <= i < |pre| && AsItems(pre)[i] == x;
        IdsAreUnique(w.log, w.low + i, k);
      }
    }
    HasKeySplit(AsItems(pre), tail, ServerKey(msg.id));
    PlaceKnown(w.conv.items, msg, Some(w.me));
    hide Place, AsItems, HasKey, Distinct;
    assert forall m :: IsNew(w, m) ==> IsNew(v, m);
    assert forall x <- tail :: TailEntryOk(w, x) ==> TailEntryOk(v, x);
  }

  lemma EchoOfNewKeepsInv(w: World, tail: seq<Item>, k: nat)
    requires InvWith(w, tail) && Enabled(w, Echo(k)) && w.base <= k
    ensures InvWith(Next(w, Echo(k)), Place(tail, w.log[k], Some(w.me)))
  {
    var v, msg, pre := Next(w, Echo(k)), w.log[k], w.log[w.low..w.base];
    PagesHold(w, k);
    forall x | x in tail && KeyOf(x) == ServerKey(msg.id) ensures x == Posted(msg) {
      SameIdSameMessage(w, tail, k, x);
    }
    PlaceSkipsPages(pre, tail, msg, Some(w.me));
    PlaceFacts(tail, msg, Some(w.me));
    hide Place, AsItems, HasKey, Distinct;
    assert IsNew(v, msg);
    assert forall m :: IsNew(w, m) ==> IsNew(v, m);
    assert forall x <- tail :: TailEntryOk(w, x) ==> TailEntryOk(v, x);
  }

  lemma EchoKeepsInv(w: World, tail: seq<Item>, k: nat) returns (tail': seq<Item>)
    requires InvWith(w, tail) && Enabled(w, Echo(k))
    ensures tail' == if k < w.base then tail else Place(tail, w.log[k], Some(w.me))
    ensures InvWith(Next(w, Echo(k)), tail')
  {
    if k < w.base {
      EchoOfPageKeepsInv(w, tail, k);
      tail' := tail;
    } else {
      EchoOfNewKeepsInv(w, tail, k);
      tail' := Place(tail, w.log[k], Some(w.me));
    }
  }

  lemma SendKeepsInv(w: World, tail: seq<Item>, t: nat, content: string) returns (tail': seq<Item>)
    requires InvWith(w, tail) && Enabled(w, StartSend(t, content))
    ensures tail' == tail + [Optimistic(t, content, false)]
    ensures InvWith(Next(w, StartSend(t, content)), tail')
  {
    var v := Next(w, StartSend(t, content));
    tail' := tail + [Optimistic(t, content, false)];
    forall i | 0 <= i < |tail| ensures KeyOf(tail[i]) != TempKey(t) {
      assert tail[i] in tail;
    }
    assert forall x <- tail :: TailEntryOk(w, x) ==> TailEntryOk(v, x);
    assert v.conv.items == AsItems(v.log[v.low..v.base]) + tail';
  }

  lemma StoreKeepsInv(w: World, tail: seq<Item>, t: nat, id: Id)
    requires InvWith(w, tail) && Enabled(w, ServerStores(t, id))
    ensures InvWith(Next(w, ServerStores(t, id)), tail)
  {
    var msg := Message(id, w.me, w.sends[t].content);
    GrowLog(w, tail, msg);
    var u, v := w.(log := w.log + [msg]), Next(w, ServerStores(t, id));
    assert v.log[|w.log|] == msg;
    assert IsNew(v, msg);
    assert forall m :: IsNew(u, m) ==> IsNew(v, m);
    assert forall x <- tail :: TailEntryOk(u, x) ==> TailEntryOk(v, x);
  }

  /** Answering a send whose message is newer than the fetched pages only concerns the tail. */
  lemma ResolveSkipsPages(pre: seq<Message>, tail: seq<Item>, cur: Conv, t: nat, msg: Message)
    requires !HasKey(AsItems(pre), ServerKey(msg.id)) && cur.items == AsItems(pre) + tail
    ensures Resolve(cur, t, msg) == cur.(items := AsItems(pre) +
      if HasKey(tail, ServerKey(msg.id)) then WithoutTemp(tail, t) else SwapTemp(tail, t, msg))
  {
    HasKeySplit(AsItems(pre), tail, ServerKey(msg.id));
    if HasKey(tail, ServerKey(msg.id)) {
      WithoutTempConcat(AsItems(pre), tail, t);
      WithoutTempPosted(pre, t);
    } else {
      assert SwapTemp(AsItems(pre) + tail, t, msg) == AsItems(pre) + SwapTemp(tail, t, msg);
    }
  }

  lemma RespondKeepsTail(w: World, tail: seq<Item>, t: nat) returns (tail': seq<Item>)
    requires InvWith(w, tail) && Enabled(w, Respond(t))
    ensures tail' ==
      if HasKey(tail, ServerKey(w.sends[t].msg.id)) then WithoutTemp(tail, t) else SwapTemp(tail, t, w.sends[t].msg)
    ensures TailOk(Next(w, Respond(t)), tail') && !HasKey(tail', TempKey(t))
  {
    hide Resolve, WithoutTemp, SwapTemp, Distinct, WindowOk, HasKey, AsItems;
    var v, msg := Next(w, Respond(t)), w.sends[t].msg;
    var known := HasKey(tail, ServerKey(msg.id));
    tail' := if known then WithoutTemp(tail, t) else SwapTemp(tail, t, msg);
    ResolveFacts(tail, t, msg, known);
    assert forall m :: IsNew(w, m) ==> IsNew(v, m);
    assert IsNew(w, msg) && IsNew(v, msg);
    forall x | x in tail' ensures TailEntryOk(v, x) {
      if x != Posted(msg) {
        assert TailEntryOk(w, x) && KeyOf(x) != TempKey(t);
        assert x.Optimistic? ==> x.temp != t;
      }
    }
  }

  lemma RespondKeepsInv(w: World, tail: seq<Item>, t: nat) returns (tail': seq<Item>)
    requires InvWith(w, tail) && Enabled(w, Respond(t))
    ensures InvWith(Next(w, Respond(t)), tail') && !HasKey(tail', TempKey(t))
  {
    hide TailOk, HasKey, WithoutTemp, SwapTemp, Resolve;
    var msg := w.sends[t].msg;
    var k :| w.base <= k < |w.log| && w.log[k] == msg;
    PagesHold(w, k);
    ResolveSkipsPages(w.log[w.low..w.base], tail, w.conv, t, msg);
    tail' := RespondKeepsTail(w, tail, t);
    assert forall m :: IsNew(w, m) ==> IsNew(Next(w, Respond(t)), m);
  }

  lemma FailKeepsInv(w: World, tail: seq<Item>, t: nat) returns (tail': seq<Item>)
    requires InvWith(w, tail) && Enabled(w, FailSend(t))
    ensures InvWith(Next(w, FailSend(t)), tail')
  {
    var v, pre := Next(w, FailSend(t)), w.log[w.low..w.base];
    tail' := Flagged(tail, t);
    FlaggedFacts(tail, t);
    assert Flagged(AsItems(pre) + tail, t) == AsItems(pre) + tail';
    assert forall m :: IsNew(w, m) ==> IsNew(v, m);
    assert forall x <- tail :: TailEntryOk(w, x) && KeyOf(x) != TempKey(t) ==> TailEntryOk(v, x);
  }

  lemma AskKeepsInv(w: World, tail: seq<Item>)
    requires InvWith(w, tail)
    ensures InvWith(Next(w, AskOlder), tail)
  {
    var v := Next(w, AskOlder);
    if OlderAnchor(w.conv).Some? {
      assert w.conv.items[0] == Posted(w.log[w.low]);
    }
    assert forall m :: IsNew(w, m) ==> IsNew(v, m);
    assert forall x <- tail :: TailEntryOk(w, x) ==> TailEntryOk(v, x);
  }

  lemma ReadKeepsInv(w: World, tail: seq<Item>)
    requires InvWith(w, tail) && Enabled(w, ServerReadsPage)
    ensures InvWith(Next(w, ServerReadsPage), tail)
  {
    var v := Next(w, ServerReadsPage);
    CountBelowIs(w.log, w.low);
    assert forall m :: IsNew(w, m) ==> IsNew(v, m);
    assert forall x <- tail :: TailEntryOk(w, x) ==> TailEntryOk(v, x);
  }

  lemma PageExtendsWindow(w: World)
    requires WindowOk(w) && Enabled(w, PageArrives)
    ensures var v := Next(w, PageArrives);
      WindowOk(v) && AsItems(Reverse(w.fetch.page)) + AsItems(w.log[w.low..w.base]) == AsItems(w.log[v.low..w.base])
  {
    var v := Next(w, PageArrives);
    var older := w.log[v.low..w.low];
    assert Reverse(w.fetch.page) == older;
    assert older + w.log[w.low..w.base] == w.log[v.low..w.base];
  }

  lemma PageKeepsInv(w: World, tail: seq<Item>)
    requires InvWith(w, tail) && Enabled(w, PageArrives)
    ensures InvWith(Next(w, PageArrives), tail)
  {
    hide PageBelow, Reverse, AsItems;
    var v := Next(w, PageArrives);
    PageExtendsWindow(w);
    assert forall m :: IsNew(w, m) ==> IsNew(v, m);
    assert forall x <- tail :: TailEntryOk(w, x) ==> TailEntryOk(v, x);
  }

  lemma PageFailKeepsInv(w: World, tail: seq<Item>)
    requires InvWith(w, tail) && Enabled(w, PageFails)
    ensures InvWith(Next(w, PageFails), tail)
  {
    var v := Next(w, PageFails);
    assert forall m :: IsNew(w, m) ==> IsNew(v, m);
    assert forall x <- tail :: TailEntryOk(w, x) ==> TailEntryOk(v, x);
  }

  lemma StepKeepsInv(w: World, a: Action)
    requires Inv(w) && Enabled(w, a)
    ensures Inv(Next(w, a))
  {
    var tail :| InvWith(w, tail);
    var v, after := Next(w, a), tail;
    match a {
      case OthersPost(msg) => GrowLog(w, tail, msg);
      case StartSend(t, content) => after := SendKeepsInv(w, tail, t, content);
      case ServerStores(t, id) => StoreKeepsInv(w, tail, t, id);
      case Respond(t) => after := RespondKeepsInv(w, tail, t);
      case FailSend(t) => after := FailKeepsInv(w, tail, t);
      case Echo(k) => after := EchoKeepsInv(w, tail, k);
      case AskOlder => AskKeepsInv(w, tail);
      case ServerReadsPage => ReadKeepsInv(w, tail);
      case PageArrives => PageKeepsInv(w, tail);
      case PageFails => PageFailKeepsInv(w, tail);
    }
    assert InvWith(v, after);
  }

  ghost predicate RunFrom(w: World, actions: seq<Action>)
    decreases |actions|
  {
    actions != [] ==> Enabled(w, actions[0]) && RunFrom(Next(w, actions[0]), actions[1..])
  }

  function Run(w: World, actions: seq<Action>): World
    requires RunFrom(w, actions)
    decreases |actions|
  {
    if actions == [] then w else Run(Next(w, actions[0]), actions[1..])
  }

  lemma {:induction false} RunKeepsInv(w: World, actions: seq<Action>)
    requires Inv(w) && RunFrom(w, actions)
    ensures Inv(Run(w, actions))
    decreases |actions|
  {
    if actions != [] {
      StepKeepsInv(w, actions[0]);
      RunKeepsInv(Next(w, actions[0]), actions[1..]);
    }
  }

  // ---- what the invariant means ----

  lemma ItemsDistinct(w: World, tail: seq<Item>)
    requires InvWith(w, tail)
    ensures Distinct(w.conv.items)
  {
    var n := w.base - w.low;
    forall i, j | 0 <= i < j < |w.conv.items| ensures KeyOf(w.conv.items[i]) != KeyOf(w.conv.items[j]) {
      if j < n {
        assert Less(w.log[w.low + i].id, w.log[w.low + j].id);
      } else if i < n {
        TailIsNew(w, tail, w.low + i, tail[j - n]);
      }
    }
  }

  /** At every moment of every run: ids are unique, an answered send has no stand-in left, and every message
      delivered since the load is listed (so, ids being unique, exactly once). */
  lemma SendsConverge(w: World)
    requires Inv(w)
    ensures Distinct(w.conv.items)
    ensures forall t <- w.sends :: w.sends[t].Answered? ==> !HasKey(w.conv.items, TempKey(t))
    ensures forall k <- w.echoed :: w.base <= k ==> k < |w.log| && Posted(w.log[k]) in w.conv.items
    ensures forall x <- w.conv.items :: x.Posted? ==> x.msg in w.log[w.low..]
  {
    var tail :| InvWith(w, tail);
    ItemsDistinct(w, tail);
    var pre := w.log[w.low..w.base];
    forall t | t in w.sends && w.sends[t].Answered? ensures !HasKey(w.conv.items, TempKey(t)) {
      HasKeySplit(AsItems(pre), tail, TempKey(t));
      assert forall i :: 0 <= i < |tail| ==> tail[i] in tail;
    }
    forall x | x in w.conv.items && x.Posted? ensures x.msg in w.log[w.low..] {
      if x in tail {
        var k :| w.base <= k < |w.log| && w.log[k] == x.msg;
        assert w.log[w.low..][k - w.low] == x.msg;
      } else {
        var i :| 0 <= i < |pre| && AsItems(pre)[i] == x;
        assert w.log[w.low..][i] == x.msg;
      }
    }
  }

  lemma {:induction false} DistinctPermutation(a: seq<Item>, b: seq<Item>)
    requires Distinct(a) && Distinct(b) && forall x :: x in a <==> x in b
    ensures multiset(a) == multiset(b)
  {
    forall x ensures multiset(a)[x] == multiset(b)[x] {
      DistinctCount(a, x);
      DistinctCount(b, x);
    }
  }

  lemma {:induction false} DistinctCount(a: seq<Item>, x: Item)
    requires Distinct(a)
    ensures multiset(a)[x] == if x in a then 1 else 0
  {
    if a != [] {
      var init, last := a[..|a| - 1], a[|a| - 1];
      assert a == init + [last];
      DistinctCount(init, x);
      forall i | 0 <= i < |init| ensures init[i] != last {
        assert KeyOf(a[i]) != KeyOf(a[|a| - 1]);
      }
    }
  }

  /** Once every send is answered and every newer message delivered, the list is the history from the oldest
      fetched message on: each message exactly once, and no stand-in left. */
  lemma QuietListIsHistory(w: World)
    requires Inv(w)
    requires forall t <- w.sends :: w.sends[t].Answered?
    requires forall k :: w.base <= k < |w.log| ==> k in w.echoed
    ensures multiset(w.conv.items) == multiset(AsItems(w.log[w.low..]))
    ensures !w.conv.hasMore ==> multiset(w.conv.items) == multiset(AsItems(w.log))
  {
    var tail :| InvWith(w, tail);
    SendsConverge(w);
    var whole := AsItems(w.log[w.low..]);
    forall i, j | 0 <= i < j < |whole| ensures KeyOf(whole[i]) != KeyOf(whole[j]) {
      assert Less(w.log[w.low + i].id, w.log[w.low + j].id);
    }
    forall x | x in w.conv.items ensures x in whole {
      assert x.Optimistic? ==> x in tail;
      var i :| 0 <= i < |w.log[w.low..]| && w.log[w.low..][i] == x.msg;
      assert whole[i] == x;
    }
    forall x | x in whole ensures x in w.conv.items {
      var i :| 0 <= i < |whole| && whole[i] == x;
      if w.low + i < w.base {
        assert w.conv.items[i] == x;
      }
    }
    DistinctPermutation(w.conv.items, whole);
    assert w.low == 0 ==> w.log[w.low..] == w.log;
  }

  /** Paging: the list always starts with an unbroken, ordered stretch of the history, and says that nothing
      older exists only when that stretch starts at the first message. */
  lemma PagedHistoryIsContiguous(w: World)
    requires Inv(w)
    ensures AsItems(w.log[w.low..w.base]) <= w.conv.items
    ensures !w.conv.hasMore ==> w.low == 0
    ensures OlderAnchor(w.conv) ==
      if w.conv.hasMore && !w.conv.loadingOlder then Some(w.log[w.low].id) else None
  {
    var tail :| InvWith(w, tail);
    if w.conv.hasMore {
      assert w.conv.items[0] == Posted(w.log[w.low]);
    }
  }

  /** A page that arrives holds the 50 messages before the list, or all there are; more is offered exactly when it was
      full, so a short page ends the paging. */
  lemma ShortPageEndsPaging(w: World)
    requires Inv(w) && Enabled(w, PageArrives)
    ensures var v := Next(w, PageArrives);
      && v.low == (if w.low < 50 then 0 else w.low - 50)
      && v.conv.items == AsItems(w.log[v.low..w.low]) + w.conv.items
      && (v.conv.hasMore <==> w.low >= 50)
      && v.conv.loaded && !v.conv.loadingOlder
  {
    PageExtendsWindow(w);
    assert Reverse(w.fetch.page) == w.log[Next(w, PageArrives).low..w.low];
  }

  /** A delivered creation that is older than everything fetched is appended behind newer messages. */
  lemma LateDeliveryIsAppended(w: World, tail: seq<Item>, k: nat) returns (tail': seq<Item>)
    requires InvWith(w, tail) && k < w.low
    ensures WindowOk(Delivered(w, k))
    ensures Delivered(w, k).conv.items == AsItems(w.log[w.low..w.base]) + tail' && Posted(w.log[k]) in tail'
  {
    var msg, pre := w.log[k], w.log[w.low..w.base];
    PagesHold(w, k);
    forall x | x in tail && KeyOf(x) == ServerKey(msg.id) ensures false {
      SameIdSameMessage(w, tail, k, x);
    }
    PlaceSkipsPages(pre, tail, msg, Some(w.me));
    PlaceFacts(tail, msg, Some(w.me));
    tail' := Place(tail, msg, Some(w.me));
  }
}
