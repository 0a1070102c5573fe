/** The fixed-window rate limiter (backend/internal/ratelimit/ratelimit.go) for one scope and id: a counter key per
    window, incremented and then given a new lifetime by two separate commands on one monotone clock. */
module RateLimiter {
  import opened Wrappers

  /** A counter key; without an expiry it stays. */
  datatype Counter = Counter(count: nat, expiry: Option<int>)

  /** One `Allow`: when it arrived (in milliseconds) and what it answered. */
  datatype Hit = Hit(at: int, allowed: bool)

  /** `unset` holds the windows for which some call has incremented and not yet set the lifetime. */
  datatype World = World(now: int, counters: map<int, Counter>, log: seq<Hit>, unset: multiset<int>)

  datatype Action = Increment(at: int) | SetLifetime(at: int, window: int)

  /** `time.Now().Unix() / window`; times are not negative. */
  function WindowOf(ms: int, secs: int): int
    requires secs > 0
  {
    (ms / 1000) / secs
  }

  function Visible(counters: map<int, Counter>, window: int, now: int): nat {
    if window in counters && (counters[window].expiry.None? || now <= counters[window].expiry.value)
    then counters[window].count else 0
  }

  /** INCR: an expired key starts over, without a lifetime. */
  function Incremented(counters: map<int, Counter>, window: int, now: int): map<int, Counter> {
    var n := Visible(counters, window, now);
    counters[window := Counter(n + 1, if n == 0 then None else counters[window].expiry)]
  }

  /** EXPIRE of a key that still exists. */
  function Prolonged(counters: map<int, Counter>, window: int, now: int, secs: int): map<int, Counter> {
    if Visible(counters, window, now) == 0 then counters
    else counters[window := counters[window].(expiry := Some(now + 1000 * secs))]
  }

  class Limiter {
    var counters: map<int, Counter>

    constructor ()
      ensures counters == map[]
    {
      counters := map[];
    }

    /** Without other calls in between; `unavailable` is a Redis error, on which the limiter lets the call pass. */
    method Allow(now: int, limit: nat, secs: int, unavailable: bool) returns (allowed: bool)
      requires secs > 0 && now >= 0
      modifies this
      ensures unavailable ==> allowed && counters == old(counters)
      ensures !unavailable ==> allowed == (Visible(old(counters), WindowOf(now, secs), now) + 1 <= limit)
      ensures !unavailable ==>
        counters == Prolonged(Incremented(old(counters), WindowOf(now, secs), now), WindowOf(now, secs), now, secs)
      // The window's counter then stands for one window length and no longer; the others are left alone.
      ensures !unavailable ==> forall later ::
        var count := Visible(counters, now / 1000 / secs, later);
        count == if later <= now + 1000 * secs then Visible(old(counters), now / 1000 / secs, now) + 1 else 0
      ensures !unavailable ==> counters - {now / 1000 / secs} == old(counters) - {now / 1000 / secs}
    {
      if unavailable {
        return true;
      }
      var window := (now / 1000) / secs;
      counters := Incremented(counters, window, now);
      var count := counters[window].count;
      counters := Prolonged(counters, window, now, secs);
      allowed := count <= limit;
    }
  }

  // ---- interleaved calls ----

  predicate Enabled(w: World, a: Action) {
    && w.now <= a.at
    && (a.SetLifetime? ==> a.window in w.unset)
  }

  function Next(w: World, a: Action, limit: nat, secs: int): World
    requires secs > 0
  {
    match a
    case Increment(at) =>
      var window := WindowOf(at, secs);
      World(at, Incremented(w.counters, window, at),
            w.log + [Hit(at, Visible(w.counters, window, at) + 1 <= limit)], w.unset + multiset{window})
    case SetLifetime(at, window) =>
      w.(now := at, counters := Prolonged(w.counters, window, at, secs), unset := w.unset - multiset{window})
  }

  function HitsIn(log: seq<Hit>, window: int, secs: int): nat
    requires secs > 0
  {
    if log == [] then 0
    else HitsIn(log[..|log| - 1], window, secs) + if WindowOf(log[|log| - 1].at, secs) == window then 1 else 0
  }

  function AllowedIn(log: seq<Hit>, window: int, secs: int): nat
    requires secs > 0
  {
    if log == [] then 0
    else
      var h := log[|log| - 1];
      AllowedIn(log[..|log| - 1], window, secs) + if WindowOf(h.at, secs) == window && h.allowed then 1 else 0
  }

  function Min(a: nat, b: nat): nat { if a < b then a else b }

  /** The end of a window, in milliseconds. */
  function WindowEnd(window: int, secs: int): int {
    1000 * (window * secs + secs)
  }

  ghost predicate Inv(w: World, limit: nat, secs: int)
    requires secs > 0
  {
    && w.now >= 0
    && (forall h <- w.log :: h.at >= 0)
    && (forall k :: AllowedIn(w.log, k, secs) == Min(HitsIn(w.log, k, secs), limit))
    && (forall k :: k > WindowOf(w.now, secs) ==> HitsIn(w.log, k, secs) == 0 && k !in w.counters)
    && (forall k :: k in w.counters && k == WindowOf(w.now, secs) ==>
          w.counters[k].count == HitsIn(w.log, k, secs)
          && (w.counters[k].expiry.Some? ==> w.counters[k].expiry.value >= WindowEnd(k, secs)))
    && (WindowOf(w.now, secs) !in w.counters ==> HitsIn(w.log, WindowOf(w.now, secs), secs) == 0)
  }

  lemma WindowBounds(ms: int, secs: int)
    requires secs > 0 && ms >= 0
    ensures var k := WindowOf(ms, secs); 1000 * (k * secs) <= ms < WindowEnd(k, secs) && k >= 0
  {
    var s := ms / 1000;
    assert s == (s / secs) * secs + s % secs;
  }

  lemma WindowMonotone(a: int, b: int, secs: int)
    requires secs > 0 && 0 <= a <= b
    ensures WindowOf(a, secs) <= WindowOf(b, secs)
  {
    var p, q := WindowOf(a, secs), WindowOf(b, secs);
    WindowBounds(a, secs);
    WindowBounds(b, secs);
    if p >= q + 1 {
      MulMonotone(q + 1, p, secs);
      assert false;
    }
  }

  lemma MulMonotone(p: int, q: int, secs: int)
    requires p <= q && secs > 0
    ensures p * secs <= q * secs
  {
  }

  lemma Snoc(log: seq<Hit>, h: Hit, k: int, secs: int)
    requires secs > 0
    ensures HitsIn(log + [h], k, secs) == HitsIn(log, k, secs) + if WindowOf(h.at, secs) == k then 1 else 0
    ensures AllowedIn(log + [h], k, secs)
         == AllowedIn(log, k, secs) + if WindowOf(h.at, secs) == k && h.allowed then 1 else 0
  {
    assert (log + [h])[..|log + [h]| - 1] == log;
  }

  /** Inside its own window a counter key has not expired: what an increment sees is the number of earlier hits. */
  lemma CounterIsHits(w: World, at: int, limit: nat, secs: int)
    requires secs > 0 && Inv(w, limit, secs) && w.now <= at
    ensures var k := WindowOf(at, secs); Visible(w.counters, k, at) == HitsIn(w.log, k, secs)
  {
    WindowMonotone(w.now, at, secs);
    WindowBounds(at, secs);
  }

  lemma IncrementKeepsInv(w: World, at: int, limit: nat, secs: int)
    requires secs > 0 && Inv(w, limit, secs) && Enabled(w, Increment(at))
    ensures Inv(Next(w, Increment(at), limit, secs), limit, secs)
  {
    var k, v := WindowOf(at, secs), Next(w, Increment(at), limit, secs);
    CounterIsHits(w, at, limit, secs);
    WindowMonotone(w.now, at, secs);
    forall j {
      Snoc(w.log, v.log[|w.log|], j, secs);
    }
    hide WindowOf, HitsIn, AllowedIn, WindowEnd;
    assert v.log == w.log + [v.log[|w.log|]];
  }

  lemma LifetimeKeepsInv(w: World, at: int, window: int, limit: nat, secs: int)
    requires secs > 0 && Inv(w, limit, secs) && Enabled(w, SetLifetime(at, window))
    ensures Inv(Next(w, SetLifetime(at, window), limit, secs), limit, secs)
  {
    WindowMonotone(w.now, at, secs);
    WindowBounds(at, secs);
    hide WindowOf, HitsIn, AllowedIn;
  }

  ghost predicate RunFrom(w: World, actions: seq<Action>, limit: nat, secs: int)
    requires secs > 0
    decreases |actions|
  {
    actions != [] ==> Enabled(w, actions[0]) && RunFrom(Next(w, actions[0], limit, secs), actions[1..], limit, secs)
  }

  function Run(w: World, actions: seq<Action>, limit: nat, secs: int): World
    requires secs > 0
    decreases |actions|
  {
    if actions == [] then w else Run(Next(w, actions[0], limit, secs), actions[1..], limit, secs)
  }

  const START := World(0, map[], [], multiset{})

  lemma {:induction false} RunKeepsInv(w: World, actions: seq<Action>, limit: nat, secs: int)
    requires secs > 0 && Inv(w, limit, secs) && RunFrom(w, actions, limit, secs)
    ensures Inv(Run(w, actions, limit, secs), limit, secs)
    decreases |actions|
  {
    if actions != [] {
      match actions[0] {
        case Increment(at) => IncrementKeepsInv(w, at, limit, secs);
        case SetLifetime(at, window) => LifetimeKeepsInv(w, at, window, limit, secs);
      }
      RunKeepsInv(Next(w, actions[0], limit, secs), actions[1..], limit, secs);
    }
  }

  /** Calls that arrived from `start` on and before `end`. */
  function CallsDuring(log: seq<Hit>, start: int, end: int): nat {
    if log == [] then 0
    else CallsDuring(log[..|log| - 1], start, end) + if start <= log[|log| - 1].at < end then 1 else 0
  }

  /** Those of them that were admitted. */
  function AdmittedDuring(log: seq<Hit>, start: int, end: int): nat {
    if log == [] then 0
    else
      var h := log[|log| - 1];
      AdmittedDuring(log[..|log| - 1], start, end) + if start <= h.at < end && h.allowed then 1 else 0
  }

  lemma WindowIff(ms: int, secs: int, k: int)
    requires secs > 0 && ms >= 0
    ensures WindowOf(ms, secs) == k <==> 1000 * (k * secs) <= ms < 1000 * (k * secs + secs)
  {
    var w := WindowOf(ms, secs);
    WindowBounds(ms, secs);
    if w < k { MulMonotone(w + 1, k, secs); }
    if w > k { MulMonotone(k + 1, w, secs); }
  }

  lemma {:induction false} WindowIsInterval(log: seq<Hit>, window: int, secs: int)
    requires secs > 0 && forall h <- log :: h.at >= 0
    ensures HitsIn(log, window, secs) == CallsDuring(log, 1000 * (window * secs), 1000 * (window * secs + secs))
    ensures AllowedIn(log, window, secs) == AdmittedDuring(log, 1000 * (window * secs), 1000 * (window * secs + secs))
  {
    if log != [] {
      var init := log[..|log| - 1];
      assert forall h <- init :: h in log;
      WindowIsInterval(init, window, secs);
      WindowIff(log[|log| - 1].at, secs, window);
      hide WindowOf;
    }
  }

  /** In every aligned window of `secs` seconds exactly the first `limit` calls pass, however the commands
      interleave. */
  lemma WindowAdmitsExactlyLimit(actions: seq<Action>, limit: nat, secs: int, window: int)
    requires secs > 0 && RunFrom(START, actions, limit, secs)
    ensures var log := Run(START, actions, limit, secs).log;
      var calls := CallsDuring(log, 1000 * (window * secs), 1000 * (window * secs + secs));
      AdmittedDuring(log, 1000 * (window * secs), 1000 * (window * secs + secs))
        == (if calls < limit then calls else limit)
  {
    RunKeepsInv(START, actions, limit, secs);
    WindowIsInterval(Run(START, actions, limit, secs).log, window, secs);
  }

  lemma TwoWindowsCover(at: int, start: int, secs: int)
    requires secs > 0 && 0 <= start <= at < start + 1000 * secs
    ensures WindowOf(at, secs) == WindowOf(start, secs) || WindowOf(at, secs) == WindowOf(start, secs) + 1
  {
    var p, q := WindowOf(start, secs), WindowOf(at, secs);
    WindowMonotone(start, at, secs);
    WindowBounds(start, secs);
    WindowBounds(at, secs);
    assert (p + 2) * secs == p * secs + secs + secs;
    if q >= p + 2 {
      MulMonotone(p + 2, q, secs);
      assert false;
    }
  }

  lemma {:induction false} IntervalIsCovered(log: seq<Hit>, start: int, secs: int)
    requires secs > 0 && start >= 0
    ensures AdmittedDuring(log, start, start + 1000 * secs)
         <= AllowedIn(log, WindowOf(start, secs), secs) + AllowedIn(log, WindowOf(start, secs) + 1, secs)
  {
    if log != [] {
      var h := log[|log| - 1];
      IntervalIsCovered(log[..|log| - 1], start, secs);
      if start <= h.at < start + 1000 * secs { TwoWindowsCover(h.at, start, secs); }
      hide WindowOf;
    }
  }

  /** Any stretch of one window length, aligned or not, admits at most twice the limit. */
  lemma AnyIntervalAdmitsAtMostTwice(actions: seq<Action>, limit: nat, secs: int, start: int)
    requires secs > 0 && start >= 0 && RunFrom(START, actions, limit, secs)
    ensures AdmittedDuring(Run(START, actions, limit, secs).log, start, start + 1000 * secs) <= 2 * limit
  {
    RunKeepsInv(START, actions, limit, secs);
    IntervalIsCovered(Run(START, actions, limit, secs).log, start, secs);
  }
}
