/**
 The process-local sliding-window limiter. Each key keeps a pruned deque of
 admitted times; the reference keeps the full history of admitted calls.
 */
module RateLimiting {

  type Times = seq<real>

  // ---- one call on one key ----

  /** Drops calls from the left as long as they are outside the window. */
  method Prune(events: Times, cutoff: real) returns (kept: Times)
    ensures kept == Pruned(events, cutoff)
  {
    kept := events;
    while kept != [] && kept[0] <= cutoff
      invariant Pruned(kept, cutoff) == Pruned(events, cutoff)
      decreases |kept|
    {
      kept := kept[1..];
    }
  }

  function Pruned(events: Times, cutoff: real): Times {
    if events != [] && events[0] <= cutoff then Pruned(events[1..], cutoff) else events
  }

  function AtLeastOne(limit: int): (l: nat)
    ensures l >= 1
  {
    if limit < 1 then 1 else limit
  }

  datatype Answer = Answer(events: Times, admitted: bool, retryAfter: int)

  function Call(events: Times, now: real, limit: int, window: real): Answer {
    var kept := Pruned(events, now - window);
    if |kept| >= AtLeastOne(limit) then
      var wait := (kept[0] + window - now + 0.999).Floor;
      Answer(kept, false, if wait < 1 then 1 else wait)
    else Answer(kept + [now], true, 0)
  }

  // ---- the full history ----

  function Recent(history: Times, cutoff: real): Times {
    if history == [] then []
    else
      var last := history[|history| - 1];
      Recent(history[..|history| - 1], cutoff) + if last > cutoff then [last] else []
  }

  predicate Ascending(ts: Times) {
    forall i, j :: 0 <= i < j < |ts| ==> ts[i] <= ts[j]
  }

  /** The deque and the admitted history after a sequence of calls on one key. */
  function Deque(calls: Times, limit: int, window: real): Times {
    if calls == [] then []
    else Call(Deque(calls[..|calls| - 1], limit, window), calls[|calls| - 1], limit, window).events
  }

  predicate Admits(history: Times, now: real, limit: int, window: real) {
    |Recent(history, now - window)| < AtLeastOne(limit)
  }

  function History(calls: Times, limit: int, window: real): Times {
    if calls == [] then []
    else
      var before, now := History(calls[..|calls| - 1], limit, window), calls[|calls| - 1];
      if Admits(before, now, limit, window) then before + [now] else before
  }

  lemma {:induction false} RecentAppend(a: Times, x: real, cutoff: real)
    ensures Recent(a + [x], cutoff) == Recent(a, cutoff) + if x > cutoff then [x] else []
  {
    assert (a + [x])[..|a|] == a;
  }

  lemma {:induction false} RecentOfRecent(h: Times, c: real, d: real)
    requires c <= d
    ensures Recent(Recent(h, c), d) == Recent(h, d)
  {
    if h != [] {
      var front, last := h[..|h| - 1], h[|h| - 1];
      RecentOfRecent(front, c, d);
      if last > c {
        RecentAppend(Recent(front, c), last, d);
      } else {
        assert Recent(h, c) == Recent(front, c) && Recent(h, d) == Recent(front, d);
      }
    }
  }

  lemma {:induction false} RecentShrinks(h: Times, c: real, d: real)
    requires c <= d
    ensures |Recent(h, d)| <= |Recent(h, c)|
  {
    if h != [] {
      RecentShrinks(h[..|h| - 1], c, d);
    }
  }

  lemma {:induction false} AllRecent(h: Times, cutoff: real)
    requires forall i :: 0 <= i < |h| ==> h[i] > cutoff
    ensures Recent(h, cutoff) == h
  {
    if h != [] {
      AllRecent(h[..|h| - 1], cutoff);
      assert h == h[..|h| - 1] + [h[|h| - 1]];
    }
  }

  lemma {:induction false} DropOld(h: Times, cutoff: real)
    requires h != [] && h[0] <= cutoff
    ensures Recent(h, cutoff) == Recent(h[1..], cutoff)
  {
    if |h| > 1 {
      var front := h[..|h| - 1];
      DropOld(front, cutoff);
      assert front[1..] == h[1..][..|h| - 2];
    }
  }

  /** Popping from the left is filtering, because the deque is in time order. */
  lemma {:induction false} PrunedIsRecent(events: Times, cutoff: real)
    requires Ascending(events)
    ensures Pruned(events, cutoff) == Recent(events, cutoff) && Ascending(Pruned(events, cutoff))
    ensures forall i :: 0 <= i < |Pruned(events, cutoff)| ==> Pruned(events, cutoff)[i] > cutoff && Pruned(events, cutoff)[i] in events
  {
    hide Recent;
    if events != [] && events[0] <= cutoff {
      DropOld(events, cutoff);
      PrunedIsRecent(events[1..], cutoff);
    } else {
      AllRecent(events, cutoff);
    }
  }

  // ---- pruned deque and full history agree ----

  ghost predicate Agree(deque: Times, history: Times, cutoff: real) {
    forall c :: c >= cutoff ==> Recent(deque, c) == Recent(history, c)
  }

  ghost predicate UpTo(ts: Times, now: real) {
    Ascending(ts) && forall i :: 0 <= i < |ts| ==> ts[i] <= now
  }

  lemma AgreeStep(deque: Times, history: Times, cutoff: real, now: real, limit: int, window: real)
    requires Agree(deque, history, cutoff) && cutoff <= now - window && UpTo(deque, now)
    ensures Call(deque, now, limit, window).admitted <==> Admits(history, now, limit, window)
    ensures Agree(Call(deque, now, limit, window).events,
                  if Admits(history, now, limit, window) then history + [now] else history, now - window)
    ensures UpTo(Call(deque, now, limit, window).events, now)
    ensures |deque| <= AtLeastOne(limit) ==> |Call(deque, now, limit, window).events| <= AtLeastOne(limit)
  {
    hide Recent, Pruned;
    var cut := now - window;
    PrunedIsRecent(deque, cut);
    var kept := Pruned(deque, cut);
    assert kept == Recent(deque, cut) == Recent(history, cut);
    assert UpTo(kept, now) && UpTo(kept + [now], now);
    KeptAgrees(kept, history, cut, now);
    PrunedShorter(deque, cut);
  }

  lemma KeptAgrees(kept: Times, history: Times, cut: real, now: real)
    requires kept == Recent(history, cut)
    ensures Agree(kept, history, cut) && Agree(kept + [now], history + [now], cut)
  {
    forall c | c >= cut
      ensures Recent(kept, c) == Recent(history, c) && Recent(kept + [now], c) == Recent(history + [now], c)
    {
      RecentOfRecent(history, cut, c);
      RecentAppend(kept, now, c);
      RecentAppend(history, now, c);
    }
  }

  lemma {:induction false} PrunedShorter(events: Times, cutoff: real)
    ensures |Pruned(events, cutoff)| <= |events|
  {
    if events != [] && events[0] <= cutoff {
      PrunedShorter(events[1..], cutoff);
    }
  }

  /** After any calls with a clock that never goes back, the deque still answers for the whole history. */
  lemma {:induction false} DequeAgrees(calls: Times, limit: int, window: real, now: real)
    requires UpTo(calls, now)
    ensures Agree(Deque(calls, limit, window), History(calls, limit, window), now - window)
    ensures UpTo(Deque(calls, limit, window), now) && |Deque(calls, limit, window)| <= AtLeastOne(limit)
  {
    if calls != [] {
      var before, last := calls[..|calls| - 1], calls[|calls| - 1];
      DequeAgrees(before, limit, window, last);
      AgreeStep(Deque(before, limit, window), History(before, limit, window), last - window, last, limit, window);
    }
  }

  /** Which entries of a history lie in the window that ends there. */
  ghost function Inside(history: Times, end: real, window: real): set<nat> {
    set i: nat | i < |history| && end - window < history[i] <= end
  }

  /** Every call is decided exactly as the full history of admitted calls would decide it. */
  lemma DecidesAsHistory(calls: Times, now: real, limit: int, window: real)
    requires UpTo(calls, now)
    ensures Call(Deque(calls, limit, window), now, limit, window).admitted <==>
              Admits(History(calls, limit, window), now, limit, window)
    ensures Call(Deque(calls, limit, window), now, limit, window).admitted <==>
              |Inside(History(calls, limit, window), now, window)| < if limit <= 1 then 1 else limit
  {
    HistoryUpTo(calls, limit, window, now);
    WindowIsRecent(History(calls, limit, window), now, window);
    InWindowCounts(History(calls, limit, window), now, window);
    DequeAgrees(calls, limit, window, now);
    AgreeStep(Deque(calls, limit, window), History(calls, limit, window), now - window, now, limit, window);
  }

  // ---- no window admits more than the limit ----

  function InWindow(history: Times, end: real, window: real): Times {
    if history == [] then []
    else
      var last := history[|history| - 1];
      InWindow(history[..|history| - 1], end, window) + if end - window < last <= end then [last] else []
  }

  lemma {:induction false} WindowIsRecent(history: Times, end: real, window: real)
    requires forall i :: 0 <= i < |history| ==> history[i] <= end
    ensures InWindow(history, end, window) == Recent(history, end - window)
  {
    if history != [] {
      WindowIsRecent(history[..|history| - 1], end, window);
    }
  }

  lemma {:induction false} InWindowCounts(history: Times, end: real, window: real)
    ensures |InWindow(history, end, window)| == |Inside(history, end, window)|
  {
    if history != [] {
      var n := |history| - 1;
      InWindowCounts(history[..n], end, window);
      var front := Inside(history[..n], end, window);
      assert Inside(history, end, window) == if end - window < history[n] <= end then front + {n} else front;
    }
  }

  lemma {:induction false} HistoryUpTo(calls: Times, limit: int, window: real, now: real)
    requires UpTo(calls, now)
    ensures forall i :: 0 <= i < |History(calls, limit, window)| ==> History(calls, limit, window)[i] <= now
  {
    if calls != [] {
      HistoryUpTo(calls[..|calls| - 1], limit, window, calls[|calls| - 1]);
    }
  }

  lemma {:induction false} WindowBounded(calls: Times, limit: int, window: real, end: real)
    requires Ascending(calls)
    ensures |InWindow(History(calls, limit, window), end, window)| <= AtLeastOne(limit)
  {
    if calls != [] {
      var before, now := calls[..|calls| - 1], calls[|calls| - 1];
      var h := History(before, limit, window);
      WindowBounded(before, limit, window, end);
      if Admits(h, now, limit, window) && end - window < now <= end {
        HistoryUpTo(before, limit, window, now);
        assert (h + [now])[..|h|] == h;
        WindowIsRecent(h + [now], end, window);
        RecentAppend(h, now, end - window);
        RecentShrinks(h, now - window, end - window);
      } else if Admits(h, now, limit, window) {
        assert (h + [now])[..|h|] == h;
      }
    }
  }

  /** The same, counting entries. */
  lemma NoWindowExceedsTheLimit(calls: Times, limit: int, window: real, end: real)
    requires Ascending(calls)
    ensures |Inside(History(calls, limit, window), end, window)| <= if limit <= 1 then 1 else limit
  {
    WindowBounded(calls, limit, window, end);
    InWindowCounts(History(calls, limit, window), end, window);
  }

  // ---- retry_after ----

  /**
   After a refusal at the limit, a later call with nothing in between is admitted
   exactly once the oldest kept call has left the window; waiting retry_after
   seconds and one millisecond is always enough.
   */
  lemma RetryAfterSuffices(events: Times, now: real, later: real, limit: int, window: real)
    requires UpTo(events, now) && now <= later && |events| <= AtLeastOne(limit)
    requires !Call(events, now, limit, window).admitted
    ensures var refused := Call(events, now, limit, window);
      && refused.events != []
      && (Call(refused.events, later, limit, window).admitted <==> later >= refused.events[0] + window)
      && (later >= now + refused.retryAfter as real + 0.001 ==> Call(refused.events, later, limit, window).admitted)
  {
    var kept := Call(events, now, limit, window).events;
    PrunedShorter(events, now - window);
    PrunedIsRecent(events, now - window);
    PrunedShorter(kept[1..], later - window);
  }

  /** Nor is it too long: unless it is the least answer of one second, any call a whole second earlier is refused. */
  lemma RetryAfterIsTight(events: Times, now: real, later: real, limit: int, window: real)
    requires UpTo(events, now) && now <= later && |events| <= AtLeastOne(limit)
    requires !Call(events, now, limit, window).admitted
    ensures var refused := Call(events, now, limit, window);
      && refused.retryAfter >= 1
      && (refused.retryAfter > 1 && later < now + refused.retryAfter as real - 0.999 ==>
            !Call(refused.events, later, limit, window).admitted)
  {
    RetryAfterSuffices(events, now, later, limit, window);
  }

  /** One millisecond matters: waiting exactly retry_after can still be too early. */
  lemma RetryAfterAloneIsNotEnough()
    ensures var refused := Call([0.0], 0.9995, 1, 60.0);
      && !refused.admitted && refused.retryAfter == 59
      && !Call(refused.events, 0.9995 + 59.0, 1, 60.0).admitted
  {
    assert Pruned([0.0], 0.9995 - 60.0) == [0.0];
    assert (0.0 + 60.0 - 0.9995 + 0.999).Floor == 59;
    assert Pruned([0.0], 0.9995 + 59.0 - 60.0) == [0.0];
  }

  // ---- all keys together ----

  type Key = (string, string)

  const MAX_KEYS := 10_000

  class RateLimiter {
    var events: map<Key, Times>

    ghost predicate Valid()
      reads this
    {
      |events| <= MAX_KEYS && forall k :: k in events ==> events[k] != []
    }

    constructor ()
      ensures Valid() && events == map[]
    {
      events := map[];
    }

    function DequeOf(key: Key): Times
      reads this
    {
      DequeIn(events, key)
    }

    /**
     Answers for one key and, when an admission takes the table over its limit,
     forgets one other key whose latest call is the oldest.
     */
    method Allow(key: Key, limit: int, window: real, now: real) returns (admitted: bool, retryAfter: int)
      requires Valid()
      modifies this
      ensures Valid() && key in events && |events| <= 10_000
      ensures if admitted then retryAfter == 0 && events[key][|events[key]| - 1] == now else retryAfter >= 1
      ensures Answer(events[key], admitted, retryAfter) == Call(old(DequeOf(key)), now, limit, window)
      ensures events == old(events)[key := events[key]] ||
              (admitted && |old(events)| == 10_000 && key !in old(events) &&
               ForgetsOne(old(events)[key := events[key]], key, events))
      ensures TableStep(old(events), AllowCall(key, limit, window, now), events)
    {
      hide Pruned, ForgetsOldest;
      var kept := Prune(DequeOf(key), now - window);
      PrunedShorter(DequeOf(key), now - window);
      if |kept| >= AtLeastOne(limit) {
        events := events[key := kept];
        var wait := (kept[0] + window - now + 0.999).Floor;
        return false, if wait < 1 then 1 else wait;
      }
      var table := events[key := kept + [now]];
      admitted, retryAfter := true, 0;
      if |table| > MAX_KEYS {
        var oldest := OldestOther(table, key);
        events := map k | k in table && k != oldest :: table[k];
        Forgotten(table, key, oldest, events);
      } else {
        events := table;
      }
    }
  }

  /** The table without one other key, whose latest call is no later than that of any key kept. */
  ghost predicate ForgetsOldest(table: map<Key, Times>, key: Key, oldest: Key, left: map<Key, Times>) {
    && oldest in table && oldest != key && left == (map k | k in table && k != oldest :: table[k])
    && table[oldest] != []
    && forall k :: k in left && k != key ==> left[k] != [] && LatestCall(table, oldest) <= LatestCall(left, k)
  }

  ghost predicate ForgetsOne(table: map<Key, Times>, key: Key, left: map<Key, Times>) {
    exists oldest :: ForgetsOldest(table, key, oldest, left)
  }

  lemma Forgotten(table: map<Key, Times>, key: Key, oldest: Key, left: map<Key, Times>)
    requires forall k :: k in table ==> table[k] != []
    requires oldest in table && oldest != key && left == map k | k in table && k != oldest :: table[k]
    requires forall k :: k in table && k != key ==> LatestCall(table, oldest) <= LatestCall(table, k)
    ensures ForgetsOldest(table, key, oldest, left) && |left| == |table| - 1
    ensures key in table ==> key in left && left[key] == table[key]
    ensures forall k :: k in left ==> left[k] != []
  {
    assert left.Keys == table.Keys - {oldest};
    assert |left.Keys| == |left| && |table.Keys| == |table|;
  }

  function LatestCall(events: map<Key, Times>, k: Key): real
    requires k in events && events[k] != []
  {
    events[k][|events[k]| - 1]
  }

  method OldestOther(events: map<Key, Times>, key: Key) returns (oldest: Key)
    requires (forall k :: k in events ==> events[k] != []) && |events| > 1
    ensures oldest in events && oldest != key
    ensures forall k :: k in events && k != key ==> LatestCall(events, oldest) <= LatestCall(events, k)
  {
    var rest := events.Keys - {key};
    assert rest != {} by {
      assert |events.Keys| == |events|;
      if rest == {} {
        assert events.Keys <= {key};
        Subset(events.Keys, {key});
      }
    }
    oldest :| oldest in rest;
    rest := rest - {oldest};
    while rest != {}
      invariant oldest in events && oldest != key && rest <= events.Keys - {key}
      invariant forall k :: k in events && k != key && k !in rest ==> LatestCall(events, oldest) <= LatestCall(events, k)
      decreases rest
    {
      var k :| k in rest;
      if LatestCall(events, k) < LatestCall(events, oldest) {
        oldest := k;
      }
      rest := rest - {k};
    }
  }

  lemma Subset(a: set<Key>, b: set<Key>)
    requires a <= b
    ensures |a| <= |b|
  {
    assert b == a + (b - a);
  }

  // ---- runs of calls on all keys, with evictions ----

  type Table = map<Key, Times>

  datatype AllowCall = AllowCall(key: Key, limit: int, window: real, now: real)

  function DequeIn(t: Table, k: Key): Times {
    if k in t then t[k] else []
  }

  /** The key is answered; every other key keeps its deque or is forgotten. */
  ghost predicate TableStep(t: Table, c: AllowCall, u: Table) {
    && c.key in u && u[c.key] == Call(DequeIn(t, c.key), c.now, c.limit, c.window).events
    && forall k :: k in u && k != c.key ==> k in t && u[k] == t[k]
  }

  ghost predicate IsRun(ts: seq<Table>, cs: seq<AllowCall>) {
    && |ts| == |cs| + 1 && ts[0] == map[]
    && (forall i :: 0 <= i < |cs| ==> TableStep(ts[i], cs[i], ts[i + 1]))
    && (forall i, j :: 0 <= i < j < |cs| ==> cs[i].now <= cs[j].now)
  }

  /** Every call on this key uses this limit and window; other keys may use any. */
  ghost predicate Fixed(cs: seq<AllowCall>, k: Key, limit: int, window: real) {
    forall i :: 0 <= i < |cs| && cs[i].key == k ==> cs[i].limit == limit && cs[i].window == window
  }

  predicate Evicted(ts: seq<Table>, k: Key, i: nat)
    requires i + 1 < |ts|
  {
    k in ts[i] && k !in ts[i + 1]
  }

  function Evictions(ts: seq<Table>, k: Key, n: nat): nat
    requires n < |ts|
  {
    if n == 0 then 0 else Evictions(ts, k, n - 1) + if Evicted(ts, k, n - 1) then 1 else 0
  }

  function CallsOn(cs: seq<AllowCall>, k: Key, n: nat): Times
    requires n <= |cs|
  {
    if n == 0 then [] else CallsOn(cs, k, n - 1) + if cs[n - 1].key == k then [cs[n - 1].now] else []
  }

  /** The calls on the key since it was last evicted. */
  function Since(ts: seq<Table>, cs: seq<AllowCall>, k: Key, n: nat): Times
    requires n <= |cs| && |ts| == |cs| + 1
  {
    if n == 0 then []
    else if cs[n - 1].key == k then Since(ts, cs, k, n - 1) + [cs[n - 1].now]
    else if k in ts[n] then Since(ts, cs, k, n - 1)
    else []
  }

  /** The calls on the key that were admitted. */
  function Admitted(ts: seq<Table>, cs: seq<AllowCall>, k: Key, n: nat): Times
    requires n <= |cs| && |ts| == |cs| + 1
  {
    if n == 0 then []
    else
      var c := cs[n - 1];
      var before := Admitted(ts, cs, k, n - 1);
      if c.key == k && Call(DequeIn(ts[n - 1], k), c.now, c.limit, c.window).admitted then before + [c.now] else before
  }

  /** Those admitted before the last eviction. */
  function Forgone(ts: seq<Table>, cs: seq<AllowCall>, k: Key, limit: int, window: real, n: nat): Times
    requires n <= |cs| && |ts| == |cs| + 1
  {
    if n == 0 then []
    else
      var earlier := Forgone(ts, cs, k, limit, window, n - 1);
      if Evicted(ts, k, n - 1) then earlier + History(Since(ts, cs, k, n - 1), limit, window) else earlier
  }

  lemma DequeAppend(calls: Times, now: real, limit: int, window: real)
    ensures Deque(calls + [now], limit, window) == Call(Deque(calls, limit, window), now, limit, window).events
    ensures History(calls + [now], limit, window) == History(calls, limit, window) +
      if Admits(History(calls, limit, window), now, limit, window) then [now] else []
  {
    assert (calls + [now])[..|calls|] == calls;
  }

  /** In every run the key's deque is what its own calls since its last eviction make it. */
  lemma {:induction false} DequeInRun(ts: seq<Table>, cs: seq<AllowCall>, k: Key, limit: int, window: real, n: nat)
    requires IsRun(ts, cs) && Fixed(cs, k, limit, window) && n <= |cs|
    ensures DequeIn(ts[n], k) == Deque(Since(ts, cs, k, n), limit, window)
    ensures k !in ts[n] ==> Since(ts, cs, k, n) == []
    ensures Evictions(ts, k, n) == 0 ==> Since(ts, cs, k, n) == CallsOn(cs, k, n)
    decreases n
  {
    hide Call;
    if n > 0 {
      DequeInRun(ts, cs, k, limit, window, n - 1);
      assert TableStep(ts[n - 1], cs[n - 1], ts[n]);
      if cs[n - 1].key == k {
        DequeAppend(Since(ts, cs, k, n - 1), cs[n - 1].now, limit, window);
      }
    }
  }

  lemma {:induction false} SinceUpTo(ts: seq<Table>, cs: seq<AllowCall>, k: Key, n: nat, now: real)
    requires IsRun(ts, cs) && n <= |cs| && forall i :: 0 <= i < n ==> cs[i].now <= now
    ensures UpTo(Since(ts, cs, k, n), now)
    decreases n
  {
    hide TableStep;
    if n > 0 {
      SinceUpTo(ts, cs, k, n - 1, cs[n - 1].now);
    }
  }

  ghost predicate Splits(ts: seq<Table>, cs: seq<AllowCall>, k: Key, limit: int, window: real, n: nat)
    requires n <= |cs| && |ts| == |cs| + 1
  {
    Admitted(ts, cs, k, n) == Forgone(ts, cs, k, limit, window, n) + History(Since(ts, cs, k, n), limit, window)
  }

  lemma {:induction false} AdmittedSplits(ts: seq<Table>, cs: seq<AllowCall>, k: Key, limit: int, window: real, n: nat)
    requires IsRun(ts, cs) && Fixed(cs, k, limit, window) && n <= |cs|
    ensures Splits(ts, cs, k, limit, window, n)
    decreases n
  {
    if n == 0 {
      NoHistory(limit, window);
    } else {
      assert |ts| == |cs| + 1;
      hide IsRun, Fixed, Splits;
      AdmittedSplits(ts, cs, k, limit, window, n - 1);
      if cs[n - 1].key == k {
        AdmittedSplitsNext(ts, cs, k, limit, window, n - 1);
      } else {
        AdmittedSplitsOther(ts, cs, k, limit, window, n - 1);
      }
    }
  }

  lemma AdmittedSplitsOther(ts: seq<Table>, cs: seq<AllowCall>, k: Key, limit: int, window: real, n: nat)
    requires IsRun(ts, cs) && Fixed(cs, k, limit, window) && n < |cs| && cs[n].key != k
    requires Splits(ts, cs, k, limit, window, n)
    ensures Splits(ts, cs, k, limit, window, n + 1)
  {
    var earlier, recent := Forgone(ts, cs, k, limit, window, n), History(Since(ts, cs, k, n), limit, window);
    assert Admitted(ts, cs, k, n + 1) == earlier + recent;
    DequeInRun(ts, cs, k, limit, window, n);
    NoHistory(limit, window);
    hide IsRun, Fixed, History, Admitted, Call, Deque, DequeIn;
    if Evicted(ts, k, n) {
      assert Since(ts, cs, k, n + 1) == [] && Forgone(ts, cs, k, limit, window, n + 1) == earlier + recent;
      assert (earlier + recent) + [] == earlier + recent;
    } else {
      assert Since(ts, cs, k, n + 1) == Since(ts, cs, k, n) && Forgone(ts, cs, k, limit, window, n + 1) == earlier;
    }
  }

  lemma AdmittedSplitsNext(ts: seq<Table>, cs: seq<AllowCall>, k: Key, limit: int, window: real, n: nat)
    requires IsRun(ts, cs) && Fixed(cs, k, limit, window) && n < |cs| && cs[n].key == k
    requires Splits(ts, cs, k, limit, window, n)
    ensures Splits(ts, cs, k, limit, window, n + 1)
  {
    var more := AdmittedNext(ts, cs, k, limit, window, n);
    var earlier, recent := Forgone(ts, cs, k, limit, window, n), History(Since(ts, cs, k, n), limit, window);
    assert Forgone(ts, cs, k, limit, window, n + 1) == earlier;
    hide IsRun, Fixed, Forgone, Since, History, Admitted;
    assert (earlier + recent) + more == earlier + (recent + more);
  }

  lemma NoHistory(limit: int, window: real)
    ensures History([], limit, window) == []
  {
  }

  lemma AdmittedNext(ts: seq<Table>, cs: seq<AllowCall>, k: Key, limit: int, window: real, n: nat) returns (more: Times)
    requires IsRun(ts, cs) && Fixed(cs, k, limit, window) && n < |cs| && cs[n].key == k
    ensures Admitted(ts, cs, k, n + 1) == Admitted(ts, cs, k, n) + more && !Evicted(ts, k, n)
    ensures History(Since(ts, cs, k, n + 1), limit, window) == History(Since(ts, cs, k, n), limit, window) + more
  {
    hide Call, Admits, TableStep;
    var c, before := cs[n], Since(ts, cs, k, n);
    DequeInRun(ts, cs, k, limit, window, n);
    SinceUpTo(ts, cs, k, n, c.now);
    DecidesAsHistory(before, c.now, limit, window);
    DequeAppend(before, c.now, limit, window);
    AnsweredStays(ts, cs, n);
    more := if Admits(History(before, limit, window), c.now, limit, window) then [c.now] else [];
  }

  lemma AnsweredStays(ts: seq<Table>, cs: seq<AllowCall>, i: nat)
    requires IsRun(ts, cs) && i < |cs|
    ensures cs[i].key in ts[i + 1]
  {
    assert TableStep(ts[i], cs[i], ts[i + 1]);
  }

  lemma {:induction false} InWindowAppend(a: Times, b: Times, end: real, window: real)
    ensures InWindow(a + b, end, window) == InWindow(a, end, window) + InWindow(b, end, window)
  {
    if b == [] {
      assert a + b == a;
    } else {
      assert (a + b)[..|a + b| - 1] == a + b[..|b| - 1];
      InWindowAppend(a, b[..|b| - 1], end, window);
    }
  }

  lemma {:induction false} ForgoneBounded(
    ts: seq<Table>, cs: seq<AllowCall>, k: Key, limit: int, window: real, n: nat, end: real)
    requires IsRun(ts, cs) && n <= |cs|
    ensures |InWindow(Forgone(ts, cs, k, limit, window, n), end, window)| <= Allowance(Evictions(ts, k, n), limit)
    decreases n
  {
    assert |ts| == |cs| + 1;
    hide IsRun, History, InWindow, Since, Allowance;
    NoAllowance(limit, end, window);
    if n > 0 {
      ForgoneBounded(ts, cs, k, limit, window, n - 1, end);
      if Evicted(ts, k, n - 1) {
        ForgoneNext(ts, cs, k, limit, window, n - 1, end);
      }
    }
  }

  lemma ForgoneNext(ts: seq<Table>, cs: seq<AllowCall>, k: Key, limit: int, window: real, n: nat, end: real)
    requires IsRun(ts, cs) && n < |cs| && Evicted(ts, k, n)
    requires |InWindow(Forgone(ts, cs, k, limit, window, n), end, window)| <= Allowance(Evictions(ts, k, n), limit)
    ensures |InWindow(Forgone(ts, cs, k, limit, window, n + 1), end, window)| <= Allowance(Evictions(ts, k, n + 1), limit)
  {
    var earlier, evictions := Forgone(ts, cs, k, limit, window, n), Evictions(ts, k, n);
    var lost := History(Since(ts, cs, k, n), limit, window);
    assert Forgone(ts, cs, k, limit, window, n + 1) == earlier + lost;
    assert Evictions(ts, k, n + 1) == evictions + 1;
    SegmentBounded(ts, cs, k, limit, window, n, end);
    hide IsRun, History, InWindow, Since, Allowance, Forgone, Evictions;
    InWindowAppend(earlier, lost, end, window);
    OneMore(evictions, limit, |InWindow(earlier, end, window)|, |InWindow(lost, end, window)|);
  }

  lemma SegmentBounded(ts: seq<Table>, cs: seq<AllowCall>, k: Key, limit: int, window: real, n: nat, end: real)
    requires IsRun(ts, cs) && n <= |cs|
    ensures |InWindow(History(Since(ts, cs, k, n), limit, window), end, window)| <= AtLeastOne(limit)
  {
    SinceUpTo(ts, cs, k, n, if n == 0 then 0.0 else cs[n - 1].now);
    WindowBounded(Since(ts, cs, k, n), limit, window, end);
  }

  /** So many times the limit. */
  function Allowance(times: nat, limit: int): nat {
    times * AtLeastOne(limit)
  }

  lemma AllowanceIs(times: nat, limit: int)
    ensures Allowance(times, limit) == times * if limit <= 1 then 1 else limit
  {
  }

  lemma OneMore(times: nat, limit: int, x: nat, y: nat)
    requires x <= Allowance(times, limit) && y <= AtLeastOne(limit)
    ensures x + y <= Allowance(times + 1, limit)
  {
  }

  lemma NoAllowance(limit: int, end: real, window: real)
    ensures Allowance(0, limit) == 0 && InWindow([], end, window) == []
  {
  }

  /**
   In every run of calls on any keys, no window admits more calls on a key than its
   limit, plus one limit for each time the key was evicted.
   */
  lemma WindowUnderEviction(
    ts: seq<Table>, cs: seq<AllowCall>, k: Key, limit: int, window: real, n: nat, end: real)
    requires IsRun(ts, cs) && Fixed(cs, k, limit, window) && n <= |cs|
    ensures |InWindow(Admitted(ts, cs, k, n), end, window)| <= Allowance(Evictions(ts, k, n) + 1, limit)
    ensures |Inside(Admitted(ts, cs, k, n), end, window)| <= (Evictions(ts, k, n) + 1) * if limit <= 1 then 1 else limit
  {
    InWindowCounts(Admitted(ts, cs, k, n), end, window);
    AllowanceIs(Evictions(ts, k, n) + 1, limit);
    assert |ts| == |cs| + 1;
    hide IsRun, Fixed, History, InWindow, Since, Forgone, Evictions, Allowance;
    var earlier, recent := Forgone(ts, cs, k, limit, window, n), History(Since(ts, cs, k, n), limit, window);
    AdmittedSplits(ts, cs, k, limit, window, n);
    ForgoneBounded(ts, cs, k, limit, window, n, end);
    SegmentBounded(ts, cs, k, limit, window, n, end);
    InWindowAppend(earlier, recent, end, window);
    OneMore(Evictions(ts, k, n), limit, |InWindow(earlier, end, window)|, |InWindow(recent, end, window)|);
  }
}
