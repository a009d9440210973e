/**
  The two shared rate limiters, each one script that runs by itself in the key-value store.

  A key with an expiry can be seen up to that time and no longer. Giving a key no
  time to live deletes it. Times are milliseconds of one clock.
 */
module RedisLimiters {
  import opened Basics
  import opened Options

  /** The sorted set of a sliding window: the times admitted, each one both member and score. */
  datatype Zset = Zset(stamps: set<int>, expiry: int)

  datatype Counter = Counter(count: int, expiry: int)

  function At<V>(m: map<string, V>, key: string): Option<V> {
    if key in m then Some(m[key]) else None
  }

  function Stamps(z: Option<Zset>, now: int): set<int> {
    if z.Some? && now <= z.value.expiry then z.value.stamps else {}
  }

  function Count(c: Option<Counter>, now: int): int {
    if c.Some? && now <= c.value.expiry then c.value.count else 0
  }

  /** The scores from zero to `max` taken out. */
  function Trimmed(stamps: set<int>, max: int): set<int> {
    set s | s in stamps && !(0 <= s <= max)
  }

  /** One call to the sliding window limiter: what becomes of its key, and the answer. */
  function Slide(z: Option<Zset>, now: int, windowMs: nat, limit: nat): (Option<Zset>, bool) {
    var kept := Trimmed(Stamps(z, now), now - windowMs);
    if |kept| < limit then
      (if windowMs > 0 then Some(Zset(kept + {now}, now + windowMs)) else None, true)
    else
      (if kept == {} then None else Some(Zset(kept, z.value.expiry)), false)
  }

  /** One call to the fixed window limiter. */
  function Spend(c: Option<Counter>, now: int, windowSeconds: nat, limit: nat, cost: nat): (Option<Counter>, bool) {
    var current := Count(c, now);
    if current + cost <= limit then
      (if windowSeconds > 0 then Some(Counter(current + cost, now + windowSeconds * 1000)) else None, true)
    else
      (if c.Some? && now <= c.value.expiry then c else None, false)
  }

  /** Only the entry of `key` may differ. */
  ghost predicate OthersKept<V>(key: string, before: map<string, V>, after: map<string, V>) {
    forall k :: k != key ==> At(after, k) == At(before, k)
  }

  class RedisStore {
    var zsets: map<string, Zset>
    var counters: map<string, Counter>

    constructor ()
      ensures zsets == map[] && counters == map[]
    {
      zsets, counters := map[], map[];
    }

    method AllowSlidingWindow(key: string, windowMs: nat, limit: nat, now: int) returns (allowed: bool)
      modifies this`zsets
      ensures (At(zsets, key), allowed) == Slide(At(old(zsets), key), now, windowMs, limit)
      ensures OthersKept(key, old(zsets), zsets)
    {
      var current := RemoveUpTo(key, now - windowMs, now);
      if |current| >= limit {
        return false;
      }
      if windowMs > 0 {
        zsets := zsets[key := Zset(current + {now}, now + windowMs)];
      } else {
        zsets := zsets - {key};
      }
      return true;
    }

    /** Takes the scores from zero to `max` out of the set, and gives what is left. */
    method RemoveUpTo(key: string, max: int, now: int) returns (left: set<int>)
      modifies this`zsets
      ensures left == Trimmed(Stamps(At(old(zsets), key), now), max)
      ensures At(zsets, key) == if left == {} then None else Some(Zset(left, old(zsets)[key].expiry))
      ensures OthersKept(key, old(zsets), zsets)
    {
      if key !in zsets || now > zsets[key].expiry {
        zsets := zsets - {key};
        return {};
      }
      left := Trimmed(zsets[key].stamps, max);
      zsets := if left == {} then zsets - {key} else zsets[key := zsets[key].(stamps := left)];
    }

    method AllowFixedWindow(key: string, windowSeconds: nat, limit: nat, cost: nat, now: int) returns (allowed: bool)
      modifies this`counters
      ensures (At(counters, key), allowed) == Spend(At(old(counters), key), now, windowSeconds, limit, cost)
      ensures OthersKept(key, old(counters), counters)
    {
      if key in counters && now > counters[key].expiry {
        counters := counters - {key};
      }
      var current := if key in counters then counters[key].count else 0;
      if current + cost > limit {
        return false;
      }
      if windowSeconds > 0 {
        counters := counters[key := Counter(current + cost, now + windowSeconds * 1000)];
      } else {
        counters := counters - {key};
      }
      return true;
    }
  }

  // ---------- Sliding windows over a run ----------

  /** The calls of a run on one key, by time; a clock that never goes back. */
  ghost predicate InOrder(calls: seq<int>) {
    && (forall i :: 0 <= i < |calls| ==> 0 <= calls[i])
    && (forall i, j :: 0 <= i < j < |calls| ==> calls[i] <= calls[j])
  }

  function StoredAfter(calls: seq<int>, windowMs: nat, limit: nat): Option<Zset> {
    if |calls| == 0 then None
    else Slide(StoredAfter(calls[..|calls| - 1], windowMs, limit), calls[|calls| - 1], windowMs, limit).0
  }

  /** The times of the calls that the store let through, in order. */
  function Admissions(calls: seq<int>, windowMs: nat, limit: nat): seq<int> {
    if |calls| == 0 then []
    else
      var n := |calls| - 1;
      var past := Admissions(calls[..n], windowMs, limit);
      if Slide(StoredAfter(calls[..n], windowMs, limit), calls[n], windowMs, limit).1 then past + [calls[n]] else past
  }

  /** The distinct admission times in the window that ends at `t`. */
  function InWindow(admitted: seq<int>, t: int, windowMs: nat): set<int> {
    set s | s in admitted && t - windowMs < s <= t
  }

  /** How many admissions the window that ends at `t` holds. */
  function CountIn(admitted: seq<int>, t: int, windowMs: nat): nat {
    if |admitted| == 0 then 0
    else
      var n := |admitted| - 1;
      CountIn(admitted[..n], t, windowMs) + (if t - windowMs < admitted[n] <= t then 1 else 0)
  }

  /** The store's set, as seen and trimmed now, holds just the admissions of the current window. */
  ghost predicate Remembers(z: Option<Zset>, admitted: seq<int>, windowMs: nat, now: int) {
    && (forall s :: s in admitted ==> 0 <= s <= now)
    && (z.Some? ==> forall s :: s in z.value.stamps ==> s in admitted)
    && (forall s :: s in admitted && now < s + windowMs ==>
          z.Some? && s in z.value.stamps && s + windowMs <= z.value.expiry)
  }

  lemma TrimmedIsWindow(z: Option<Zset>, admitted: seq<int>, windowMs: nat, last: int, now: int)
    requires 0 <= last <= now && Remembers(z, admitted, windowMs, last)
    ensures Trimmed(Stamps(z, now), now - windowMs) == InWindow(admitted, now, windowMs)
  {
  }

  lemma SlideRemembers(z: Option<Zset>, admitted: seq<int>, windowMs: nat, limit: nat, last: int, now: int)
    requires 0 <= last <= now && Remembers(z, admitted, windowMs, last)
    ensures var (z', allowed) := Slide(z, now, windowMs, limit);
            && allowed == (|InWindow(admitted, now, windowMs)| < limit)
            && Remembers(z', if allowed then admitted + [now] else admitted, windowMs, now)
  {
    TrimmedIsWindow(z, admitted, windowMs, last, now);
    var (z', allowed) := Slide(z, now, windowMs, limit);
    var live := InWindow(admitted, now, windowMs);
    assert allowed == (|live| < limit);
    if allowed {
      assert z' == if windowMs > 0 then Some(Zset(live + {now}, now + windowMs)) else None;
    } else {
      assert live != {} ==> z' == Some(Zset(live, z.value.expiry));
      assert forall s :: s in admitted && now < s + windowMs ==> s in live;
    }
    hide Slide, Stamps;
  }

  lemma {:induction false} RunRemembers(calls: seq<int>, windowMs: nat, limit: nat)
    requires InOrder(calls)
    ensures Remembers(StoredAfter(calls, windowMs, limit), Admissions(calls, windowMs, limit), windowMs,
                      if |calls| == 0 then 0 else calls[|calls| - 1])
  {
    if |calls| > 0 {
      var n := |calls| - 1;
      RunRemembers(calls[..n], windowMs, limit);
      hide Remembers, Slide;
      SlideRemembers(StoredAfter(calls[..n], windowMs, limit), Admissions(calls[..n], windowMs, limit), windowMs, limit,
                     if n == 0 then 0 else calls[n - 1], calls[n]);
    }
  }

  lemma InOrderPrefix(calls: seq<int>, now: int)
    requires InOrder(calls + [now])
    ensures InOrder(calls) && 0 <= now && (|calls| > 0 ==> 0 <= calls[|calls| - 1] <= now)
  {
    var all := calls + [now];
    assert forall i :: 0 <= i < |calls| ==> all[i] == calls[i];
    assert all[|calls|] == now;
  }

  /**
    The store answers as if it never forgot an admission: it lets a call through
    just when the window that ends now holds fewer than `limit` distinct times
    of all those ever admitted. So the key's expiry drops nothing that counts.
   */
  lemma SlidingForgetsNothing(calls: seq<int>, now: int, windowMs: nat, limit: nat)
    requires InOrder(calls + [now])
    ensures Slide(StoredAfter(calls, windowMs, limit), now, windowMs, limit).1
         == (|InWindow(Admissions(calls, windowMs, limit), now, windowMs)| < limit)
  {
    InOrderPrefix(calls, now);
    hide InOrder, Slide, StoredAfter, Admissions, InWindow, Remembers;
    RunRemembers(calls, windowMs, limit);
    SlideRemembers(StoredAfter(calls, windowMs, limit), Admissions(calls, windowMs, limit), windowMs, limit,
                   if |calls| == 0 then 0 else calls[|calls| - 1], now);
  }

  /** No window of the given length, wherever it ends, holds more than `limit` distinct admission times. */
  lemma {:induction false} EveryWindowIsLimited(calls: seq<int>, windowMs: nat, limit: nat, t: int)
    requires InOrder(calls)
    ensures |InWindow(Admissions(calls, windowMs, limit), t, windowMs)| <= limit
  {
    if |calls| == 0 {
      assert InWindow([], t, windowMs) == {};
    } else {
      var n := |calls| - 1;
      var past, now := Admissions(calls[..n], windowMs, limit), calls[n];
      EveryWindowIsLimited(calls[..n], windowMs, limit, t);
      assert calls[..n] + [now] == calls;
      AdmissionsStep(calls, windowMs, limit);
      hide Admissions, InWindow;
      if |InWindow(past, now, windowMs)| < limit {
        OneMoreInWindow(past, now, t, windowMs, limit);
      }
    }
  }

  /** The next call is admitted just when its window is not full, and comes no earlier than all before. */
  lemma AdmissionsStep(calls: seq<int>, windowMs: nat, limit: nat)
    requires InOrder(calls) && |calls| > 0
    ensures var n := |calls| - 1;
            var past, now := Admissions(calls[..n], windowMs, limit), calls[n];
            && Admissions(calls, windowMs, limit) ==
               (if |InWindow(past, now, windowMs)| < limit then past + [now] else past)
            && forall s :: s in past ==> s <= now
  {
    var n := |calls| - 1;
    assert calls[..n] + [calls[n]] == calls;
    SlidingForgetsNothing(calls[..n], calls[n], windowMs, limit);
    RunRemembers(calls[..n], windowMs, limit);
    hide Slide, StoredAfter, InWindow;
  }

  lemma OneMoreInWindow(past: seq<int>, now: int, t: int, windowMs: nat, limit: nat)
    requires forall s :: s in past ==> s <= now
    requires |InWindow(past, now, windowMs)| < limit && |InWindow(past, t, windowMs)| <= limit
    ensures |InWindow(past + [now], t, windowMs)| <= limit
  {
    if t < now {
      assert InWindow(past + [now], t, windowMs) == InWindow(past, t, windowMs);
    } else {
      var all := InWindow(past, now, windowMs) + {now};
      assert InWindow(past + [now], t, windowMs) <= all;
      SubsetIsNoLarger(InWindow(past + [now], t, windowMs), all);
      hide InWindow;
      assert |all| <= |InWindow(past, now, windowMs)| + 1;
    }
  }

  /** A call is refused just when exactly `limit` distinct times remain. */
  lemma RefusedExactlyWhenFull(calls: seq<int>, now: int, windowMs: nat, limit: nat)
    requires InOrder(calls + [now])
    ensures !Slide(StoredAfter(calls, windowMs, limit), now, windowMs, limit).1
       <==> |InWindow(Admissions(calls, windowMs, limit), now, windowMs)| == limit
  {
    InOrderPrefix(calls, now);
    hide InOrder, Slide, StoredAfter, Admissions, InWindow;
    SlidingForgetsNothing(calls, now, windowMs, limit);
    EveryWindowIsLimited(calls, windowMs, limit, now);
  }

  /** What the limiter is meant to promise: no window holds more than `limit` admissions. */
  ghost predicate LimitsAdmissions(windowMs: nat, limit: nat) {
    forall calls: seq<int>, t: int :: InOrder(calls) ==>
      CountIn(Admissions(calls, windowMs, limit), t, windowMs) <= limit
  }

  ghost predicate Increasing(s: seq<int>) {
    forall i, j :: 0 <= i < j < |s| ==> s[i] < s[j]
  }

  lemma InWindowAppend(admitted: seq<int>, x: int, t: int, windowMs: nat)
    requires x !in admitted
    ensures |InWindow(admitted + [x], t, windowMs)| ==
            |InWindow(admitted, t, windowMs)| + if t - windowMs < x <= t then 1 else 0
  {
    var before := InWindow(admitted, t, windowMs);
    assert InWindow(admitted + [x], t, windowMs) == if t - windowMs < x <= t then before + {x} else before;
  }

  lemma {:induction false} DistinctTimesCountOnce(admitted: seq<int>, t: int, windowMs: nat)
    requires Increasing(admitted)
    ensures CountIn(admitted, t, windowMs) == |InWindow(admitted, t, windowMs)|
  {
    if |admitted| == 0 {
      assert InWindow(admitted, t, windowMs) == {};
    } else {
      var n := |admitted| - 1;
      DistinctTimesCountOnce(admitted[..n], t, windowMs);
      assert admitted[n] !in admitted[..n];
      hide Increasing, InWindow;
      InWindowAppend(admitted[..n], admitted[n], t, windowMs);
      assert admitted == admitted[..n] + [admitted[n]];
    }
  }

  lemma IncreasingAppend(s: seq<int>, x: int)
    requires Increasing(s) && forall y :: y in s ==> y < x
    ensures Increasing(s + [x])
  {
    assert forall i :: 0 <= i < |s| ==> s[i] in s;
  }

  lemma {:induction false} IncreasingCallsAdmitIncreasing(calls: seq<int>, windowMs: nat, limit: nat)
    requires InOrder(calls) && Increasing(calls)
    ensures Increasing(Admissions(calls, windowMs, limit))
    ensures forall s :: s in Admissions(calls, windowMs, limit) ==> |calls| > 0 && s <= calls[|calls| - 1]
  {
    hide Slide, StoredAfter;
    if |calls| > 0 {
      var n := |calls| - 1;
      IncreasingCallsAdmitIncreasing(calls[..n], windowMs, limit);
      IncreasingAppend(Admissions(calls[..n], windowMs, limit), calls[n]);
    }
  }

  /** Calls that never share a millisecond are limited as the limiter is meant to. */
  lemma DistinctCallsAreLimited(calls: seq<int>, windowMs: nat, limit: nat, t: int)
    requires InOrder(calls) && Increasing(calls)
    ensures CountIn(Admissions(calls, windowMs, limit), t, windowMs) <= limit
  {
    IncreasingCallsAdmitIncreasing(calls, windowMs, limit);
    DistinctTimesCountOnce(Admissions(calls, windowMs, limit), t, windowMs);
    EveryWindowIsLimited(calls, windowMs, limit, t);
  }

  lemma RoomForOneMeansLater(past: seq<int>, now: int, windowMs: nat, limit: nat)
    requires windowMs > 0 && limit <= 1 && Increasing(past) && forall s :: s in past ==> s <= now
    ensures |InWindow(past, now, windowMs)| < limit ==> Increasing(past + [now])
  {
    if now in past {
      SubsetIsNoLarger({now}, InWindow(past, now, windowMs));
    } else {
      IncreasingAppend(past, now);
    }
  }

  /** With room for one, a second call in the same millisecond is refused. */
  lemma {:induction false} RoomForOneAdmitsIncreasing(calls: seq<int>, windowMs: nat, limit: nat)
    requires InOrder(calls) && windowMs > 0 && limit <= 1
    ensures Increasing(Admissions(calls, windowMs, limit))
  {
    if |calls| > 0 {
      var n := |calls| - 1;
      var past, now := Admissions(calls[..n], windowMs, limit), calls[n];
      RoomForOneAdmitsIncreasing(calls[..n], windowMs, limit);
      AdmissionsStep(calls, windowMs, limit);
      hide Admissions, InWindow, Increasing;
      RoomForOneMeansLater(past, now, windowMs, limit);
    }
  }

  /** Calls that all share one millisecond. */
  function Burst(n: nat): seq<int> {
    seq(n, i => 0)
  }

  /** With room for two, every call of a burst goes through: it adds a member that is already there. */
  lemma {:induction false} BurstIsAdmitted(n: nat, windowMs: nat, limit: nat)
    requires windowMs > 0 && limit > 1
    ensures Admissions(Burst(n), windowMs, limit) == Burst(n)
    ensures StoredAfter(Burst(n), windowMs, limit) == if n == 0 then None else Some(Zset({0}, windowMs))
    ensures CountIn(Burst(n), 0, windowMs) == n
  {
    if n > 0 {
      BurstIsAdmitted(n - 1, windowMs, limit);
      assert Burst(n)[..n - 1] == Burst(n - 1);
      assert Burst(n) == Burst(n - 1) + [0];
      var z := StoredAfter(Burst(n - 1), windowMs, limit);
      var kept := Trimmed(Stamps(z, 0), 0 - windowMs);
      assert kept == if n == 1 then {} else {0};
      assert kept + {0} == {0};
    }
  }

  lemma {:induction false} EmptyWindowHoldsNothing(admitted: seq<int>, t: int)
    ensures CountIn(admitted, t, 0) == 0
  {
    if |admitted| > 0 {
      EmptyWindowHoldsNothing(admitted[..|admitted| - 1], t);
    }
  }

  /** The promise is kept in every run just when the window is empty or the limit is at most one. */
  lemma AdmissionsAreLimitedExactlyWhen(windowMs: nat, limit: nat)
    ensures LimitsAdmissions(windowMs, limit) <==> windowMs == 0 || limit <= 1
  {
    if windowMs > 0 && limit > 1 {
      BurstIsAdmitted(limit + 1, windowMs, limit);
      assert InOrder(Burst(limit + 1));
      assert CountIn(Admissions(Burst(limit + 1), windowMs, limit), 0, windowMs) == limit + 1;
    } else {
      forall calls: seq<int>, t: int | InOrder(calls)
        ensures CountIn(Admissions(calls, windowMs, limit), t, windowMs) <= limit
      {
        if windowMs == 0 {
          EmptyWindowHoldsNothing(Admissions(calls, windowMs, limit), t);
        } else {
          RoomForOneAdmitsIncreasing(calls, windowMs, limit);
          DistinctTimesCountOnce(Admissions(calls, windowMs, limit), t, windowMs);
          EveryWindowIsLimited(calls, windowMs, limit, t);
        }
      }
    }
  }

  // ---------- Fixed windows over a run ----------

  datatype Charge = Charge(at: int, cost: nat)

  ghost predicate Ordered(charges: seq<Charge>) {
    forall i, j :: 0 <= i < j < |charges| ==> charges[i].at <= charges[j].at
  }

  function CounterAfter(calls: seq<Charge>, windowSeconds: nat, limit: nat): Option<Counter> {
    if |calls| == 0 then None
    else
      var n := |calls| - 1;
      Spend(CounterAfter(calls[..n], windowSeconds, limit), calls[n].at, windowSeconds, limit, calls[n].cost).0
  }

  function Paid(calls: seq<Charge>, windowSeconds: nat, limit: nat): seq<Charge> {
    if |calls| == 0 then []
    else
      var n := |calls| - 1;
      var c := CounterAfter(calls[..n], windowSeconds, limit);
      var paid := Paid(calls[..n], windowSeconds, limit);
      if Spend(c, calls[n].at, windowSeconds, limit, calls[n].cost).1 then paid + [calls[n]] else paid
  }

  /** The cost of the admissions that lead up to `now` with no gap longer than `gap`. */
  function Streak(paid: seq<Charge>, now: int, gap: nat): nat {
    if |paid| == 0 then 0
    else
      var last := paid[|paid| - 1];
      if now - last.at > gap then 0 else Streak(paid[..|paid| - 1], last.at, gap) + last.cost
  }

  /** The cost admitted from time `s` to time `t`. */
  function PaidIn(paid: seq<Charge>, s: int, t: int): nat {
    if |paid| == 0 then 0
    else
      var last := paid[|paid| - 1];
      PaidIn(paid[..|paid| - 1], s, t) + (if s <= last.at <= t then last.cost else 0)
  }

  /** The counter read at any later time is the cost of the streak that leads up to it. */
  ghost predicate CountsStreak(c: Option<Counter>, paid: seq<Charge>, gap: nat) {
    if |paid| == 0 then c.None?
    else
      var last := paid[|paid| - 1];
      c.Some? ==> c.value.expiry == last.at + gap && c.value.count == Streak(paid, last.at, gap)
  }

  /** The stored counter and the streak agree from time `t` on. */
  ghost predicate Agrees(c: Option<Counter>, paid: seq<Charge>, gap: nat, t: int) {
    && CountsStreak(c, paid, gap)
    && (|paid| > 0 ==> paid[|paid| - 1].at <= t)
    && (c.None? && |paid| > 0 ==> paid[|paid| - 1].at + gap < t)
  }

  lemma {:induction false} CounterCountsStreak(calls: seq<Charge>, windowSeconds: nat, limit: nat)
    requires Ordered(calls) && windowSeconds > 0
    ensures |calls| == 0 ==> CounterAfter(calls, windowSeconds, limit).None? && Paid(calls, windowSeconds, limit) == []
    ensures |calls| > 0 ==>
              Agrees(CounterAfter(calls, windowSeconds, limit), Paid(calls, windowSeconds, limit),
                     windowSeconds * 1000, calls[|calls| - 1].at)
  {
    if |calls| > 0 {
      var n := |calls| - 1;
      CounterCountsStreak(calls[..n], windowSeconds, limit);
      SpendAgrees(CounterAfter(calls[..n], windowSeconds, limit), Paid(calls[..n], windowSeconds, limit),
                  windowSeconds, limit, if n == 0 then calls[0].at else calls[n - 1].at, calls[n]);
    }
  }

  lemma SpendAgrees(c: Option<Counter>, paid: seq<Charge>, windowSeconds: nat, limit: nat, t: int, call: Charge)
    requires windowSeconds > 0 && t <= call.at && Agrees(c, paid, windowSeconds * 1000, t)
    ensures var (c', allowed) := Spend(c, call.at, windowSeconds, limit, call.cost);
            && Count(c, call.at) == Streak(paid, call.at, windowSeconds * 1000)
            && allowed == (Streak(paid, call.at, windowSeconds * 1000) + call.cost <= limit)
            && Agrees(c', if allowed then paid + [call] else paid, windowSeconds * 1000, call.at)
  {
    var gap := windowSeconds * 1000;
    assert Count(c, call.at) == Streak(paid, call.at, gap);
    assert (paid + [call])[..|paid|] == paid;
    assert Streak(paid + [call], call.at, gap) == Streak(paid, call.at, gap) + call.cost;
  }

  /**
    Every admission renews the expiry, so what the limiter charges against is
    the unbroken streak of admissions, not the cost since some fixed time.
   */
  lemma FixedWindowCountsTheStreak(calls: seq<Charge>, call: Charge, windowSeconds: nat, limit: nat)
    requires Ordered(calls + [call]) && windowSeconds > 0
    ensures Spend(CounterAfter(calls, windowSeconds, limit), call.at, windowSeconds, limit, call.cost).1
         == (Streak(Paid(calls, windowSeconds, limit), call.at, windowSeconds * 1000) + call.cost <= limit)
  {
    assert forall i :: 0 <= i < |calls| ==>
             calls[i] == (calls + [call])[i] && calls[i].at <= (calls + [call])[|calls|].at;
    CounterCountsStreak(calls, windowSeconds, limit);
    SpendAgrees(CounterAfter(calls, windowSeconds, limit), Paid(calls, windowSeconds, limit), windowSeconds, limit,
                if |calls| == 0 then call.at else calls[|calls| - 1].at, call);
  }

  /** Admissions that come one upon another, never a gap longer than the window, cost at most `limit` in all. */
  lemma {:induction false} StreaksAreLimited(calls: seq<Charge>, windowSeconds: nat, limit: nat, now: int)
    requires Ordered(calls) && windowSeconds > 0
    ensures Streak(Paid(calls, windowSeconds, limit), now, windowSeconds * 1000) <= limit
  {
    if |calls| > 0 {
      var n := |calls| - 1;
      StreaksAreLimited(calls[..n], windowSeconds, limit, now);
      assert calls[..n] + [calls[n]] == calls;
      FixedWindowCountsTheStreak(calls[..n], calls[n], windowSeconds, limit);
      var paid := Paid(calls[..n], windowSeconds, limit);
      assert (paid + [calls[n]])[..|paid|] == paid;
    }
  }

  lemma {:induction false} PaidIsOrdered(calls: seq<Charge>, windowSeconds: nat, limit: nat)
    requires Ordered(calls)
    ensures Ordered(Paid(calls, windowSeconds, limit))
    ensures forall p :: p in Paid(calls, windowSeconds, limit) ==> |calls| > 0 && p.at <= calls[|calls| - 1].at
  {
    hide Spend, CounterAfter;
    if |calls| > 0 {
      PaidIsOrdered(calls[..|calls| - 1], windowSeconds, limit);
    }
  }

  lemma {:induction false} NothingSince(paid: seq<Charge>, s: int, t: int)
    requires forall i :: 0 <= i < |paid| ==> paid[i].at < s
    ensures PaidIn(paid, s, t) == 0
  {
    if |paid| > 0 {
      NothingSince(paid[..|paid| - 1], s, t);
    }
  }

  ghost predicate StreaksWithin(paid: seq<Charge>, gap: nat, limit: nat) {
    forall k :: 0 < k <= |paid| ==> Streak(paid[..k], paid[k - 1].at, gap) <= limit
  }

  lemma StreaksWithinAppend(paid: seq<Charge>, c: Charge, gap: nat, limit: nat)
    requires StreaksWithin(paid, gap, limit)
    ensures Streak(paid + [c], c.at, gap) <= limit ==> StreaksWithin(paid + [c], gap, limit)
  {
    hide Streak;
    var all := paid + [c];
    assert all[..|all|] == all;
    assert forall k :: 0 < k <= |paid| ==> all[..k] == paid[..k] && all[k - 1] == paid[k - 1];
  }

  /** What an interval no longer than the gap holds belongs to one streak. */
  lemma {:induction false} IntervalIsInStreak(paid: seq<Charge>, s: int, t: int, gap: nat, limit: nat)
    requires Ordered(paid) && t - s <= gap
    requires StreaksWithin(paid, gap, limit)
    ensures PaidIn(paid, s, t) <= limit
    ensures |paid| > 0 && s <= paid[|paid| - 1].at <= t ==> PaidIn(paid, s, t) <= Streak(paid, paid[|paid| - 1].at, gap)
  {
    if |paid| > 0 {
      var n := |paid| - 1;
      assert forall k :: 0 < k <= n ==> paid[..n][..k] == paid[..k];
      IntervalIsInStreak(paid[..n], s, t, gap, limit);
      assert paid[..n + 1] == paid;
      if s <= paid[n].at <= t {
        if n == 0 || paid[n - 1].at < s {
          NothingSince(paid[..n], s, t);
        } else {
          assert Streak(paid[..n], paid[n].at, gap) == Streak(paid[..n], paid[n - 1].at, gap);
        }
      }
    }
  }

  lemma {:induction false} PrefixStreaksAreLimited(calls: seq<Charge>, windowSeconds: nat, limit: nat)
    requires Ordered(calls) && windowSeconds > 0
    ensures StreaksWithin(Paid(calls, windowSeconds, limit), windowSeconds * 1000, limit)
  {
    if |calls| > 0 {
      var n := |calls| - 1;
      PrefixStreaksAreLimited(calls[..n], windowSeconds, limit);
      StreaksAreLimited(calls, windowSeconds, limit, calls[n].at);
      var before, paid := Paid(calls[..n], windowSeconds, limit), Paid(calls, windowSeconds, limit);
      assert paid == before || paid == before + [calls[n]];
      StreaksWithinAppend(before, calls[n], windowSeconds * 1000, limit);
      assert Streak(paid, calls[n].at, windowSeconds * 1000) <= limit;
      hide Streak, Paid;
    }
  }

  /** What the fixed window is meant to promise: no interval of its length costs more than `limit`. */
  ghost predicate LimitsCost(windowSeconds: nat, limit: nat) {
    forall calls: seq<Charge>, s: int, t: int :: Ordered(calls) && t - s <= windowSeconds * 1000 ==>
      PaidIn(Paid(calls, windowSeconds, limit), s, t) <= limit
  }

  /** The window of no length keeps no counter: two calls at one time are each measured from nothing. */
  lemma NoWindowNoLimit(limit: nat)
    requires limit > 0
    ensures var calls := [Charge(0, limit), Charge(0, limit)];
            Ordered(calls) && PaidIn(Paid(calls, 0, limit), 0, 0) == 2 * limit
  {
    var calls := [Charge(0, limit), Charge(0, limit)];
    assert calls[..1] == [Charge(0, limit)] && calls[..1][..0] == [];
    assert Paid(calls[..1], 0, limit) == [Charge(0, limit)];
    assert Paid(calls, 0, limit) == [Charge(0, limit)] + [Charge(0, limit)];
    assert Paid(calls, 0, limit)[..1] == [Charge(0, limit)];
    assert PaidIn([Charge(0, limit)], 0, 0) == limit;
  }

  lemma {:induction false} NoLimitNoCount(calls: seq<Charge>, windowSeconds: nat)
    ensures var c := CounterAfter(calls, windowSeconds, 0); c.Some? ==> c.value.count == 0
  {
    if |calls| > 0 {
      NoLimitNoCount(calls[..|calls| - 1], windowSeconds);
    }
  }

  lemma {:induction false} NoLimitNoCost(calls: seq<Charge>, windowSeconds: nat, s: int, t: int)
    ensures PaidIn(Paid(calls, windowSeconds, 0), s, t) == 0
  {
    if |calls| > 0 {
      var n := |calls| - 1;
      NoLimitNoCost(calls[..n], windowSeconds, s, t);
      NoLimitNoCount(calls[..n], windowSeconds);
      var c, paid := CounterAfter(calls[..n], windowSeconds, 0), Paid(calls[..n], windowSeconds, 0);
      assert (paid + [calls[n]])[..|paid|] == paid;
      assert Spend(c, calls[n].at, windowSeconds, 0, calls[n].cost).1 ==> calls[n].cost == 0;
      hide Spend, CounterAfter;
    }
  }

  /**
    Over any number of counter resets, no interval of the window's length costs
    more than `limit`; the one exception is a window of no length.
   */
  lemma CostIsLimitedExactlyWhen(windowSeconds: nat, limit: nat)
    ensures LimitsCost(windowSeconds, limit) <==> windowSeconds > 0 || limit == 0
  {
    if windowSeconds == 0 && limit > 0 {
      NoWindowNoLimit(limit);
    } else {
      forall calls: seq<Charge>, s: int, t: int | Ordered(calls) && t - s <= windowSeconds * 1000
        ensures PaidIn(Paid(calls, windowSeconds, limit), s, t) <= limit
      {
        if limit == 0 {
          NoLimitNoCost(calls, windowSeconds, s, t);
        } else {
          PaidIsOrdered(calls, windowSeconds, limit);
          PrefixStreaksAreLimited(calls, windowSeconds, limit);
          IntervalIsInStreak(Paid(calls, windowSeconds, limit), s, t, windowSeconds * 1000, limit);
        }
      }
    }
  }
}
