/**
  The consumer's buckets and the shared limiter together: all that one address
  gets through in a window, while the shared limiter answers.
 */
module RateLimiting {
  import opened Basics
  import opened TokenBucket
  import R = RedisLimiters

  /** The address's own bucket lets the log through. */
  predicate LocallyAllowed(cfg: Config, before: seq<Input>, ip: string, now: int) {
    Allow(BucketFor(cfg, BucketsAfter(cfg, before, true), ip, now), now).1
  }

  /** The times at which the shared limiter is asked about the address. */
  function Calls(cfg: Config, inputs: seq<Input>, ip: string): seq<int> {
    if |inputs| == 0 then []
    else
      var n := |inputs| - 1;
      var calls := Calls(cfg, inputs[..n], ip);
      match inputs[n]
      case Arrival(source, now, _) =>
        if source == ip && !LocallyAllowed(cfg, inputs[..n], ip, now) then calls + [now] else calls
      case Cleanup(_) => calls
  }

  /** What the shared limiter's script answers after the calls of a run. */
  function SharedAnswer(cfg: Config, before: seq<Input>, ip: string, now: int): bool {
    R.Slide(R.StoredAfter(Calls(cfg, before, ip), cfg.windowMs, cfg.Limit()), now, cfg.windowMs, cfg.Limit()).1
  }

  /** Whenever the shared limiter is asked, it is reached and answers as its script does. */
  ghost predicate AnswersAreTrue(cfg: Config, inputs: seq<Input>) {
    forall n :: 0 <= n < |inputs| && inputs[n].Arrival? ==> IsTrue(cfg, inputs[..n], inputs[n])
  }

  predicate IsTrue(cfg: Config, before: seq<Input>, input: Input)
    requires input.Arrival?
  {
    LocallyAllowed(cfg, before, input.ip, input.now) ||
    (if SharedAnswer(cfg, before, input.ip, input.now) then input.answer.Admit? else input.answer.Refuse?)
  }

  /** How many logs of the address either limiter let through from time `s` on; sampled ones are set aside. */
  function Through(cfg: Config, inputs: seq<Input>, ip: string, s: int): nat {
    if |inputs| == 0 then 0
    else
      var n := |inputs| - 1;
      var k := Through(cfg, inputs[..n], ip, s);
      match inputs[n]
      case Arrival(source, now, answer) =>
        var m := BucketsAfter(cfg, inputs[..n], true);
        var verdict := Admitted(cfg, BucketFor(cfg, m, ip, now), now, answer).1;
        if source == ip && s <= now && verdict.forwarded && (verdict.local || !answer.Refuse?) then k + 1 else k
      case Cleanup(_) => k
  }

  /** And from then on in the window that ends at `t`, of the shared limiter's length. */
  function ThroughInWindow(cfg: Config, inputs: seq<Input>, ip: string, t: int): nat {
    Through(cfg, inputs, ip, t - cfg.windowMs + 1)
  }

  ghost predicate UpTo(inputs: seq<Input>, t: int) {
    forall i :: 0 <= i < |inputs| ==> inputs[i].now <= t
  }

  lemma CountOneMore(admitted: seq<int>, x: int, t: int, windowMs: nat)
    ensures R.CountIn(admitted + [x], t, windowMs) ==
            R.CountIn(admitted, t, windowMs) + if t - windowMs < x <= t then 1 else 0
  {
    assert (admitted + [x])[..|admitted|] == admitted;
  }

  lemma OneMoreCall(calls: seq<int>, now: int, windowMs: nat, limit: nat)
    ensures var past := R.Admissions(calls, windowMs, limit);
            R.Admissions(calls + [now], windowMs, limit) ==
            if R.Slide(R.StoredAfter(calls, windowMs, limit), now, windowMs, limit).1 then past + [now] else past
  {
    assert (calls + [now])[..|calls|] == calls;
    hide R.Slide, R.StoredAfter;
  }

  lemma TrueOfPrefix(cfg: Config, inputs: seq<Input>, n: nat)
    requires n <= |inputs| && AnswersAreTrue(cfg, inputs)
    ensures AnswersAreTrue(cfg, inputs[..n])
  {
    hide IsTrue;
    forall i | 0 <= i < n && inputs[i].Arrival? ensures IsTrue(cfg, inputs[..n][..i], inputs[i]) {
      assert inputs[..n][..i] == inputs[..i];
    }
  }

  lemma VerdictTells(cfg: Config, before: seq<Input>, ip: string, now: int, answer: Answer)
    ensures var b := BucketFor(cfg, BucketsAfter(cfg, before, true), ip, now);
            var verdict := Admitted(cfg, b, now, answer).1;
            && verdict.local == LocallyAllowed(cfg, before, ip, now)
            && (verdict.forwarded && (verdict.local || !answer.Refuse?) <==> verdict.local || !answer.Refuse?)
  {
    hide BucketsAfter, BucketFor, Allow;
  }

  predicate IsLogOf(input: Input, ip: string) {
    input.Arrival? && input.ip == ip
  }

  /** What the next input does: the own bucket grants it, or else the shared limiter is asked. */
  lemma OneMoreInput(cfg: Config, inputs: seq<Input>, ip: string, s: int)
    requires |inputs| > 0 && AnswersAreTrue(cfg, inputs)
    ensures var n := |inputs| - 1;
            var own, now := IsLogOf(inputs[n], ip), inputs[n].now;
            var local := own && LocallyAllowed(cfg, inputs[..n], ip, now);
            var shared := own && !local && SharedAnswer(cfg, inputs[..n], ip, now);
            && Calls(cfg, inputs, ip) == (if own && !local then Calls(cfg, inputs[..n], ip) + [now]
                                          else Calls(cfg, inputs[..n], ip))
            && LocalGrants(cfg, inputs, true, ip, s) ==
               LocalGrants(cfg, inputs[..n], true, ip, s) + (if local && s <= now then 1 else 0)
            && Through(cfg, inputs, ip, s) ==
               Through(cfg, inputs[..n], ip, s) + (if (local || shared) && s <= now then 1 else 0)
  {
    var n := |inputs| - 1;
    assert inputs[n].Arrival? ==> IsTrue(cfg, inputs[..n], inputs[n]);
    if inputs[n].Arrival? {
      VerdictTells(cfg, inputs[..n], ip, inputs[n].now, inputs[n].answer);
    }
    hide SharedAnswer, LocallyAllowed, BucketsAfter, BucketFor, AnswersAreTrue, Admitted;
  }

  /** How many of the calls the shared limiter admits in its window. */
  function SharedGrants(cfg: Config, calls: seq<int>, t: int): nat {
    R.CountIn(R.Admissions(calls, cfg.windowMs, cfg.Limit()), t, cfg.windowMs)
  }

  lemma OneMoreShared(cfg: Config, before: seq<Input>, ip: string, now: int, t: int)
    requires now <= t
    ensures SharedGrants(cfg, Calls(cfg, before, ip) + [now], t) ==
            SharedGrants(cfg, Calls(cfg, before, ip), t) +
            if SharedAnswer(cfg, before, ip, now) && t - cfg.windowMs < now then 1 else 0
  {
    var calls := Calls(cfg, before, ip);
    hide Calls, R.Slide, R.StoredAfter, R.Admissions, R.CountIn;
    OneMoreCall(calls, now, cfg.windowMs, cfg.Limit());
    CountOneMore(R.Admissions(calls, cfg.windowMs, cfg.Limit()), now, t, cfg.windowMs);
  }

  /** What gets through is what the own bucket grants and what the shared limiter admits. */
  lemma {:induction false} ThroughIsShared(cfg: Config, inputs: seq<Input>, ip: string, t: int)
    requires AnswersAreTrue(cfg, inputs) && UpTo(inputs, t)
    ensures ThroughInWindow(cfg, inputs, ip, t) ==
            LocalGrants(cfg, inputs, true, ip, t - cfg.windowMs + 1) + SharedGrants(cfg, Calls(cfg, inputs, ip), t)
  {
    if |inputs| > 0 {
      var n := |inputs| - 1;
      TrueOfPrefix(cfg, inputs, n);
      ThroughIsShared(cfg, inputs[..n], ip, t);
      hide Through, LocalGrants, SharedGrants, Calls, SharedAnswer, LocallyAllowed, AnswersAreTrue;
      OneMoreInput(cfg, inputs, ip, t - cfg.windowMs + 1);
      OneMoreShared(cfg, inputs[..n], ip, inputs[n].now, t);
    }
  }

  lemma {:induction false} CallsAreInOrder(cfg: Config, inputs: seq<Input>, ip: string)
    requires InOrder(inputs)
    ensures R.InOrder(Calls(cfg, inputs, ip))
    ensures forall c :: c in Calls(cfg, inputs, ip) ==> |inputs| > 0 && c <= inputs[|inputs| - 1].now
  {
    hide LocallyAllowed;
    if |inputs| > 0 {
      var n := |inputs| - 1;
      CallsAreInOrder(cfg, inputs[..n], ip);
      assert n > 0 ==> inputs[..n][n - 1].now <= inputs[n].now;
      AppendIsInOrder(Calls(cfg, inputs[..n], ip), inputs[n].now);
    }
  }

  lemma AppendIsInOrder(calls: seq<int>, now: int)
    requires R.InOrder(calls) && 0 <= now && forall c :: c in calls ==> c <= now
    ensures R.InOrder(calls + [now])
  {
    assert forall i :: 0 <= i < |calls| ==> calls[i] in calls;
  }

  /** The capacity, and what is refilled within the window, fall short of twice the capacity. */
  lemma LessThanTwice(g: nat, c: nat, w: nat, d: int)
    requires c > 0 && w > 0 && d == w - 1 && g * w <= c * w + c * d
    ensures g <= 2 * c - 1
  {
    assert w * (2 * c) == c * w + c * w && c * d == c * w - c && w * g == g * w;
    if g >= 2 * c {
      Scaled(w, 2 * c, g);
    }
  }

  /** The most that one address may get through in a window: the shared limit, and less than two capacities. */
  function Bound(cfg: Config): nat {
    cfg.Limit() + 2 * Max(cfg.Limit(), 1) - 1
  }

  lemma LocalIsLimited(cfg: Config, inputs: seq<Input>, ip: string, t: int)
    requires cfg.windowMs > 0 && InOrder(inputs) && UpTo(inputs, t)
    ensures LocalGrants(cfg, inputs, true, ip, t - cfg.windowMs + 1) <= 2 * Max(cfg.Limit(), 1) - 1
  {
    var s, c, w := t - cfg.windowMs + 1, Max(cfg.Limit(), 1), Max(cfg.windowMs, 1);
    assert c > 0 && w == cfg.windowMs && s <= t;
    hide Max, Config.Limit, LocalGrants, InOrder;
    AddressIsLimited(cfg, inputs, ip, s, t);
    LessThanTwice(LocalGrants(cfg, inputs, true, ip, s), c, w, t - s);
  }

  lemma SharedBoundIsEnough(cfg: Config, inputs: seq<Input>, ip: string, t: int)
    requires cfg.windowMs > 0 && InOrder(inputs) && AnswersAreTrue(cfg, inputs) && UpTo(inputs, t)
    requires SharedGrants(cfg, Calls(cfg, inputs, ip), t) <= cfg.Limit()
    ensures ThroughInWindow(cfg, inputs, ip, t) <= Bound(cfg)
  {
    hide Through, LocalGrants, AnswersAreTrue, InOrder, SharedGrants, Calls, UpTo, Config.Limit, Max;
    ThroughIsShared(cfg, inputs, ip, t);
    LocalIsLimited(cfg, inputs, ip, t);
  }

  /**
    With cleanups, blocks and other addresses in any mixture, an address that never has
    the shared limiter asked twice in one millisecond keeps to the bound in every window.
   */
  lemma DistinctCallsKeepTheBound(cfg: Config, inputs: seq<Input>, ip: string, t: int)
    requires cfg.windowMs > 0 && InOrder(inputs) && AnswersAreTrue(cfg, inputs)
    requires UpTo(inputs, t)
    requires R.Increasing(Calls(cfg, inputs, ip))
    ensures ThroughInWindow(cfg, inputs, ip, t) <= Bound(cfg)
  {
    CallsAreInOrder(cfg, inputs, ip);
    R.DistinctCallsAreLimited(Calls(cfg, inputs, ip), cfg.windowMs, cfg.Limit(), t);
    SharedBoundIsEnough(cfg, inputs, ip, t);
  }

  /** Every run keeps every address to the bound in every window. */
  ghost predicate KeepsAddresses(cfg: Config) {
    forall inputs: seq<Input>, ip: string, t: int ::
      InOrder(inputs) && AnswersAreTrue(cfg, inputs) && UpTo(inputs, t) ==>
      ThroughInWindow(cfg, inputs, ip, t) <= Bound(cfg)
  }

  /** Logs of one address that all share one millisecond. */
  function Flood(n: nat): seq<Input> {
    seq(n, i => Arrival("a", 0, Admit))
  }

  /** With a limit of two, the whole flood goes through: first the bucket's own, then the shared limiter's burst. */
  lemma {:induction false} FloodIsAdmitted(cfg: Config, n: nat)
    requires cfg.windowMs > 0 && cfg.Limit() > 1
    ensures FloodsThrough(cfg, Flood(n))
  {
    if n > 0 {
      FloodIsAdmitted(cfg, n - 1);
      assert Flood(n) == Flood(n - 1) + [Arrival("a", 0, Admit)];
      hide FloodsThrough, Flood;
      FloodGoesOn(cfg, Flood(n - 1));
    }
  }

  ghost predicate FloodsThrough(cfg: Config, inputs: seq<Input>) {
    var calls := Calls(cfg, inputs, "a");
    && calls == R.Burst(|calls|) && AnswersAreTrue(cfg, inputs)
    && Through(cfg, inputs, "a", 1 - cfg.windowMs) == |inputs|
  }

  lemma FloodGoesOn(cfg: Config, before: seq<Input>)
    requires cfg.windowMs > 0 && cfg.Limit() > 1 && FloodsThrough(cfg, before)
    ensures FloodsThrough(cfg, before + [Arrival("a", 0, Admit)])
  {
    var e := Arrival("a", 0, Admit);
    BurstGoesOn(|Calls(cfg, before, "a")|, cfg.windowMs, cfg.Limit());
    hide R.Slide, R.StoredAfter, R.Burst, BucketsAfter, BucketFor, Allow, AnswersAreTrue;
    assert IsTrue(cfg, before, e);
    TrueOneMore(cfg, before, e);
    assert (before + [e])[..|before|] == before;
  }

  lemma BurstGoesOn(n: nat, windowMs: nat, limit: nat)
    requires windowMs > 0 && limit > 1
    ensures R.Slide(R.StoredAfter(R.Burst(n), windowMs, limit), 0, windowMs, limit).1
    ensures R.Burst(n) + [0] == R.Burst(n + 1)
  {
    R.BurstIsAdmitted(n, windowMs, limit);
    R.BurstIsAdmitted(n + 1, windowMs, limit);
    assert R.Burst(n) + [0] == R.Burst(n + 1);
    hide R.Slide, R.StoredAfter, R.Admissions, R.CountIn;
    OneMoreCall(R.Burst(n), 0, windowMs, limit);
  }

  lemma TrueOneMore(cfg: Config, inputs: seq<Input>, input: Input)
    requires AnswersAreTrue(cfg, inputs) && (input.Arrival? ==> IsTrue(cfg, inputs, input))
    ensures AnswersAreTrue(cfg, inputs + [input])
  {
    hide IsTrue;
    var all := inputs + [input];
    forall i | 0 <= i < |all| && all[i].Arrival? ensures IsTrue(cfg, all[..i], all[i]) {
      assert all[..i] == if i < |inputs| then inputs[..i] else inputs;
    }
  }

  /** The bound is kept in every run just when there is no window or the limit is at most one. */
  lemma AddressesAreKeptExactlyWhen(cfg: Config)
    ensures KeepsAddresses(cfg) <==> cfg.windowMs == 0 || cfg.Limit() <= 1
  {
    hide Through, AnswersAreTrue, R.CountIn, R.Admissions, Calls;
    if cfg.windowMs > 0 && cfg.Limit() > 1 {
      var n := Bound(cfg) + 1;
      FloodIsAdmitted(cfg, n);
      assert ThroughInWindow(cfg, Flood(n), "a", 0) == n;
      assert UpTo(Flood(n), 0) && InOrder(Flood(n));
    } else {
      forall inputs: seq<Input>, ip: string, t: int | InOrder(inputs) && AnswersAreTrue(cfg, inputs) && UpTo(inputs, t)
        ensures ThroughInWindow(cfg, inputs, ip, t) <= Bound(cfg)
      {
        if cfg.windowMs == 0 {
          NothingLater(cfg, inputs, ip, t + 1);
        } else {
          CallsAreInOrder(cfg, inputs, ip);
          R.AdmissionsAreLimitedExactlyWhen(cfg.windowMs, cfg.Limit());
          SharedBoundIsEnough(cfg, inputs, ip, t);
        }
      }
    }
  }

  /** And with a limit of at most one the bound is met: a limit of none lets one log through, a limit of one two. */
  lemma BoundIsMet(cfg: Config)
    requires cfg.windowMs > 0 && cfg.Limit() <= 1
    ensures var inputs := Flood(Bound(cfg));
            && InOrder(inputs) && AnswersAreTrue(cfg, inputs) && UpTo(inputs, 0)
            && ThroughInWindow(cfg, inputs, "a", 0) == Bound(cfg)
  {
    var e := Arrival("a", 0, Admit);
    FirstIsGranted(cfg, e);
    hide Through, AnswersAreTrue, Calls, BucketsAfter, Allow, NewBucket;
    if cfg.Limit() == 1 {
      SecondIsShared(cfg, e);
      assert Flood(2) == [e] + [e];
    } else {
      assert Flood(1) == [e];
    }
  }

  lemma FirstIsGranted(cfg: Config, e: Input)
    requires cfg.windowMs > 0 && e == Arrival("a", 0, Admit)
    ensures AnswersAreTrue(cfg, [e]) && Through(cfg, [e], "a", 1 - cfg.windowMs) == 1 && Calls(cfg, [e], "a") == []
    ensures BucketsAfter(cfg, [e], true) == map["a" := Allow(NewBucket(cfg.Limit(), cfg.windowMs, 0), 0).0]
  {
    var b := NewBucket(cfg.Limit(), cfg.windowMs, 0);
    Scaled(cfg.windowMs, 1, b.capacity);
    assert cfg.windowMs * b.capacity == b.capacity * cfg.windowMs;
    assert Allow(b, 0).1 && [e][..0] == [];
    assert LocallyAllowed(cfg, [e][..0], "a", 0);
    hide Allow, NewBucket;
  }

  lemma SecondIsShared(cfg: Config, e: Input)
    requires cfg.windowMs > 0 && cfg.Limit() == 1 && e == Arrival("a", 0, Admit)
    ensures AnswersAreTrue(cfg, [e] + [e]) && Through(cfg, [e] + [e], "a", 1 - cfg.windowMs) == 2
  {
    FirstIsGranted(cfg, e);
    assert Allow(NewBucket(cfg.Limit(), cfg.windowMs, 0), 0).0.tokens == 0;
    assert !LocallyAllowed(cfg, [e], "a", 0) && SharedAnswer(cfg, [e], "a", 0);
    hide Allow, NewBucket, BucketsAfter, Calls, SharedAnswer, AnswersAreTrue;
    TrueOneMore(cfg, [e], e);
    assert ([e] + [e])[..1] == [e];
  }

  lemma {:induction false} NothingLater(cfg: Config, inputs: seq<Input>, ip: string, s: int)
    requires UpTo(inputs, s - 1)
    ensures Through(cfg, inputs, ip, s) == 0
  {
    if |inputs| > 0 {
      NothingLater(cfg, inputs[..|inputs| - 1], ip, s);
    }
  }
}
