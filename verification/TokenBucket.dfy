/**
  The log consumer's rate limiter: one token bucket per source address, backed
  by a shared limiter, with idle buckets thrown away from time to time.

  Tokens are counted in parts, as many to a token as the window has milliseconds, so the refill
  of capacity per window is exact in whole numbers.
 */
module TokenBucket {
  import opened Basics

  // ---------- One bucket ----------

  datatype Bucket = Bucket(
    capacity: nat,
    window: nat,
    tokens: int,
    lastRefill: int,
    blockedUntil: int,
    lastSeen: int)

  function Full(b: Bucket): nat {
    b.capacity * b.window
  }

  function NewBucket(limit: nat, windowMs: nat, now: int): Bucket {
    var capacity, window := Max(limit, 1), Max(windowMs, 1);
    Bucket(capacity, window, capacity * window, now, 0, now)
  }

  function Refill(b: Bucket, now: int): Bucket {
    if now <= b.lastRefill then b
    else b.(tokens := Min(b.tokens + (now - b.lastRefill) * b.capacity, Full(b)), lastRefill := now)
  }

  function Allow(b: Bucket, now: int): (Bucket, bool) {
    var seen := b.(lastSeen := now);
    if now < b.blockedUntil then (seen, false)
    else
      var r := Refill(seen, now);
      if r.tokens >= r.window then (r.(tokens := r.tokens - r.window), true) else (r, false)
  }

  function BlockFor(b: Bucket, now: int, windowMs: nat): Bucket {
    b.(blockedUntil := now + windowMs, tokens := 0, lastSeen := now)
  }

  class LocalRateLimitState {
    const capacity: nat
    const window: nat
    var tokens: int
    var lastRefillMs: int
    var blockedUntilMs: int
    var lastSeenMs: int

    ghost function Contents(): Bucket
      reads this
    {
      Bucket(capacity, window, tokens, lastRefillMs, blockedUntilMs, lastSeenMs)
    }

    constructor (limit: nat, windowMs: nat, now: int)
      ensures Contents() == NewBucket(limit, windowMs, now)
    {
      capacity, window := Max(limit, 1), Max(windowMs, 1);
      tokens := Max(limit, 1) * Max(windowMs, 1);
      lastRefillMs, blockedUntilMs, lastSeenMs := now, 0, now;
    }

    method Touch(now: int)
      modifies this`lastSeenMs
      ensures lastSeenMs == now
    {
      lastSeenMs := now;
    }

    method RefillTokens(now: int)
      modifies this
      ensures Contents() == Refill(old(Contents()), now)
    {
      if now <= lastRefillMs {
        return;
      }
      var elapsed := now - lastRefillMs;
      tokens := Min(tokens + elapsed * capacity, capacity * window);
      lastRefillMs := now;
    }

    method AllowOne(now: int) returns (allowed: bool)
      modifies this
      ensures (Contents(), allowed) == Allow(old(Contents()), now)
    {
      Touch(now);
      if now < blockedUntilMs {
        return false;
      }
      RefillTokens(now);
      if tokens >= window {
        tokens := tokens - window;
        return true;
      }
      return false;
    }

    method Block(now: int, windowMs: nat)
      modifies this
      ensures Contents() == BlockFor(old(Contents()), now, windowMs)
    {
      blockedUntilMs := now + windowMs;
      tokens := 0;
      Touch(now);
    }

    method Drain()
      modifies this`tokens
      ensures tokens == 0
    {
      tokens := 0;
    }
  }

  // ---------- How much a bucket lets through ----------

  datatype Op = TryTake(now: int) | Penalize(now: int, windowMs: nat) | Empty

  function Apply(b: Bucket, op: Op): (Bucket, bool) {
    match op
    case TryTake(now) => Allow(b, now)
    case Penalize(now, windowMs) => (BlockFor(b, now, windowMs), false)
    case Empty => (b.(tokens := 0), false)
  }

  function After(b: Bucket, ops: seq<Op>): Bucket {
    if |ops| == 0 then b else Apply(After(b, ops[..|ops| - 1]), ops[|ops| - 1]).0
  }

  function Grants(b: Bucket, ops: seq<Op>): nat {
    if |ops| == 0 then 0
    else
      var n := |ops| - 1;
      Grants(b, ops[..n]) + (if Apply(After(b, ops[..n]), ops[n]).1 then 1 else 0)
  }

  ghost predicate Sound(b: Bucket) {
    b.capacity > 0 && b.window > 0 && 0 <= b.tokens <= Full(b)
  }

  /** Tokens stay between none and the capacity, whatever the order of calls and clocks. */
  lemma {:induction false} TokensStayInRange(b: Bucket, ops: seq<Op>)
    requires Sound(b)
    ensures Sound(After(b, ops))
    ensures After(b, ops).capacity == b.capacity && After(b, ops).window == b.window
  {
    if |ops| > 0 {
      var b1 := After(b, ops[..|ops| - 1]);
      TokensStayInRange(b, ops[..|ops| - 1]);
      hide Full;
      RefillIsSound(b1, ops[|ops| - 1]);
    }
  }

  lemma RefillIsSound(b: Bucket, op: Op)
    requires Sound(b)
    ensures Sound(Apply(b, op).0) && Apply(b, op).0.capacity == b.capacity && Apply(b, op).0.window == b.window
  {
    if op.TryTake? && op.now > b.lastRefill {
      assert (op.now - b.lastRefill) * b.capacity >= 0;
    }
  }

  /** The part of the interval from `s` to `t` that refills have covered. */
  function Covered(b: Bucket, s: int, t: int): int {
    Max(Min(b.lastRefill, t), s) - s
  }

  /** The grants are paid for by the bucket, up to the time that refills have covered. */
  ghost predicate Paid(b: Bucket, g: nat, s: int, t: int) {
    && (b.lastRefill < s ==> g == 0)
    && g * b.window + b.tokens <= Full(b) + b.capacity * Covered(b, s, t)
  }

  lemma PaidWithLess(a: Bucket, b: Bucket, g: nat, s: int, t: int)
    requires Paid(a, g, s, t)
    requires b.capacity == a.capacity && b.window == a.window && b.lastRefill == a.lastRefill && b.tokens <= a.tokens
    ensures Paid(b, g, s, t)
  {
    assert Covered(b, s, t) == Covered(a, s, t);
  }

  lemma PaidForOne(b: Bucket, g: nat, s: int, t: int)
    requires Paid(b, g, s, t) && s <= b.lastRefill
    ensures Paid(b.(tokens := b.tokens - b.window), g + 1, s, t)
  {
    assert (g + 1) * b.window == g * b.window + b.window;
    assert Covered(b.(tokens := b.tokens - b.window), s, t) == Covered(b, s, t);
  }

  /** One call spends no more than what the newly covered time refills. */
  lemma SpendingIsPaid(b: Bucket, op: Op, g: nat, s: int, t: int)
    requires Sound(b) && s <= t && Paid(b, g, s, t)
    requires op.TryTake? ==> s <= op.now <= t
    ensures var (b', granted) := Apply(b, op);
            Paid(b', if granted then g + 1 else g, s, t)
  {
    hide Refill, Paid;
    match op
    case TryTake(now) =>
      var seen := b.(lastSeen := now);
      PaidWithLess(b, seen, g, s, t);
      if now >= b.blockedUntil {
        assert Sound(seen);
        RefillIsPaid(seen, now, g, s, t);
        if Refill(seen, now).tokens >= Refill(seen, now).window {
          PaidForOne(Refill(seen, now), g, s, t);
        }
      }
    case Penalize(now, windowMs) => PaidWithLess(b, BlockFor(b, now, windowMs), g, s, t);
    case Empty => PaidWithLess(b, b.(tokens := 0), g, s, t);
  }

  /** What a refill adds is paid for by the time it newly covers. */
  lemma RefillIsPaid(b: Bucket, now: int, g: nat, s: int, t: int)
    requires Sound(b) && s <= now <= t && Paid(b, g, s, t)
    ensures Refill(b, now).lastRefill >= now && Paid(Refill(b, now), g, s, t)
  {
    var r := Refill(b, now);
    if b.lastRefill < s {
      assert b.capacity * Covered(r, s, t) >= 0;
    } else if now > b.lastRefill {
      var elapsed := now - b.lastRefill;
      assert Covered(r, s, t) == Covered(b, s, t) + elapsed;
      assert b.capacity * (Covered(b, s, t) + elapsed) == b.capacity * Covered(b, s, t) + elapsed * b.capacity;
    }
  }

  lemma {:induction false} SpendingStaysPaid(b: Bucket, ops: seq<Op>, s: int, t: int)
    requires Sound(b) && s <= t
    requires forall i :: 0 <= i < |ops| && ops[i].TryTake? ==> s <= ops[i].now <= t
    ensures Paid(After(b, ops), Grants(b, ops), s, t)
  {
    hide Paid, Apply;
    if |ops| == 0 {
      NothingIsOwed(b, s, t);
    } else {
      var n := |ops| - 1;
      SpendingStaysPaid(b, ops[..n], s, t);
      TokensStayInRange(b, ops[..n]);
      SpendingIsPaid(After(b, ops[..n]), ops[n], Grants(b, ops[..n]), s, t);
    }
  }

  lemma NothingIsOwed(b: Bucket, s: int, t: int)
    requires Sound(b) && s <= t
    ensures Paid(b, 0, s, t)
  {
    assert b.capacity * Covered(b, s, t) >= 0;
  }

  lemma SameFull(a: Bucket, b: Bucket)
    requires a.capacity == b.capacity && a.window == b.window
    ensures Full(a) == Full(b)
  {
  }

  lemma Scaled(c: nat, x: int, y: int)
    requires x <= y
    ensures c * x <= c * y
  {
    assert c * (y - x) >= 0;
  }

  /** Between times s and t a bucket grants at most its capacity and what t - s refills. */
  lemma GrantsAreBounded(b: Bucket, ops: seq<Op>, s: int, t: int)
    requires Sound(b) && s <= t
    requires forall i :: 0 <= i < |ops| && ops[i].TryTake? ==> s <= ops[i].now <= t
    ensures Grants(b, ops) * b.window <= Full(b) + b.capacity * (t - s)
  {
    SpendingStaysPaid(b, ops, s, t);
    TokensStayInRange(b, ops);
    hide After, Grants;
    PaidIsBounded(After(b, ops), Grants(b, ops), s, t);
    SameFull(b, After(b, ops));
  }

  lemma PaidIsBounded(b: Bucket, g: nat, s: int, t: int)
    requires Sound(b) && s <= t && Paid(b, g, s, t)
    ensures g * b.window <= Full(b) + b.capacity * (t - s)
  {
    Scaled(b.capacity, Covered(b, s, t), t - s);
  }

  // ---------- The consumer's buckets ----------

  /** The limits of the consumer: `perIp` is cut to 32 bits, and idle buckets go after `Expiry`. */
  datatype Config = Config(perIp: nat, windowMs: nat)
  {
    function Limit(): nat {
      perIp % 0x1_0000_0000
    }

    function Expiry(): int {
      Max(4 * windowMs, 60_000)
    }
  }

  /** What the shared limiter answers, when it is asked. */
  datatype Answer = Admit | Refuse(sampled: bool) | Unreachable

  datatype Verdict = Verdict(local: bool, forwarded: bool)

  /** A log, with the answer the shared limiter would give; or the periodic cleanup. */
  datatype Input = Arrival(ip: string, now: int, answer: Answer) | Cleanup(now: int)

  type Buckets = map<string, Bucket>

  function Admitted(cfg: Config, b: Bucket, now: int, answer: Answer): (Bucket, Verdict) {
    var (b1, local) := Allow(b, now);
    if local then (b1, Verdict(true, true))
    else match answer
      case Admit => (b1.(tokens := 0), Verdict(false, true))
      case Refuse(sampled) => (BlockFor(b1, now, cfg.windowMs), Verdict(false, sampled))
      case Unreachable => (b1, Verdict(false, true))
  }

  function BucketFor(cfg: Config, m: Buckets, ip: string, now: int): Bucket {
    if ip in m then m[ip] else NewBucket(cfg.Limit(), cfg.windowMs, now)
  }

  function Collect(cfg: Config, m: Buckets, now: int): Buckets {
    map ip | ip in m && now - m[ip].lastSeen <= cfg.Expiry() :: m[ip]
  }

  /** The consumer: its table of buckets, one object for each address. */
  class LogConsumer {
    const cfg: Config
    var limits: map<string, LocalRateLimitState>

    ghost predicate Valid()
      reads this
    {
      forall i, j :: i in limits && j in limits && i != j ==> limits[i] != limits[j]
    }

    ghost function Contents(): Buckets
      reads this, limits.Values
    {
      map ip | ip in limits :: limits[ip].Contents()
    }

    constructor (cfg: Config)
      ensures this.cfg == cfg && Valid() && Contents() == map[]
    {
      this.cfg := cfg;
      limits := map[];
    }

    method HandleLog(ip: string, now: int, answer: Answer) returns (verdict: Verdict)
      requires Valid()
      modifies this, limits.Values
      ensures Valid() && fresh(limits.Values - old(limits.Values))
      ensures var (b, v) := Admitted(cfg, BucketFor(cfg, old(Contents()), ip, now), now, answer);
              Contents() == old(Contents())[ip := b] && verdict == v
    {
      if ip !in limits {
        var created := new LocalRateLimitState(cfg.Limit(), cfg.windowMs, now);
        limits := limits[ip := created];
      }
      assert limits[ip] in limits.Values;
      verdict := Decide(limits[ip], now, answer);
    }

    method Decide(state: LocalRateLimitState, now: int, answer: Answer) returns (verdict: Verdict)
      modifies state
      ensures (state.Contents(), verdict) == Admitted(cfg, old(state.Contents()), now, answer)
    {
      var local := state.AllowOne(now);
      if local {
        return Verdict(true, true);
      }
      match answer
      case Admit =>
        state.Drain();
        verdict := Verdict(false, true);
      case Refuse(sampled) =>
        state.Block(now, cfg.windowMs);
        verdict := Verdict(false, sampled);
      case Unreachable =>
        verdict := Verdict(false, true);
    }

    method CleanUp(now: int)
      requires Valid()
      modifies this`limits
      ensures Valid() && Contents() == Collect(cfg, old(Contents()), now)
    {
      limits := map ip | ip in limits && now - limits[ip].lastSeenMs <= cfg.Expiry() :: limits[ip];
    }
  }

  // ---------- Collection cannot be seen ----------

  function BucketsAfter(cfg: Config, inputs: seq<Input>, collecting: bool): Buckets {
    if |inputs| == 0 then map[]
    else
      var m := BucketsAfter(cfg, inputs[..|inputs| - 1], collecting);
      match inputs[|inputs| - 1]
      case Arrival(ip, now, answer) => m[ip := Admitted(cfg, BucketFor(cfg, m, ip, now), now, answer).0]
      case Cleanup(now) => if collecting then Collect(cfg, m, now) else m
  }

  /** The verdicts of a run, with or without the cleanups taking effect. */
  function Verdicts(cfg: Config, inputs: seq<Input>, collecting: bool): seq<Verdict> {
    if |inputs| == 0 then []
    else
      var n := |inputs| - 1;
      var m := BucketsAfter(cfg, inputs[..n], collecting);
      match inputs[n]
      case Arrival(ip, now, answer) =>
        Verdicts(cfg, inputs[..n], collecting) + [Admitted(cfg, BucketFor(cfg, m, ip, now), now, answer).1]
      case Cleanup(_) => Verdicts(cfg, inputs[..n], collecting)
  }

  /** A bucket as the consumer makes and keeps them. */
  ghost predicate OfConfig(cfg: Config, b: Bucket) {
    && b.capacity == Max(cfg.Limit(), 1) && b.window == Max(cfg.windowMs, 1)
    && 0 <= b.tokens <= Full(b)
    && b.lastRefill <= b.lastSeen && b.blockedUntil <= b.lastSeen + cfg.windowMs
  }

  /** The same bucket, or one whose block differs and is over. */
  ghost predicate Alike(now: int, a: Bucket, b: Bucket) {
    && a == b.(blockedUntil := a.blockedUntil)
    && (a.blockedUntil == b.blockedUntil || (a.blockedUntil <= now && b.blockedUntil <= now))
  }

  /** A bucket that would be unblocked and full by now. */
  ghost predicate Recovered(now: int, b: Bucket) {
    b.blockedUntil <= now && b.lastRefill + b.window <= now
  }

  /** The collected table beside the full one: each missing bucket has recovered. */
  ghost predicate Matches(cfg: Config, now: int, full: Buckets, collected: Buckets) {
    && (forall ip :: ip in full ==> OfConfig(cfg, full[ip]))
    && (forall ip :: ip in collected ==> ip in full && Alike(now, collected[ip], full[ip]))
    && (forall ip :: ip in full && ip !in collected ==> Recovered(now, full[ip]))
  }

  lemma AdmittedIsOfConfig(cfg: Config, b: Bucket, now: int, answer: Answer)
    requires OfConfig(cfg, b) && b.lastSeen <= now
    ensures OfConfig(cfg, Admitted(cfg, b, now, answer).0)
    ensures Admitted(cfg, b, now, answer).0.lastSeen == now
  {
    RefillIsSound(b, TryTake(now));
  }

  lemma NewIsOfConfig(cfg: Config, now: int)
    requires 0 <= now
    ensures OfConfig(cfg, NewBucket(cfg.Limit(), cfg.windowMs, now))
  {
    assert Max(cfg.Limit(), 1) * Max(cfg.windowMs, 1) >= 0;
  }

  /** Buckets that differ in a block that is over get the same verdict and stay alike. */
  lemma AlikeStaysAlike(cfg: Config, t: int, now: int, a: Bucket, b: Bucket, answer: Answer)
    requires t <= now && Alike(t, a, b)
    ensures Admitted(cfg, a, now, answer).1 == Admitted(cfg, b, now, answer).1
    ensures Alike(now, Admitted(cfg, a, now, answer).0, Admitted(cfg, b, now, answer).0)
  {
  }

  /** A recovered bucket, at its next use, acts like a new one. */
  lemma RecoveredActsNew(cfg: Config, t: int, now: int, b: Bucket, answer: Answer)
    requires 0 <= t <= now && OfConfig(cfg, b) && Recovered(t, b)
    ensures var a := NewBucket(cfg.Limit(), cfg.windowMs, now);
            && Admitted(cfg, a, now, answer).1 == Admitted(cfg, b, now, answer).1
            && Alike(now, Admitted(cfg, a, now, answer).0, Admitted(cfg, b, now, answer).0)
  {
    Scaled(b.capacity, b.window, now - b.lastRefill);
    assert b.capacity * (now - b.lastRefill) == (now - b.lastRefill) * b.capacity;
    assert Refill(b, now).tokens == Full(b);
    Scaled(b.window, 1, b.capacity);
    assert b.window * b.capacity == b.capacity * b.window;
  }

  /** A bucket idle for longer than the expiry has recovered. */
  lemma IdleHasRecovered(cfg: Config, now: int, b: Bucket)
    requires OfConfig(cfg, b) && now - b.lastSeen > cfg.Expiry()
    ensures Recovered(now, b)
  {
  }

  ghost predicate InOrder(inputs: seq<Input>) {
    && (forall i :: 0 <= i < |inputs| ==> 0 <= inputs[i].now)
    && (forall i, j :: 0 <= i < j < |inputs| ==> inputs[i].now <= inputs[j].now)
  }

  /** Every bucket of a run was last used no later than its last input. */
  ghost predicate SeenBy(now: int, m: Buckets) {
    forall ip :: ip in m ==> m[ip].lastSeen <= now
  }

  lemma ArrivalMatches(cfg: Config, t: int, full: Buckets, collected: Buckets, ip: string, now: int, answer: Answer)
    requires 0 <= t <= now && Matches(cfg, t, full, collected) && SeenBy(t, full)
    ensures var (b, v) := Admitted(cfg, BucketFor(cfg, full, ip, now), now, answer);
            var (b', v') := Admitted(cfg, BucketFor(cfg, collected, ip, now), now, answer);
            v == v' && Matches(cfg, now, full[ip := b], collected[ip := b']) && SeenBy(now, full[ip := b])
  {
    NewIsOfConfig(cfg, now);
    AdmittedIsOfConfig(cfg, BucketFor(cfg, full, ip, now), now, answer);
    assert ip in collected ==> ip in full;
    if ip in collected {
      AlikeStaysAlike(cfg, t, now, collected[ip], full[ip], answer);
    } else if ip in full {
      RecoveredActsNew(cfg, t, now, full[ip], answer);
    } else {
      NewIsAlike(cfg, now, answer);
    }
    hide OfConfig, Admitted, Alike, NewBucket, Matches, Recovered;
    MatchesLater(cfg, t, now, full, collected);
    PutMatches(cfg, now, full, collected, ip,
               Admitted(cfg, BucketFor(cfg, full, ip, now), now, answer).0,
               Admitted(cfg, BucketFor(cfg, collected, ip, now), now, answer).0);
  }

  lemma PutMatches(cfg: Config, now: int, full: Buckets, collected: Buckets, ip: string, b: Bucket, b': Bucket)
    requires Matches(cfg, now, full, collected) && OfConfig(cfg, b) && Alike(now, b', b)
    ensures Matches(cfg, now, full[ip := b], collected[ip := b'])
  {
    hide OfConfig, Alike, Recovered;
  }

  lemma NewIsAlike(cfg: Config, now: int, answer: Answer)
    ensures var b := Admitted(cfg, NewBucket(cfg.Limit(), cfg.windowMs, now), now, answer).0;
            Alike(now, b, b)
  {
  }

  lemma MatchesLater(cfg: Config, t: int, now: int, full: Buckets, collected: Buckets)
    requires t <= now && Matches(cfg, t, full, collected)
    ensures Matches(cfg, now, full, collected)
  {
    hide OfConfig;
  }

  lemma CleanupMatches(cfg: Config, t: int, full: Buckets, collected: Buckets, now: int)
    requires t <= now && Matches(cfg, t, full, collected)
    ensures Matches(cfg, now, full, Collect(cfg, collected, now))
  {
    MatchesLater(cfg, t, now, full, collected);
    forall ip | ip in collected && ip !in Collect(cfg, collected, now) ensures Recovered(now, full[ip]) {
      IdleHasRecovered(cfg, now, full[ip]);
    }
    hide OfConfig, Recovered;
  }

  lemma MatchesStep(cfg: Config, t: int, full: Buckets, collected: Buckets, input: Input)
    requires 0 <= t <= input.now && Matches(cfg, t, full, collected) && SeenBy(t, full)
    ensures match input
            case Arrival(ip, now, answer) =>
              var (b, v) := Admitted(cfg, BucketFor(cfg, full, ip, now), now, answer);
              var (b', v') := Admitted(cfg, BucketFor(cfg, collected, ip, now), now, answer);
              v == v' && Matches(cfg, now, full[ip := b], collected[ip := b']) && SeenBy(now, full[ip := b])
            case Cleanup(now) =>
              Matches(cfg, now, full, Collect(cfg, collected, now)) && SeenBy(now, full)
  {
    hide Matches;
    match input
    case Arrival(ip, now, answer) => ArrivalMatches(cfg, t, full, collected, ip, now, answer);
    case Cleanup(now) => CleanupMatches(cfg, t, full, collected, now);
  }

  lemma {:induction false} RunsMatch(cfg: Config, inputs: seq<Input>)
    requires InOrder(inputs)
    ensures Verdicts(cfg, inputs, true) == Verdicts(cfg, inputs, false)
    ensures var now := if |inputs| == 0 then 0 else inputs[|inputs| - 1].now;
            && Matches(cfg, now, BucketsAfter(cfg, inputs, false), BucketsAfter(cfg, inputs, true))
            && SeenBy(now, BucketsAfter(cfg, inputs, false))
  {
    hide Matches, Admitted, SeenBy;
    if |inputs| == 0 {
      EmptyMatches(cfg);
    } else {
      var n := |inputs| - 1;
      RunsMatch(cfg, inputs[..n]);
      MatchesStep(cfg, if n == 0 then 0 else inputs[n - 1].now,
                  BucketsAfter(cfg, inputs[..n], false), BucketsAfter(cfg, inputs[..n], true), inputs[n]);
    }
  }

  lemma EmptyMatches(cfg: Config)
    ensures Matches(cfg, 0, map[], map[]) && SeenBy(0, map[])
  {
  }

  /** Throwing away idle buckets and making them anew changes no verdict, in spite of blocks. */
  lemma CollectionIsInvisible(cfg: Config, inputs: seq<Input>)
    requires InOrder(inputs)
    ensures Verdicts(cfg, inputs, true) == Verdicts(cfg, inputs, false)
  {
    RunsMatch(cfg, inputs);
  }

  // ---------- What one address gets through ----------

  /** How many logs of the address its own bucket let through from time `s` on. */
  function LocalGrants(cfg: Config, inputs: seq<Input>, collecting: bool, ip: string, s: int): nat {
    if |inputs| == 0 then 0
    else
      var n := |inputs| - 1;
      var g := LocalGrants(cfg, inputs[..n], collecting, ip, s);
      match inputs[n]
      case Arrival(source, now, answer) =>
        var m := BucketsAfter(cfg, inputs[..n], collecting);
        if source == ip && s <= now && Admitted(cfg, BucketFor(cfg, m, ip, now), now, answer).1.local then g + 1 else g
      case Cleanup(_) => g
  }

  lemma {:induction false} SameGrants(cfg: Config, inputs: seq<Input>, ip: string, s: int)
    requires InOrder(inputs)
    ensures LocalGrants(cfg, inputs, true, ip, s) == LocalGrants(cfg, inputs, false, ip, s)
  {
    hide Matches, Admitted, SeenBy;
    if |inputs| > 0 {
      var n := |inputs| - 1;
      RunsMatch(cfg, inputs[..n]);
      MatchesStep(cfg, if n == 0 then 0 else inputs[n - 1].now,
                  BucketsAfter(cfg, inputs[..n], false), BucketsAfter(cfg, inputs[..n], true), inputs[n]);
      SameGrants(cfg, inputs[..n], ip, s);
    }
  }

  /** One log at a bucket keeps its grants paid for. */
  lemma AdmittedIsPaid(cfg: Config, b: Bucket, now: int, answer: Answer, g: nat, s: int, t: int)
    requires OfConfig(cfg, b) && b.lastSeen <= now <= t && s <= t && Paid(b, g, s, t)
    requires now < s ==> g == 0
    ensures var (b', v) := Admitted(cfg, b, now, answer);
            Paid(b', if s <= now && v.local then g + 1 else g, s, t)
  {
    var (b1, local) := Allow(b, now);
    assert Sound(b);
    RefillIsSound(b, TryTake(now));
    if s <= now {
      SpendingIsPaid(b, TryTake(now), g, s, t);
    } else {
      NothingIsOwed(b1, s, t);
    }
    var b' := Admitted(cfg, b, now, answer).0;
    PaidWithLess(b1, b', if s <= now && local then g + 1 else g, s, t);
    hide Paid, Refill, Full;
  }

  lemma {:induction false} GrantsArePaid(cfg: Config, inputs: seq<Input>, ip: string, s: int, t: int)
    requires InOrder(inputs) && s <= t && forall i :: 0 <= i < |inputs| ==> inputs[i].now <= t
    ensures var m, g := BucketsAfter(cfg, inputs, false), LocalGrants(cfg, inputs, false, ip, s);
            if ip in m then Paid(m[ip], g, s, t) else g == 0
    ensures |inputs| > 0 && inputs[|inputs| - 1].now < s ==> LocalGrants(cfg, inputs, false, ip, s) == 0
  {
    if |inputs| > 0 {
      var n := |inputs| - 1;
      GrantsArePaid(cfg, inputs[..n], ip, s, t);
      var m, g := BucketsAfter(cfg, inputs[..n], false), LocalGrants(cfg, inputs[..n], false, ip, s);
      if inputs[n].Arrival? && inputs[n].ip == ip {
        var now := inputs[n].now;
        SeenBefore(cfg, inputs, ip);
        hide Admitted, Paid, OfConfig, NewBucket;
        NewIsPaid(cfg, now, s, t);
        AdmittedIsPaid(cfg, BucketFor(cfg, m, ip, now), now, inputs[n].answer, g, s, t);
      }
    }
  }

  /** The bucket an input meets is one the consumer made, and was last used no later. */
  lemma SeenBefore(cfg: Config, inputs: seq<Input>, ip: string)
    requires InOrder(inputs) && |inputs| > 0
    ensures var n := |inputs| - 1;
            var m := BucketsAfter(cfg, inputs[..n], false);
            ip in m ==> OfConfig(cfg, m[ip]) && m[ip].lastSeen <= inputs[n].now
  {
    RunsMatch(cfg, inputs[..|inputs| - 1]);
    hide OfConfig, BucketsAfter, Verdicts;
  }

  lemma NewIsPaid(cfg: Config, now: int, s: int, t: int)
    requires 0 <= now && s <= t
    ensures var b := NewBucket(cfg.Limit(), cfg.windowMs, now);
            OfConfig(cfg, b) && Paid(b, 0, s, t) && b.lastSeen <= now
  {
    NewIsOfConfig(cfg, now);
    NothingIsOwed(NewBucket(cfg.Limit(), cfg.windowMs, now), s, t);
  }

  /**
    With cleanups and blocks and the shared limiter's answers in any mixture, an
    address's own bucket lets through, from time s to time t, at most its
    capacity and what t - s refills.
   */
  lemma AddressIsLimited(cfg: Config, inputs: seq<Input>, ip: string, s: int, t: int)
    requires InOrder(inputs) && s <= t && forall i :: 0 <= i < |inputs| ==> inputs[i].now <= t
    ensures var capacity, window := Max(cfg.Limit(), 1), Max(cfg.windowMs, 1);
            LocalGrants(cfg, inputs, true, ip, s) * window <= capacity * window + capacity * (t - s)
  {
    SameGrants(cfg, inputs, ip, s);
    GrantsArePaid(cfg, inputs, ip, s, t);
    RunsMatch(cfg, inputs);
    var m := BucketsAfter(cfg, inputs, false);
    Scaled(Max(cfg.Limit(), 1), 0, t - s);
    Scaled(Max(cfg.Limit(), 1), 0, Max(cfg.windowMs, 1));
    if ip in m {
      PaidIsBounded(m[ip], LocalGrants(cfg, inputs, false, ip, s), s, t);
    }
    hide BucketsAfter, LocalGrants, Paid, Verdicts;
  }
}
