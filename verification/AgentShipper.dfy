/**
  The agent: collectors that offer logs to the queue, and the shipper that takes
  them off, sends them in batches, and puts back a batch that could not be sent.

  A run is any interleaving of the collectors' offers with the shipper's steps.
 */
module AgentShipper {
  import opened AgentQueue

  datatype Log = Log(id: nat, message: string)

  datatype Config = Config(maxSize: int, batchSize: int)

  /** What becomes of a batch that is sent. */
  datatype Outcome = MarshalFailed | RequestFailed | SendFailed | Response(status: int)

  const ACCEPTED := 202

  predicate IsAccepted(o: Outcome) {
    o == Response(ACCEPTED)
  }

  predicate IsDiscarded(o: Outcome) {
    o.MarshalFailed? || o.RequestFailed?
  }

  /** The shipper waits for work, or puts logs back one by one, or has ended. */
  datatype Phase = Shipping | Retrying(rest: seq<Log>, ending: bool) | Ended

  datatype State = State(queue: seq<Log>, dropped: nat, batch: seq<Log>, phase: Phase, sent: nat, failed: nat)
  {
    function Rest(): seq<Log> {
      if phase.Retrying? then phase.rest else []
    }
  }

  /** The shipper's loop takes one of three branches; it looks at the queue only in the last. */
  datatype Event =
    | Offer(log: Log)
    | Poll(outcome: Outcome)
    | Tick(outcome: Outcome)
    | Cancel(outcome: Outcome)
    | PutBack

  function Resume(ending: bool): Phase {
    if ending then Ended else Shipping
  }

  function SendBatch(s: State, outcome: Outcome, ending: bool): State {
    var n := |s.batch|;
    if IsAccepted(outcome) then
      s.(batch := [], sent := (s.sent + n) % COUNTER_SIZE, phase := Resume(ending))
    else
      s.(batch := [], failed := (s.failed + n) % COUNTER_SIZE,
         phase := if IsDiscarded(outcome) then Resume(ending) else Retrying(s.batch, ending))
  }

  function Next(cfg: Config, s: State, e: Event): State {
    match e
    case Offer(log) =>
      if |s.queue| < cfg.maxSize then s.(queue := s.queue + [log]) else s.(dropped := (s.dropped + 1) % COUNTER_SIZE)
    case Poll(outcome) =>
      if !s.phase.Shipping? || |s.queue| == 0 then s
      else
        var s1 := s.(queue := s.queue[1..], batch := s.batch + [s.queue[0]]);
        if |s1.batch| >= cfg.batchSize then SendBatch(s1, outcome, false) else s1
    case Tick(outcome) =>
      if !s.phase.Shipping? || |s.batch| == 0 then s else SendBatch(s, outcome, false)
    case Cancel(outcome) =>
      if !s.phase.Shipping? then s
      else if |s.batch| == 0 then s.(phase := Ended)
      else SendBatch(s, outcome, true)
    case PutBack =>
      if !s.phase.Retrying? || |s.phase.rest| == 0 || |s.queue| >= cfg.maxSize then s
      else
        var rest := s.phase.rest[1..];
        s.(queue := s.queue + [s.phase.rest[0]],
           phase := if rest == [] then Resume(s.phase.ending) else Retrying(rest, s.phase.ending))
  }

  class Shipper {
    const cfg: Config
    const queue: Queue<Log>
    var batch: seq<Log>
    var phase: Phase
    var sentCount: nat
    var failedCount: nat

    ghost function Contents(): State
      reads this, queue
    {
      State(queue.items, queue.dropped, batch, phase, sentCount, failedCount)
    }

    ghost predicate Valid()
      reads this, queue
    {
      queue.Valid() && queue.maxSize == cfg.maxSize
    }

    constructor (queue: Queue<Log>, cfg: Config)
      requires queue.Valid() && queue.maxSize == cfg.maxSize
      ensures this.queue == queue && this.cfg == cfg && Valid()
      ensures Contents() == State(queue.items, queue.dropped, [], Shipping, 0, 0)
    {
      this.queue, this.cfg := queue, cfg;
      batch, phase, sentCount, failedCount := [], Shipping, 0, 0;
    }

    method PollQueue(outcome: Outcome)
      requires Valid()
      modifies this, queue
      ensures Valid() && Contents() == Next(cfg, old(Contents()), Poll(outcome))
    {
      if phase.Shipping? {
        var log := queue.Pop();
        if log.Some? {
          batch := batch + [log.value];
          if |batch| >= cfg.batchSize {
            Send(outcome, false);
          }
        }
      }
    }

    method FlushOnTick(outcome: Outcome)
      requires Valid()
      modifies this
      ensures Valid() && Contents() == Next(cfg, old(Contents()), Tick(outcome))
    {
      if phase.Shipping? && |batch| > 0 {
        Send(outcome, false);
      }
    }

    method FlushAndEnd(outcome: Outcome)
      requires Valid()
      modifies this
      ensures Valid() && Contents() == Next(cfg, old(Contents()), Cancel(outcome))
    {
      if phase.Shipping? {
        if |batch| > 0 {
          Send(outcome, true);
        } else {
          phase := Ended;
        }
      }
    }

    method Send(outcome: Outcome, ending: bool)
      requires Valid()
      modifies this
      ensures Valid() && Contents() == SendBatch(old(Contents()), outcome, ending)
    {
      match outcome {
        case MarshalFailed =>
          failedCount := (failedCount + |batch|) % COUNTER_SIZE;
          phase := Resume(ending);
        case RequestFailed =>
          failedCount := (failedCount + |batch|) % COUNTER_SIZE;
          phase := Resume(ending);
        case SendFailed =>
          failedCount := (failedCount + |batch|) % COUNTER_SIZE;
          phase := Retrying(batch, ending);
        case Response(status) =>
          if status == ACCEPTED {
            sentCount := (sentCount + |batch|) % COUNTER_SIZE;
            phase := Resume(ending);
          } else {
            failedCount := (failedCount + |batch|) % COUNTER_SIZE;
            phase := Retrying(batch, ending);
          }
      }
      batch := [];
    }

    /** One turn of the retry: the next log goes back, or waits for room. */
    method RetryOne()
      requires Valid()
      modifies this, queue
      ensures Valid() && Contents() == Next(cfg, old(Contents()), PutBack)
    {
      if phase.Retrying? && |phase.rest| > 0 {
        var pushed := queue.Push(phase.rest[0]);
        if pushed {
          var rest := phase.rest[1..];
          phase := if |rest| == 0 then Resume(phase.ending) else Retrying(rest, phase.ending);
        }
      }
    }
  }

  /** A collector offers a log; the queue may refuse it. */
  method Collect(shipper: Shipper, log: Log) returns (accepted: bool)
    requires shipper.Valid()
    modifies shipper.queue
    ensures shipper.Valid() && shipper.Contents() == Next(shipper.cfg, old(shipper.Contents()), Offer(log))
    ensures accepted == (|old(shipper.queue.items)| < shipper.cfg.maxSize)
  {
    accepted := shipper.queue.TryPush(log);
  }

  // ---------- The books of a run ----------

  /**
    What a run has done so far: the logs that collectors got in and how many were
    refused; all that entered the queue and all that left it; the batches sent;
    the logs acknowledged and those given up; and how many were in failed batches.
   */
  datatype Ledger = Ledger(
    collected: seq<Log>,
    refused: nat,
    entered: seq<Log>,
    left: seq<Log>,
    batches: seq<seq<Log>>,
    acked: seq<Log>,
    discarded: seq<Log>,
    failures: nat)

  function Start(): State {
    State([], 0, [], Shipping, 0, 0)
  }

  function After(cfg: Config, s: State, events: seq<Event>): State {
    if |events| == 0 then s else Next(cfg, After(cfg, s, events[..|events| - 1]), events[|events| - 1])
  }

  function BookSent(l: Ledger, batch: seq<Log>, outcome: Outcome): Ledger {
    var l1 := l.(batches := l.batches + [batch]);
    if IsAccepted(outcome) then l1.(acked := l.acked + batch)
    else if IsDiscarded(outcome) then l1.(discarded := l.discarded + batch, failures := l.failures + |batch|)
    else l1.(failures := l.failures + |batch|)
  }

  function Book(cfg: Config, s: State, l: Ledger, e: Event): Ledger {
    match e
    case Offer(log) =>
      if |s.queue| < cfg.maxSize then l.(collected := l.collected + [log], entered := l.entered + [log])
      else l.(refused := l.refused + 1)
    case Poll(outcome) =>
      if !s.phase.Shipping? || |s.queue| == 0 then l
      else
        var l1 := l.(left := l.left + [s.queue[0]]);
        var batch := s.batch + [s.queue[0]];
        if |batch| >= cfg.batchSize then BookSent(l1, batch, outcome) else l1
    case Tick(outcome) =>
      if !s.phase.Shipping? || |s.batch| == 0 then l else BookSent(l, s.batch, outcome)
    case Cancel(outcome) =>
      if !s.phase.Shipping? || |s.batch| == 0 then l else BookSent(l, s.batch, outcome)
    case PutBack =>
      if !s.phase.Retrying? || |s.phase.rest| == 0 || |s.queue| >= cfg.maxSize then l
      else l.(entered := l.entered + [s.phase.rest[0]])
  }

  function Books(cfg: Config, events: seq<Event>): Ledger {
    if |events| == 0 then Ledger([], 0, [], [], [], [], [], 0)
    else
      var n := |events| - 1;
      Book(cfg, After(cfg, Start(), events[..n]), Books(cfg, events[..n]), events[n])
  }

  function Concat(batches: seq<seq<Log>>): seq<Log> {
    if |batches| == 0 then [] else Concat(batches[..|batches| - 1]) + batches[|batches| - 1]
  }

  /** Every log that a collector got in is in one place. */
  ghost predicate Conserved(s: State, l: Ledger) {
    multiset(l.collected) ==
    multiset(s.queue) + multiset(s.batch) + multiset(s.Rest()) + multiset(l.acked) + multiset(l.discarded)
  }

  /** The queue is first in, first out, and the batches are what left it, in order. */
  ghost predicate InOrder(s: State, l: Ledger) {
    l.entered == l.left + s.queue && l.left == Concat(l.batches) + s.batch
  }

  ghost predicate Counted(s: State, l: Ledger) {
    && s.sent == |l.acked| % COUNTER_SIZE
    && s.failed == l.failures % COUNTER_SIZE
    && s.dropped == l.refused % COUNTER_SIZE
  }

  ghost predicate AllSized(cfg: Config, batches: seq<seq<Log>>) {
    forall b :: b in batches ==> 0 < |b| && (|b| == 1 || |b| <= cfg.batchSize)
  }

  ghost predicate Sized(cfg: Config, s: State, l: Ledger) {
    && |s.queue| <= Bound(cfg.maxSize)
    && (|s.batch| > 0 ==> |s.batch| < cfg.batchSize)
    && AllSized(cfg, l.batches)
    && (s.phase.Retrying? ==> |s.phase.rest| > 0 && s.batch == [])
  }

  /** A log moves from the queue to the batch. */
  function Popped(s: State): State
    requires |s.queue| > 0
  {
    s.(queue := s.queue[1..], batch := s.batch + [s.queue[0]])
  }

  lemma PopConserves(s: State, l: Ledger)
    requires Conserved(s, l) && |s.queue| > 0
    ensures Conserved(Popped(s), l.(left := l.left + [s.queue[0]]))
  {
    assert s.queue == [s.queue[0]] + s.queue[1..];
  }

  lemma SendConserves(s: State, l: Ledger, outcome: Outcome, ending: bool)
    requires Conserved(s, l) && !s.phase.Retrying?
    ensures Conserved(SendBatch(s, outcome, ending), BookSent(l, s.batch, outcome))
  {
  }

  lemma PutBackConserves(cfg: Config, s: State, l: Ledger)
    requires Conserved(s, l) && s.phase.Retrying? && |s.phase.rest| > 0
    ensures Conserved(Next(cfg, s, PutBack), Book(cfg, s, l, PutBack))
  {
    var rest := s.phase.rest;
    assert rest == [rest[0]] + rest[1..];
  }

  lemma OfferConserves(cfg: Config, s: State, l: Ledger, log: Log)
    requires Conserved(s, l)
    ensures Conserved(Next(cfg, s, Offer(log)), Book(cfg, s, l, Offer(log)))
  {
  }

  lemma EndConserves(s: State, l: Ledger)
    requires Conserved(s, l) && !s.phase.Retrying?
    ensures Conserved(s.(phase := Ended), l)
  {
  }

  lemma ConservedStep(cfg: Config, s: State, l: Ledger, e: Event)
    requires Conserved(s, l)
    ensures Conserved(Next(cfg, s, e), Book(cfg, s, l, e))
  {
    hide Conserved, SendBatch, BookSent;
    match e
    case Offer(log) => OfferConserves(cfg, s, l, log);
    case Poll(outcome) =>
      if s.phase.Shipping? && |s.queue| > 0 {
        PopConserves(s, l);
        SendConserves(Popped(s), l.(left := l.left + [s.queue[0]]), outcome, false);
      }
    case Tick(outcome) =>
      if s.phase.Shipping? {
        SendConserves(s, l, outcome, false);
      }
    case Cancel(outcome) =>
      if s.phase.Shipping? {
        EndConserves(s, l);
        SendConserves(s, l, outcome, true);
      }
    case PutBack =>
      if s.phase.Retrying? && |s.phase.rest| > 0 {
        PutBackConserves(cfg, s, l);
      }
  }

  lemma ConcatOneMore(batches: seq<seq<Log>>, batch: seq<Log>)
    ensures Concat(batches + [batch]) == Concat(batches) + batch
  {
    assert (batches + [batch])[..|batches|] == batches;
  }

  lemma PopKeepsOrder(s: State, l: Ledger)
    requires InOrder(s, l) && |s.queue| > 0
    ensures InOrder(Popped(s), l.(left := l.left + [s.queue[0]]))
  {
    assert s.queue == [s.queue[0]] + s.queue[1..];
    hide Concat;
  }

  lemma SendKeepsOrder(s: State, l: Ledger, outcome: Outcome, ending: bool)
    requires InOrder(s, l)
    ensures InOrder(SendBatch(s, outcome, ending), BookSent(l, s.batch, outcome))
  {
    ConcatOneMore(l.batches, s.batch);
    hide Concat;
  }

  lemma EnterKeepsOrder(s: State, l: Ledger, log: Log)
    requires InOrder(s, l)
    ensures l.entered + [log] == l.left + (s.queue + [log])
  {
    hide Concat;
  }

  lemma InOrderStep(cfg: Config, s: State, l: Ledger, e: Event)
    requires InOrder(s, l)
    ensures InOrder(Next(cfg, s, e), Book(cfg, s, l, e))
  {
    hide Concat;
    match e
    case Offer(log) => EnterKeepsOrder(s, l, log);
    case Poll(outcome) =>
      if s.phase.Shipping? && |s.queue| > 0 {
        PopKeepsOrder(s, l);
        SendKeepsOrder(Popped(s), l.(left := l.left + [s.queue[0]]), outcome, false);
      }
      hide InOrder, SendBatch, BookSent;
    case Tick(outcome) =>
      SendKeepsOrder(s, l, outcome, false);
      hide InOrder, SendBatch, BookSent;
    case Cancel(outcome) =>
      SendKeepsOrder(s, l, outcome, true);
      hide SendBatch, BookSent;
    case PutBack =>
      if s.phase.Retrying? && |s.phase.rest| > 0 {
        EnterKeepsOrder(s, l, s.phase.rest[0]);
      }
  }

  lemma CountedStep(cfg: Config, s: State, l: Ledger, e: Event)
    requires Counted(s, l)
    ensures Counted(Next(cfg, s, e), Book(cfg, s, l, e))
  {
    ModAdd(|l.acked|, |s.batch|);
    ModAdd(|l.acked|, |s.batch| + 1);
    ModAdd(l.failures, |s.batch|);
    ModAdd(l.failures, |s.batch| + 1);
    ModAdd(l.refused, 1);
  }

  lemma ModAdd(a: nat, b: nat)
    ensures (a % COUNTER_SIZE + b) % COUNTER_SIZE == (a + b) % COUNTER_SIZE
  {
  }

  lemma OneMoreSized(cfg: Config, batches: seq<seq<Log>>, batch: seq<Log>)
    requires AllSized(cfg, batches) && 0 < |batch| && (|batch| == 1 || |batch| <= cfg.batchSize)
    ensures AllSized(cfg, batches + [batch])
  {
  }

  lemma SizedStep(cfg: Config, s: State, l: Ledger, e: Event)
    requires Sized(cfg, s, l)
    ensures Sized(cfg, Next(cfg, s, e), Book(cfg, s, l, e))
  {
    hide AllSized;
    if |s.batch| > 0 {
      OneMoreSized(cfg, l.batches, s.batch);
    }
    if |s.queue| > 0 && s.phase.Shipping? {
      OneMoreSized(cfg, l.batches, s.batch + [s.queue[0]]);
    }
  }

  /**
    Over every interleaving of collectors and shipper: no log is lost or doubled
    (each one collected is queued, in the batch, waiting to be put back,
    acknowledged, or given up because it could not be made into a request);
    logs leave in the order they entered, and the batches are what left; the
    counters count; and queue and batches stay within their sizes.
   */
  lemma {:induction false} AgentKeepsItsBooks(cfg: Config, events: seq<Event>)
    ensures var s, l := After(cfg, Start(), events), Books(cfg, events);
            Conserved(s, l) && InOrder(s, l) && Counted(s, l) && Sized(cfg, s, l)
  {
    if |events| > 0 {
      var n := |events| - 1;
      AgentKeepsItsBooks(cfg, events[..n]);
      var s, l := After(cfg, Start(), events[..n]), Books(cfg, events[..n]);
      ConservedStep(cfg, s, l, events[n]);
      InOrderStep(cfg, s, l, events[n]);
      CountedStep(cfg, s, l, events[n]);
      SizedStep(cfg, s, l, events[n]);
      hide Next, Book, Conserved, InOrder, Counted;
    }
  }

  // ---------- A retry can wait for ever ----------

  /** What is queued and what is to be put back do not all fit. */
  ghost predicate Overfull(cfg: Config, s: State) {
    s.phase.Retrying? && |s.phase.rest| > 0 && |s.queue| + |s.phase.rest| > cfg.maxSize
  }

  lemma {:induction false} OverfullStays(cfg: Config, s: State, events: seq<Event>)
    requires Overfull(cfg, s)
    ensures Overfull(cfg, After(cfg, s, events))
  {
    if |events| > 0 {
      OverfullStays(cfg, s, events[..|events| - 1]);
    }
  }

  function PutBacks(n: nat): seq<Event> {
    seq(n, i => PutBack)
  }

  lemma {:induction false} RoomLetsRetryEnd(cfg: Config, s: State, n: nat)
    requires s.phase.Retrying? && n <= |s.phase.rest| && |s.phase.rest| > 0 && |s.queue| + |s.phase.rest| <= cfg.maxSize
    ensures After(cfg, s, PutBacks(n)).queue == s.queue + s.phase.rest[..n]
    ensures After(cfg, s, PutBacks(n)).phase ==
            if n == |s.phase.rest| then Resume(s.phase.ending) else Retrying(s.phase.rest[n..], s.phase.ending)
  {
    if n > 0 {
      RoomLetsRetryEnd(cfg, s, n - 1);
      assert PutBacks(n)[..n - 1] == PutBacks(n - 1);
      assert s.phase.rest[..n] == s.phase.rest[..n - 1] + [s.phase.rest[n - 1]];
      assert s.phase.rest[n - 1..][1..] == s.phase.rest[n..];
    }
  }

  /** A run that never ends its retry: while the batch of one was failing, the slot it left was taken again. */
  lemma RetryCanWaitForever(a: Log, b: Log, rest: seq<Event>)
    ensures var cfg, events := Config(1, 1), [Offer(a), Poll(SendFailed), Offer(b)];
            After(cfg, After(cfg, Start(), events), rest).phase.Retrying?
  {
    var cfg, e0, e1, e2 := Config(1, 1), Offer(a), Poll(SendFailed), Offer(b);
    var events := [e0, e1, e2];
    assert events[..2] == [e0, e1] && [e0, e1][..1] == [e0] && [e0][..0] == [];
    assert After(cfg, Start(), [e0]) == State([a], 0, [], Shipping, 0, 0);
    assert After(cfg, Start(), [e0, e1]) == State([], 0, [], Retrying([a], false), 0, 1);
    assert After(cfg, Start(), events) == State([b], 0, [], Retrying([a], false), 0, 1);
    OverfullStays(cfg, After(cfg, Start(), events), rest);
  }

  /**
    The shipper is the queue's only consumer, so while it puts logs back nothing
    leaves the queue: the retry can ever end just when all of it fits at once.
   */
  lemma RetryCanEndExactlyWhen(cfg: Config, s: State)
    requires s.phase.Retrying? && |s.phase.rest| > 0
    ensures (exists events :: !After(cfg, s, events).phase.Retrying?) <==> |s.queue| + |s.phase.rest| <= cfg.maxSize
  {
    if Overfull(cfg, s) {
      forall events ensures After(cfg, s, events).phase.Retrying? {
        OverfullStays(cfg, s, events);
      }
    } else {
      RoomLetsRetryEnd(cfg, s, |s.phase.rest|);
      assert !After(cfg, s, PutBacks(|s.phase.rest|)).phase.Retrying?;
    }
  }
}
