/**
  The detection pipeline: one queue of logs, a dispatcher that sends each log to
  the mailbox of the worker its partition key picks, and the workers.

  The dispatcher and the workers are tasks, and any interleaving of their steps
  is a run. A step that has to wait does nothing.
 */
module Dispatch {
  import opened Options

  datatype Log = Log(id: nat, tenantId: string, sourceIp: string)

  const QUEUE_CAPACITY := 10000

  /** The pool's size and the size of a mailbox are at least one, whatever is configured. */
  datatype Config = Config(configuredWorkers: nat, configuredMailbox: nat, partitionKey: string,
                           hash: seq<string> -> nat)
  {
    function Workers(): (n: nat)
      ensures n > 0
    {
      if configuredWorkers == 0 then 1 else configuredWorkers
    }

    function Mailbox(): nat {
      if configuredMailbox == 0 then 1 else configuredMailbox
    }
  }

  /** What is fed to the hash. */
  function KeyOf(log: Log, partitionKey: string): seq<string> {
    match partitionKey
    case "tenant" => [log.tenantId]
    case "source_ip" => [log.sourceIp]
    case _ => [log.tenantId, log.sourceIp]
  }

  function PartitionIndex(cfg: Config, log: Log, workerCount: nat): nat {
    if workerCount == 0 then 0 else cfg.hash(KeyOf(log, cfg.partitionKey)) % workerCount
  }

  /** Which logs must keep together: those of one tenant, of one address, or of one address of one tenant. */
  lemma SameKeyExactlyWhen(a: Log, b: Log, partitionKey: string)
    ensures KeyOf(a, partitionKey) == KeyOf(b, partitionKey)
       <==> && (partitionKey != "source_ip" ==> a.tenantId == b.tenantId)
            && (partitionKey != "tenant" ==> a.sourceIp == b.sourceIp)
  {
    var x, y := KeyOf(a, partitionKey), KeyOf(b, partitionKey);
    assert |x| == |y|;
    if x == y {
      assert x[0] == y[0] && x[|x| - 1] == y[|y| - 1];
    }
  }

  /** A worker: what waits for it, the log it is at, if any, and those it has finished. */
  datatype Worker = Worker(mailbox: seq<Log>, running: bool, busy: Option<Log>, finished: seq<Log>)
  {
    /** The logs taken up for processing. */
    function Taken(): seq<Log> {
      finished + OptionSeq(busy)
    }
  }

  function OptionSeq<T>(o: Option<T>): seq<T> {
    if o.Some? then [o.value] else []
  }

  datatype State = State(queue: seq<Log>, held: Option<Log>, workers: seq<Worker>, dispatching: bool)

  datatype Event =
    | Arrive(log: Log)
    | Fetch
    | Deliver
    | Take(w: nat)
    | Finish(w: nat)
    | StopWorker(w: nat)
    | StopDispatcher

  function Target(cfg: Config, s: State, log: Log): (w: nat)
    requires |s.workers| > 0
    ensures w < |s.workers|
  {
    PartitionIndex(cfg, log, |s.workers|)
  }

  predicate Enabled(cfg: Config, s: State, e: Event) {
    match e
    case Arrive(_) => s.dispatching && |s.queue| < QUEUE_CAPACITY
    case Fetch => s.dispatching && s.held.None? && |s.queue| > 0
    case Deliver =>
      && s.held.Some? && |s.workers| > 0
      && (s.workers[Target(cfg, s, s.held.value)].running ==>
            |s.workers[Target(cfg, s, s.held.value)].mailbox| < cfg.Mailbox())
    case Take(w) => w < |s.workers| && s.workers[w].running && s.workers[w].busy.None? && |s.workers[w].mailbox| > 0
    case Finish(w) => w < |s.workers| && s.workers[w].busy.Some?
    case StopWorker(w) => w < |s.workers| && s.workers[w].running && s.workers[w].busy.None?
    case StopDispatcher => s.dispatching && s.held.None?
  }

  function Next(cfg: Config, s: State, e: Event): State {
    if !Enabled(cfg, s, e) then s
    else match e
      case Arrive(log) => s.(queue := s.queue + [log])
      case Fetch => s.(held := Some(s.queue[0]), queue := s.queue[1..])
      case Deliver =>
        var w := Target(cfg, s, s.held.value);
        var worker := s.workers[w];
        if worker.running
        then s.(held := None, workers := s.workers[w := worker.(mailbox := worker.mailbox + [s.held.value])])
        else s.(held := None)
      case Take(w) =>
        var worker := s.workers[w];
        s.(workers := s.workers[w := worker.(busy := Some(worker.mailbox[0]), mailbox := worker.mailbox[1..])])
      case Finish(w) =>
        var worker := s.workers[w];
        s.(workers := s.workers[w := worker.(busy := None, finished := worker.finished + [worker.busy.value])])
      case StopWorker(w) => s.(workers := s.workers[w := s.workers[w].(running := false, mailbox := [])])
      case StopDispatcher => s.(dispatching := false, queue := [])
  }

  function Start(cfg: Config): State {
    State([], None, seq(cfg.Workers(), i => Worker([], true, None, [])), true)
  }

  class DetectionPipeline {
    const cfg: Config
    var queue: seq<Log>
    var held: Option<Log>
    var workers: seq<Worker>
    var dispatching: bool

    ghost function Contents(): State
      reads this
    {
      State(queue, held, workers, dispatching)
    }

    constructor (cfg: Config)
      ensures this.cfg == cfg && Contents() == Start(cfg)
    {
      this.cfg := cfg;
      queue, held, dispatching := [], None, true;
      workers := seq(cfg.Workers(), i => Worker([], true, None, []));
    }

    method Send(log: Log) returns (sent: bool)
      modifies this
      ensures sent == old(Enabled(cfg, Contents(), Arrive(log)))
      ensures Contents() == Next(cfg, old(Contents()), Arrive(log))
    {
      if !dispatching || |queue| >= QUEUE_CAPACITY {
        return false;
      }
      queue := queue + [log];
      return true;
    }

    method Receive()
      modifies this
      ensures Contents() == Next(cfg, old(Contents()), Fetch)
    {
      if dispatching && held.None? && |queue| > 0 {
        held, queue := Some(queue[0]), queue[1..];
      }
    }

    /** Sends the log at hand to its worker; waits while the mailbox is full, and drops the log if it is closed. */
    method Forward() returns (failed: bool)
      requires |workers| > 0
      modifies this
      ensures Contents() == Next(cfg, old(Contents()), Deliver)
      ensures failed <==> old(held).Some? && !old(workers)[PartitionIndex(cfg, old(held).value, |old(workers)|)].running
    {
      failed := false;
      if held.Some? {
        var w := PartitionIndex(cfg, held.value, |workers|);
        if !workers[w].running {
          held, failed := None, true;
        } else if |workers[w].mailbox| < cfg.Mailbox() {
          workers := workers[w := workers[w].(mailbox := workers[w].mailbox + [held.value])];
          held := None;
        }
      }
    }

    method TakeUp(w: nat)
      requires w < |workers|
      modifies this`workers
      ensures Contents() == Next(cfg, old(Contents()), Take(w))
    {
      var worker := workers[w];
      if worker.running && worker.busy.None? && |worker.mailbox| > 0 {
        workers := workers[w := worker.(busy := Some(worker.mailbox[0]), mailbox := worker.mailbox[1..])];
      }
    }

    method Complete(w: nat)
      requires w < |workers|
      modifies this`workers
      ensures Contents() == Next(cfg, old(Contents()), Finish(w))
    {
      var worker := workers[w];
      if worker.busy.Some? {
        workers := workers[w := worker.(busy := None, finished := worker.finished + [worker.busy.value])];
      }
    }

    /** A worker hears of the shutdown between two logs; its mailbox goes with it. */
    method ShutDownWorker(w: nat)
      requires w < |workers|
      modifies this`workers
      ensures Contents() == Next(cfg, old(Contents()), StopWorker(w))
    {
      if workers[w].running && workers[w].busy.None? {
        workers := workers[w := workers[w].(running := false, mailbox := [])];
      }
    }

    /** The dispatcher hears of the shutdown when it has no log at hand; the queue goes with it. */
    method ShutDownDispatcher()
      modifies this
      ensures Contents() == Next(cfg, old(Contents()), StopDispatcher)
    {
      if dispatching && held.None? {
        dispatching, queue := false, [];
      }
    }
  }

  // ---------- Runs ----------

  function After(cfg: Config, events: seq<Event>): State {
    if |events| == 0 then Start(cfg) else Next(cfg, After(cfg, events[..|events| - 1]), events[|events| - 1])
  }

  /** The logs that entered the queue, in order. */
  function Arrived(cfg: Config, events: seq<Event>): seq<Log> {
    if |events| == 0 then []
    else
      var n := |events| - 1;
      var before := Arrived(cfg, events[..n]);
      if events[n].Arrive? && Enabled(cfg, After(cfg, events[..n]), events[n]) then before + [events[n].log] else before
  }

  /** The logs that are for worker `w`, in order. */
  function Mine(cfg: Config, logs: seq<Log>, w: nat): seq<Log> {
    if |logs| == 0 then []
    else
      var n := |logs| - 1;
      var before := Mine(cfg, logs[..n], w);
      if PartitionIndex(cfg, logs[n], cfg.Workers()) == w then before + [logs[n]] else before
  }

  /** The logs with partition key `k`, in order. */
  function WithKey(cfg: Config, logs: seq<Log>, k: seq<string>): seq<Log> {
    if |logs| == 0 then []
    else
      var n := |logs| - 1;
      var before := WithKey(cfg, logs[..n], k);
      if KeyOf(logs[n], cfg.partitionKey) == k then before + [logs[n]] else before
  }

  lemma {:induction false} MineConcat(cfg: Config, a: seq<Log>, b: seq<Log>, w: nat)
    ensures Mine(cfg, a + b, w) == Mine(cfg, a, w) + Mine(cfg, b, w)
  {
    if |b| == 0 {
      assert a + b == a;
    } else {
      var n := |b| - 1;
      assert (a + b)[..|a| + n] == a + b[..n];
      MineConcat(cfg, a, b[..n], w);
    }
  }

  lemma {:induction false} WithKeyConcat(cfg: Config, a: seq<Log>, b: seq<Log>, k: seq<string>)
    ensures WithKey(cfg, a + b, k) == WithKey(cfg, a, k) + WithKey(cfg, b, k)
  {
    if |b| == 0 {
      assert a + b == a;
    } else {
      var n := |b| - 1;
      assert (a + b)[..|a| + n] == a + b[..n];
      WithKeyConcat(cfg, a, b[..n], k);
    }
  }

  /** What is on its way to worker `w`: first the log at the dispatcher, then those in the queue. */
  function Coming(cfg: Config, s: State, w: nat): seq<Log> {
    Mine(cfg, OptionSeq(s.held) + s.queue, w)
  }

  /** Worker `w` has its share of the arrivals, in order, up to what is on its way or was dropped by a stop. */
  ghost predicate Ordered(cfg: Config, s: State, w: nat, arrived: seq<Log>)
    requires w < |s.workers|
  {
    var worker, mine := s.workers[w], Mine(cfg, arrived, w);
    && worker.Taken() + worker.mailbox <= mine
    && (worker.running && s.dispatching ==> worker.Taken() + worker.mailbox + Coming(cfg, s, w) == mine)
    && (!s.dispatching ==> s.held.None?)
  }

  ghost predicate Bounded(cfg: Config, s: State) {
    && |s.workers| == cfg.Workers()
    && |s.queue| <= QUEUE_CAPACITY
    && forall w :: 0 <= w < |s.workers| ==> |s.workers[w].mailbox| <= cfg.Mailbox()
  }

  lemma TakePrefix(a: seq<Log>, b: seq<Log>, c: seq<Log>)
    requires a + b == c
    ensures a <= c
  {
  }

  lemma MoreFollows(have: seq<Log>, coming: seq<Log>, all: seq<Log>, more: seq<Log>)
    requires have <= all
    ensures have <= all + more
    ensures have + coming == all ==> have + (coming + more) == all + more
  {
    assert have + coming + more == have + (coming + more);
  }

  lemma ArriveKeepsOrder(cfg: Config, s: State, w: nat, arrived: seq<Log>, log: Log)
    requires w < |s.workers| && Ordered(cfg, s, w, arrived)
    ensures Ordered(cfg, s.(queue := s.queue + [log]), w, arrived + [log])
  {
    var worker := s.workers[w];
    MineConcat(cfg, arrived, [log], w);
    MineConcat(cfg, OptionSeq(s.held) + s.queue, [log], w);
    assert OptionSeq(s.held) + s.queue + [log] == OptionSeq(s.held) + (s.queue + [log]);
    assert Coming(cfg, s.(queue := s.queue + [log]), w) == Coming(cfg, s, w) + Mine(cfg, [log], w);
    hide Mine, Coming;
    MoreFollows(worker.Taken() + worker.mailbox, Coming(cfg, s, w), Mine(cfg, arrived, w), Mine(cfg, [log], w));
  }

  lemma FetchKeepsOrder(cfg: Config, s: State, w: nat, arrived: seq<Log>)
    requires w < |s.workers| && Ordered(cfg, s, w, arrived) && s.dispatching && s.held.None? && |s.queue| > 0
    ensures Ordered(cfg, s.(held := Some(s.queue[0]), queue := s.queue[1..]), w, arrived)
  {
    assert OptionSeq(s.held) + s.queue == [s.queue[0]] + s.queue[1..];
    hide Mine;
  }

  lemma DeliverKeepsOrder(cfg: Config, s: State, w: nat, arrived: seq<Log>)
    requires |s.workers| == cfg.Workers() && w < |s.workers| && Ordered(cfg, s, w, arrived) && Enabled(cfg, s, Deliver)
    ensures Ordered(cfg, Next(cfg, s, Deliver), w, arrived)
  {
    var log, v := s.held.value, Target(cfg, s, s.held.value);
    var after := s.(held := None);
    ComingIsHeldFirst(cfg, s, w);
    if s.workers[v].running {
      var worker := s.workers[v].(mailbox := s.workers[v].mailbox + [log]);
      hide Mine, Coming, PartitionIndex;
      if v == w {
        HeldMoves(s.workers[w].Taken(), s.workers[w].mailbox, log, Coming(cfg, after, w), Mine(cfg, arrived, w));
      }
      assert Coming(cfg, after.(workers := s.workers[v := worker]), w) == Coming(cfg, after, w) by {
        SameComing(cfg, after, after.(workers := s.workers[v := worker]), w);
      }
    } else {
      hide Mine, Coming, PartitionIndex;
    }
  }

  lemma SameComing(cfg: Config, s: State, s': State, w: nat)
    requires s.held == s'.held && s.queue == s'.queue
    ensures Coming(cfg, s, w) == Coming(cfg, s', w)
  {
  }

  /** The log at hand comes first, if it is for the worker. */
  lemma ComingIsHeldFirst(cfg: Config, s: State, w: nat)
    requires |s.workers| == cfg.Workers() && s.held.Some?
    ensures var rest := Coming(cfg, s.(held := None), w);
            Coming(cfg, s, w) == if Target(cfg, s, s.held.value) == w then [s.held.value] + rest else rest
  {
    var log := s.held.value;
    MineConcat(cfg, [log], s.queue, w);
    assert OptionSeq(s.held) == [log] && OptionSeq<Log>(None) + s.queue == s.queue;
    assert [log][..0] == [] && Mine(cfg, [], w) == [];
    assert Mine(cfg, [log], w) == if Target(cfg, s, log) == w then [log] else [];
  }

  /** A log moves from what is coming to the mailbox. */
  lemma HeldMoves(taken: seq<Log>, mailbox: seq<Log>, log: Log, rest: seq<Log>, mine: seq<Log>)
    ensures taken + mailbox + ([log] + rest) == taken + (mailbox + [log]) + rest
    ensures taken + mailbox + ([log] + rest) == mine ==> taken + (mailbox + [log]) <= mine
  {
    assert taken + mailbox + ([log] + rest) == taken + (mailbox + [log]) + rest;
  }

  /**
    A step of one worker: it holds the same logs as before, in the same order;
    or it stops, and keeps what it took up.
   */
  lemma WorkerKeepsOrder(cfg: Config, s: State, v: nat, worker: Worker, w: nat, arrived: seq<Log>)
    requires w < |s.workers| && v < |s.workers| && Ordered(cfg, s, w, arrived)
    requires worker.Taken() + worker.mailbox <= s.workers[v].Taken() + s.workers[v].mailbox
    requires worker.running ==>
               s.workers[v].running && worker.Taken() + worker.mailbox == s.workers[v].Taken() + s.workers[v].mailbox
    ensures Ordered(cfg, s.(workers := s.workers[v := worker]), w, arrived)
  {
    hide Mine;
    assert Coming(cfg, s.(workers := s.workers[v := worker]), w) == Coming(cfg, s, w);
    hide Coming;
  }

  lemma TakeKeepsOrder(cfg: Config, s: State, v: nat, w: nat, arrived: seq<Log>)
    requires w < |s.workers| && Ordered(cfg, s, w, arrived) && Enabled(cfg, s, Take(v))
    ensures Ordered(cfg, Next(cfg, s, Take(v)), w, arrived)
  {
    var worker := s.workers[v];
    var after := worker.(busy := Some(worker.mailbox[0]), mailbox := worker.mailbox[1..]);
    assert after.Taken() + after.mailbox == worker.Taken() + worker.mailbox;
    hide Ordered;
    WorkerKeepsOrder(cfg, s, v, after, w, arrived);
  }

  lemma FinishKeepsOrder(cfg: Config, s: State, v: nat, w: nat, arrived: seq<Log>)
    requires w < |s.workers| && Ordered(cfg, s, w, arrived) && Enabled(cfg, s, Finish(v))
    ensures Ordered(cfg, Next(cfg, s, Finish(v)), w, arrived)
  {
    var worker := s.workers[v];
    var after := worker.(busy := None, finished := worker.finished + [worker.busy.value]);
    assert after.Taken() == worker.Taken();
    hide Ordered;
    WorkerKeepsOrder(cfg, s, v, after, w, arrived);
  }

  lemma StopKeepsOrder(cfg: Config, s: State, v: nat, w: nat, arrived: seq<Log>)
    requires w < |s.workers| && Ordered(cfg, s, w, arrived) && Enabled(cfg, s, StopWorker(v))
    ensures Ordered(cfg, Next(cfg, s, StopWorker(v)), w, arrived)
  {
    var worker := s.workers[v];
    var after := worker.(running := false, mailbox := []);
    assert after.Taken() + [] == worker.Taken() <= worker.Taken() + worker.mailbox;
    hide Ordered;
    WorkerKeepsOrder(cfg, s, v, after, w, arrived);
  }

  lemma StepKeepsOrder(cfg: Config, s: State, e: Event, w: nat, arrived: seq<Log>)
    requires |s.workers| == cfg.Workers() && w < |s.workers| && Ordered(cfg, s, w, arrived)
    ensures |Next(cfg, s, e).workers| == |s.workers|
    ensures Ordered(cfg, Next(cfg, s, e), w, if e.Arrive? && Enabled(cfg, s, e) then arrived + [e.log] else arrived)
  {
    if Enabled(cfg, s, e) {
      match e
      case Arrive(log) => ArriveKeepsOrder(cfg, s, w, arrived, log);
      case Fetch => FetchKeepsOrder(cfg, s, w, arrived);
      case Deliver => DeliverKeepsOrder(cfg, s, w, arrived);
      case Take(v) => TakeKeepsOrder(cfg, s, v, w, arrived);
      case Finish(v) => FinishKeepsOrder(cfg, s, v, w, arrived);
      case StopWorker(v) => StopKeepsOrder(cfg, s, v, w, arrived);
      case StopDispatcher =>
    }
    hide Mine, PartitionIndex, Coming;
  }

  lemma {:induction false} RunKeepsOrder(cfg: Config, events: seq<Event>, w: nat)
    requires w < cfg.Workers()
    ensures var s := After(cfg, events);
            |s.workers| == cfg.Workers() && Ordered(cfg, s, w, Arrived(cfg, events))
  {
    if |events| > 0 {
      var n := |events| - 1;
      RunKeepsOrder(cfg, events[..n], w);
      StepKeepsOrder(cfg, After(cfg, events[..n]), events[n], w, Arrived(cfg, events[..n]));
      hide Next, Ordered, Enabled;
    }
  }

  /** No mailbox, nor the queue, ever holds more than its capacity. */
  lemma {:induction false} CapacitiesHold(cfg: Config, events: seq<Event>)
    ensures Bounded(cfg, After(cfg, events))
  {
    if |events| > 0 {
      CapacitiesHold(cfg, events[..|events| - 1]);
      hide PartitionIndex;
    }
  }

  // ---------- One key, one worker, one order ----------

  lemma {:induction false} MineAreMine(cfg: Config, logs: seq<Log>, w: nat)
    ensures forall l :: l in Mine(cfg, logs, w) ==> l in logs && PartitionIndex(cfg, l, cfg.Workers()) == w
  {
    hide PartitionIndex;
    if |logs| > 0 {
      MineAreMine(cfg, logs[..|logs| - 1], w);
    }
  }

  lemma {:induction false} KeyIsMine(cfg: Config, logs: seq<Log>, k: seq<string>)
    ensures WithKey(cfg, Mine(cfg, logs, cfg.hash(k) % cfg.Workers()), k) == WithKey(cfg, logs, k)
  {
    if |logs| > 0 {
      var n := |logs| - 1;
      var mine := Mine(cfg, logs[..n], cfg.hash(k) % cfg.Workers());
      KeyIsMine(cfg, logs[..n], k);
      assert (mine + [logs[n]])[..|mine|] == mine;
    }
  }

  lemma PrefixKeepsKey(cfg: Config, a: seq<Log>, b: seq<Log>, k: seq<string>)
    requires a <= b
    ensures WithKey(cfg, a, k) <= WithKey(cfg, b, k)
  {
    assert b == a + b[|a|..];
    WithKeyConcat(cfg, a, b[|a|..], k);
  }

  /**
    In every run: a partition key has one worker, and no other worker ever has a
    log of that key in hand, in its mailbox, or behind it; the logs of the key
    that its worker has taken up are the first of those that arrived, in order,
    and it has finished all of them but at most the last.
   */
  lemma KeysAreTakenInOrder(cfg: Config, events: seq<Event>, k: seq<string>)
    ensures var s := After(cfg, events);
            var w := cfg.hash(k) % cfg.Workers();
            && |s.workers| == cfg.Workers()
            && WithKey(cfg, s.workers[w].Taken(), k) <= WithKey(cfg, Arrived(cfg, events), k)
            && WithKey(cfg, s.workers[w].finished, k) <= WithKey(cfg, s.workers[w].Taken(), k)
            && |WithKey(cfg, s.workers[w].Taken(), k)| <= |WithKey(cfg, s.workers[w].finished, k)| + 1
            && forall v :: 0 <= v < |s.workers| && v != w ==>
                 forall l :: l in s.workers[v].Taken() + s.workers[v].mailbox ==> KeyOf(l, cfg.partitionKey) != k
  {
    var s, arrived := After(cfg, events), Arrived(cfg, events);
    var w := cfg.hash(k) % cfg.Workers();
    RunKeepsOrder(cfg, events, w);
    var worker := s.workers[w];
    TakePrefix(worker.Taken(), worker.mailbox, worker.Taken() + worker.mailbox);
    PrefixKeepsKey(cfg, worker.Taken(), Mine(cfg, arrived, w), k);
    KeyIsMine(cfg, arrived, k);
    WithKeyConcat(cfg, worker.finished, OptionSeq(worker.busy), k);
    forall v | 0 <= v < |s.workers| && v != w
      ensures forall l :: l in s.workers[v].Taken() + s.workers[v].mailbox ==> KeyOf(l, cfg.partitionKey) != k
    {
      OthersHaveNone(cfg, events, k, v);
    }
    hide Mine, After, Arrived, Ordered;
  }

  lemma PrefixIsAmong(a: seq<Log>, b: seq<Log>)
    requires a <= b
    ensures forall l :: l in a ==> l in b
  {
    assert forall i :: 0 <= i < |a| ==> a[i] == b[i];
  }

  lemma OthersHaveNone(cfg: Config, events: seq<Event>, k: seq<string>, v: nat)
    requires v < cfg.Workers() && v != cfg.hash(k) % cfg.Workers()
    ensures |After(cfg, events).workers| == cfg.Workers()
    ensures forall l :: l in After(cfg, events).workers[v].Taken() + After(cfg, events).workers[v].mailbox ==>
              KeyOf(l, cfg.partitionKey) != k
  {
    RunKeepsOrder(cfg, events, v);
    MineAreMine(cfg, Arrived(cfg, events), v);
    var worker := After(cfg, events).workers[v];
    hide After, Arrived, Mine, Coming, KeyOf;
    PrefixIsAmong(worker.Taken() + worker.mailbox, Mine(cfg, Arrived(cfg, events), v));
    hide Ordered;
  }

  /**
    While its worker and the dispatcher run, no log of a key is lost: each
    arrival is taken, waiting, or on its way.
   */
  lemma NoKeyIsLost(cfg: Config, events: seq<Event>, k: seq<string>)
    ensures var s := After(cfg, events);
            var w := cfg.hash(k) % cfg.Workers();
            && |s.workers| == cfg.Workers()
            && var coming := WithKey(cfg, OptionSeq(s.held) + s.queue, k);
            s.workers[w].running && s.dispatching ==>
              WithKey(cfg, Arrived(cfg, events), k) ==
              WithKey(cfg, s.workers[w].Taken(), k) + WithKey(cfg, s.workers[w].mailbox, k) + coming
  {
    var s, arrived := After(cfg, events), Arrived(cfg, events);
    var w := cfg.hash(k) % cfg.Workers();
    RunKeepsOrder(cfg, events, w);
    var worker := s.workers[w];
    KeyIsMine(cfg, arrived, k);
    KeyIsMine(cfg, OptionSeq(s.held) + s.queue, k);
    WithKeyConcat(cfg, worker.Taken(), worker.mailbox, k);
    WithKeyConcat(cfg, worker.Taken() + worker.mailbox, Coming(cfg, s, w), k);
    hide Mine, After, Arrived, WithKey;
  }
}
