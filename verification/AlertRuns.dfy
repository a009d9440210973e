/**
  Over any run, batching is invisible: the table ends up as if everything
  received had been flushed at once.
 */
module AlertRuns {
  import opened Alerts
  import opened Basics
  import opened AlertTable
  import opened AlertBatcher

  ghost function Run(h: string -> nat, batchSize: nat, t: Table, inputs: seq<Input>): Batcher {
    if |inputs| == 0 then Batcher(t, [], true)
    else Turn(h, batchSize, Run(h, batchSize, t, inputs[..|inputs| - 1]), inputs[|inputs| - 1])
  }

  /** The alerts received before the shutdown. */
  function Taken(inputs: seq<Input>): seq<Alert> {
    if |inputs| == 0 then []
    else
      var n := |inputs| - 1;
      if inputs[n].Received? && Shutdown !in inputs[..n]
      then Taken(inputs[..n]) + [inputs[n].alert]
      else Taken(inputs[..n])
  }

  lemma {:induction false} RunsUntilShutdown(h: string -> nat, batchSize: nat, t: Table, inputs: seq<Input>)
    ensures Run(h, batchSize, t, inputs).running <==> Shutdown !in inputs
  {
    hide Flush, Aggregate;
    if |inputs| > 0 {
      RunsUntilShutdown(h, batchSize, t, inputs[..|inputs| - 1]);
    }
  }

  /** The buffer stays below the batch size between turns, and is empty after a shutdown. */
  lemma {:induction false} BufferIsBounded(h: string -> nat, batchSize: nat, t: Table, inputs: seq<Input>)
    ensures |Run(h, batchSize, t, inputs).buffer| < Max(1, batchSize)
    ensures !Run(h, batchSize, t, inputs).running ==> Run(h, batchSize, t, inputs).buffer == []
  {
    hide Flush, Aggregate;
    if |inputs| > 0 {
      BufferIsBounded(h, batchSize, t, inputs[..|inputs| - 1]);
    }
  }

  // ---------- Transparency ----------

  /** How many alerts of the batch have the key. */
  function Occurrences(h: string -> nat, batch: seq<Alert>, k: DedupKey): nat {
    if |batch| == 0 then 0
    else
      var n := |batch| - 1;
      Occurrences(h, batch[..n], k) + if KeyOf(h, batch[n]) == k then 1 else 0
  }

  /** A key that is met again, and has no open row, starts open: the status is that of its first alert. */
  ghost predicate RepeatsStartOpen(h: string -> nat, t: Table, batch: seq<Alert>) {
    forall k :: k in Aggregate(h, batch) && Occurrences(h, batch, k) > 1 && !HasOpen(h, t, k) ==>
      IsOpen(Aggregate(h, batch)[k].status)
  }

  /** The table after everything was flushed at once. */
  ghost function AtOnce(h: string -> nat, t: Table, batch: seq<Alert>): Table {
    Flush(h, t, Aggregate(h, batch))
  }

  /** The batch's alerts may be flushed into the table. */
  ghost predicate MayFlush(h: string -> nat, t: Table, batch: seq<Alert>) {
    OneOpenPerKey(h, t) && FreshBatch(t, batch) && RepeatsStartOpen(h, t, batch)
  }

  lemma {:induction false} OccurrencesConcat(h: string -> nat, a: seq<Alert>, b: seq<Alert>, k: DedupKey)
    ensures Occurrences(h, a + b, k) == Occurrences(h, a, k) + Occurrences(h, b, k)
  {
    hide KeyOf;
    if |b| == 0 {
      assert a + b == a;
    } else {
      var n := |b| - 1;
      assert (a + b)[..|a + b| - 1] == a + b[..n];
      OccurrencesConcat(h, a, b[..n], k);
    }
  }

  lemma {:induction false} AggregateHasOccurring(h: string -> nat, batch: seq<Alert>, k: DedupKey)
    ensures k in Aggregate(h, batch) <==> Occurrences(h, batch, k) > 0
  {
    hide KeyOf, Merge;
    if |batch| > 0 {
      AggregateHasOccurring(h, batch[..|batch| - 1], k);
    }
  }

  /** What a cut does to a key: how often each part meets it, and whose status the whole has. */
  lemma CutAt(h: string -> nat, a: seq<Alert>, b: seq<Alert>, k: DedupKey)
    ensures var m1, m2, m := Aggregate(h, a), Aggregate(h, b), Aggregate(h, a + b);
            && (k in m1 <==> Occurrences(h, a, k) > 0) && (k in m2 <==> Occurrences(h, b, k) > 0)
            && (k in m <==> k in m1 || k in m2)
            && Occurrences(h, a + b, k) == Occurrences(h, a, k) + Occurrences(h, b, k)
            && (k in m1 ==> m[k].status == m1[k].status)
            && (k in m2 && k !in m1 ==> m[k].status == m2[k].status)
  {
    AggregateConcat(h, a, b);
    AggregateHasOccurring(h, a, k);
    AggregateHasOccurring(h, b, k);
    OccurrencesConcat(h, a, b, k);
    hide Aggregate, Occurrences;
  }

  lemma RepeatsInParts(h: string -> nat, t: Table, a: seq<Alert>, b: seq<Alert>)
    requires FreshBatch(t, a) && RepeatsStartOpen(h, t, a + b)
    ensures RepeatsStartOpen(h, t, a) && RepeatsStartOpen(h, AtOnce(h, t, a), b)
    ensures SplitsCleanly(h, t, Aggregate(h, a), Aggregate(h, b))
  {
    FreshAggregate(h, t, a);
    hide Aggregate, Occurrences, KeyOf, HasOpen, Flush;
    var m1, m2, m := Aggregate(h, a), Aggregate(h, b), Aggregate(h, a + b);
    forall k
      ensures k in m1 && Occurrences(h, a, k) > 1 && !HasOpen(h, t, k) ==> IsOpen(m1[k].status)
      ensures k in m1 && k in m2 && !HasOpen(h, t, k) ==> IsOpen(m1[k].status)
      ensures k in m2 && Occurrences(h, b, k) > 1 && !HasOpen(h, AtOnce(h, t, a), k) ==> IsOpen(m2[k].status)
    {
      CutAt(h, a, b, k);
      OpenAfterFlush(h, t, m1, k);
    }
  }

  /** A batch may be flushed in two parts. */
  lemma MayFlushInParts(h: string -> nat, t: Table, a: seq<Alert>, b: seq<Alert>)
    requires MayFlush(h, t, a + b)
    ensures MayFlush(h, t, a) && MayFlush(h, AtOnce(h, t, a), b)
    ensures SameTable(h, AtOnce(h, t, a + b), AtOnce(h, AtOnce(h, t, a), b))
  {
    FreshInParts(h, t, a, b);
    AggregateConcat(h, a, b);
    RepeatsInParts(h, t, a, b);
    hide Flush, Aggregate, KeyOf, FreshBatch, Fresh, FreshBoth, RepeatsStartOpen, SplitsCleanly, OneOpenPerKey, Keyed;
    FlushKeepsOneOpen(h, t, Aggregate(h, a));
    BatchBoundaryIsInvisible(h, t, Aggregate(h, a), Aggregate(h, b));
    StillFresh(h, t, a, b);
  }

  lemma FreshInParts(h: string -> nat, t: Table, a: seq<Alert>, b: seq<Alert>)
    requires FreshBatch(t, a + b)
    ensures FreshBatch(t, a) && FreshBatch(t, b)
    ensures Keyed(h, Aggregate(h, a)) && Keyed(h, Aggregate(h, b))
    ensures Fresh(t, Aggregate(h, a)) && FreshBoth(t, Aggregate(h, a), Aggregate(h, b))
  {
    assert forall i :: 0 <= i < |a| ==> a[i] == (a + b)[i];
    assert forall i :: 0 <= i < |b| ==> b[i] == (a + b)[|a| + i];
    FreshAggregate(h, t, a);
    FreshAggregate(h, t, b);
    FreshAggregates(h, t, a, b);
  }

  lemma FreshAggregates(h: string -> nat, t: Table, a: seq<Alert>, b: seq<Alert>)
    requires FreshBatch(t, a + b)
    requires Fresh(t, Aggregate(h, a)) && Fresh(t, Aggregate(h, b))
    ensures FreshBoth(t, Aggregate(h, a), Aggregate(h, b))
  {
    AggregateKeys(h, a);
    AggregateKeys(h, b);
    hide Aggregate, KeyOf;
    var m1, m2 := Aggregate(h, a), Aggregate(h, b);
    forall j, k | j in m1 && k in m2 ensures m1[j].id != m2[k].id {
      var x :| x in a && x.id == m1[j].id && x.status == m1[j].status && KeyOf(h, x) == j;
      var y :| y in b && y.id == m2[k].id && y.status == m2[k].status && KeyOf(h, y) == k;
      var i :| 0 <= i < |a| && a[i] == x;
      var l :| 0 <= l < |b| && b[l] == y;
      assert (a + b)[i] == x && (a + b)[|a| + l] == y;
    }
  }

  /** The second part's ids are new to the table the first part leaves. */
  lemma StillFresh(h: string -> nat, t: Table, a: seq<Alert>, b: seq<Alert>)
    requires FreshBatch(t, a + b) && Fresh(t, Aggregate(h, a))
    ensures FreshBatch(AtOnce(h, t, a), b)
  {
    AggregateKeys(h, a);
    hide Aggregate, KeyOf, Flush;
    forall i, j | 0 <= i < |b| && 0 <= j < |a| ensures a[j].id != b[i].id {
      assert (a + b)[j] == a[j] && (a + b)[|a| + i] == b[i];
    }
    assert forall i :: 0 <= i < |b| ==> b[i] == (a + b)[|a| + i];
    forall i, k | 0 <= i < |b| && k in Aggregate(h, a) ensures Aggregate(h, a)[k].id != b[i].id {
      var x :| x in a && x.id == Aggregate(h, a)[k].id && x.status == Aggregate(h, a)[k].status && KeyOf(h, x) == k;
      var j :| 0 <= j < |a| && a[j] == x;
    }
    forall i | 0 <= i < |b| ensures b[i].id !in AtOnce(h, t, a) {
      if b[i].id in AtOnce(h, t, a) {
        var k := FlushRow(h, t, Aggregate(h, a), b[i].id);
      }
    }
  }

  lemma SameIsTransitive(h: string -> nat, t1: Table, t2: Table, t3: Table)
    requires SameTable(h, t1, t2) && SameTable(h, t2, t3)
    ensures SameTable(h, t1, t3)
  {
    hide KeyOf;
    forall id | id in t1 ensures SameRow(h, t1[id], t3[id]) {
      assert SameRow(h, t1[id], t2[id]) && SameRow(h, t2[id], t3[id]);
    }
  }

  /** Flushing the rest after a part, even in a table that differs in prose, comes to flushing all. */
  lemma FlushTheRest(h: string -> nat, t: Table, a: seq<Alert>, b: seq<Alert>, t1: Table)
    requires MayFlush(h, t, a + b) && SameTable(h, AtOnce(h, t, a), t1) && OneOpenPerKey(h, t1)
    ensures SameTable(h, AtOnce(h, t, a + b), AtOnce(h, t1, b)) && OneOpenPerKey(h, AtOnce(h, t1, b))
  {
    MayFlushInParts(h, t, a, b);
    hide Flush, Aggregate, KeyOf, SameRow, OneOpenPerKey;
    FreshAggregate(h, AtOnce(h, t, a), b);
    FreshAggregate(h, t1, b);
    FlushIgnoresProse(h, AtOnce(h, t, a), t1, Aggregate(h, b));
    SameIsTransitive(h, AtOnce(h, t, a + b), AtOnce(h, AtOnce(h, t, a), b), AtOnce(h, t1, b));
    FlushKeepsOneOpen(h, t1, Aggregate(h, b));
  }

  lemma PrefixMayFlush(h: string -> nat, t: Table, a: seq<Alert>, b: seq<Alert>)
    requires MayFlush(h, t, a + b)
    ensures MayFlush(h, t, a)
  {
    FreshInParts(h, t, a, b);
    RepeatsInParts(h, t, a, b);
  }

  /**
    Where a run stands: a first part has been flushed, the rest is buffered, and
    the table is as if flushed at once.
   */
  ghost predicate Stands(h: string -> nat, t: Table, taken: seq<Alert>, b: Batcher, flushed: seq<Alert>) {
    && taken == flushed + b.buffer
    && SameTable(h, AtOnce(h, t, flushed), b.table)
    && OneOpenPerKey(h, b.table)
  }

  lemma FlushStands(h: string -> nat, t: Table, taken: seq<Alert>, b: Batcher, flushed: seq<Alert>)
    requires MayFlush(h, t, taken) && Stands(h, t, taken, b, flushed)
    ensures Stands(h, t, taken, FlushBuffer(h, b), taken)
  {
    hide Flush, Aggregate, KeyOf, SameRow, OneOpenPerKey, MayFlush;
    if b.buffer == [] {
      assert flushed == taken;
    } else {
      FlushTheRest(h, t, flushed, b.buffer, b.table);
      assert taken + [] == taken;
    }
  }

  lemma NothingFlushed(h: string -> nat, t: Table)
    ensures SameTable(h, AtOnce(h, t, []), t)
  {
    FlushOfNothing(h, t);
  }

  lemma {:induction false} RunStands(h: string -> nat, batchSize: nat, t: Table, inputs: seq<Input>)
    returns (flushed: seq<Alert>)
    requires MayFlush(h, t, Taken(inputs))
    ensures Stands(h, t, Taken(inputs), Run(h, batchSize, t, inputs), flushed)
  {
    if |inputs| == 0 {
      flushed := [];
      NothingFlushed(h, t);
    } else {
      hide MayFlush, SameTable, OneOpenPerKey, AtOnce, FlushBuffer;
      var n := |inputs| - 1;
      var input := inputs[n];
      RunsUntilShutdown(h, batchSize, t, inputs[..n]);
      var b, taken := Run(h, batchSize, t, inputs[..n]), Taken(inputs[..n]);
      assert taken + [] == taken;
      PrefixMayFlush(h, t, taken, if b.running && input.Received? then [input.alert] else []);
      flushed := RunStands(h, batchSize, t, inputs[..n]);
      if b.running {
        var b1 := if input.Received? then b.(buffer := b.buffer + [input.alert]) else b;
        var all := if input.Received? then taken + [input.alert] else taken;
        assert all == flushed + b1.buffer;
        FlushStands(h, t, all, b1, flushed);
        if Turn(h, batchSize, b, input) != b1 {
          flushed := all;
        }
      }
    }
  }

  /** After the shutdown the table is, up to prose, the one a single flush of everything received would have left. */
  lemma BatchingIsTransparent(h: string -> nat, batchSize: nat, t: Table, inputs: seq<Input>)
    requires MayFlush(h, t, Taken(inputs)) && Shutdown in inputs
    ensures SameTable(h, AtOnce(h, t, Taken(inputs)), Run(h, batchSize, t, inputs).table)
    ensures OneOpenPerKey(h, Run(h, batchSize, t, inputs).table)
  {
    hide MayFlush, SameTable, OneOpenPerKey, AtOnce, Turn;
    var flushed := RunStands(h, batchSize, t, inputs);
    RunsUntilShutdown(h, batchSize, t, inputs);
    BufferIsBounded(h, batchSize, t, inputs);
    assert flushed + [] == flushed;
  }

  /** And its counts have grown by what was received, exactly when no row's count passes its column. */
  lemma NoCountIsLost(h: string -> nat, batchSize: nat, t: Table, inputs: seq<Input>)
    requires MayFlush(h, t, Taken(inputs)) && Shutdown in inputs
    requires Counts(t, Aggregate(h, Taken(inputs))) && BatchTotal(Taken(inputs)) < 0x1_0000_0000_0000_0000
    ensures Sum(Run(h, batchSize, t, inputs).table) == Sum(t) + BatchTotal(Taken(inputs))
       <==> Fits(h, t, Aggregate(h, Taken(inputs)))
  {
    BatchingIsTransparent(h, batchSize, t, inputs);
    FreshAggregate(h, t, Taken(inputs));
    AggregateKeepsTotal(h, Taken(inputs));
    SumOfSame(h, AtOnce(h, t, Taken(inputs)), Run(h, batchSize, t, inputs).table);
    FlushAddsCounts(h, t, Aggregate(h, Taken(inputs)));
    hide Flush, Sum, Run, Taken, Aggregate;
  }

  // ---------- Exactly when batching is transparent ----------

  /** Wherever the batch is cut in two, the table is the same as without the cut. */
  ghost predicate EveryCutIsInvisible(h: string -> nat, t: Table, batch: seq<Alert>) {
    forall n :: 0 <= n <= |batch| ==>
      SameTable(h, AtOnce(h, t, batch), AtOnce(h, AtOnce(h, t, batch[..n]), batch[n..]))
  }

  /** Whatever the batch size, the ticks and their places, the table ends up as if flushed at once. */
  ghost predicate EveryRunIsTransparent(h: string -> nat, t: Table, batch: seq<Alert>) {
    forall batchSize: nat, inputs :: Shutdown in inputs && Taken(inputs) == batch ==>
      SameTable(h, AtOnce(h, t, batch), Run(h, batchSize, t, inputs).table)
  }

  /** Between the first two of a key's alerts there is a place to cut. */
  lemma {:induction false} CutBetween(h: string -> nat, batch: seq<Alert>, k: DedupKey) returns (n: nat)
    requires Occurrences(h, batch, k) > 1
    ensures 0 < n < |batch| && Occurrences(h, batch[..n], k) > 0 && Occurrences(h, batch[n..], k) > 0
  {
    hide KeyOf;
    var last := |batch| - 1;
    if KeyOf(h, batch[last]) == k {
      n := last;
      assert batch[n..] == [] + [batch[last]] && [batch[last]][..0] == [];
    } else {
      n := CutBetween(h, batch[..last], k);
      assert batch[..last][..n] == batch[..n] && batch[n..][..last - n] == batch[..last][n..];
    }
  }

  /** A key that is met again and starts closed shows in the table where its alerts are cut apart. */
  lemma BadCut(h: string -> nat, t: Table, batch: seq<Alert>) returns (n: nat)
    requires FreshBatch(t, batch) && !RepeatsStartOpen(h, t, batch)
    ensures 0 < n < |batch|
    ensures !SameTable(h, AtOnce(h, t, batch), AtOnce(h, AtOnce(h, t, batch[..n]), batch[n..]))
  {
    var k :| k in Aggregate(h, batch) && Occurrences(h, batch, k) > 1 && !HasOpen(h, t, k)
             && !IsOpen(Aggregate(h, batch)[k].status);
    n := CutBetween(h, batch, k);
    var a, b := batch[..n], batch[n..];
    assert a + b == batch;
    FreshInParts(h, t, a, b);
    AggregateConcat(h, a, b);
    CutAt(h, a, b, k);
    hide Flush, Aggregate, KeyOf, FreshBatch, Fresh, FreshBoth, Occurrences, HasOpen, Keyed;
    BatchBoundaryIsInvisible(h, t, Aggregate(h, a), Aggregate(h, b));
  }

  /** Every cut of the received alerts is invisible exactly when repeated keys without an open row start open. */
  lemma EveryCutIsInvisibleExactlyWhen(h: string -> nat, t: Table, batch: seq<Alert>)
    requires OneOpenPerKey(h, t) && FreshBatch(t, batch)
    ensures EveryCutIsInvisible(h, t, batch) <==> RepeatsStartOpen(h, t, batch)
  {
    hide Flush, Aggregate, KeyOf, FreshBatch, RepeatsStartOpen, OneOpenPerKey, AtOnce, SameTable;
    if RepeatsStartOpen(h, t, batch) {
      forall n | 0 <= n <= |batch|
        ensures SameTable(h, AtOnce(h, t, batch), AtOnce(h, AtOnce(h, t, batch[..n]), batch[n..]))
      {
        assert batch[..n] + batch[n..] == batch;
        MayFlushInParts(h, t, batch[..n], batch[n..]);
      }
    } else {
      var n := BadCut(h, t, batch);
    }
  }

  /** The alerts, one after the other. */
  function Feed(batch: seq<Alert>): seq<Input> {
    seq(|batch|, i requires 0 <= i < |batch| => Received(batch[i]))
  }

  lemma OneMore(h: string -> nat, batchSize: nat, t: Table, inputs: seq<Input>, input: Input)
    ensures Run(h, batchSize, t, inputs + [input]) == Turn(h, batchSize, Run(h, batchSize, t, inputs), input)
    ensures Taken(inputs + [input]) ==
            if input.Received? && Shutdown !in inputs then Taken(inputs) + [input.alert] else Taken(inputs)
    ensures Shutdown in inputs + [input] <==> Shutdown in inputs || input == Shutdown
  {
    hide Turn;
    assert (inputs + [input])[..|inputs|] == inputs;
  }

  /** Alerts that do not fill the buffer are buffered. */
  lemma {:induction false} FeedIsBuffered(h: string -> nat, batchSize: nat, t: Table, inputs: seq<Input>,
                                          batch: seq<Alert>)
    requires Shutdown !in inputs && |Run(h, batchSize, t, inputs).buffer| + |batch| < batchSize
    ensures var b := Run(h, batchSize, t, inputs);
            Run(h, batchSize, t, inputs + Feed(batch)) == b.(buffer := b.buffer + batch)
    ensures Taken(inputs + Feed(batch)) == Taken(inputs) + batch && Shutdown !in inputs + Feed(batch)
  {
    hide FlushBuffer, Run, Taken;
    if |batch| == 0 {
      assert inputs + Feed(batch) == inputs;
      assert Run(h, batchSize, t, inputs).buffer + batch == Run(h, batchSize, t, inputs).buffer;
    } else {
      var n := |batch| - 1;
      FeedIsBuffered(h, batchSize, t, inputs, batch[..n]);
      assert inputs + Feed(batch) == inputs + Feed(batch[..n]) + [Received(batch[n])];
      RunsUntilShutdown(h, batchSize, t, inputs + Feed(batch[..n]));
      OneMore(h, batchSize, t, inputs + Feed(batch[..n]), Received(batch[n]));
      assert batch == batch[..n] + [batch[n]];
    }
  }

  /** Some alerts, and then a tick or the shutdown, after what came before. */
  function Fed(inputs: seq<Input>, batch: seq<Alert>, input: Input): seq<Input> {
    inputs + Feed(batch) + [input]
  }

  /** The inputs bring the batcher there. */
  ghost predicate LeadsTo(h: string -> nat, batchSize: nat, t: Table, inputs: seq<Input>, b: Batcher) {
    Run(h, batchSize, t, inputs) == b
  }

  /** From an empty buffer, they are flushed at once. */
  lemma FedIsFlushed(h: string -> nat, batchSize: nat, t: Table, inputs: seq<Input>, t1: Table, batch: seq<Alert>,
                     input: Input)
    requires Shutdown !in inputs && LeadsTo(h, batchSize, t, inputs, Batcher(t1, [], true))
    requires batch != [] && |batch| < batchSize && !input.Received?
    ensures var all := Fed(inputs, batch, input);
            && LeadsTo(h, batchSize, t, all, Batcher(AtOnce(h, t1, batch), [], input.Tick?))
            && Taken(all) == Taken(inputs) + batch && (Shutdown in all <==> input == Shutdown)
  {
    hide AtOnce, Run, Taken, Feed, FlushBuffer;
    FeedIsBuffered(h, batchSize, t, inputs, batch);
    assert [] + batch == batch;
    OneTick(h, Run(h, batchSize, t, inputs + Feed(batch)), t1, batch);
    OneMore(h, batchSize, t, inputs + Feed(batch), input);
  }

  /** A run that ticks just at a given place. */
  function CutRun(a: seq<Alert>, b: seq<Alert>): seq<Input> {
    Fed(Fed([], a, Tick), b, Shutdown)
  }

  /** The first part of such a run. */
  lemma FirstIsFlushed(h: string -> nat, batchSize: nat, t: Table, batch: seq<Alert>)
    requires batch != [] && |batch| < batchSize
    ensures var all := Fed([], batch, Tick);
            && LeadsTo(h, batchSize, t, all, Batcher(AtOnce(h, t, batch), [], true))
            && Taken(all) == batch && Shutdown !in all
  {
    hide AtOnce, Fed;
    FedIsFlushed(h, batchSize, t, [], t, batch, Tick);
    assert Taken([]) == [] && [] + batch == batch;
  }

  lemma CutRunCuts(h: string -> nat, t: Table, a: seq<Alert>, b: seq<Alert>)
    requires a != [] && b != []
    ensures Shutdown in CutRun(a, b) && Taken(CutRun(a, b)) == a + b
    ensures LeadsTo(h, |a| + |b| + 1, t, CutRun(a, b), Batcher(AtOnce(h, AtOnce(h, t, a), b), [], false))
  {
    hide AtOnce, Taken, Fed, LeadsTo;
    FirstIsFlushed(h, |a| + |b| + 1, t, a);
    FedIsFlushed(h, |a| + |b| + 1, t, Fed([], a, Tick), AtOnce(h, t, a), b, Shutdown);
  }

  lemma OneTick(h: string -> nat, b: Batcher, t: Table, buffer: seq<Alert>)
    requires b == Batcher(t, buffer, true) && buffer != []
    ensures FlushBuffer(h, b) == Batcher(AtOnce(h, t, buffer), [], true)
  {
  }

  /**
    The batcher is transparent, whatever its batch size and however its ticks
    fall, exactly when each key that is met again and has no open row starts open.
   */
  lemma BatchingIsTransparentExactlyWhen(h: string -> nat, t: Table, batch: seq<Alert>)
    requires OneOpenPerKey(h, t) && FreshBatch(t, batch)
    ensures EveryRunIsTransparent(h, t, batch) <==> RepeatsStartOpen(h, t, batch)
  {
    hide RepeatsStartOpen, OneOpenPerKey, FreshBatch, AtOnce, SameTable, Run, CutRun;
    if RepeatsStartOpen(h, t, batch) {
      forall batchSize: nat, inputs | Shutdown in inputs && Taken(inputs) == batch
        ensures SameTable(h, AtOnce(h, t, batch), Run(h, batchSize, t, inputs).table)
      {
        BatchingIsTransparent(h, batchSize, t, inputs);
      }
    } else {
      var n := BadCut(h, t, batch);
      CutRunCuts(h, t, batch[..n], batch[n..]);
      assert batch[..n] + batch[n..] == batch;
    }
  }
}
