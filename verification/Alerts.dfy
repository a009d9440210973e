/** Alerts, their deduplication keys, and how two of them merge. */
module Alerts {
  import opened Basics
  import Fingerprint

  datatype Status = New | Investigating | Resolved | FalsePositive

  /** An alert in memory. Times are microseconds since the epoch; logs are known by their ids. */
  datatype Alert = Alert(
    id: nat,
    tenantId: string,
    ruleId: string,
    ruleName: string,
    severity: string,
    description: string,
    sourceIp: string,
    events: seq<nat>,
    firstSeen: int,
    lastSeen: int,
    status: Status,
    eventsCount: nat)

  predicate IsOpen(status: Status) {
    status.New? || status.Investigating?
  }

  // ---------- Deduplication key ----------

  const DEDUP_WINDOW_SECONDS := 60

  datatype DedupKey = DedupKey(tenantId: string, ruleId: string, entity: string, fingerprint: nat, bucket: int)

  /** Seconds, rounded down, in steps of the window, rounded down. */
  function WindowBucket(lastSeen: int): int {
    (lastSeen / 1_000_000) / DEDUP_WINDOW_SECONDS
  }

  /** The key, for a 64-bit text hash `h`. */
  function KeyOf(h: string -> nat, a: Alert): DedupKey {
    DedupKey(a.tenantId, a.ruleId, a.sourceIp, h(Fingerprint.Normalize(a.description)), WindowBucket(a.lastSeen))
  }

  // ---------- Merging ----------

  /** The 64-bit wrap of an unsigned sum. */
  function Wrap64(x: nat): nat {
    x % 0x1_0000_0000_0000_0000
  }

  function Merge(existing: Alert, incoming: Alert): Alert {
    existing.(
      firstSeen := Min(existing.firstSeen, incoming.firstSeen),
      lastSeen := Max(existing.lastSeen, incoming.lastSeen),
      eventsCount := Wrap64(existing.eventsCount + incoming.eventsCount),
      events := existing.events + incoming.events,
      description := if incoming.lastSeen >= existing.lastSeen then incoming.description else existing.description)
  }

  /** The field-by-field merge: the description test reads the already advanced last-seen time. */
  method MergeAlert(target: Alert, incoming: Alert) returns (existing: Alert)
    ensures existing == Merge(target, incoming)
  {
    existing := target;
    var incomingLastSeen := incoming.lastSeen;
    existing := existing.(firstSeen := Min(existing.firstSeen, incoming.firstSeen));
    existing := existing.(lastSeen := Max(existing.lastSeen, incomingLastSeen));
    existing := existing.(eventsCount := Wrap64(existing.eventsCount + incoming.eventsCount));
    existing := existing.(events := existing.events + incoming.events);
    if incomingLastSeen >= existing.lastSeen {
      existing := existing.(description := incoming.description);
    }
  }

  /** Merging two alerts of one key keeps the key, whichever description and time win. */
  lemma MergeKeepsKey(h: string -> nat, a: Alert, b: Alert)
    requires KeyOf(h, a) == KeyOf(h, b)
    ensures KeyOf(h, Merge(a, b)) == KeyOf(h, a)
  {
  }

  /** Merging is associative, in every field. */
  lemma MergeIsAssociative(a: Alert, b: Alert, c: Alert)
    ensures Merge(Merge(a, b), c) == Merge(a, Merge(b, c))
  {
    assert a.events + b.events + c.events == a.events + (b.events + c.events);
  }

  // ---------- Aggregating a batch ----------

  /** Takes an alert into the map: merged into its key's alert, or as that alert. */
  function Put(m: map<DedupKey, Alert>, k: DedupKey, a: Alert): map<DedupKey, Alert> {
    m[k := if k in m then Merge(m[k], a) else a]
  }

  /** The alerts of a batch by key, each key's alerts merged in order. */
  function Aggregate(h: string -> nat, batch: seq<Alert>): map<DedupKey, Alert> {
    if |batch| == 0 then map[]
    else
      var n := |batch| - 1;
      Put(Aggregate(h, batch[..n]), KeyOf(h, batch[n]), batch[n])
  }

  /** Each aggregated alert carries its key, and the id and status of one alert of the batch. */
  lemma {:induction false} AggregateKeys(h: string -> nat, batch: seq<Alert>)
    ensures forall k :: k in Aggregate(h, batch) ==>
              && KeyOf(h, Aggregate(h, batch)[k]) == k
              && exists a ::
                   && a in batch && KeyOf(h, a) == k
                   && a.id == Aggregate(h, batch)[k].id && a.status == Aggregate(h, batch)[k].status
  {
    if |batch| > 0 {
      var n := |batch| - 1;
      AggregateKeys(h, batch[..n]);
      var m := Aggregate(h, batch[..n]);
      forall k | k in Aggregate(h, batch)
        ensures KeyOf(h, Aggregate(h, batch)[k]) == k
        ensures exists a :: a in batch && a.id == Aggregate(h, batch)[k].id && a.status == Aggregate(h, batch)[k].status
                            && KeyOf(h, a) == k
      {
        if k in m {
          var a :| a in batch[..n] && a.id == m[k].id && a.status == m[k].status && KeyOf(h, a) == k;
          assert a in batch;
          if k == KeyOf(h, batch[n]) {
            MergeKeepsKey(h, m[k], batch[n]);
          }
        } else {
          assert batch[n] in batch;
        }
      }
    }
  }

  /** Two aggregates put together: the second's alerts come after the first's. */
  function Join(m1: map<DedupKey, Alert>, m2: map<DedupKey, Alert>): map<DedupKey, Alert> {
    map k | k in m1.Keys + m2.Keys ::
      if k in m1 && k in m2 then Merge(m1[k], m2[k]) else if k in m1 then m1[k] else m2[k]
  }

  lemma JoinOfPut(m1: map<DedupKey, Alert>, m2: map<DedupKey, Alert>, k: DedupKey, a: Alert)
    ensures Put(Join(m1, m2), k, a) == Join(m1, Put(m2, k, a))
  {
    if k in m1 && k in m2 {
      MergeIsAssociative(m1[k], m2[k], a);
    }
    hide Merge;
  }

  /** Aggregating a concatenation is joining the aggregates. */
  lemma {:induction false} AggregateConcat(h: string -> nat, a: seq<Alert>, b: seq<Alert>)
    ensures Aggregate(h, a + b) == Join(Aggregate(h, a), Aggregate(h, b))
  {
    hide KeyOf, Put;
    if |b| == 0 {
      assert a + b == a;
      assert Join(Aggregate(h, a), map[]) == Aggregate(h, a);
    } else {
      var n := |b| - 1;
      assert (a + b)[..|a + b| - 1] == a + b[..n];
      AggregateConcat(h, a, b[..n]);
      JoinOfPut(Aggregate(h, a), Aggregate(h, b[..n]), KeyOf(h, b[n]), b[n]);
    }
  }

  // ---------- Counting ----------

  ghost function Total(m: map<DedupKey, Alert>): nat {
    if m == map[] then 0
    else
      var k :| k in m;
      m[k].eventsCount + Total(m - {k})
  }

  lemma {:induction false} TotalWithout(m: map<DedupKey, Alert>, k: DedupKey)
    requires k in m
    ensures Total(m) == m[k].eventsCount + Total(m - {k})
    decreases |m|
  {
    var j :| j in m && Total(m) == m[j].eventsCount + Total(m - {j});
    assert (m - {j}).Keys == m.Keys - {j};
    if j != k {
      TotalWithout(m - {j}, k);
      assert (m - {k}).Keys == m.Keys - {k};
      TotalWithout(m - {k}, j);
      assert m - {j} - {k} == m - {k} - {j};
    }
  }

  function BatchTotal(batch: seq<Alert>): nat {
    if |batch| == 0 then 0 else BatchTotal(batch[..|batch| - 1]) + batch[|batch| - 1].eventsCount
  }

  lemma TotalOfPut(m: map<DedupKey, Alert>, k: DedupKey, a: Alert)
    requires Total(m) + a.eventsCount < 0x1_0000_0000_0000_0000
    ensures Total(Put(m, k, a)) == Total(m) + a.eventsCount
  {
    var m' := Put(m, k, a);
    TotalWithout(m', k);
    assert m' - {k} == m - {k};
    if k in m {
      TotalWithout(m, k);
    } else {
      assert m - {k} == m;
    }
  }

  /** Aggregating neither loses nor invents a count, as long as the batch's total fits 64 bits. */
  lemma {:induction false} AggregateKeepsTotal(h: string -> nat, batch: seq<Alert>)
    requires BatchTotal(batch) < 0x1_0000_0000_0000_0000
    ensures Total(Aggregate(h, batch)) == BatchTotal(batch)
  {
    hide KeyOf, Put, Total;
    if |batch| > 0 {
      var n := |batch| - 1;
      AggregateKeepsTotal(h, batch[..n]);
      TotalOfPut(Aggregate(h, batch[..n]), KeyOf(h, batch[n]), batch[n]);
    } else {
      TotalOfNothing();
    }
  }

  lemma TotalOfNothing()
    ensures Total(map[]) == 0
  {
  }
}
