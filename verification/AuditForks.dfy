/**
  When a tenant's audit events stay one chain and when they fork, over all
  appends and purges, whatever the times of the events.
 */
module AuditForks {
  import opened AuditChain
  import opened AuditJson
  import opened Options

  /** The latest event of a chain, in whatever order its events were written. */
  function LatestOf(chain: seq<AuditEvent>): AuditEvent
    requires |chain| > 0
  {
    var n := |chain| - 1;
    if n == 0 then chain[0]
    else
      var best := LatestOf(chain[..n]);
      if Later(chain[n], best) then chain[n] else best
  }

  lemma {:induction false} LatestIsOf(rows: seq<AuditEvent>, tenant: string)
    ensures var chain := Of(rows, tenant);
            Latest(rows, tenant) == if chain == [] then None else Some(LatestOf(chain))
  {
    hide Later;
    if |rows| > 0 {
      var n := |rows| - 1;
      var before := Of(rows[..n], tenant);
      LatestIsOf(rows[..n], tenant);
      assert (before + [rows[n]])[..|before|] == before;
    }
  }

  /** A purge that leaves something leaves the latest event. */
  lemma {:induction false} LatestIsKept(chain: seq<AuditEvent>, cutoff: int)
    requires Kept(chain, cutoff) != []
    ensures LatestOf(Kept(chain, cutoff)) == LatestOf(chain) && LatestOf(chain).createdAt >= cutoff
  {
    var n := |chain| - 1;
    var before, kept := chain[..n], Kept(chain[..n], cutoff);
    if kept != [] {
      LatestIsKept(before, cutoff);
      assert (kept + [chain[n]])[..|kept|] == kept;
    } else if n > 0 {
      LatestIsGone(before, cutoff);
    }
  }

  lemma {:induction false} LatestIsGone(chain: seq<AuditEvent>, cutoff: int)
    requires |chain| > 0 && Kept(chain, cutoff) == []
    ensures LatestOf(chain).createdAt < cutoff
  {
    if |chain| > 1 {
      LatestIsGone(chain[..|chain| - 1], cutoff);
    }
  }

  /** Every event but the first holds the hash of the latest before it: what appends make and purges keep. */
  ghost predicate LinksToLatest(c: Crypto, chain: seq<AuditEvent>) {
    if |chain| == 0 then true
    else
      var n := |chain| - 1;
      && LinksToLatest(c, chain[..n]) && Hashed(c, chain[n])
      && (n > 0 ==> chain[n].previousHash == Some(LatestOf(chain[..n]).eventHash))
  }

  lemma LinksToLatestStep(c: Crypto, chain: seq<AuditEvent>, e: AuditEvent)
    ensures LinksToLatest(c, chain + [e]) <==>
              && LinksToLatest(c, chain) && Hashed(c, e)
              && (chain != [] ==> e.previousHash == Some(LatestOf(chain).eventHash))
  {
    assert (chain + [e])[..|chain|] == chain;
  }

  lemma {:induction false} KeptLinksToLatest(c: Crypto, chain: seq<AuditEvent>, cutoff: int)
    requires LinksToLatest(c, chain)
    ensures LinksToLatest(c, Kept(chain, cutoff))
  {
    hide Hashed, LatestOf;
    if |chain| > 0 {
      var n := |chain| - 1;
      var kept := Kept(chain[..n], cutoff);
      KeptLinksToLatest(c, chain[..n], cutoff);
      LinksToLatestStep(c, kept, chain[n]);
      if kept != [] {
        LatestIsKept(chain[..n], cutoff);
      }
    }
  }

  lemma {:induction false} EachIsHashed(c: Crypto, chain: seq<AuditEvent>)
    requires LinksToLatest(c, chain)
    ensures forall e :: e in chain ==> Hashed(c, e)
  {
    hide Hashed, LatestOf;
    if |chain| > 0 {
      EachIsHashed(c, chain[..|chain| - 1]);
    }
  }

  lemma NextLinksToLatest(c: Crypto, rows: seq<AuditEvent>, tenant: string, payload: AuditPayload, id: nat, at: int)
    requires MakesDigests(c) && LinksToLatest(c, Of(rows, tenant))
    ensures var chain, e := Of(rows, tenant), NextEvent(c, rows, tenant, payload, id, at);
            && LinksToLatest(c, chain + [e])
            && e.previousHash == if chain == [] then None else Some(LatestOf(chain).eventHash)
  {
    hide Hashed, LinksToLatest, LatestOf, Latest, MakesDigests;
    LatestIsOf(rows, tenant);
    EachIsHashed(c, Of(rows, tenant));
    NextIsHashed(c, rows, tenant, payload, id, at);
    LinksToLatestStep(c, Of(rows, tenant), NextEvent(c, rows, tenant, payload, id, at));
  }

  lemma NextIsHashed(c: Crypto, rows: seq<AuditEvent>, tenant: string, payload: AuditPayload, id: nat, at: int)
    requires MakesDigests(c) && forall e :: e in Of(rows, tenant) ==> Hashed(c, e)
    ensures Hashed(c, NextEvent(c, rows, tenant, payload, id, at))
  {
    LatestIsLatest(rows, tenant);
    hide Later, Message;
  }

  lemma {:induction false} StoredLinksToLatest(c: Crypto, ops: seq<Op>, tenant: string)
    requires MakesDigests(c)
    ensures LinksToLatest(c, Of(RowsAfter(c, ops), tenant))
    ensures forall e :: e in Of(RowsAfter(c, ops), tenant) ==> e in Written(c, ops, tenant)
  {
    hide LinksToLatest, NextEvent;
    if |ops| == 0 {
      assert LinksToLatest(c, []) by { NothingLinks(c); }
    } else {
      var n := |ops| - 1;
      var rows := RowsAfter(c, ops[..n]);
      StoredLinksToLatest(c, ops[..n], tenant);
      match ops[n]
      case Append(t, payload, id, at) =>
        OfNext(c, rows, t, payload, id, at, tenant);
        if t == tenant {
          NextLinksToLatest(c, rows, tenant, payload, id, at);
        }
      case Purge(t, cutoff) =>
        PurgeKeeps(rows, t, cutoff, tenant);
        KeptLinksToLatest(c, Of(rows, tenant), cutoff);
        KeptAreThere(Of(rows, tenant), cutoff);
    }
  }

  lemma NothingLinks(c: Crypto)
    ensures LinksToLatest(c, [])
  {
  }

  lemma {:induction false} KeptAreThere(chain: seq<AuditEvent>, cutoff: int)
    ensures forall e :: e in Kept(chain, cutoff) ==> e in chain
  {
    if |chain| > 0 {
      KeptAreThere(chain[..|chain| - 1], cutoff);
    }
  }

  /** How far each hash is from the beginning, following previous hashes: one more than the hash it holds. */
  ghost predicate Stands(heights: map<string, nat>, e: AuditEvent) {
    && e.eventHash in heights
    && (e.previousHash.None? ==> heights[e.eventHash] == 0)
    && (e.previousHash.Some? ==>
          e.previousHash.value in heights && heights[e.eventHash] == heights[e.previousHash.value] + 1)
  }

  ghost predicate Heights(heights: map<string, nat>, events: seq<AuditEvent>) {
    && (forall e :: e in events ==> Stands(heights, e))
    && (forall k :: k in heights ==> exists e :: e in events && e.eventHash == k)
  }

  /** One more event, whose previous hash is known: a new hash gets its height, and an old one has it already. */
  lemma OneMoreHeight(c: Crypto, events: seq<AuditEvent>, e: AuditEvent, heights: map<string, nat>)
    returns (more: map<string, nat>)
    requires Heights(heights, events) && CollisionFree(c, events + [e], events + [e])
    requires forall d :: d in events + [e] ==> Hashed(c, d)
    requires e.previousHash.Some? ==> e.previousHash.value in heights
    ensures Heights(more, events + [e])
  {
    hide Hashed, CollisionFree;
    var all := events + [e];
    assert e in all && forall d :: d in events ==> d in all;
    if e.eventHash in heights {
      more := heights;
      var d :| d in events && d.eventHash == e.eventHash;
      SameHashSameRecord(c, all, all, d, e);
      assert Stands(heights, d);
    } else {
      more := heights[e.eventHash := if e.previousHash.Some? then heights[e.previousHash.value] + 1 else 0];
      forall d | d in events ensures Stands(more, d) {
        assert Stands(heights, d);
      }
      forall k | k in more ensures exists d :: d in all && d.eventHash == k {
        if k in heights {
          var d :| d in events && d.eventHash == k;
          assert d in all;
        }
      }
    }
  }

  lemma {:induction false} HeightsExist(c: Crypto, ops: seq<Op>, tenant: string) returns (heights: map<string, nat>)
    requires MakesDigests(c) && CollisionFree(c, Written(c, ops, tenant), Written(c, ops, tenant))
    ensures Heights(heights, Written(c, ops, tenant))
    ensures forall e :: e in Written(c, ops, tenant) ==> Hashed(c, e)
  {
    hide Hashed, CollisionFree, Heights, NextEvent, LinksToLatest, LatestOf;
    if |ops| == 0 {
      heights := NoHeights();
    } else {
      var n := |ops| - 1;
      var rows, before := RowsAfter(c, ops[..n]), Written(c, ops[..n], tenant);
      FewerCollide(c, before, before, Written(c, ops, tenant));
      heights := HeightsExist(c, ops[..n], tenant);
      if ops[n].Append? && ops[n].tenant == tenant {
        var e := NextEvent(c, rows, tenant, ops[n].payload, ops[n].id, ops[n].at);
        assert Written(c, ops, tenant) == before + [e];
        StoredLinksToLatest(c, ops[..n], tenant);
        PreviousIsKnown(c, rows, tenant, before, heights, ops[n].payload, ops[n].id, ops[n].at);
        heights := OneMoreHeight(c, before, e, heights);
      }
    }
  }

  lemma NoHeights() returns (heights: map<string, nat>)
    ensures Heights(heights, [])
  {
    heights := map[];
  }

  lemma PreviousIsKnown(c: Crypto, rows: seq<AuditEvent>, tenant: string, written: seq<AuditEvent>,
                        heights: map<string, nat>, payload: AuditPayload, id: nat, at: int)
    requires MakesDigests(c) && LinksToLatest(c, Of(rows, tenant)) && Heights(heights, written)
    requires forall e :: e in Of(rows, tenant) ==> e in written
    ensures var e := NextEvent(c, rows, tenant, payload, id, at);
            Hashed(c, e) && (e.previousHash.Some? ==> e.previousHash.value in heights)
  {
    NextLinksToLatest(c, rows, tenant, payload, id, at);
    LinksToLatestStep(c, Of(rows, tenant), NextEvent(c, rows, tenant, payload, id, at));
    LatestIsLatest(rows, tenant);
    LatestIsOf(rows, tenant);
    hide Hashed, LinksToLatest, LatestOf, Later;
    if Of(rows, tenant) != [] {
      assert Stands(heights, LatestOf(Of(rows, tenant)));
    }
  }

  function Front(chain: seq<AuditEvent>): seq<AuditEvent> {
    if chain == [] then [] else chain[..|chain| - 1]
  }

  lemma AscendsExactlyWhen(front: seq<AuditEvent>, last: AuditEvent)
    requires Ascending(front)
    ensures Ascending(front + [last]) <==> front == [] || Later(last, front[|front| - 1])
  {
    if Ascending(front + [last]) {
      AscendingSplit(front, last);
    }
  }

  lemma FrontAscends(chain: seq<AuditEvent>)
    ensures Ascending(chain) ==> Ascending(Front(chain))
  {
  }

  lemma {:induction false} LatestOfAscending(chain: seq<AuditEvent>)
    requires |chain| > 0 && Ascending(chain)
    ensures LatestOf(chain) == chain[|chain| - 1]
  {
    var n := |chain| - 1;
    assert chain == chain[..n] + [chain[n]];
    AscendingSplit(chain[..n], chain[n]);
    hide Ascending, Later;
    if n > 0 {
      LatestOfAscending(chain[..n]);
    }
  }

  lemma LinkedStep(c: Crypto, chain: seq<AuditEvent>, e: AuditEvent)
    requires Hashed(c, e)
    ensures Linked(c, chain + [e]) <==>
              Linked(c, chain) && (chain != [] ==> e.previousHash == Some(chain[|chain| - 1].eventHash))
  {
    hide Hashed;
    var all := chain + [e];
    assert all[|chain|] == e;
    assert forall i :: 0 <= i < |chain| ==> all[i] == chain[i];
    if Linked(c, all) && chain != [] {
      assert all[|chain|].previousHash == Some(all[|chain| - 1].eventHash);
    }
  }

  /** In a linked chain whose hashes have heights, the last of two neighbours has a hash of its own. */
  lemma NeighboursDiffer(c: Crypto, chain: seq<AuditEvent>, heights: map<string, nat>)
    requires Linked(c, chain) && |chain| > 1 && forall e :: e in chain ==> Stands(heights, e)
    ensures chain[|chain| - 1].eventHash != chain[|chain| - 2].eventHash
  {
    hide Hashed;
    var d, e := chain[|chain| - 2], chain[|chain| - 1];
    assert d in chain && e in chain && e.previousHash == Some(d.eventHash);
  }

  lemma LatestOfOneMore(front: seq<AuditEvent>, last: AuditEvent)
    ensures LatestOf(front + [last]) ==
            if front == [] || Later(last, LatestOf(front)) then last else LatestOf(front)
  {
    hide Later;
    assert (front + [last])[..|front|] == front;
  }

  /** The hash of the latest is the hash of the last exactly when the chain ascends to its end. */
  lemma LatestIsLastExactlyWhen(c: Crypto, front: seq<AuditEvent>, last: AuditEvent, heights: map<string, nat>)
    requires Linked(c, front + [last]) && forall e :: e in front + [last] ==> Stands(heights, e)
    requires Ascending(front)
    ensures LatestOf(front + [last]).eventHash == last.eventHash <==> Ascending(front + [last])
  {
    hide Linked, Ascending, Later, Stands, LatestOf;
    AscendsExactlyWhen(front, last);
    LatestOfOneMore(front, last);
    if front != [] {
      NeighboursDiffer(c, front + [last], heights);
      LatestOfAscending(front);
    }
  }

  lemma LatestIsEndExactlyWhen(c: Crypto, chain: seq<AuditEvent>, heights: map<string, nat>)
    requires Linked(c, chain) && |chain| > 0 && forall e :: e in chain ==> Stands(heights, e)
    requires Ascending(Front(chain))
    ensures LatestOf(chain).eventHash == chain[|chain| - 1].eventHash <==> Ascending(chain)
  {
    hide Linked, Ascending, Stands, LatestOf;
    assert chain == Front(chain) + [chain[|chain| - 1]];
    LatestIsLastExactlyWhen(c, Front(chain), chain[|chain| - 1], heights);
  }

  lemma {:induction false} LinkedExactlyWhenAscending(c: Crypto, chain: seq<AuditEvent>, heights: map<string, nat>)
    requires LinksToLatest(c, chain) && forall e :: e in chain ==> Stands(heights, e)
    ensures Linked(c, chain) <==> Ascending(Front(chain))
  {
    if |chain| > 0 {
      var n := |chain| - 1;
      var before, e := chain[..n], chain[n];
      assert chain == before + [e] && Front(chain) == before;
      LinksToLatestStep(c, before, e);
      hide LinksToLatest, Linked, Ascending, Stands, Hashed, LatestOf;
      LinkedExactlyWhenAscending(c, before, heights);
      LinkedStep(c, before, e);
      FrontAscends(before);
      if n > 0 && Linked(c, before) {
        LatestIsEndExactlyWhen(c, before, heights);
      }
    }
  }

  /**
    Whatever the appends and purges: what is stored for a tenant is one linked
    chain exactly when all of it before the last event goes up in time and id.
   */
  lemma RunIsLinkedExactlyWhen(c: Crypto, ops: seq<Op>, tenant: string)
    requires MakesDigests(c) && CollisionFree(c, Written(c, ops, tenant), Written(c, ops, tenant))
    ensures Linked(c, Of(RowsAfter(c, ops), tenant)) <==> Ascending(Front(Of(RowsAfter(c, ops), tenant)))
  {
    hide CollisionFree, LinksToLatest, Linked, Ascending, RowsAfter, Written, Stands;
    StoredLinksToLatest(c, ops, tenant);
    var heights := HeightsExist(c, ops, tenant);
    LinkedExactlyWhenAscending(c, Of(RowsAfter(c, ops), tenant), heights);
  }

  // ---------- Runs that break the chain ----------

  lemma OneMoreOp(c: Crypto, ops: seq<Op>, op: Op, tenant: string)
    ensures var rows := RowsAfter(c, ops);
            RowsAfter(c, ops + [op]) ==
              match op
              case Append(t, payload, id, at) => rows + [NextEvent(c, rows, t, payload, id, at)]
              case Purge(t, cutoff) => Purged(rows, t, cutoff)
    ensures Written(c, ops + [op], tenant) ==
            if op.Append? && op.tenant == tenant
            then Written(c, ops, tenant) + [NextEvent(c, RowsAfter(c, ops), tenant, op.payload, op.id, op.at)]
            else Written(c, ops, tenant)
  {
    assert (ops + [op])[..|ops|] == ops;
  }

  lemma NothingWritten(c: Crypto, tenant: string)
    ensures RowsAfter(c, []) == [] && Written(c, [], tenant) == []
  {
  }

  /** The second event is earlier than the first, and so the third links to the first as well: a fork. */
  lemma EarlierEventForks(c: Crypto, tenant: string, p: AuditPayload)
    ensures var ops := [Append(tenant, p, 1, 10), Append(tenant, p, 2, 5), Append(tenant, p, 3, 20)];
            var written := Written(c, ops, tenant);
            && |written| == 3 && written[0].previousHash.None?
            && written[1].previousHash == written[2].previousHash == Some(written[0].eventHash)
  {
    var a, b, d := Append(tenant, p, 1, 10), Append(tenant, p, 2, 5), Append(tenant, p, 3, 20);
    NothingWritten(c, tenant);
    OneMoreOp(c, [], a, tenant);
    OneMoreOp(c, [] + [a], b, tenant);
    OneMoreOp(c, [] + [a] + [b], d, tenant);
    assert [] + [a] + [b] + [d] == [a, b, d];
    hide RowsAfter, Written;
    var e := NextEvent(c, [], tenant, p, 1, 10);
    var f := NextEvent(c, [e], tenant, p, 2, 5);
    assert [] + [e] == [e] && [e] + [f] == [e, f] && [e, f][..1] == [e] && [e][..0] == [];
    assert Latest([e], tenant) == Latest([e, f], tenant) == Some(e);
  }

  /** A purge takes all, and the next event starts a second chain. */
  lemma EmptyingPurgeStartsAgain(c: Crypto, tenant: string, p: AuditPayload)
    ensures var ops := [Append(tenant, p, 1, 10), Purge(tenant, 11), Append(tenant, p, 2, 20)];
            var written := Written(c, ops, tenant);
            |written| == 2 && written[0].previousHash.None? && written[1].previousHash.None?
  {
    var a, b, d := Append(tenant, p, 1, 10), Purge(tenant, 11), Append(tenant, p, 2, 20);
    NothingWritten(c, tenant);
    OneMoreOp(c, [], a, tenant);
    OneMoreOp(c, [] + [a], b, tenant);
    OneMoreOp(c, [] + [a] + [b], d, tenant);
    assert [] + [a] + [b] + [d] == [a, b, d];
    hide RowsAfter, Written;
    var e := NextEvent(c, [], tenant, p, 1, 10);
    assert [] + [e] == [e] && [e][..0] == [] && Purged([e], tenant, 11) == [];
  }
}
