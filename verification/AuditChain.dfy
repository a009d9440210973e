/**
  The audit log: each tenant's events form a chain, every event holding the
  hash of the one before it.

  The hash and the signature are any functions from text to text; a digest is 64 hexadecimal
  digits. Reading the latest hash and writing the next event happen together.
 */
module AuditChain {
  import opened AuditJson
  import opened Options

  datatype AuditEvent = AuditEvent(
    id: nat,
    tenantId: string,
    payload: AuditPayload,
    previousHash: Option<string>,
    eventHash: string,
    signature: string,
    createdAt: int)

  /** Digest and signature, the latter with the service's key. */
  datatype Crypto = Crypto(hash: string -> string, sign: string -> string)

  /** What is hashed: the bytes of the previous hash, if any, and then those of the payload. */
  function Message(previous: Option<string>, payload: AuditPayload): string {
    (if previous.Some? then previous.value else "") + Bytes(payload)
  }

  /** The order that the latest event is found by. */
  predicate Later(a: AuditEvent, b: AuditEvent) {
    a.createdAt > b.createdAt || (a.createdAt == b.createdAt && a.id > b.id)
  }

  function Of(rows: seq<AuditEvent>, tenant: string): seq<AuditEvent> {
    if |rows| == 0 then []
    else
      var n := |rows| - 1;
      if rows[n].tenantId == tenant then Of(rows[..n], tenant) + [rows[n]] else Of(rows[..n], tenant)
  }

  function Latest(rows: seq<AuditEvent>, tenant: string): Option<AuditEvent> {
    if |rows| == 0 then None
    else
      var n := |rows| - 1;
      var best := Latest(rows[..n], tenant);
      if rows[n].tenantId == tenant && (best.None? || Later(rows[n], best.value)) then Some(rows[n]) else best
  }

  function LatestHash(rows: seq<AuditEvent>, tenant: string): Option<string> {
    var latest := Latest(rows, tenant);
    if latest.Some? then Some(latest.value.eventHash) else None
  }

  function Purged(rows: seq<AuditEvent>, tenant: string, cutoff: int): seq<AuditEvent> {
    if |rows| == 0 then []
    else
      var n := |rows| - 1;
      var kept := Purged(rows[..n], tenant, cutoff);
      if rows[n].tenantId == tenant && rows[n].createdAt < cutoff then kept else kept + [rows[n]]
  }

  /** The event that a handler writes next for a tenant. */
  function NextEvent(c: Crypto, rows: seq<AuditEvent>, tenant: string, payload: AuditPayload, id: nat,
                     now: int): AuditEvent {
    var previous := LatestHash(rows, tenant);
    var hash := c.hash(Message(previous, payload));
    AuditEvent(id, tenant, payload, previous, hash, c.sign(hash), now)
  }

  datatype Claims = Claims(tenantId: string, sub: string, email: string, roles: seq<string>, jti: Option<string>)

  function ViewPayload(claims: Claims, target: string, limit: int): AuditPayload {
    var crossTenant := target != claims.tenantId;
    AuditPayload(claims.tenantId, claims.sub, claims.email, claims.roles,
                 if crossTenant then "audit.view_cross_tenant" else "audit.view",
                 "audit", None, Some(target), claims.jti,
                 Object([Member("cross_tenant", Bool(crossTenant)), Member("limit", Number(WholeNumber(limit)))]))
  }

  /** The table of events, in the order they were inserted. */
  class AuditTable {
    var rows: seq<AuditEvent>

    constructor ()
      ensures rows == []
    {
      rows := [];
    }

    method LatestAuditHash(tenant: string) returns (hash: Option<string>)
      ensures hash == LatestHash(rows, tenant)
    {
      var best: Option<AuditEvent> := None;
      for i := 0 to |rows|
        invariant best == Latest(rows[..i], tenant)
      {
        if rows[i].tenantId == tenant && (best.None? || Later(rows[i], best.value)) {
          best := Some(rows[i]);
        }
        assert rows[..i + 1][..i] == rows[..i];
      }
      assert rows[..|rows|] == rows;
      hash := if best.Some? then Some(best.value.eventHash) else None;
    }

    method InsertAuditEvent(event: AuditEvent)
      modifies this
      ensures rows == old(rows) + [event]
    {
      rows := rows + [event];
    }

    method PurgeAuditEventsBefore(tenant: string, cutoff: int) returns (deleted: nat)
      modifies this
      ensures rows == Purged(old(rows), tenant, cutoff)
      ensures |rows| + deleted == |old(rows)|
    {
      var kept := [];
      deleted := 0;
      for i := 0 to |rows|
        invariant kept == Purged(rows[..i], tenant, cutoff) && |kept| + deleted == i
        invariant rows == old(rows)
      {
        if rows[i].tenantId == tenant && rows[i].createdAt < cutoff {
          deleted := deleted + 1;
        } else {
          kept := kept + [rows[i]];
        }
        assert rows[..i + 1][..i] == rows[..i];
      }
      assert rows[..|rows|] == rows;
      rows := kept;
    }
  }

  /** A handler of the service: it records that claims' owner looked at a tenant's audit log. */
  method RecordAuditView(c: Crypto, db: AuditTable, claims: Claims, target: string, limit: int, id: nat, now: int)
    modifies db
    ensures db.rows == old(db.rows) +
                       [NextEvent(c, old(db.rows), claims.tenantId, ViewPayload(claims, target, limit), id, now)]
  {
    var crossTenant := target != claims.tenantId;
    var action := if crossTenant then "audit.view_cross_tenant" else "audit.view";
    var details := Object([Member("cross_tenant", Bool(crossTenant)), Member("limit", Number(WholeNumber(limit)))]);
    var payload := AuditPayload(claims.tenantId, claims.sub, claims.email, claims.roles,
                                action, "audit", None, Some(target), claims.jti, details);
    var previous := db.LatestAuditHash(claims.tenantId);
    var message := if previous.Some? then previous.value else "";
    message := message + Bytes(payload);
    var hash := c.hash(message);
    db.InsertAuditEvent(AuditEvent(id, claims.tenantId, payload, previous, hash, c.sign(hash), now));
  }

  // ---------- The latest event ----------

  /** The latest event is one of the tenant's, and none of the tenant's is later. */
  lemma {:induction false} LatestIsLatest(rows: seq<AuditEvent>, tenant: string)
    ensures Latest(rows, tenant).None? <==> Of(rows, tenant) == []
    ensures Latest(rows, tenant).Some? ==> Latest(rows, tenant).value in Of(rows, tenant)
    ensures Latest(rows, tenant).Some? ==> forall e :: e in Of(rows, tenant) ==> !Later(e, Latest(rows, tenant).value)
  {
    if |rows| > 0 {
      LatestIsLatest(rows[..|rows| - 1], tenant);
    }
  }

  /** Two events written one after the other: the second links to the first just when the first became the latest. */
  lemma ForksExactlyWhenNotLater(c: Crypto, rows: seq<AuditEvent>, tenant: string,
                                 p: AuditPayload, i: nat, s: int, q: AuditPayload, j: nat, t: int)
    ensures var e := NextEvent(c, rows, tenant, p, i, s);
            var f := NextEvent(c, rows + [e], tenant, q, j, t);
            var latest := Latest(rows, tenant);
            && (latest.None? || Later(e, latest.value) ==> f.previousHash == Some(e.eventHash))
            && (latest.Some? && !Later(e, latest.value) ==>
                  f.previousHash == e.previousHash == Some(latest.value.eventHash))
  {
    var e := NextEvent(c, rows, tenant, p, i, s);
    assert (rows + [e])[..|rows|] == rows;
  }

  // ---------- Chains ----------

  ghost predicate IsDigest(s: string) {
    |s| == 64 && forall c :: c in s ==> '0' <= c <= '9' || 'a' <= c <= 'f'
  }

  ghost predicate MakesDigests(c: Crypto) {
    forall s :: IsDigest(c.hash(s))
  }

  ghost predicate Hashed(c: Crypto, e: AuditEvent) {
    && e.eventHash == c.hash(Message(e.previousHash, e.payload))
    && e.signature == c.sign(e.eventHash)
    && (e.previousHash.Some? ==> IsDigest(e.previousHash.value))
  }

  /** Every event carries its own hash, and the hash of the event before it. */
  ghost predicate Linked(c: Crypto, chain: seq<AuditEvent>) {
    && (forall i :: 0 <= i < |chain| ==> Hashed(c, chain[i]))
    && (forall i :: 0 < i < |chain| ==> chain[i].previousHash == Some(chain[i - 1].eventHash))
  }

  ghost predicate Ascending(chain: seq<AuditEvent>) {
    forall i, j :: 0 <= i < j < |chain| ==> Later(chain[j], chain[i])
  }

  ghost predicate Suffix(a: seq<AuditEvent>, b: seq<AuditEvent>) {
    |a| <= |b| && a == b[|b| - |a|..]
  }

  function Kept(chain: seq<AuditEvent>, cutoff: int): seq<AuditEvent> {
    if |chain| == 0 then []
    else
      var n := |chain| - 1;
      if chain[n].createdAt < cutoff then Kept(chain[..n], cutoff) else Kept(chain[..n], cutoff) + [chain[n]]
  }

  /** A purge takes from its tenant alone. */
  lemma {:induction false} PurgeKeeps(rows: seq<AuditEvent>, tenant: string, cutoff: int, other: string)
    ensures Of(Purged(rows, tenant, cutoff), other)
         == if other == tenant then Kept(Of(rows, other), cutoff) else Of(rows, other)
  {
    if |rows| > 0 {
      var n := |rows| - 1;
      PurgeKeeps(rows[..n], tenant, cutoff, other);
      var kept, chain := Purged(rows[..n], tenant, cutoff), Of(rows[..n], other);
      assert (kept + [rows[n]])[..|kept|] == kept;
      assert (chain + [rows[n]])[..|chain|] == chain;
    }
  }

  lemma {:induction false} OldIsNotKept(chain: seq<AuditEvent>, cutoff: int)
    requires forall i :: 0 <= i < |chain| ==> chain[i].createdAt < cutoff
    ensures Kept(chain, cutoff) == []
  {
    if |chain| > 0 {
      OldIsNotKept(chain[..|chain| - 1], cutoff);
    }
  }

  lemma {:induction false} KeptIsSuffix(chain: seq<AuditEvent>, cutoff: int)
    requires Ascending(chain)
    ensures Suffix(Kept(chain, cutoff), chain)
  {
    if |chain| > 0 {
      var n := |chain| - 1;
      if chain[n].createdAt < cutoff {
        assert forall i :: 0 <= i < n ==> Later(chain[n], chain[i]);
        OldIsNotKept(chain[..n], cutoff);
      } else {
        KeptIsSuffix(chain[..n], cutoff);
        assert chain == chain[..n] + [chain[n]];
      }
    }
  }

  lemma SuffixStaysLinked(c: Crypto, a: seq<AuditEvent>, b: seq<AuditEvent>)
    requires Suffix(a, b) && Linked(c, b) && Ascending(b)
    ensures Linked(c, a) && Ascending(a)
  {
    var k := |b| - |a|;
    assert forall i :: 0 <= i < |a| ==> a[i] == b[k + i];
    forall i | 0 < i < |a| ensures a[i].previousHash == Some(a[i - 1].eventHash) {
      assert a[i] == b[k + i] && a[i - 1] == b[k + i - 1];
    }
  }

  /** A retention purge leaves a linked chain, the end of the one before. */
  lemma PurgeLeavesLinked(c: Crypto, rows: seq<AuditEvent>, tenant: string, cutoff: int)
    requires Linked(c, Of(rows, tenant)) && Ascending(Of(rows, tenant))
    ensures var left := Of(Purged(rows, tenant, cutoff), tenant);
            Linked(c, left) && Ascending(left) && Suffix(left, Of(rows, tenant))
  {
    PurgeKeeps(rows, tenant, cutoff, tenant);
    KeptIsSuffix(Of(rows, tenant), cutoff);
    SuffixStaysLinked(c, Kept(Of(rows, tenant), cutoff), Of(rows, tenant));
  }

  lemma AscendingSplit(chain: seq<AuditEvent>, e: AuditEvent)
    requires Ascending(chain + [e])
    ensures Ascending(chain)
    ensures |chain| > 0 ==> Later(e, chain[|chain| - 1])
  {
    assert (chain + [e])[..|chain|] == chain;
    assert (chain + [e])[|chain|] == e;
  }

  lemma {:induction false} LatestIsLast(rows: seq<AuditEvent>, tenant: string)
    requires Ascending(Of(rows, tenant))
    ensures var chain := Of(rows, tenant);
            Latest(rows, tenant) == if |chain| == 0 then None else Some(chain[|chain| - 1])
  {
    if |rows| > 0 {
      var n := |rows| - 1;
      var before := Of(rows[..n], tenant);
      if rows[n].tenantId == tenant {
        AscendingSplit(before, rows[n]);
      }
      hide Ascending, Later;
      LatestIsLast(rows[..n], tenant);
    }
  }

  // ---------- Runs ----------

  datatype Op =
    | Append(tenant: string, payload: AuditPayload, id: nat, at: int)
    | Purge(tenant: string, cutoff: int)

  function RowsAfter(c: Crypto, ops: seq<Op>): seq<AuditEvent> {
    if |ops| == 0 then []
    else
      var rows := RowsAfter(c, ops[..|ops| - 1]);
      match ops[|ops| - 1]
      case Append(tenant, payload, id, at) => rows + [NextEvent(c, rows, tenant, payload, id, at)]
      case Purge(tenant, cutoff) => Purged(rows, tenant, cutoff)
  }

  /** Every event ever written for the tenant, the purged ones too. */
  function Written(c: Crypto, ops: seq<Op>, tenant: string): seq<AuditEvent> {
    if |ops| == 0 then []
    else
      var n := |ops| - 1;
      var before := Written(c, ops[..n], tenant);
      if ops[n].Append? && ops[n].tenant == tenant
      then before + [NextEvent(c, RowsAfter(c, ops[..n]), tenant, ops[n].payload, ops[n].id, ops[n].at)]
      else before
  }

  lemma AppendLinks(c: Crypto, rows: seq<AuditEvent>, tenant: string, payload: AuditPayload, id: nat, at: int)
    requires MakesDigests(c) && Linked(c, Of(rows, tenant)) && Ascending(Of(rows, tenant))
    ensures var e := NextEvent(c, rows, tenant, payload, id, at);
            && Linked(c, Of(rows, tenant) + [e])
            && (e.previousHash.None? <==> Of(rows, tenant) == [])
  {
    LatestIsLast(rows, tenant);
  }

  lemma {:induction false} StoredIsLinkedSuffix(c: Crypto, ops: seq<Op>, tenant: string)
    requires MakesDigests(c) && Ascending(Written(c, ops, tenant))
    ensures var stored := Of(RowsAfter(c, ops), tenant);
            Linked(c, stored) && Ascending(stored) && Suffix(stored, Written(c, ops, tenant))
  {
    if |ops| > 0 {
      var n := |ops| - 1;
      var rows, written := RowsAfter(c, ops[..n]), Written(c, ops[..n], tenant);
      AscendingPrefix(Written(c, ops, tenant), |written|);
      assert written == Written(c, ops, tenant)[..|written|];
      hide Linked, NextEvent, Ascending, Suffix;
      StoredIsLinkedSuffix(c, ops[..n], tenant);
      match ops[n]
      case Append(t, payload, id, at) =>
        OfNext(c, rows, t, payload, id, at, tenant);
        if t == tenant {
          AppendLinks(c, rows, tenant, payload, id, at);
          SuffixAppend(Of(rows, tenant), written, NextEvent(c, rows, tenant, payload, id, at));
        }
      case Purge(t, cutoff) =>
        PurgeKeeps(rows, t, cutoff, tenant);
        if t == tenant {
          PurgeLeavesLinked(c, rows, tenant, cutoff);
          SuffixOfSuffix(Of(Purged(rows, t, cutoff), tenant), Of(rows, tenant), written);
        }
    }
  }

  lemma AscendingPrefix(chain: seq<AuditEvent>, n: nat)
    requires Ascending(chain) && n <= |chain|
    ensures Ascending(chain[..n])
  {
  }

  lemma SuffixOfSuffix(x: seq<AuditEvent>, y: seq<AuditEvent>, z: seq<AuditEvent>)
    requires Suffix(x, y) && Suffix(y, z)
    ensures Suffix(x, z)
  {
  }

  lemma OfNext(c: Crypto, rows: seq<AuditEvent>, t: string, payload: AuditPayload, id: nat, at: int, tenant: string)
    ensures var e := NextEvent(c, rows, t, payload, id, at);
            Of(rows + [e], tenant) == if t == tenant then Of(rows, tenant) + [e] else Of(rows, tenant)
  {
    assert (rows + [NextEvent(c, rows, t, payload, id, at)])[..|rows|] == rows;
  }

  lemma SuffixAppend(a: seq<AuditEvent>, b: seq<AuditEvent>, e: AuditEvent)
    requires Suffix(a, b) && Ascending(b + [e])
    ensures Suffix(a + [e], b + [e]) && Ascending(a + [e])
  {
    var all, k := b + [e], |b| - |a|;
    assert forall i :: 0 <= i <= |a| ==> (a + [e])[i] == all[k + i];
  }

  /**
    Whatever the appends and purges of all tenants, and as long as a tenant's own
    events go up in time and id, the tenant's stored events are one linked chain,
    and they are the last of all the events ever written for it.
   */
  lemma TenantsStayLinked(c: Crypto, ops: seq<Op>, tenant: string)
    requires MakesDigests(c) && Ascending(Written(c, ops, tenant))
    ensures Linked(c, Of(RowsAfter(c, ops), tenant)) && Suffix(Of(RowsAfter(c, ops), tenant), Written(c, ops, tenant))
  {
    StoredIsLinkedSuffix(c, ops, tenant);
  }

  /** A view is recorded on the viewer's own chain, and on the viewed tenant's only if that is the same. */
  lemma ViewIsOnViewersChain(c: Crypto, rows: seq<AuditEvent>, claims: Claims, target: string, limit: int, id: nat,
                             now: int)
    ensures var e := NextEvent(c, rows, claims.tenantId, ViewPayload(claims, target, limit), id, now);
            && Of(rows + [e], claims.tenantId) == Of(rows, claims.tenantId) + [e]
            && (Of(rows + [e], target) == Of(rows, target) <==> target != claims.tenantId)
            && (e.payload.action == "audit.view_cross_tenant" <==> target != claims.tenantId)
            && e.payload.targetTenantId == Some(target) && e.payload.actorUserId == claims.sub
  {
    OfNext(c, rows, claims.tenantId, ViewPayload(claims, target, limit), id, now, claims.tenantId);
    OfNext(c, rows, claims.tenantId, ViewPayload(claims, target, limit), id, now, target);
  }

  /** The recorded payload tells who looked, at whose events, and at how many. */
  lemma ViewTellsAll(claims: Claims, target: string, limit: int, claims': Claims, target': string, limit': int)
    requires Bytes(ViewPayload(claims, target, limit)) == Bytes(ViewPayload(claims', target', limit'))
    ensures claims == claims' && target == target' && limit == limit'
  {
    var p, q := ViewPayload(claims, target, limit), ViewPayload(claims', target', limit');
    hide Bytes;
    BytesTellPayload(p, q);
    assert p.metadata.members[1].value == q.metadata.members[1].value;
    WholeNumberIsReadable(limit, limit');
  }

  /** No append of the tenant comes after a purge has taken all that it had. */
  ghost predicate NeverEmptied(c: Crypto, ops: seq<Op>, tenant: string) {
    forall i :: 0 <= i < |ops| && ops[i].Append? && ops[i].tenant == tenant && Written(c, ops[..i], tenant) != [] ==>
      Of(RowsAfter(c, ops[..i]), tenant) != []
  }

  ghost predicate Complete(c: Crypto, chain: seq<AuditEvent>) {
    Linked(c, chain) && (|chain| > 0 ==> chain[0].previousHash.None?)
  }

  /** All that was ever written is one complete chain just when no append came after an emptying purge. */
  lemma {:induction false} HistoryIsOneChainExactlyWhen(c: Crypto, ops: seq<Op>, tenant: string)
    requires MakesDigests(c) && Ascending(Written(c, ops, tenant))
    ensures Complete(c, Written(c, ops, tenant)) <==> NeverEmptied(c, ops, tenant)
  {
    if |ops| > 0 {
      var n := |ops| - 1;
      var written := Written(c, ops[..n], tenant);
      assert written == Written(c, ops, tenant)[..|written|];
      HistoryIsOneChainExactlyWhen(c, ops[..n], tenant);
      StoredIsLinkedSuffix(c, ops[..n], tenant);
      NeverEmptiedStep(c, ops, tenant);
      hide NeverEmptied, RowsAfter, NextEvent;
      if ops[n].Append? && ops[n].tenant == tenant {
        var rows := RowsAfter(c, ops[..n]);
        AppendLinks(c, rows, tenant, ops[n].payload, ops[n].id, ops[n].at);
        CompleteStep(c, Of(rows, tenant), written, NextEvent(c, rows, tenant, ops[n].payload, ops[n].id, ops[n].at));
      }
    }
  }

  lemma NeverEmptiedStep(c: Crypto, ops: seq<Op>, tenant: string)
    requires |ops| > 0
    ensures var n := |ops| - 1;
            NeverEmptied(c, ops, tenant) <==>
              && NeverEmptied(c, ops[..n], tenant)
              && (ops[n].Append? && ops[n].tenant == tenant && Written(c, ops[..n], tenant) != [] ==>
                    Of(RowsAfter(c, ops[..n]), tenant) != [])
  {
    hide Written, RowsAfter, Of;
    var n := |ops| - 1;
    assert forall i :: 0 <= i < n ==> ops[..n][i] == ops[i] && ops[..n][..i] == ops[..i];
  }

  lemma CompleteStep(c: Crypto, stored: seq<AuditEvent>, written: seq<AuditEvent>, e: AuditEvent)
    requires Suffix(stored, written) && Linked(c, stored + [e]) && (e.previousHash.None? <==> stored == [])
    ensures Complete(c, written + [e]) <==> Complete(c, written) && (written != [] ==> stored != [])
  {
    hide Hashed;
    assert (stored + [e])[|stored|] == e == (written + [e])[|written|];
    assert forall i :: 0 <= i < |written| ==> (written + [e])[i] == written[i];
    var n := |written|;
    if stored != [] {
      assert stored[|stored| - 1] == written[n - 1] == (stored + [e])[|stored| - 1];
      assert e.previousHash == Some(written[n - 1].eventHash);
    }
    assert Linked(c, written + [e]) && n > 0 ==> e.previousHash == Some((written + [e])[n - 1].eventHash);
  }

  // ---------- What the last hash stands for ----------

  /** Among the messages of the two chains, different messages have different hashes. */
  ghost predicate CollisionFree(c: Crypto, a: seq<AuditEvent>, b: seq<AuditEvent>) {
    forall d, e ::
      && d in a && e in b
      && c.hash(Message(d.previousHash, d.payload)) == c.hash(Message(e.previousHash, e.payload))
      ==> Message(d.previousHash, d.payload) == Message(e.previousHash, e.payload)
  }

  /** A previous hash and a payload can be told apart in the bytes they make. */
  lemma MessageIsUnambiguous(h: Option<string>, p: AuditPayload, k: Option<string>, q: AuditPayload)
    requires h.Some? ==> IsDigest(h.value)
    requires k.Some? ==> IsDigest(k.value)
    requires Message(h, p) == Message(k, q)
    ensures h == k && p == q
  {
    BytesBegin(p);
    BytesBegin(q);
    assert h.Some? ==> Message(h, p)[0] == h.value[0] && h.value[0] in h.value;
    assert k.Some? ==> Message(k, q)[0] == k.value[0] && k.value[0] in k.value;
    hide Bytes;
    if h.Some? {
      CancelEqual(h.value, k.value, Bytes(p), Bytes(q));
    } else {
      Cancel("", Bytes(p), Bytes(q));
    }
    BytesTellPayload(p, q);
  }

  /** What the hash of an event vouches for. */
  ghost predicate SameRecord(d: AuditEvent, e: AuditEvent) {
    d.payload == e.payload && d.previousHash == e.previousHash && d.eventHash == e.eventHash
  }

  /** The event that is `k` before the end. */
  function FromEnd(chain: seq<AuditEvent>, k: nat): AuditEvent
    requires 0 < k <= |chain|
  {
    chain[|chain| - k]
  }

  lemma SameHashSameRecord(c: Crypto, a: seq<AuditEvent>, b: seq<AuditEvent>, d: AuditEvent, e: AuditEvent)
    requires CollisionFree(c, a, b) && d in a && e in b && Hashed(c, d) && Hashed(c, e)
    requires d.eventHash == e.eventHash
    ensures SameRecord(d, e)
  {
    hide IsDigest, Message;
    MessageIsUnambiguous(d.previousHash, d.payload, e.previousHash, e.payload);
  }

  lemma {:induction false} LastHashTellsEvent(c: Crypto, a: seq<AuditEvent>, b: seq<AuditEvent>, k: nat)
    requires Linked(c, a) && Linked(c, b) && CollisionFree(c, a, b)
    requires 0 < k <= |a| && k <= |b| && FromEnd(a, 1).eventHash == FromEnd(b, 1).eventHash
    ensures SameRecord(FromEnd(a, k), FromEnd(b, k))
  {
    if k > 1 {
      LastHashTellsEvent(c, a, b, k - 1);
      assert FromEnd(a, k - 1).previousHash == Some(FromEnd(a, k).eventHash);
      assert FromEnd(b, k - 1).previousHash == Some(FromEnd(b, k).eventHash);
    }
    assert Hashed(c, FromEnd(a, k)) && Hashed(c, FromEnd(b, k));
    hide Hashed, CollisionFree;
    SameHashSameRecord(c, a, b, FromEnd(a, k), FromEnd(b, k));
  }

  /**
    Linked chains with one last hash agree, event by event, as far back as both
    go; complete ones go back equally far, so they agree altogether.
   */
  lemma LastHashTellsHistory(c: Crypto, a: seq<AuditEvent>, b: seq<AuditEvent>)
    requires Linked(c, a) && Linked(c, b) && CollisionFree(c, a, b)
    requires |a| > 0 && |b| > 0 && FromEnd(a, 1).eventHash == FromEnd(b, 1).eventHash
    ensures forall k {:trigger FromEnd(a, k)} :: 0 < k <= |a| && k <= |b| ==> SameRecord(FromEnd(a, k), FromEnd(b, k))
    ensures Complete(c, a) && Complete(c, b) ==> |a| == |b| && forall i :: 0 <= i < |a| ==> SameRecord(a[i], b[i])
  {
    hide CollisionFree, SameRecord;
    forall k {:trigger FromEnd(a, k)} | 0 < k <= |a| && k <= |b| ensures SameRecord(FromEnd(a, k), FromEnd(b, k)) {
      LastHashTellsEvent(c, a, b, k);
    }
    if Complete(c, a) && Complete(c, b) {
      CompleteGoEquallyFar(c, a, b);
      forall i | 0 <= i < |a| ensures SameRecord(a[i], b[i]) {
        assert a[i] == FromEnd(a, |a| - i);
      }
    }
  }

  lemma OnlyFirstHasNoPrevious(c: Crypto, chain: seq<AuditEvent>, k: nat)
    requires Complete(c, chain) && 0 < k <= |chain|
    ensures FromEnd(chain, k).previousHash.None? <==> k == |chain|
  {
    hide Hashed;
    if k < |chain| {
      assert chain[|chain| - k].previousHash == Some(chain[|chain| - k - 1].eventHash);
    }
  }

  lemma CompleteGoEquallyFar(c: Crypto, a: seq<AuditEvent>, b: seq<AuditEvent>)
    requires Complete(c, a) && Complete(c, b) && |a| > 0 && |b| > 0
    requires forall k {:trigger FromEnd(a, k)} :: 0 < k <= |a| && k <= |b| ==> SameRecord(FromEnd(a, k), FromEnd(b, k))
    ensures |a| == |b|
  {
    var n := if |a| < |b| then |a| else |b|;
    assert FromEnd(a, n).previousHash == FromEnd(b, n).previousHash;
    OnlyFirstHasNoPrevious(c, a, n);
    OnlyFirstHasNoPrevious(c, b, n);
    hide Complete;
  }

  /**
    Two runs of the service, with whatever purges as long as none empties the
    tenant before more is written: if the tenant's latest hash is the same, so
    is everything ever recorded for it, in the same order.
   */
  lemma LatestHashTellsRun(c: Crypto, ops: seq<Op>, others: seq<Op>, tenant: string)
    requires MakesDigests(c) && CollisionFree(c, Written(c, ops, tenant), Written(c, others, tenant))
    requires Ascending(Written(c, ops, tenant)) && NeverEmptied(c, ops, tenant)
    requires Ascending(Written(c, others, tenant)) && NeverEmptied(c, others, tenant)
    requires LatestHash(RowsAfter(c, ops), tenant).Some?
    requires LatestHash(RowsAfter(c, ops), tenant) == LatestHash(RowsAfter(c, others), tenant)
    ensures var a, b := Written(c, ops, tenant), Written(c, others, tenant);
            |a| == |b| && forall i :: 0 <= i < |a| ==> SameRecord(a[i], b[i])
  {
    LatestIsLastWritten(c, ops, tenant);
    LatestIsLastWritten(c, others, tenant);
    hide Written, RowsAfter, Linked, CollisionFree, Ascending, NeverEmptied;
    LastHashTellsHistory(c, Written(c, ops, tenant), Written(c, others, tenant));
  }

  lemma LatestIsLastWritten(c: Crypto, ops: seq<Op>, tenant: string)
    requires MakesDigests(c) && Ascending(Written(c, ops, tenant)) && NeverEmptied(c, ops, tenant)
    requires LatestHash(RowsAfter(c, ops), tenant).Some?
    ensures Complete(c, Written(c, ops, tenant)) && |Written(c, ops, tenant)| > 0
    ensures LatestHash(RowsAfter(c, ops), tenant) == Some(FromEnd(Written(c, ops, tenant), 1).eventHash)
  {
    HistoryIsOneChainExactlyWhen(c, ops, tenant);
    StoredIsLinkedSuffix(c, ops, tenant);
    LatestIsLast(RowsAfter(c, ops), tenant);
    hide Written, RowsAfter, Linked, NeverEmptied;
  }

  lemma CompletePrefix(c: Crypto, chain: seq<AuditEvent>, n: nat)
    requires Complete(c, chain) && n <= |chain|
    ensures Complete(c, chain[..n])
  {
    hide Hashed;
  }

  lemma FewerCollide(c: Crypto, a: seq<AuditEvent>, b: seq<AuditEvent>, all: seq<AuditEvent>)
    requires CollisionFree(c, all, all) && a <= all && b <= all
    ensures CollisionFree(c, a, b)
  {
    hide Message;
    assert forall e :: e in a || e in b ==> e in all;
  }

  lemma SameLastSameLength(c: Crypto, a: seq<AuditEvent>, b: seq<AuditEvent>)
    requires Complete(c, a) && Complete(c, b) && CollisionFree(c, a, b) && |a| > 0 && |b| > 0
    requires FromEnd(a, 1).eventHash == FromEnd(b, 1).eventHash
    ensures |a| == |b|
  {
    hide CollisionFree, SameRecord, Hashed;
    LastHashTellsHistory(c, a, b);
  }

  lemma EndOfPrefix(chain: seq<AuditEvent>, i: nat)
    requires i < |chain|
    ensures FromEnd(chain[..i + 1], 1) == chain[i]
  {
  }

  /** In a complete chain every event has a hash of its own. */
  lemma HashesTellPlaces(c: Crypto, chain: seq<AuditEvent>, i: nat, j: nat)
    requires Complete(c, chain) && CollisionFree(c, chain, chain) && i < |chain| && j < |chain|
    requires chain[i].eventHash == chain[j].eventHash
    ensures i == j
  {
    hide Complete, CollisionFree, FromEnd;
    CompletePrefix(c, chain, i + 1);
    CompletePrefix(c, chain, j + 1);
    FewerCollide(c, chain[..i + 1], chain[..j + 1], chain);
    EndOfPrefix(chain, i);
    EndOfPrefix(chain, j);
    SameLastSameLength(c, chain[..i + 1], chain[..j + 1]);
  }
}
