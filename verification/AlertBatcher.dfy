/**
  The batcher: it buffers alerts, and on a full buffer, a tick or shutdown
  writes the whole buffer to the alert table.
 */
module AlertBatcher {
  import opened Alerts
  import opened AlertTable

  // ---------- A flush of any table ----------

  /** The open row of the key that was seen last; among equals the store picks. */
  ghost predicate IsMostRecent(h: string -> nat, t: Table, id: nat, k: DedupKey) {
    Holds(h, t, id, k) && forall j :: Holds(h, t, j, k) ==> t[j].alert.lastSeen <= t[id].alert.lastSeen
  }

  /** For each key with an open row, the row that its alert is merged into. */
  ghost predicate ValidChoice(h: string -> nat, t: Table, m: map<DedupKey, Alert>, choice: map<DedupKey, nat>) {
    && (forall k :: k in choice <==> k in m && HasOpen(h, t, k))
    && (forall k :: k in choice ==> IsMostRecent(h, t, choice[k], k))
  }

  ghost predicate ChosenAreUpdated(t: Table, m: map<DedupKey, Alert>, choice: map<DedupKey, nat>, t': Table) {
    forall k :: k in choice && k in m && choice[k] in t ==>
      choice[k] in t' && t'[choice[k]] == Updated(t[choice[k]], Merge(ReadRow(t[choice[k]]), m[k]))
  }

  ghost predicate OthersAreInserted(m: map<DedupKey, Alert>, choice: map<DedupKey, nat>, t': Table) {
    forall k :: k in m && k !in choice ==> m[k].id in t' && t'[m[k].id] == Inserted(m[k])
  }

  ghost predicate RestStands(t: Table, choice: map<DedupKey, nat>, t': Table) {
    forall id :: id in t && id !in choice.Values ==> id in t' && t'[id] == t[id]
  }

  ghost predicate NothingElse(t: Table, m: map<DedupKey, Alert>, choice: map<DedupKey, nat>, t': Table) {
    forall id :: id in t' && id !in t ==> exists k :: k in m && k !in choice && m[k].id == id
  }

  /** The chosen rows are updated, the other alerts are inserted, and nothing else changes. */
  ghost predicate FlushedTo(t: Table, m: map<DedupKey, Alert>, choice: map<DedupKey, nat>, t': Table) {
    && ChosenAreUpdated(t, m, choice, t') && OthersAreInserted(m, choice, t')
    && RestStands(t, choice, t') && NothingElse(t, m, choice, t')
  }

  lemma OldRowsAreTouched(h: string -> nat, t: Table, m: map<DedupKey, Alert>, choice: map<DedupKey, nat>, t': Table)
    requires OneOpenPerKey(h, t) && ValidChoice(h, t, m, choice)
    requires ChosenAreUpdated(t, m, choice, t') && RestStands(t, choice, t')
    ensures forall id :: id in t ==> id in t' && t'[id] == Touched(h, m, t[id])
    ensures forall k :: k in m ==> (k in choice <==> HasOpen(h, t, k))
  {
    hide KeyOf, Merge, Updated, ReadRow;
    forall id | id in t ensures id in t' && t'[id] == Touched(h, m, t[id]) {
      var k := KeyOf(h, t[id].alert);
      if IsOpenRow(t[id]) && k in m {
        assert Holds(h, t, id, k);
        assert choice[k] == id;
      } else {
        assert id !in choice.Values;
      }
    }
  }

  lemma NewRowsAreInserted(h: string -> nat, t: Table, m: map<DedupKey, Alert>, choice: map<DedupKey, nat>, t': Table)
    requires Fresh(t, m) && OthersAreInserted(m, choice, t') && NothingElse(t, m, choice, t')
    requires forall k :: k in m ==> (k in choice <==> HasOpen(h, t, k))
    ensures forall id :: id in t' && id !in t ==> id in NewIds(h, t, m) && t'[id] == Inserted(WithId(m, id))
    ensures NewIds(h, t, m) <= t'.Keys
  {
    hide Inserted, HasOpen;
    forall id | id in t' && id !in t ensures id in NewIds(h, t, m) && t'[id] == Inserted(WithId(m, id)) {
      var k :| k in m && k !in choice && m[k].id == id;
      WithIdIs(t, m, k);
    }
    forall id | id in NewIds(h, t, m) ensures id in t' {
      var k :| k in m && !HasOpen(h, t, k) && m[k].id == id;
    }
  }

  /** With one open row per key there is one choice, and the result is the table of `Flush`. */
  lemma FlushedToIsFlush(h: string -> nat, t: Table, m: map<DedupKey, Alert>, choice: map<DedupKey, nat>, t': Table)
    requires OneOpenPerKey(h, t) && Fresh(t, m) && ValidChoice(h, t, m, choice) && FlushedTo(t, m, choice, t')
    ensures t' == Flush(h, t, m)
  {
    hide KeyOf, Merge, Updated, ReadRow, Inserted;
    OldRowsAreTouched(h, t, m, choice, t');
    NewRowsAreInserted(h, t, m, choice, t');
    hide ChosenAreUpdated, RestStands, ValidChoice, OneOpenPerKey, Touched;
    hide NewIds, OthersAreInserted, NothingElse, Fresh, HasOpen;
  }

  // ---------- The database ----------

  ghost predicate DistinctIds(alerts: seq<Alert>) {
    forall i, j :: 0 <= i < j < |alerts| ==> alerts[i].id != alerts[j].id
  }

  /** The table after inserting the alerts. */
  function InsertAll(t: Table, alerts: seq<Alert>): Table {
    if |alerts| == 0 then t
    else
      var n := |alerts| - 1;
      InsertAll(t, alerts[..n])[alerts[n].id := Inserted(alerts[n])]
  }

  /** The table after upserting the alerts: on a conflict of the id, the conflict clause decides. */
  function UpsertAll(t: Table, alerts: seq<Alert>): Table {
    if |alerts| == 0 then t
    else
      var n := |alerts| - 1;
      var t1, a := UpsertAll(t, alerts[..n]), alerts[n];
      t1[a.id := if a.id in t1 then Updated(t1[a.id], a) else Inserted(a)]
  }

  lemma {:induction false} InsertAllRows(t: Table, alerts: seq<Alert>)
    requires DistinctIds(alerts) && forall i :: 0 <= i < |alerts| ==> alerts[i].id !in t
    ensures forall i :: 0 <= i < |alerts| ==>
              alerts[i].id in InsertAll(t, alerts) && InsertAll(t, alerts)[alerts[i].id] == Inserted(alerts[i])
    ensures forall id :: id in t ==> id in InsertAll(t, alerts) && InsertAll(t, alerts)[id] == t[id]
    ensures forall id :: id in InsertAll(t, alerts) && id !in t ==> exists i :: 0 <= i < |alerts| && alerts[i].id == id
  {
    hide Inserted;
    if |alerts| > 0 {
      InsertAllRows(t, alerts[..|alerts| - 1]);
    }
  }

  lemma {:induction false} UpsertAllRows(t: Table, alerts: seq<Alert>)
    requires DistinctIds(alerts) && forall i :: 0 <= i < |alerts| ==> alerts[i].id in t
    ensures UpsertAll(t, alerts).Keys == t.Keys
    ensures forall i :: 0 <= i < |alerts| ==> UpsertAll(t, alerts)[alerts[i].id] == Updated(t[alerts[i].id], alerts[i])
    ensures forall id :: id in t && (forall i :: 0 <= i < |alerts| ==> alerts[i].id != id) ==>
              UpsertAll(t, alerts)[id] == t[id]
  {
    hide Updated, Inserted;
    if |alerts| > 0 {
      var n := |alerts| - 1;
      UpsertAllRows(t, alerts[..n]);
      var t1, a := UpsertAll(t, alerts[..n]), alerts[n];
      assert t1[a.id] == t[a.id] && UpsertAll(t, alerts) == t1[a.id := Updated(t[a.id], a)];
      hide UpsertAll;
      assert forall i :: 0 <= i < n ==> alerts[..n][i] == alerts[i];
    }
  }

  /** Each row is stored under its own id. */
  ghost predicate WellNumbered(t: Table) {
    forall id :: id in t ==> t[id].alert.id == id
  }

  class AlertDb {
    var rows: Table

    constructor ()
      ensures rows == map[]
    {
      rows := map[];
    }

    predicate Selected(tenantId: string, ips: set<string>, id: nat)
      reads this
    {
      id in rows && rows[id].alert.tenantId == tenantId && rows[id].alert.sourceIp in ips && IsOpenRow(rows[id])
    }

    /** The open rows of the tenant with one of the addresses, last seen first, each with its row's id. */
    method GetOpenAlertsByIps(tenantId: string, ips: set<string>) returns (alerts: seq<Alert>, ghost ids: seq<nat>)
      ensures |ids| == |alerts|
      ensures forall i :: 0 <= i < |ids| ==> Selected(tenantId, ips, ids[i]) && alerts[i] == ReadRow(rows[ids[i]])
      ensures forall id :: Selected(tenantId, ips, id) ==> id in ids
      ensures forall i, j :: 0 <= i < j < |alerts| ==> alerts[j].lastSeen <= alerts[i].lastSeen
    {
      alerts, ids := [], [];
      var todo := set id | id in rows && Selected(tenantId, ips, id);
      while todo != {}
        invariant forall id :: id in todo ==> Selected(tenantId, ips, id)
        invariant forall i :: 0 <= i < |ids| ==> Selected(tenantId, ips, ids[i])
        invariant forall id :: Selected(tenantId, ips, id) ==> id in todo || id in ids
        invariant ReadInOrder(rows, ids, alerts, todo)
        decreases todo
      {
        LatestExists(rows, todo);
        var id :| id in todo && IsLatest(rows, todo, id);
        NextInOrder(rows, ids, alerts, todo, id);
        hide ReadInOrder;
        alerts, ids := alerts + [ReadRow(rows[id])], ids + [id];
        todo := todo - {id};
      }
    }

    method CreateAlertsBatch(alerts: seq<Alert>)
      modifies this
      ensures rows == InsertAll(old(rows), alerts)
    {
      for n := 0 to |alerts|
        invariant rows == InsertAll(old(rows), alerts[..n])
      {
        assert alerts[..n + 1][..n] == alerts[..n];
        rows := rows[alerts[n].id := Inserted(alerts[n])];
      }
      assert alerts[..|alerts|] == alerts;
    }

    method UpsertAlertsBatch(alerts: seq<Alert>)
      modifies this
      ensures rows == UpsertAll(old(rows), alerts)
    {
      for n := 0 to |alerts|
        invariant rows == UpsertAll(old(rows), alerts[..n])
      {
        var a := alerts[n];
        assert alerts[..n + 1][..n] == alerts[..n];
        rows := rows[a.id := if a.id in rows then Updated(rows[a.id], a) else Inserted(a)];
      }
      assert alerts[..|alerts|] == alerts;
    }
  }

  /** The alerts are the rows with the ids, in descending order, and no row still to come was seen later. */
  ghost predicate ReadInOrder(rows: Table, ids: seq<nat>, alerts: seq<Alert>, todo: set<nat>) {
    && |ids| == |alerts|
    && (forall i :: 0 <= i < |ids| ==> ids[i] in rows && alerts[i] == ReadRow(rows[ids[i]]))
    && (forall i, j :: 0 <= i < j < |alerts| ==> alerts[j].lastSeen <= alerts[i].lastSeen)
    && (forall i, id :: 0 <= i < |alerts| && id in todo && id in rows ==> rows[id].alert.lastSeen <= alerts[i].lastSeen)
  }

  lemma NextInOrder(rows: Table, ids: seq<nat>, alerts: seq<Alert>, todo: set<nat>, id: nat)
    requires ReadInOrder(rows, ids, alerts, todo) && IsLatest(rows, todo, id)
    ensures ReadInOrder(rows, ids + [id], alerts + [ReadRow(rows[id])], todo - {id})
  {
    hide AsUsize;
  }

  predicate IsLatest(t: Table, ids: set<nat>, id: nat) {
    id in ids && id in t && forall j :: j in ids && j in t ==> t[j].alert.lastSeen <= t[id].alert.lastSeen
  }

  lemma {:induction false} LatestExists(t: Table, ids: set<nat>)
    requires ids != {} && ids <= t.Keys
    ensures exists id :: IsLatest(t, ids, id)
  {
    var j :| j in ids;
    if ids - {j} == {} {
      assert ids == {j} && IsLatest(t, ids, j);
    } else {
      LatestExists(t, ids - {j});
      var id :| IsLatest(t, ids - {j}, id);
      var best := if t[id].alert.lastSeen < t[j].alert.lastSeen then j else id;
      assert IsLatest(t, ids, best);
    }
  }

  // ---------- Flushing one tenant ----------

  /** For each key among the fetched alerts, the first one with it. */
  ghost predicate IsFirstOf(h: string -> nat, existing: seq<Alert>, n: nat, first: map<DedupKey, nat>)
    requires n <= |existing|
  {
    && (forall k :: k in first ==> first[k] < n && KeyOf(h, existing[first[k]]) == k)
    && (forall k, j :: k in first && 0 <= j < first[k] ==> KeyOf(h, existing[j]) != k)
    && (forall j :: 0 <= j < n ==> KeyOf(h, existing[j]) in first)
  }

  method IndexExisting(h: string -> nat, existing: seq<Alert>)
    returns (byKey: map<DedupKey, Alert>, ghost first: map<DedupKey, nat>)
    ensures IsFirstOf(h, existing, |existing|, first)
    ensures byKey.Keys == first.Keys && forall k :: k in first ==> byKey[k] == existing[first[k]]
    ensures forall j :: 0 <= j < |existing| ==> KeyOf(h, existing[j]) in byKey
    ensures forall k :: k in byKey ==> byKey[k] in existing && KeyOf(h, byKey[k]) == k
  {
    hide KeyOf, IsFirstOf;
    byKey, first := map[], map[];
    NoneIsFirst(h, existing);
    for n := 0 to |existing|
      invariant IsFirstOf(h, existing, n, first)
      invariant byKey.Keys == first.Keys
      invariant forall k :: k in first ==> first[k] < n && byKey[k] == existing[first[k]]
    {
      var k := KeyOf(h, existing[n]);
      NextIsFirst(h, existing, n, first);
      if k !in byKey {
        byKey, first := byKey[k := existing[n]], first[k := n];
      }
    }
    FirstsAreAll(h, existing, first);
  }

  lemma NoneIsFirst(h: string -> nat, existing: seq<Alert>)
    ensures IsFirstOf(h, existing, 0, map[])
  {
  }

  lemma NextIsFirst(h: string -> nat, existing: seq<Alert>, n: nat, first: map<DedupKey, nat>)
    requires n < |existing| && IsFirstOf(h, existing, n, first)
    ensures var k := KeyOf(h, existing[n]);
            IsFirstOf(h, existing, n + 1, if k in first then first else first[k := n])
  {
    hide KeyOf;
  }

  lemma FirstsAreAll(h: string -> nat, existing: seq<Alert>, first: map<DedupKey, nat>)
    requires IsFirstOf(h, existing, |existing|, first)
    ensures forall j :: 0 <= j < |existing| ==> KeyOf(h, existing[j]) in first
    ensures forall k :: k in first ==> first[k] < |existing| && KeyOf(h, existing[first[k]]) == k
  {
    hide KeyOf;
  }

  /** How the tenant's alerts divide into rows to update and rows to create; each list has its keys beside it. */
  ghost predicate IsDivided(alerts: map<DedupKey, Alert>, byKey: map<DedupKey, Alert>, done: set<DedupKey>,
                            updates: seq<Alert>, updateKeys: seq<DedupKey>,
                            creates: seq<Alert>, createKeys: seq<DedupKey>) {
    && |updates| == |updateKeys| && |creates| == |createKeys|
    && (forall i :: 0 <= i < |updates| ==>
          && updateKeys[i] in alerts && updateKeys[i] in byKey
          && updates[i] == Merge(byKey[updateKeys[i]], alerts[updateKeys[i]]))
    && (forall i :: 0 <= i < |creates| ==>
          createKeys[i] in alerts && createKeys[i] !in byKey && creates[i] == alerts[createKeys[i]])
    && (forall i, j :: 0 <= i < j < |updateKeys| ==> updateKeys[i] != updateKeys[j])
    && (forall i, j :: 0 <= i < j < |createKeys| ==> createKeys[i] != createKeys[j])
    && (forall k :: k in updateKeys || k in createKeys <==> k in done)
  }

  lemma IsPlaced(alerts: map<DedupKey, Alert>, byKey: map<DedupKey, Alert>,
                 updates: seq<Alert>, updateKeys: seq<DedupKey>,
                 creates: seq<Alert>, createKeys: seq<DedupKey>, k: DedupKey)
    requires IsDivided(alerts, byKey, alerts.Keys, updates, updateKeys, creates, createKeys) && k in alerts
    ensures if k in byKey then Merge(byKey[k], alerts[k]) in updates else alerts[k] in creates
  {
    hide Merge;
    if k in updateKeys {
      var i :| 0 <= i < |updateKeys| && updateKeys[i] == k;
      assert updates[i] in updates;
    } else {
      var i :| 0 <= i < |createKeys| && createKeys[i] == k;
      assert creates[i] in creates;
    }
  }

  method Divide(alerts: map<DedupKey, Alert>, byKey: map<DedupKey, Alert>)
    returns (updates: seq<Alert>, creates: seq<Alert>, ghost updateKeys: seq<DedupKey>, ghost createKeys: seq<DedupKey>)
    ensures IsDivided(alerts, byKey, alerts.Keys, updates, updateKeys, creates, createKeys)
    ensures forall k :: k in alerts && k in byKey ==> Merge(byKey[k], alerts[k]) in updates
    ensures forall k :: k in alerts && k !in byKey ==> alerts[k] in creates
    ensures |updates| + |creates| == |alerts|
  {
    updates, creates, updateKeys, createKeys := [], [], [], [];
    var todo := alerts.Keys;
    while todo != {}
      invariant todo <= alerts.Keys
      invariant IsDivided(alerts, byKey, alerts.Keys - todo, updates, updateKeys, creates, createKeys)
      invariant |updates| + |creates| + |todo| == |alerts|
      decreases todo
    {
      var k :| k in todo;
      if k in byKey {
        var merged := MergeAlert(byKey[k], alerts[k]);
        updates, updateKeys := updates + [merged], updateKeys + [k];
      } else {
        creates, createKeys := creates + [alerts[k]], createKeys + [k];
      }
      todo := todo - {k};
    }
    assert alerts.Keys - todo == alerts.Keys;
    forall k | k in alerts
      ensures k in byKey ==> Merge(byKey[k], alerts[k]) in updates
      ensures k !in byKey ==> alerts[k] in creates
    {
      IsPlaced(alerts, byKey, updates, updateKeys, creates, createKeys, k);
    }
  }

  /** What the fetched rows say about the alerts' keys: the open row each is merged into, if any. */
  ghost predicate IsLookup(h: string -> nat, t: Table, m: map<DedupKey, Alert>, byKey: map<DedupKey, Alert>,
                           choice: map<DedupKey, nat>) {
    && ValidChoice(h, t, m, choice)
    && (forall k :: k in m ==> (k in byKey <==> k in choice))
    && (forall k :: k in choice ==> choice[k] in t && byKey[k] == ReadRow(t[choice[k]]))
  }

  ghost predicate Fetched(t: Table, ids: seq<nat>, existing: seq<Alert>) {
    && |ids| == |existing|
    && (forall i :: 0 <= i < |ids| ==> ids[i] in t && IsOpenRow(t[ids[i]]) && existing[i] == ReadRow(t[ids[i]]))
    && (forall i, j :: 0 <= i < j < |existing| ==> existing[j].lastSeen <= existing[i].lastSeen)
  }

  lemma FetchedHolds(h: string -> nat, t: Table, ids: seq<nat>, existing: seq<Alert>, i: nat)
    requires Fetched(t, ids, existing) && i < |ids|
    ensures Holds(h, t, ids[i], KeyOf(h, existing[i])) && existing[i].lastSeen == t[ids[i]].alert.lastSeen
  {
  }

  /** The first fetched alert of a key is its most recent open row. */
  lemma FirstIsMostRecent(h: string -> nat, t: Table, ids: seq<nat>, existing: seq<Alert>, first: map<DedupKey, nat>,
                          k: DedupKey)
    requires Fetched(t, ids, existing) && IsFirstOf(h, existing, |existing|, first)
    requires forall id :: Holds(h, t, id, k) ==> id in ids
    ensures k in first <==> HasOpen(h, t, k)
    ensures k in first ==> IsMostRecent(h, t, ids[first[k]], k) && existing[first[k]] == ReadRow(t[ids[first[k]]])
  {
    hide KeyOf, ReadRow;
    forall id | Holds(h, t, id, k) ensures k in first && t[id].alert.lastSeen <= existing[first[k]].lastSeen {
      var j :| 0 <= j < |ids| && ids[j] == id;
      FetchedHolds(h, t, ids, existing, j);
      assert KeyOf(h, existing[j]) == k;
    }
    if k in first {
      FetchedHolds(h, t, ids, existing, first[k]);
    }
  }

  /** The rows the query and the index select are the most recent open rows of the keys. */
  lemma LookupIsRight(h: string -> nat, t: Table, m: map<DedupKey, Alert>, existing: seq<Alert>, ids: seq<nat>,
                      first: map<DedupKey, nat>, byKey: map<DedupKey, Alert>)
    returns (choice: map<DedupKey, nat>)
    requires Fetched(t, ids, existing) && IsFirstOf(h, existing, |existing|, first)
    requires forall k, id :: k in m && Holds(h, t, id, k) ==> id in ids
    requires byKey.Keys == first.Keys && forall k :: k in first ==> byKey[k] == existing[first[k]]
    ensures IsLookup(h, t, m, byKey, choice)
  {
    hide KeyOf, ReadRow, IsMostRecent, HasOpen;
    choice := map k | k in m && k in first :: ids[first[k]];
    forall k | k in m
      ensures k in first <==> HasOpen(h, t, k)
      ensures k in first ==> IsMostRecent(h, t, choice[k], k) && byKey[k] == ReadRow(t[choice[k]])
    {
      FirstIsMostRecent(h, t, ids, existing, first, k);
    }
    hide IsFirstOf, Fetched;
  }

  /** What the division and the lookup come to, id by id: the updates. */
  ghost predicate PlansUpdates(t: Table, m: map<DedupKey, Alert>, choice: map<DedupKey, nat>,
                               updates: seq<Alert>, updateKeys: seq<DedupKey>) {
    && DistinctIds(updates) && |updates| == |updateKeys|
    && (forall i :: 0 <= i < |updates| ==>
          && updateKeys[i] in choice && updateKeys[i] in m
          && updates[i].id == choice[updateKeys[i]] && updates[i].id in t
          && updates[i] == Merge(ReadRow(t[updates[i].id]), m[updateKeys[i]]))
    && (forall k :: k in choice ==> k in updateKeys)
  }

  /** And the inserts. */
  ghost predicate PlansCreates(t: Table, m: map<DedupKey, Alert>, choice: map<DedupKey, nat>,
                               creates: seq<Alert>, createKeys: seq<DedupKey>) {
    && DistinctIds(creates) && |creates| == |createKeys|
    && (forall i :: 0 <= i < |creates| ==>
          createKeys[i] in m && createKeys[i] !in choice && creates[i] == m[createKeys[i]] && creates[i].id !in t)
    && (forall k :: k in m && k !in choice ==> k in createKeys)
  }

  lemma DivisionIsPlan(h: string -> nat, t: Table, m: map<DedupKey, Alert>, byKey: map<DedupKey, Alert>,
                       choice: map<DedupKey, nat>, updates: seq<Alert>, updateKeys: seq<DedupKey>,
                       creates: seq<Alert>, createKeys: seq<DedupKey>)
    requires WellNumbered(t) && Fresh(t, m) && IsLookup(h, t, m, byKey, choice)
    requires IsDivided(m, byKey, m.Keys, updates, updateKeys, creates, createKeys)
    ensures PlansUpdates(t, m, choice, updates, updateKeys) && PlansCreates(t, m, choice, creates, createKeys)
  {
    DivisionPlansUpdates(h, t, m, byKey, choice, updates, updateKeys, creates, createKeys);
    hide KeyOf, Merge, ReadRow, IsMostRecent, HasOpen, PlansUpdates;
    assert forall i :: 0 <= i < |createKeys| ==> createKeys[i] in createKeys;
  }

  lemma DivisionPlansUpdates(h: string -> nat, t: Table, m: map<DedupKey, Alert>, byKey: map<DedupKey, Alert>,
                             choice: map<DedupKey, nat>, updates: seq<Alert>, updateKeys: seq<DedupKey>,
                             creates: seq<Alert>, createKeys: seq<DedupKey>)
    requires WellNumbered(t) && IsLookup(h, t, m, byKey, choice)
    requires IsDivided(m, byKey, m.Keys, updates, updateKeys, creates, createKeys)
    ensures PlansUpdates(t, m, choice, updates, updateKeys)
  {
    hide KeyOf, HasOpen;
    forall k | k in choice ensures Holds(h, t, choice[k], k) {
      assert IsMostRecent(h, t, choice[k], k);
    }
    hide IsMostRecent;
    forall i | 0 <= i < |updates| ensures updateKeys[i] in choice && updates[i].id == choice[updateKeys[i]] {
      MergedId(byKey[updateKeys[i]], m[updateKeys[i]]);
    }
    hide Merge, ReadRow;
    forall i, j | 0 <= i < j < |updates| ensures updates[i].id != updates[j].id {
      assert Holds(h, t, updates[i].id, updateKeys[i]) && Holds(h, t, updates[j].id, updateKeys[j]);
    }
  }

  lemma MergedId(a: Alert, b: Alert)
    ensures Merge(a, b).id == a.id
  {
  }

  lemma UpdatesAreFlush(t: Table, m: map<DedupKey, Alert>, choice: map<DedupKey, nat>, t1: Table,
                        updates: seq<Alert>, updateKeys: seq<DedupKey>)
    requires PlansUpdates(t, m, choice, updates, updateKeys)
    requires forall id :: id in t ==> id in t1 && t1[id] == t[id]
    ensures ChosenAreUpdated(t, m, choice, UpsertAll(t1, updates)) && RestStands(t, choice, UpsertAll(t1, updates))
  {
    hide ReadRow, Merge, Updated, Inserted, UpsertAll;
    UpsertAllRows(t1, updates);
    var t2 := UpsertAll(t1, updates);
    forall k | k in choice
      ensures choice[k] in t && choice[k] in t2
              && t2[choice[k]] == Updated(t[choice[k]], Merge(ReadRow(t[choice[k]]), m[k]))
    {
      var i :| 0 <= i < |updates| && updateKeys[i] == k;
      assert updates[i].id == choice[k];
    }
    forall id | id in t && id !in choice.Values ensures id in t2 && t2[id] == t[id] {
      forall i | 0 <= i < |updates| ensures updates[i].id != id {
        assert choice[updateKeys[i]] in choice.Values;
      }
    }
  }

  lemma CreatedRow(t: Table, m: map<DedupKey, Alert>, choice: map<DedupKey, nat>,
                   creates: seq<Alert>, createKeys: seq<DedupKey>, k: DedupKey)
    requires PlansCreates(t, m, choice, creates, createKeys) && k in m && k !in choice
    ensures m[k].id in InsertAll(t, creates) && InsertAll(t, creates)[m[k].id] == Inserted(m[k]) && m[k].id !in t
  {
    hide Inserted, InsertAll;
    var i :| 0 <= i < |creates| && createKeys[i] == k;
    InsertAllRows(t, creates);
    assert creates[i] == m[k];
  }

  lemma CreatedFrom(t: Table, m: map<DedupKey, Alert>, choice: map<DedupKey, nat>,
                    creates: seq<Alert>, createKeys: seq<DedupKey>, id: nat) returns (k: DedupKey)
    requires PlansCreates(t, m, choice, creates, createKeys) && id in InsertAll(t, creates) && id !in t
    ensures k in m && k !in choice && m[k].id == id
  {
    hide Inserted, InsertAll;
    InsertAllRows(t, creates);
    var i :| 0 <= i < |creates| && creates[i].id == id;
    k := createKeys[i];
  }

  lemma InsertsAreFlush(t: Table, m: map<DedupKey, Alert>, choice: map<DedupKey, nat>, t2: Table,
                        creates: seq<Alert>, createKeys: seq<DedupKey>)
    requires PlansCreates(t, m, choice, creates, createKeys)
    requires t2.Keys == InsertAll(t, creates).Keys
    requires forall id :: id in t2 && id !in t ==> t2[id] == InsertAll(t, creates)[id]
    ensures OthersAreInserted(m, choice, t2) && NothingElse(t, m, choice, t2)
  {
    hide PlansCreates, Inserted, InsertAll;
    forall k | k in m && k !in choice ensures m[k].id in t2 && t2[m[k].id] == Inserted(m[k]) {
      CreatedRow(t, m, choice, creates, createKeys, k);
    }
    forall id | id in t2 && id !in t ensures exists k :: k in m && k !in choice && m[k].id == id {
      var k := CreatedFrom(t, m, choice, creates, createKeys, id);
    }
  }

  /** The inserts and then the updates make the table the flush describes. */
  lemma WritesAreFlush(t: Table, m: map<DedupKey, Alert>, choice: map<DedupKey, nat>,
                       updates: seq<Alert>, updateKeys: seq<DedupKey>, creates: seq<Alert>, createKeys: seq<DedupKey>)
    requires PlansUpdates(t, m, choice, updates, updateKeys) && PlansCreates(t, m, choice, creates, createKeys)
    ensures FlushedTo(t, m, choice, UpsertAll(InsertAll(t, creates), updates))
  {
    hide ReadRow, Merge, Updated, Inserted, InsertAll, UpsertAll;
    hide ChosenAreUpdated, RestStands, OthersAreInserted, NothingElse;
    var t1 := InsertAll(t, creates);
    InsertAllRows(t, creates);
    UpdatesAreFlush(t, m, choice, t1, updates, updateKeys);
    UpsertAllRows(t1, updates);
    InsertsAreFlush(t, m, choice, UpsertAll(t1, updates), creates, createKeys);
  }

  // ---------- The batcher ----------

  /** The ids of the alerts are new to the table and differ from each other. */
  ghost predicate FreshBatch(t: Table, batch: seq<Alert>) {
    DistinctIds(batch) && forall i :: 0 <= i < |batch| ==> batch[i].id !in t
  }

  lemma FreshAggregate(h: string -> nat, t: Table, batch: seq<Alert>)
    requires FreshBatch(t, batch)
    ensures Keyed(h, Aggregate(h, batch)) && Fresh(t, Aggregate(h, batch))
  {
    AggregateKeys(h, batch);
    hide KeyOf, Aggregate;
    var m := Aggregate(h, batch);
    forall j, k | j in m && k in m && j != k ensures m[j].id != m[k].id {
      var a :| a in batch && a.id == m[j].id && a.status == m[j].status && KeyOf(h, a) == j;
      var b :| b in batch && b.id == m[k].id && b.status == m[k].status && KeyOf(h, b) == k;
    }
  }

  /** The part of an aggregate that belongs to the tenants. */
  function Slices(m: map<DedupKey, Alert>, tenants: set<string>): map<DedupKey, Alert> {
    map k | k in m && k.tenantId in tenants :: m[k]
  }

  /** The batcher as a value: its table and its buffer, and whether it still runs. */
  datatype Batcher = Batcher(table: Table, buffer: seq<Alert>, running: bool)

  datatype Input = Received(alert: Alert) | Tick | Shutdown

  ghost function FlushBuffer(h: string -> nat, b: Batcher): Batcher {
    if b.buffer == [] then b else b.(table := Flush(h, b.table, Aggregate(h, b.buffer)), buffer := [])
  }

  /** One turn of the batcher's loop. */
  ghost function Turn(h: string -> nat, batchSize: nat, b: Batcher, input: Input): Batcher {
    if !b.running then b
    else match input
      case Received(alert) =>
        var b1 := b.(buffer := b.buffer + [alert]);
        if |b1.buffer| >= batchSize then FlushBuffer(h, b1) else b1
      case Tick => FlushBuffer(h, b)
      case Shutdown => FlushBuffer(h, b).(running := false)
  }

  /** What a flush of the buffer may leave, whatever the table: the store picks among rows seen last at one time. */
  ghost predicate FlushesTo(h: string -> nat, b: Batcher, choice: map<DedupKey, nat>, b': Batcher) {
    if b.buffer == [] then b' == b
    else b' == b.(table := b'.table, buffer := []) && HasFlushed(h, b.table, Aggregate(h, b.buffer), choice, b'.table)
  }

  /** One turn of the batcher's loop on any table. */
  ghost predicate TurnsTo(h: string -> nat, batchSize: nat, b: Batcher, input: Input, choice: map<DedupKey, nat>,
                          b': Batcher) {
    if !b.running then b' == b
    else match input
      case Received(alert) =>
        var b1 := b.(buffer := b.buffer + [alert]);
        if |b1.buffer| >= batchSize then FlushesTo(h, b1, choice, b') else b' == b1
      case Tick => FlushesTo(h, b, choice, b')
      case Shutdown => FlushesTo(h, b.(running := false), choice, b')
  }

  /** A batcher over a database; `h` is the text hash of the fingerprint. */
  class DbBatcher {
    const h: string -> nat
    const db: AlertDb
    const batchSize: nat
    var buffer: seq<Alert>
    var running: bool

    constructor (h: string -> nat, db: AlertDb, batchSize: nat)
      ensures this.h == h && this.db == db && this.batchSize == batchSize && buffer == [] && running
    {
      this.h, this.db, this.batchSize := h, db, batchSize;
      buffer, running := [], true;
    }

    ghost function Contents(): Batcher
      reads this, db
    {
      Batcher(db.rows, buffer, running)
    }

    /** One turn of the loop: the event that came first is served. */
    method Serve(input: Input) returns (ghost choice: map<DedupKey, nat>)
      requires WellNumbered(db.rows)
      requires FreshBatch(db.rows, if input.Received? then buffer + [input.alert] else buffer)
      modifies this, db
      ensures WellNumbered(db.rows) && TurnsTo(h, batchSize, old(Contents()), input, choice, Contents())
      ensures OneOpenPerKey(h, old(db.rows)) ==> Contents() == Turn(h, batchSize, old(Contents()), input)
    {
      hide FreshBatch, OneOpenPerKey, Flush, Aggregate, ValidChoice, FlushedTo;
      choice := map[];
      if !running {
        return;
      }
      match input
      case Received(alert) =>
        buffer := buffer + [alert];
        if |buffer| >= batchSize {
          choice := FlushBatch();
        }
      case Tick =>
        if buffer != [] {
          choice := FlushBatch();
        }
      case Shutdown =>
        if buffer != [] {
          choice := FlushBatch();
        }
        running := false;
    }

    /** Merges one tenant's alerts into their most recent open rows and inserts the rest. */
    method FlushTenant(tenantId: string, alerts: map<DedupKey, Alert>) returns (ghost choice: map<DedupKey, nat>)
      requires WellNumbered(db.rows) && Keyed(h, alerts) && Fresh(db.rows, alerts)
      requires forall k :: k in alerts ==> k.tenantId == tenantId
      modifies db
      ensures HasFlushed(h, old(db.rows), alerts, choice, db.rows)
    {
      ghost var t := db.rows;
      var ips := set k | k in alerts :: alerts[k].sourceIp;
      var existing, ids := db.GetOpenAlertsByIps(tenantId, ips);
      var byKey, first := IndexExisting(h, existing);
      forall k, id | k in alerts && Holds(h, t, id, k) ensures id in ids {
        assert KeyOf(h, alerts[k]) == k;
        assert db.Selected(tenantId, ips, id);
      }
      choice := LookupIsRight(h, t, alerts, existing, ids, first, byKey);
      var updates, creates, updateKeys, createKeys := Divide(alerts, byKey);
      DivisionIsPlan(h, t, alerts, byKey, choice, updates, updateKeys, creates, createKeys);
      WritesAreFlush(t, alerts, choice, updates, updateKeys, creates, createKeys);
      db.CreateAlertsBatch(creates);
      db.UpsertAlertsBatch(updates);
      FlushKeepsNumbers(t, alerts, choice, db.rows);
    }

    /** Aggregates the buffer by tenant and key, empties it, and flushes tenant by tenant. */
    method FlushBatch() returns (ghost choice: map<DedupKey, nat>)
      requires WellNumbered(db.rows) && FreshBatch(db.rows, buffer)
      modifies this`buffer, db
      ensures buffer == [] && HasFlushed(h, old(db.rows), Aggregate(h, old(buffer)), choice, db.rows)
      ensures OneOpenPerKey(h, old(db.rows)) ==> db.rows == Flush(h, old(db.rows), Aggregate(h, old(buffer)))
    {
      ghost var t, m := db.rows, Aggregate(h, buffer);
      FreshAggregate(h, t, buffer);
      var byTenant := GroupByTenant();
      buffer := [];
      var todo := byTenant.Keys;
      ghost var done: set<string> := {};
      choice := map[];
      NothingFlushedYet(h, t);
      assert Slices(m, {}) == map[];
      while todo != {}
        invariant buffer == [] && todo !! done && todo + done == byTenant.Keys
        invariant HasFlushed(h, t, Slices(m, done), choice, db.rows)
        decreases todo
      {
        hide HasFlushed, Apart, Keyed, Fresh;
        var tenantId :| tenantId in todo;
        ghost var t1 := db.rows;
        SlicesAreApart(h, t, m, done, tenantId);
        StillFreshAfter(h, t, Slices(m, done), Slices(m, {tenantId}), choice, t1);
        assert WellNumbered(t1) by { FlushedIsNumbered(h, t, Slices(m, done), choice, t1); }
        ghost var chosen := FlushTenant(tenantId, byTenant[tenantId]);
        FlushesJoin(h, t, Slices(m, done), Slices(m, {tenantId}), choice, t1, chosen, db.rows);
        todo, done, choice := todo - {tenantId}, done + {tenantId}, choice + chosen;
      }
      assert Slices(m, done) == m;
      if OneOpenPerKey(h, t) {
        FlushedToIsFlush(h, t, m, choice, db.rows);
      }
    }

    method GroupByTenant() returns (byTenant: map<string, map<DedupKey, Alert>>)
      ensures var m := Aggregate(h, buffer);
              && (forall k :: k in m ==> k.tenantId in byTenant)
              && (forall tenantId :: tenantId in byTenant ==> byTenant[tenantId] == Slices(m, {tenantId}))
    {
      byTenant := map[];
      for n := 0 to |buffer|
        invariant IsGrouped(Aggregate(h, buffer[..n]), byTenant)
      {
        var alert := buffer[n];
        var k := KeyOf(h, alert);
        var slice := if alert.tenantId in byTenant then byTenant[alert.tenantId] else map[];
        assert buffer[..n + 1][..n] == buffer[..n];
        GroupedPut(Aggregate(h, buffer[..n]), byTenant, k, alert);
        byTenant := byTenant[alert.tenantId := Put(slice, k, alert)];
      }
      assert buffer[..|buffer|] == buffer;
    }
  }

  /** The aggregate by tenant: the slice of each tenant it has keys of. */
  ghost predicate IsGrouped(m: map<DedupKey, Alert>, byTenant: map<string, map<DedupKey, Alert>>) {
    && (forall k :: k in m ==> k.tenantId in byTenant)
    && (forall tenantId :: tenantId in byTenant ==> byTenant[tenantId] == Slices(m, {tenantId}))
  }

  lemma GroupedPut(m: map<DedupKey, Alert>, byTenant: map<string, map<DedupKey, Alert>>, k: DedupKey, a: Alert)
    requires IsGrouped(m, byTenant)
    ensures var slice := if k.tenantId in byTenant then byTenant[k.tenantId] else map[];
            IsGrouped(Put(m, k, a), byTenant[k.tenantId := Put(slice, k, a)])
  {
    SliceOfPut(m, k, a);
    assert forall j :: j in Put(m, k, a) ==> j == k || j in m;
    assert k.tenantId !in byTenant ==> Slices(m, {k.tenantId}) == map[];
    hide Put, Slices;
  }

  lemma FlushKeepsNumbers(t: Table, m: map<DedupKey, Alert>, choice: map<DedupKey, nat>, t': Table)
    requires WellNumbered(t) && FlushedTo(t, m, choice, t')
    requires forall k :: k in choice ==> k in m && choice[k] in t
    ensures WellNumbered(t')
  {
    forall id | id in t' ensures t'[id].alert.id == id {
      if id in t && id in choice.Values {
        var k :| k in choice && choice[k] == id;
      } else if id !in t {
        var k :| k in m && k !in choice && m[k].id == id;
      }
    }
  }

  lemma SliceOfPut(m: map<DedupKey, Alert>, k: DedupKey, a: Alert)
    ensures Slices(Put(m, k, a), {k.tenantId}) == Put(Slices(m, {k.tenantId}), k, a)
    ensures forall tenantId :: tenantId != k.tenantId ==> Slices(Put(m, k, a), {tenantId}) == Slices(m, {tenantId})
  {
    hide Merge;
  }

  /** How far a flush that has done some of the tenants has come. */
  ghost predicate HasFlushed(h: string -> nat, t: Table, m: map<DedupKey, Alert>, choice: map<DedupKey, nat>,
                             rows: Table) {
    WellNumbered(rows) && ValidChoice(h, t, m, choice) && FlushedTo(t, m, choice, rows)
  }

  /** Aggregates of different keys, fit to be flushed into the table. */
  ghost predicate Apart(h: string -> nat, t: Table, m1: map<DedupKey, Alert>, m2: map<DedupKey, Alert>) {
    Keyed(h, m1) && Keyed(h, m2) && FreshBoth(t, m1, m2) && m1.Keys !! m2.Keys
  }

  lemma UpdatedKeepsKey(h: string -> nat, r: Row, a: Alert)
    requires KeyOf(h, r.alert) == KeyOf(h, a)
    ensures KeyOf(h, Updated(r, Merge(ReadRow(r), a)).alert) == KeyOf(h, a)
  {
  }

  /** Flushing other keys leaves a key's open rows as they were. */
  lemma OtherKeysStand(h: string -> nat, t: Table, m1: map<DedupKey, Alert>, m2: map<DedupKey, Alert>,
                       c1: map<DedupKey, nat>, t1: Table, k: DedupKey, id: nat)
    requires Apart(h, t, m1, m2) && HasFlushed(h, t, m1, c1, t1) && k in m2
    ensures Holds(h, t1, id, k) <==> Holds(h, t, id, k)
    ensures Holds(h, t, id, k) ==> id !in c1.Values && t1[id] == t[id]
  {
    hide KeyOf, Updated, Merge, ReadRow, HasOpen;
    if id in t && id in c1.Values {
      var k1 :| k1 in c1 && c1[k1] == id;
      assert Holds(h, t, id, k1) by {
        assert IsMostRecent(h, t, c1[k1], k1);
      }
      UpdatedKeepsKey(h, t[id], m1[k1]);
    } else if id in t1 && id !in t {
      var k1 :| k1 in m1 && k1 !in c1 && m1[k1].id == id;
      InsertedKeepsKey(h, m1[k1]);
    }
  }

  /** Two choices that do not meet: the second is of rows the first flush left as they were. */
  ghost predicate Joinable(t: Table, m1: map<DedupKey, Alert>, m2: map<DedupKey, Alert>,
                           c1: map<DedupKey, nat>, t1: Table, c2: map<DedupKey, nat>) {
    && m1.Keys !! m2.Keys && c1.Keys <= m1.Keys && c2.Keys <= m2.Keys
    && (forall k :: k in c1 ==> c1[k] in t)
    && (forall k :: k in c2 ==> c2[k] in t && c2[k] in t1 && c2[k] !in c1.Values && t1[c2[k]] == t[c2[k]])
  }

  lemma OtherChoicesStand(h: string -> nat, t: Table, m1: map<DedupKey, Alert>, m2: map<DedupKey, Alert>,
                          c1: map<DedupKey, nat>, t1: Table, k: DedupKey)
    requires Apart(h, t, m1, m2) && HasFlushed(h, t, m1, c1, t1) && k in m2
    ensures HasOpen(h, t1, k) <==> HasOpen(h, t, k)
    ensures forall id :: IsMostRecent(h, t1, id, k) ==>
              IsMostRecent(h, t, id, k) && id in t && id in t1 && id !in c1.Values && t1[id] == t[id]
  {
    forall id
      ensures Holds(h, t1, id, k) <==> Holds(h, t, id, k)
      ensures Holds(h, t, id, k) ==> id !in c1.Values && t1[id] == t[id]
    {
      OtherKeysStand(h, t, m1, m2, c1, t1, k, id);
    }
    hide KeyOf, Apart, HasFlushed;
  }

  lemma ChoicesAreValid(h: string -> nat, t: Table, m1: map<DedupKey, Alert>, m2: map<DedupKey, Alert>,
                        c1: map<DedupKey, nat>, c2: map<DedupKey, nat>)
    requires ValidChoice(h, t, m1, c1) && ValidChoice(h, t, m2, c2) && m1.Keys !! m2.Keys
    ensures ValidChoice(h, t, m1 + m2, c1 + c2)
  {
    hide HasOpen, IsMostRecent;
    assert forall k :: k in c1 + c2 <==> k in c1 || k in c2;
    assert forall k :: k in c1 ==> k !in c2 && (c1 + c2)[k] == c1[k];
  }

  /** A choice made after a flush of other keys is one that could have been made before it. */
  lemma ChoiceStands(h: string -> nat, t: Table, m1: map<DedupKey, Alert>, m2: map<DedupKey, Alert>,
                     c1: map<DedupKey, nat>, t1: Table, c2: map<DedupKey, nat>)
    requires Apart(h, t, m1, m2) && HasFlushed(h, t, m1, c1, t1) && ValidChoice(h, t1, m2, c2)
    ensures ValidChoice(h, t, m2, c2)
    ensures forall k :: k in c2 ==> c2[k] in t && c2[k] in t1 && c2[k] !in c1.Values && t1[c2[k]] == t[c2[k]]
  {
    hide HasFlushed, Apart, HasOpen, IsMostRecent;
    forall k | k in m2
      ensures HasOpen(h, t1, k) <==> HasOpen(h, t, k)
      ensures forall id :: IsMostRecent(h, t1, id, k) ==>
                IsMostRecent(h, t, id, k) && id in t && id in t1 && id !in c1.Values && t1[id] == t[id]
    {
      OtherChoicesStand(h, t, m1, m2, c1, t1, k);
    }
  }

  lemma ChoicesJoin(h: string -> nat, t: Table, m1: map<DedupKey, Alert>, m2: map<DedupKey, Alert>,
                    c1: map<DedupKey, nat>, t1: Table, c2: map<DedupKey, nat>)
    requires Apart(h, t, m1, m2) && HasFlushed(h, t, m1, c1, t1) && ValidChoice(h, t1, m2, c2)
    ensures Joinable(t, m1, m2, c1, t1, c2) && ValidChoice(h, t, m1 + m2, c1 + c2)
  {
    hide ValidChoice, FlushedTo, Keyed, FreshBoth, WellNumbered;
    ChosenIsThere(h, t, m1, c1);
    ChosenIsThere(h, t1, m2, c2);
    ChoiceStands(h, t, m1, m2, c1, t1, c2);
    ChoicesAreValid(h, t, m1, m2, c1, c2);
  }

  lemma ChosenIsThere(h: string -> nat, t: Table, m: map<DedupKey, Alert>, choice: map<DedupKey, nat>)
    requires ValidChoice(h, t, m, choice)
    ensures forall k :: k in choice ==> k in m && choice[k] in t
  {
    hide KeyOf, HasOpen;
    forall k | k in choice ensures k in m && choice[k] in t {
      assert IsMostRecent(h, t, choice[k], k);
    }
  }

  lemma UpdatesJoin(t: Table, m1: map<DedupKey, Alert>, m2: map<DedupKey, Alert>,
                    c1: map<DedupKey, nat>, t1: Table, c2: map<DedupKey, nat>, t2: Table)
    requires Joinable(t, m1, m2, c1, t1, c2)
    requires ChosenAreUpdated(t, m1, c1, t1) && ChosenAreUpdated(t1, m2, c2, t2) && RestStands(t1, c2, t2)
    ensures ChosenAreUpdated(t, m1 + m2, c1 + c2, t2)
  {
    hide Updated, Merge, ReadRow;
    forall k | k in c1 ensures c1[k] !in c2.Values {
      assert c1[k] in c1.Values;
    }
  }

  lemma InsertsJoin(t: Table, m1: map<DedupKey, Alert>, m2: map<DedupKey, Alert>,
                    c1: map<DedupKey, nat>, t1: Table, c2: map<DedupKey, nat>, t2: Table)
    requires Joinable(t, m1, m2, c1, t1, c2) && Fresh(t, m1)
    requires OthersAreInserted(m1, c1, t1) && OthersAreInserted(m2, c2, t2) && RestStands(t1, c2, t2)
    ensures OthersAreInserted(m1 + m2, c1 + c2, t2)
  {
    hide Inserted;
    forall k | k in m1 ensures m1[k].id !in c2.Values {
    }
  }

  lemma RestJoins(t: Table, m1: map<DedupKey, Alert>, m2: map<DedupKey, Alert>,
                  c1: map<DedupKey, nat>, t1: Table, c2: map<DedupKey, nat>, t2: Table)
    requires Joinable(t, m1, m2, c1, t1, c2) && RestStands(t, c1, t1) && RestStands(t1, c2, t2)
    ensures RestStands(t, c1 + c2, t2)
  {
    forall id | id in c1.Values ensures id in (c1 + c2).Values {
      var k :| k in c1 && c1[k] == id;
      assert k in c1 + c2 && (c1 + c2)[k] == id;
    }
    forall id | id in c2.Values ensures id in (c1 + c2).Values {
      var k :| k in c2 && c2[k] == id;
      assert k in c1 + c2 && (c1 + c2)[k] == id;
    }
  }

  lemma NothingElseJoins(t: Table, m1: map<DedupKey, Alert>, m2: map<DedupKey, Alert>,
                         c1: map<DedupKey, nat>, t1: Table, c2: map<DedupKey, nat>, t2: Table)
    requires Joinable(t, m1, m2, c1, t1, c2) && NothingElse(t, m1, c1, t1) && NothingElse(t1, m2, c2, t2)
    ensures NothingElse(t, m1 + m2, c1 + c2, t2)
  {
    forall id | id in t2 && id !in t ensures exists k :: k in m1 + m2 && k !in c1 + c2 && (m1 + m2)[k].id == id {
      if id in t1 {
        var k :| k in m1 && k !in c1 && m1[k].id == id;
        assert k in m1 + m2 && k !in c1 + c2 && (m1 + m2)[k].id == id;
      } else {
        var k :| k in m2 && k !in c2 && m2[k].id == id;
        assert k in m1 + m2 && k !in c1 + c2 && (m1 + m2)[k].id == id;
      }
    }
  }

  /** Two flushes of different keys, one after the other, make one flush of both. */
  lemma FlushesJoin(h: string -> nat, t: Table, m1: map<DedupKey, Alert>, m2: map<DedupKey, Alert>,
                    c1: map<DedupKey, nat>, t1: Table, c2: map<DedupKey, nat>, t2: Table)
    requires Apart(h, t, m1, m2) && HasFlushed(h, t, m1, c1, t1) && HasFlushed(h, t1, m2, c2, t2)
    ensures HasFlushed(h, t, m1 + m2, c1 + c2, t2)
  {
    ChoicesJoin(h, t, m1, m2, c1, t1, c2);
    hide Keyed, ValidChoice, WellNumbered, Joinable, Fresh;
    hide ChosenAreUpdated, OthersAreInserted, RestStands, NothingElse;
    UpdatesJoin(t, m1, m2, c1, t1, c2, t2);
    InsertsJoin(t, m1, m2, c1, t1, c2, t2);
    RestJoins(t, m1, m2, c1, t1, c2, t2);
    NothingElseJoins(t, m1, m2, c1, t1, c2, t2);
  }

  lemma FlushedIsNumbered(h: string -> nat, t: Table, m: map<DedupKey, Alert>, choice: map<DedupKey, nat>, t1: Table)
    requires HasFlushed(h, t, m, choice, t1)
    ensures WellNumbered(t1)
  {
  }

  lemma NothingFlushedYet(h: string -> nat, t: Table)
    requires WellNumbered(t)
    ensures HasFlushed(h, t, map[], map[], t)
  {
  }

  lemma SlicesAreApart(h: string -> nat, t: Table, m: map<DedupKey, Alert>, done: set<string>, tenantId: string)
    requires Keyed(h, m) && Fresh(t, m) && tenantId !in done
    ensures Apart(h, t, Slices(m, done), Slices(m, {tenantId}))
    ensures Slices(m, done) + Slices(m, {tenantId}) == Slices(m, done + {tenantId})
  {
    hide KeyOf;
  }

  lemma StillFreshAfter(h: string -> nat, t: Table, m1: map<DedupKey, Alert>, m2: map<DedupKey, Alert>,
                        choice: map<DedupKey, nat>, t1: Table)
    requires Apart(h, t, m1, m2) && HasFlushed(h, t, m1, choice, t1)
    ensures Keyed(h, m2) && Fresh(t1, m2)
  {
    hide KeyOf, ValidChoice;
    forall k, id | k in m2 && id in t1 ensures m2[k].id != id {
      if id !in t {
        var j :| j in m1 && j !in choice && m1[j].id == id;
      }
    }
  }
}
