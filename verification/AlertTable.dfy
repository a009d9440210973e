/**
  The alert table and what one flush of a batch does to it: merging into the
  open row of the same key, or inserting a new row.
 */
module AlertTable {
  import opened Alerts

  // ---------- Rows ----------

  /** The cast to a signed 32-bit column, and the cast back to an unsigned 64-bit count. */
  function AsI32(x: int): int {
    (x + 0x8000_0000) % 0x1_0000_0000 - 0x8000_0000
  }

  function AsUsize(x: int): nat {
    x % 0x1_0000_0000_0000_0000
  }

  /** A row: the alert's columns, with its count in the signed column `count`. */
  datatype Row = Row(alert: Alert, count: int, createdAt: int, updatedAt: int)

  type Table = map<nat, Row>

  function ReadRow(r: Row): Alert {
    r.alert.(eventsCount := AsUsize(r.count))
  }

  function Inserted(a: Alert): Row {
    Row(a.(eventsCount := 0), AsI32(a.eventsCount), a.firstSeen, a.lastSeen)
  }

  /** The conflict clause: description, first-seen and created-at stay as they are. */
  function Updated(r: Row, a: Alert): Row {
    Row(r.alert.(lastSeen := a.lastSeen, status := a.status, events := a.events),
        AsI32(a.eventsCount), r.createdAt, a.lastSeen)
  }

  predicate IsOpenRow(r: Row) {
    IsOpen(r.alert.status)
  }

  ghost predicate Holds(h: string -> nat, t: Table, id: nat, k: DedupKey) {
    id in t && IsOpenRow(t[id]) && KeyOf(h, t[id].alert) == k
  }

  ghost predicate HasOpen(h: string -> nat, t: Table, k: DedupKey) {
    exists id :: Holds(h, t, id, k)
  }

  /** At most one open row per key. */
  ghost predicate OneOpenPerKey(h: string -> nat, t: Table) {
    forall i, j ::
      && i in t && j in t && IsOpenRow(t[i]) && IsOpenRow(t[j])
      && KeyOf(h, t[i].alert) == KeyOf(h, t[j].alert)
      ==> i == j
  }

  // ---------- A flush ----------

  ghost predicate Keyed(h: string -> nat, m: map<DedupKey, Alert>) {
    forall k :: k in m ==> KeyOf(h, m[k]) == k
  }

  /** The alerts' ids are new to the table and differ from each other. */
  ghost predicate Fresh(t: Table, m: map<DedupKey, Alert>) {
    && (forall k :: k in m ==> m[k].id !in t)
    && (forall j, k :: j in m && k in m && j != k ==> m[j].id != m[k].id)
  }

  /** What a flush does to a row that is there. */
  function Touched(h: string -> nat, m: map<DedupKey, Alert>, r: Row): Row {
    var k := KeyOf(h, r.alert);
    if IsOpenRow(r) && k in m then Updated(r, Merge(ReadRow(r), m[k])) else r
  }

  ghost function NewIds(h: string -> nat, t: Table, m: map<DedupKey, Alert>): set<nat> {
    set k | k in m && !HasOpen(h, t, k) :: m[k].id
  }

  ghost function WithId(m: map<DedupKey, Alert>, id: nat): (a: Alert)
    requires exists k :: k in m && m[k].id == id
    ensures exists k :: k in m && m[k].id == id && m[k] == a
  {
    var k :| k in m && m[k].id == id;
    m[k]
  }

  /** A flush of aggregated alerts into a table with one open row per key. */
  ghost function Flush(h: string -> nat, t: Table, m: map<DedupKey, Alert>): Table {
    map id | id in t.Keys + NewIds(h, t, m) ::
      if id in t then Touched(h, m, t[id]) else Inserted(WithId(m, id))
  }

  lemma WithIdIs(t: Table, m: map<DedupKey, Alert>, k: DedupKey)
    requires Fresh(t, m) && k in m
    ensures WithId(m, m[k].id) == m[k]
  {
  }

  lemma TouchedKeepsKey(h: string -> nat, m: map<DedupKey, Alert>, r: Row)
    requires Keyed(h, m)
    ensures KeyOf(h, Touched(h, m, r).alert) == KeyOf(h, r.alert)
    ensures Touched(h, m, r).alert.status == r.alert.status && Touched(h, m, r).alert.id == r.alert.id
  {
  }

  /** The row a new alert becomes. */
  lemma InsertedByFlush(h: string -> nat, t: Table, m: map<DedupKey, Alert>, k: DedupKey)
    requires Fresh(t, m) && k in m && !HasOpen(h, t, k)
    ensures m[k].id in Flush(h, t, m) && Flush(h, t, m)[m[k].id] == Inserted(m[k])
  {
    WithIdIs(t, m, k);
  }

  /** Every row of the result is an old row, touched, or a new alert whose key had no open row. */
  lemma FlushRow(h: string -> nat, t: Table, m: map<DedupKey, Alert>, id: nat) returns (k: DedupKey)
    requires Fresh(t, m) && id in Flush(h, t, m)
    ensures id in t ==> Flush(h, t, m)[id] == Touched(h, m, t[id])
    ensures id !in t ==> k in m && m[k].id == id && !HasOpen(h, t, k) && Flush(h, t, m)[id] == Inserted(m[k])
  {
    if id !in t {
      k :| k in m && !HasOpen(h, t, k) && m[k].id == id;
      WithIdIs(t, m, k);
    } else {
      k := KeyOf(h, t[id].alert);
    }
  }

  lemma OldRow(h: string -> nat, t: Table, m: map<DedupKey, Alert>, id: nat)
    requires id in t
    ensures id in Flush(h, t, m) && Flush(h, t, m)[id] == Touched(h, m, t[id])
  {
  }

  // ---------- One open row per key ----------

  /** Which keys have an open row after a flush. */
  lemma OpenAfterFlush(h: string -> nat, t: Table, m: map<DedupKey, Alert>, k: DedupKey)
    requires Keyed(h, m) && Fresh(t, m)
    ensures HasOpen(h, Flush(h, t, m), k) <==> HasOpen(h, t, k) || (k in m && IsOpen(m[k].status))
  {
    var t' := Flush(h, t, m);
    if HasOpen(h, t', k) {
      var id :| Holds(h, t', id, k);
      var j := FlushRow(h, t, m, id);
      if id in t {
        TouchedKeepsKey(h, m, t[id]);
        assert Holds(h, t, id, k);
      }
    }
    if HasOpen(h, t, k) {
      var id :| Holds(h, t, id, k);
      TouchedKeepsKey(h, m, t[id]);
      assert Holds(h, t', id, k);
    } else if k in m && IsOpen(m[k].status) {
      InsertedByFlush(h, t, m, k);
      assert Holds(h, t', m[k].id, k);
    }
  }

  /** A flush never opens a second row for a key. */
  lemma FlushKeepsOneOpen(h: string -> nat, t: Table, m: map<DedupKey, Alert>)
    requires OneOpenPerKey(h, t) && Keyed(h, m) && Fresh(t, m)
    ensures OneOpenPerKey(h, Flush(h, t, m))
  {
    var t' := Flush(h, t, m);
    hide Touched, Flush;
    forall i, j |
      i in t' && j in t' && IsOpenRow(t'[i]) && IsOpenRow(t'[j]) && KeyOf(h, t'[i].alert) == KeyOf(h, t'[j].alert)
      ensures i == j
    {
      var ki := FlushRow(h, t, m, i);
      var kj := FlushRow(h, t, m, j);
      if i in t {
        TouchedKeepsKey(h, m, t[i]);
        assert Holds(h, t, i, KeyOf(h, t[i].alert));
      }
      if j in t {
        TouchedKeepsKey(h, m, t[j]);
        assert Holds(h, t, j, KeyOf(h, t[j].alert));
      }
    }
  }

  // ---------- Batch boundaries ----------

  /** Rows that agree on everything but description, first-seen and created-at, and still have the same key. */
  ghost predicate SameRow(h: string -> nat, r1: Row, r2: Row) {
    && r1.alert.(description := "", firstSeen := 0) == r2.alert.(description := "", firstSeen := 0)
    && KeyOf(h, r1.alert) == KeyOf(h, r2.alert)
    && r1.count == r2.count && r1.updatedAt == r2.updatedAt
  }

  ghost predicate SameTable(h: string -> nat, t1: Table, t2: Table) {
    t1.Keys == t2.Keys && forall id :: id in t1 ==> SameRow(h, t1[id], t2[id])
  }

  lemma I32Shift(x: int) returns (q: int)
    ensures AsI32(x) == x + q * 0x1_0000_0000
  {
    q := -((x + 0x8000_0000) / 0x1_0000_0000);
  }

  lemma UsizeShift(x: int) returns (q: int)
    ensures AsUsize(x) == x + q * 0x1_0000_0000
  {
    q := -(x / 0x1_0000_0000_0000_0000) * 0x1_0000_0000;
  }

  /** The 32-bit cast depends on the value modulo 2^32 alone. */
  lemma I32OfShifted(x: int, y: int, q: int)
    requires x == y + q * 0x1_0000_0000
    ensures AsI32(x) == AsI32(y)
  {
    var p := I32Shift(x);
    var r := I32Shift(y);
  }

  /** A count that wrapped on the way into a row still adds up as if it had not. */
  lemma CountsCompose(x: int, y: nat, z: nat)
    ensures AsI32(Wrap64(AsUsize(AsI32(Wrap64(AsUsize(x) + y))) + z)) == AsI32(Wrap64(AsUsize(x) + Wrap64(y + z)))
    ensures AsI32(Wrap64(AsUsize(AsI32(y)) + z)) == AsI32(Wrap64(y + z))
  {
    assert forall n: nat :: Wrap64(n) == AsUsize(n);
    hide AsI32, AsUsize, Wrap64;
    var q1 := UsizeShift(x);
    var q2 := UsizeShift(AsUsize(x) + y);
    var q3 := I32Shift(Wrap64(AsUsize(x) + y));
    var q4 := UsizeShift(AsI32(Wrap64(AsUsize(x) + y)));
    var q5 := UsizeShift(AsUsize(AsI32(Wrap64(AsUsize(x) + y))) + z);
    var q6 := UsizeShift(y + z);
    var q7 := UsizeShift(AsUsize(x) + Wrap64(y + z));
    I32OfShifted(Wrap64(AsUsize(AsI32(Wrap64(AsUsize(x) + y))) + z), Wrap64(AsUsize(x) + Wrap64(y + z)),
                 q2 + q3 + q4 + q5 - q6 - q7);
    var q8 := I32Shift(y);
    var q9 := UsizeShift(AsI32(y));
    var q10 := UsizeShift(AsUsize(AsI32(y)) + z);
    I32OfShifted(Wrap64(AsUsize(AsI32(y)) + z), Wrap64(y + z), q8 + q9 + q10 - q6);
  }

  lemma InsertedKeepsKey(h: string -> nat, a: Alert)
    ensures KeyOf(h, Inserted(a).alert) == KeyOf(h, a) && Inserted(a).alert.status == a.status
  {
  }

  /** Two updates of a row are one update with both alerts merged, but for columns that no update writes. */
  lemma UpdateTwice(r: Row, a: Alert, b: Alert)
    ensures var r1 := Updated(r, Merge(ReadRow(r), a));
            Updated(r1, Merge(ReadRow(r1), b)) == Updated(r, Merge(ReadRow(r), Merge(a, b)))
  {
    CountsCompose(r.count, a.eventsCount, b.eventsCount);
    hide AsI32, AsUsize, Wrap64;
    assert r.alert.events + a.events + b.events == r.alert.events + (a.events + b.events);
  }

  /** Touching a row with one aggregate and then the other is touching it with both. */
  lemma TouchTwice(h: string -> nat, m1: map<DedupKey, Alert>, m2: map<DedupKey, Alert>, r: Row)
    requires Keyed(h, m1) && Keyed(h, m2)
    ensures Touched(h, Join(m1, m2), r) == Touched(h, m2, Touched(h, m1, r))
  {
    TouchedKeepsKey(h, m1, r);
    var k := KeyOf(h, r.alert);
    if k in m1 && k in m2 {
      UpdateTwice(r, m1[k], m2[k]);
    }
    hide Merge, Updated, ReadRow, KeyOf;
  }

  /** Merging into a row just inserted is inserting the merged alert, up to the prose. */
  lemma TouchInserted(h: string -> nat, m2: map<DedupKey, Alert>, a: Alert)
    requires Keyed(h, m2) && IsOpen(a.status) && KeyOf(h, a) in m2
    ensures SameRow(h, Inserted(Merge(a, m2[KeyOf(h, a)])), Touched(h, m2, Inserted(a)))
  {
    var b := m2[KeyOf(h, a)];
    TouchedKeepsKey(h, m2, Inserted(a));
    MergeKeepsKey(h, a, b);
    CountsCompose(0, a.eventsCount, b.eventsCount);
    hide AsI32, AsUsize, Wrap64, KeyOf;
  }

  /** All ids of both maps are new to the table and differ. */
  ghost predicate FreshBoth(t: Table, m1: map<DedupKey, Alert>, m2: map<DedupKey, Alert>) {
    && Fresh(t, m1) && Fresh(t, m2)
    && forall j, k :: j in m1 && k in m2 ==> m1[j].id != m2[k].id
  }

  lemma FreshAfterFlush(h: string -> nat, t: Table, m1: map<DedupKey, Alert>, m2: map<DedupKey, Alert>)
    requires FreshBoth(t, m1, m2)
    ensures Fresh(Flush(h, t, m1), m2) && Fresh(t, Join(m1, m2))
  {
    forall k | k in m2 ensures m2[k].id !in Flush(h, t, m1) {
      if m2[k].id in Flush(h, t, m1) {
        var j := FlushRow(h, t, m1, m2[k].id);
      }
    }
  }

  /** The guard of the split: a key met by both halves, without an open row, starts out open. */
  ghost predicate SplitsCleanly(h: string -> nat, t: Table, m1: map<DedupKey, Alert>, m2: map<DedupKey, Alert>) {
    forall k :: k in m1 && k in m2 && !HasOpen(h, t, k) ==> IsOpen(m1[k].status)
  }

  /** Every row of the one flush is in the two flushes, the same up to prose. */
  lemma OneFlushInTwo(h: string -> nat, t: Table, m1: map<DedupKey, Alert>, m2: map<DedupKey, Alert>, id: nat)
    requires Keyed(h, m1) && Keyed(h, m2) && FreshBoth(t, m1, m2) && SplitsCleanly(h, t, m1, m2)
    ensures var one, two := Flush(h, t, Join(m1, m2)), Flush(h, Flush(h, t, m1), m2);
            id in one ==> id in two && SameRow(h, one[id], two[id])
  {
    hide Flush, KeyOf, Inserted, Updated, ReadRow;
    FreshAfterFlush(h, t, m1, m2);
    var t1 := Flush(h, t, m1);
    if id in Flush(h, t, Join(m1, m2)) {
      var k := FlushRow(h, t, Join(m1, m2), id);
      if id in t {
        TouchTwice(h, m1, m2, t[id]);
        OldRow(h, t, m1, id);
        OldRow(h, t1, m2, id);
      } else if k in m1 {
        InsertedByFlush(h, t, m1, k);
        OldRow(h, t1, m2, m1[k].id);
        if k in m2 {
          TouchInserted(h, m2, m1[k]);
        } else {
          TouchedKeepsKey(h, m2, Inserted(m1[k]));
          InsertedKeepsKey(h, m1[k]);
        }
      } else {
        OpenAfterFlush(h, t, m1, k);
        InsertedByFlush(h, t1, m2, k);
      }
    }
  }

  /** Every row of the two flushes is in the one flush. */
  lemma TwoFlushesInOne(h: string -> nat, t: Table, m1: map<DedupKey, Alert>, m2: map<DedupKey, Alert>, id: nat)
    requires Keyed(h, m1) && Keyed(h, m2) && FreshBoth(t, m1, m2) && SplitsCleanly(h, t, m1, m2)
    requires id in Flush(h, Flush(h, t, m1), m2)
    ensures id in Flush(h, t, Join(m1, m2))
  {
    FreshAfterFlush(h, t, m1, m2);
    var t1 := Flush(h, t, m1);
    var k2 := FlushRow(h, t1, m2, id);
    if id in t1 {
      var k1 := FlushRow(h, t, m1, id);
      if id !in t {
        assert Join(m1, m2)[k1].id == id;
        InsertedByFlush(h, t, Join(m1, m2), k1);
      }
    } else {
      OpenAfterFlush(h, t, m1, k2);
      assert k2 !in m1;
      InsertedByFlush(h, t, Join(m1, m2), k2);
    }
  }

  /** A key that starts out closed gets a second row from the second flush. */
  lemma DirtySplitDiffers(h: string -> nat, t: Table, m1: map<DedupKey, Alert>, m2: map<DedupKey, Alert>, k: DedupKey)
    requires Keyed(h, m1) && Keyed(h, m2) && FreshBoth(t, m1, m2)
    requires k in m1 && k in m2 && !HasOpen(h, t, k) && !IsOpen(m1[k].status)
    ensures m2[k].id in Flush(h, Flush(h, t, m1), m2) && m2[k].id !in Flush(h, t, Join(m1, m2))
  {
    hide Flush, KeyOf, HasOpen;
    FreshAfterFlush(h, t, m1, m2);
    OpenAfterFlush(h, t, m1, k);
    InsertedByFlush(h, Flush(h, t, m1), m2, k);
    if m2[k].id in Flush(h, t, Join(m1, m2)) {
      var j := FlushRow(h, t, Join(m1, m2), m2[k].id);
    }
  }

  /** Where a batch is cut makes no difference to the table, exactly when the split is clean. */
  lemma BatchBoundaryIsInvisible(h: string -> nat, t: Table, m1: map<DedupKey, Alert>, m2: map<DedupKey, Alert>)
    requires Keyed(h, m1) && Keyed(h, m2) && FreshBoth(t, m1, m2)
    ensures SameTable(h, Flush(h, t, Join(m1, m2)), Flush(h, Flush(h, t, m1), m2)) <==> SplitsCleanly(h, t, m1, m2)
  {
    var one, two := Flush(h, t, Join(m1, m2)), Flush(h, Flush(h, t, m1), m2);
    hide Flush;
    if SplitsCleanly(h, t, m1, m2) {
      forall id | id in one ensures id in two && SameRow(h, one[id], two[id]) {
        OneFlushInTwo(h, t, m1, m2, id);
      }
      forall id | id in two ensures id in one {
        TwoFlushesInOne(h, t, m1, m2, id);
      }
    } else {
      var k :| k in m1 && k in m2 && !HasOpen(h, t, k) && !IsOpen(m1[k].status);
      DirtySplitDiffers(h, t, m1, m2, k);
      assert one.Keys != two.Keys;
    }
  }

  /** Flushes of different keys, one after the other, are one flush, to the letter. */
  lemma FlushDisjoint(h: string -> nat, t: Table, m1: map<DedupKey, Alert>, m2: map<DedupKey, Alert>)
    requires Keyed(h, m1) && Keyed(h, m2) && FreshBoth(t, m1, m2) && m1.Keys !! m2.Keys
    ensures Flush(h, t, Join(m1, m2)) == Flush(h, Flush(h, t, m1), m2)
  {
    hide Flush, KeyOf, Updated, ReadRow, Merge;
    BatchBoundaryIsInvisible(h, t, m1, m2);
    FreshAfterFlush(h, t, m1, m2);
    var one, t1 := Flush(h, t, Join(m1, m2)), Flush(h, t, m1);
    forall id | id in one ensures one[id] == Flush(h, t1, m2)[id] {
      var k := FlushRow(h, t, Join(m1, m2), id);
      if id in t {
        TouchTwice(h, m1, m2, t[id]);
        OldRow(h, t, m1, id);
        OldRow(h, t1, m2, id);
      } else if k in m1 {
        InsertedByFlush(h, t, m1, k);
        OldRow(h, t1, m2, id);
        InsertedKeepsKey(h, m1[k]);
      } else {
        OpenAfterFlush(h, t, m1, k);
        InsertedByFlush(h, t1, m2, k);
      }
    }
  }

  /** Tables that differ in prose alone are flushed to tables that differ in prose alone. */
  lemma FlushIgnoresProse(h: string -> nat, t1: Table, t2: Table, m: map<DedupKey, Alert>)
    requires SameTable(h, t1, t2) && Keyed(h, m) && Fresh(t1, m)
    ensures SameTable(h, Flush(h, t1, m), Flush(h, t2, m))
  {
    forall k ensures HasOpen(h, t1, k) <==> HasOpen(h, t2, k) {
      SameOpen(h, t1, t2, k);
    }
    var f1, f2 := Flush(h, t1, m), Flush(h, t2, m);
    forall id | id in f1 ensures id in f2 && SameRow(h, f1[id], f2[id]) {
      var k := FlushRow(h, t1, m, id);
      if id in t1 {
        TouchIgnoresProse(h, m, t1[id], t2[id]);
      } else {
        InsertedByFlush(h, t2, m, k);
      }
    }
  }

  lemma SameOpen(h: string -> nat, t1: Table, t2: Table, k: DedupKey)
    requires SameTable(h, t1, t2)
    ensures HasOpen(h, t1, k) <==> HasOpen(h, t2, k)
  {
    forall id ensures Holds(h, t1, id, k) <==> Holds(h, t2, id, k) {
      if id in t1 {
        assert SameRow(h, t1[id], t2[id]);
      }
    }
  }

  lemma TouchIgnoresProse(h: string -> nat, m: map<DedupKey, Alert>, r1: Row, r2: Row)
    requires SameRow(h, r1, r2) && Keyed(h, m)
    ensures SameRow(h, Touched(h, m, r1), Touched(h, m, r2))
  {
    TouchedKeepsKey(h, m, r1);
    TouchedKeepsKey(h, m, r2);
  }

  // ---------- Conservation of counts ----------

  ghost function Sum(t: Table): int {
    if t == map[] then 0
    else
      var id :| id in t;
      t[id].count + Sum(t - {id})
  }

  lemma {:induction false} SumWithout(t: Table, id: nat)
    requires id in t
    ensures Sum(t) == t[id].count + Sum(t - {id})
    decreases |t|
  {
    var j :| j in t && Sum(t) == t[j].count + Sum(t - {j});
    assert (t - {j}).Keys == t.Keys - {j};
    if j != id {
      SumWithout(t - {j}, id);
      assert (t - {id}).Keys == t.Keys - {id};
      SumWithout(t - {id}, j);
      assert t - {j} - {id} == t - {id} - {j};
    }
  }

  lemma SumOfUpdate(t: Table, id: nat, r: Row)
    ensures Sum(t[id := r]) == Sum(t) + r.count - (if id in t then t[id].count else 0)
  {
    SumWithout(t[id := r], id);
    assert t[id := r] - {id} == t - {id};
    if id in t {
      SumWithout(t, id);
    } else {
      assert t - {id} == t;
    }
  }

  lemma {:induction false} SumOfSame(h: string -> nat, t1: Table, t2: Table)
    requires SameTable(h, t1, t2)
    ensures Sum(t1) == Sum(t2)
    decreases |t1|
  {
    hide KeyOf;
    if t1 != map[] {
      var id :| id in t1;
      SumWithout(t1, id);
      SumWithout(t2, id);
      assert (t1 - {id}).Keys == t1.Keys - {id};
      SumOfSame(h, t1 - {id}, t2 - {id});
    } else {
      assert t2.Keys == {} && t2 == map[];
    }
  }

  /** The count a key's row should have after the flush: that of its open row, if any, and that of the alert. */
  ghost predicate IsDue(h: string -> nat, t: Table, a: Alert, due: int) {
    if HasOpen(h, t, KeyOf(h, a)) then exists id :: Holds(h, t, id, KeyOf(h, a)) && due == t[id].count + a.eventsCount
    else due == a.eventsCount
  }

  /** No row's count passes the signed 32-bit column. */
  ghost predicate Fits(h: string -> nat, t: Table, m: map<DedupKey, Alert>) {
    forall k, due :: k in m && IsDue(h, t, m[k], due) ==> due < 0x8000_0000
  }

  /** A table whose open rows count up from zero, and a batch small enough not to wrap in memory. */
  ghost predicate Counts(t: Table, m: map<DedupKey, Alert>) {
    && (forall id :: id in t && IsOpenRow(t[id]) ==> 0 <= t[id].count < 0x8000_0000)
    && (forall k :: k in m ==> m[k].eventsCount < 0x4000_0000_0000_0000)
  }

  ghost predicate Ready(h: string -> nat, t: Table, m: map<DedupKey, Alert>) {
    OneOpenPerKey(h, t) && Keyed(h, m) && Fresh(t, m) && Counts(t, m)
  }

  /** Casting up, adding and casting down gives the sum exactly when the sum fits, and less otherwise. */
  lemma WrapOfCount(x: int, y: nat)
    requires 0 <= x < 0x8000_0000 && y < 0x4000_0000_0000_0000
    ensures AsI32(Wrap64(AsUsize(x) + y)) <= x + y
    ensures AsI32(Wrap64(AsUsize(x) + y)) == x + y <==> x + y < 0x8000_0000
    ensures AsI32(y) <= y && (AsI32(y) == y <==> y < 0x8000_0000)
  {
  }

  /** A flush of a single alert changes or adds a single row. */
  lemma FlushOne(h: string -> nat, t: Table, a: Alert) returns (id: nat)
    requires OneOpenPerKey(h, t) && a.id !in t
    ensures var k := KeyOf(h, a);
            if HasOpen(h, t, k)
            then Holds(h, t, id, k) && Flush(h, t, map[k := a]) == t[id := Updated(t[id], Merge(ReadRow(t[id]), a))]
            else Flush(h, t, map[k := a]) == t[a.id := Inserted(a)]
  {
    hide Updated, Merge, ReadRow, Inserted, KeyOf;
    var k := KeyOf(h, a);
    var m := map[k := a];
    assert Fresh(t, m);
    if HasOpen(h, t, k) {
      id :| Holds(h, t, id, k);
      assert NewIds(h, t, m) == {};
      forall i | i in t && i != id ensures Touched(h, m, t[i]) == t[i] {
      }
    } else {
      id := a.id;
      InsertedByFlush(h, t, m, k);
      forall i | i in t ensures Touched(h, m, t[i]) == t[i] {
        assert !Holds(h, t, i, k);
      }
      assert NewIds(h, t, m) == {a.id};
    }
  }

  /** What one alert adds to the table's sum. */
  lemma SumOfOne(h: string -> nat, t: Table, a: Alert, due: int)
    requires OneOpenPerKey(h, t) && a.id !in t && IsDue(h, t, a, due) && a.eventsCount < 0x4000_0000_0000_0000
    requires forall id :: Holds(h, t, id, KeyOf(h, a)) ==> 0 <= t[id].count < 0x8000_0000
    ensures var added := Sum(Flush(h, t, map[KeyOf(h, a) := a])) - Sum(t);
            added <= a.eventsCount && (added == a.eventsCount <==> due < 0x8000_0000)
  {
    hide AsI32, AsUsize, Wrap64, Flush, Sum, KeyOf;
    var id := FlushOne(h, t, a);
    if HasOpen(h, t, KeyOf(h, a)) {
      var r := Updated(t[id], Merge(ReadRow(t[id]), a));
      assert r.count == AsI32(Wrap64(AsUsize(t[id].count) + a.eventsCount));
      SumOfUpdate(t, id, r);
      WrapOfCount(t[id].count, a.eventsCount);
    } else {
      SumOfUpdate(t, a.id, Inserted(a));
      WrapOfCount(0, a.eventsCount);
    }
  }

  /** A key outside the aggregate finds the same open row after its flush as before. */
  lemma UntouchedKey(h: string -> nat, t: Table, m: map<DedupKey, Alert>, k: DedupKey)
    requires Keyed(h, m) && Fresh(t, m) && k !in m
    ensures forall id :: Holds(h, Flush(h, t, m), id, k) <==> Holds(h, t, id, k)
    ensures forall id :: Holds(h, t, id, k) ==> Flush(h, t, m)[id] == t[id]
  {
    var t' := Flush(h, t, m);
    forall id ensures Holds(h, t', id, k) <==> Holds(h, t, id, k) {
      if id in t' {
        var j := FlushRow(h, t, m, id);
        if id in t {
          TouchedKeepsKey(h, m, t[id]);
        }
      }
    }
    forall id | Holds(h, t, id, k) ensures t'[id] == t[id] {
      var j := FlushRow(h, t, m, id);
    }
  }

  lemma LeaveOut(h: string -> nat, t: Table, m: map<DedupKey, Alert>, k: DedupKey)
    requires Ready(h, t, m) && k in m
    ensures (m - {k}).Keys == m.Keys - {k}
    ensures Ready(h, t, m - {k}) && FreshBoth(t, m - {k}, map[k := m[k]])
    ensures Join(m - {k}, map[k := m[k]]) == m
  {
    hide KeyOf;
  }

  /** What the last key of an aggregate adds to the sum, the others having been flushed. */
  lemma SumOfLast(h: string -> nat, t: Table, m: map<DedupKey, Alert>, k: DedupKey, due: int)
    requires Ready(h, t, m) && k in m && IsDue(h, t, m[k], due)
    ensures var added := Sum(Flush(h, t, m)) - Sum(Flush(h, t, m - {k}));
            added <= m[k].eventsCount && (added == m[k].eventsCount <==> due < 0x8000_0000)
  {
    hide Flush, Sum, OneOpenPerKey, KeyOf;
    var m', a := m - {k}, m[k];
    var last := map[k := a];
    LeaveOut(h, t, m, k);
    var t' := Flush(h, t, m');
    UntouchedKey(h, t, m', k);
    FlushKeepsOneOpen(h, t, m');
    FreshAfterFlush(h, t, m', last);
    assert last[k] == a;
    BatchBoundaryIsInvisible(h, t, m', last);
    SumOfSame(h, Flush(h, t, m), Flush(h, t', last));
    DueIsKept(h, t, t', a, due);
    SumOfOne(h, t', a, due);
  }

  lemma DueIsKept(h: string -> nat, t: Table, t': Table, a: Alert, due: int)
    requires forall id :: Holds(h, t', id, KeyOf(h, a)) <==> Holds(h, t, id, KeyOf(h, a))
    requires forall id :: Holds(h, t, id, KeyOf(h, a)) ==> id in t' && t'[id] == t[id]
    requires IsDue(h, t, a, due)
    ensures IsDue(h, t', a, due)
  {
    hide KeyOf;
  }

  /** One key's share of everything that is being counted; `fits` says whether its row's count fits. */
  lemma OneKeyCounts(h: string -> nat, t: Table, m: map<DedupKey, Alert>, k: DedupKey) returns (fits: bool)
    requires Ready(h, t, m) && k in m
    ensures Ready(h, t, m - {k}) && |m - {k}| < |m|
    ensures Total(m) == m[k].eventsCount + Total(m - {k})
    ensures Fits(h, t, m) <==> Fits(h, t, m - {k}) && fits
    ensures var added := Sum(Flush(h, t, m)) - Sum(Flush(h, t, m - {k}));
            added <= m[k].eventsCount && (added == m[k].eventsCount <==> fits)
  {
    hide Flush, Sum, Total, Fits, OneOpenPerKey, Keyed, Fresh, Counts, FreshBoth, IsDue;
    LeaveOut(h, t, m, k);
    var due := DueOf(h, t, m[k]);
    SumOfLast(h, t, m, k, due);
    FitsLast(h, t, m, k, due);
    TotalWithout(m, k);
    fits := due < 0x8000_0000;
    assert |m - {k}| == |(m - {k}).Keys| && |m| == |m.Keys|;
  }

  lemma FlushOfNothing(h: string -> nat, t: Table)
    ensures Flush(h, t, map[]) == t && Total(map[]) == 0 && Fits(h, t, map[])
  {
  }

  /**
    The table's total grows by the aggregated total exactly when no row's count
    passes the signed 32-bit column, and by less otherwise.
   */
  lemma {:induction false} FlushAddsCounts(h: string -> nat, t: Table, m: map<DedupKey, Alert>)
    requires Ready(h, t, m)
    ensures Sum(Flush(h, t, m)) <= Sum(t) + Total(m)
    ensures Sum(Flush(h, t, m)) == Sum(t) + Total(m) <==> Fits(h, t, m)
    decreases |m|
  {
    hide Flush, Sum, Total, Fits, Ready;
    if m == map[] {
      FlushOfNothing(h, t);
    } else {
      var k :| k in m;
      var fits := OneKeyCounts(h, t, m, k);
      FlushAddsCounts(h, t, m - {k});
    }
  }

  /** A count one past the column comes back negative. */
  lemma CountWraps(h: string -> nat, a: Alert)
    requires a.eventsCount == 0x8000_0000
    ensures Sum(Flush(h, map[], map[KeyOf(h, a) := a])) == -0x8000_0000
  {
    hide KeyOf;
    var id := FlushOne(h, map[], a);
    assert !HasOpen(h, map[], KeyOf(h, a));
    hide Flush;
    SumOfUpdate(map[], a.id, Inserted(a));
    assert Inserted(a).count == -0x8000_0000;
  }

  lemma FitsLast(h: string -> nat, t: Table, m: map<DedupKey, Alert>, k: DedupKey, due: int)
    requires k in m && IsDue(h, t, m[k], due) && forall d :: IsDue(h, t, m[k], d) ==> d == due
    ensures Fits(h, t, m) <==> Fits(h, t, m - {k}) && due < 0x8000_0000
  {
    hide IsDue;
    var m' := m - {k};
    assert forall j :: j in m' ==> j in m && m'[j] == m[j];
    assert forall j :: j in m ==> j in m' || j == k;
    if Fits(h, t, m') && due < 0x8000_0000 {
      forall j, d | j in m && IsDue(h, t, m[j], d) ensures d < 0x8000_0000 {
        assert j != k ==> IsDue(h, t, m'[j], d);
      }
    }
    if Fits(h, t, m) {
      forall j, d | j in m' && IsDue(h, t, m'[j], d) ensures d < 0x8000_0000 {
        assert IsDue(h, t, m[j], d);
      }
    }
  }

  lemma DueOf(h: string -> nat, t: Table, a: Alert) returns (due: int)
    requires OneOpenPerKey(h, t)
    ensures IsDue(h, t, a, due) && forall d :: IsDue(h, t, a, d) ==> d == due
  {
    if HasOpen(h, t, KeyOf(h, a)) {
      var id :| Holds(h, t, id, KeyOf(h, a));
      due := t[id].count + a.eventsCount;
    } else {
      due := a.eventsCount;
    }
  }
}
