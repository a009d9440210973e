/**
  The multi-stage correlation rule: an event-time automaton per group, kept in
  a key-value store with expiry, beside a bounded index of active groups.

  The functions say what one evaluation does to the store. The class at the end
  performs the same evaluation step by step and is proved against them.
 */
module Correlation {
  import opened Basics
  import opened Options

  // ---------- Machine integers ----------

  type U32 = x: int | 0 <= x < 0x1_0000_0000
  type U64 = x: int | 0 <= x < 0x1_0000_0000_0000_0000
  type I64 = x: int | -0x8000_0000_0000_0000 <= x < 0x8000_0000_0000_0000

  /** Seconds since the epoch; the calendar type of the source ends within 2^43 seconds of it. */
  type EventTime = x: int | -0x800_0000_0000 <= x <= 0x800_0000_0000

  /** The cast of an unsigned 64-bit value to a signed one: the upper half wraps. */
  function AsI64(x: U64): I64 {
    if x < 0x8000_0000_0000_0000 then x else x - 0x1_0000_0000_0000_0000
  }

  function SaturatingAdd(x: U64, y: U64): U64 {
    if x + y < 0x1_0000_0000_0000_0000 then x + y else 0xFFFF_FFFF_FFFF_FFFF
  }

  function SaturatingSub(x: I64, y: I64): I64 {
    if x - y < -0x8000_0000_0000_0000 then -0x8000_0000_0000_0000
    else if x - y >= 0x8000_0000_0000_0000 then 0x7FFF_FFFF_FFFF_FFFF
    else x - y
  }

  // ---------- Rule and events ----------

  datatype Log = Log(
    id: nat,
    tenantId: string,
    timestamp: EventTime,
    sourceIp: string,
    targetUser: Option<string>,
    eventType: string)

  /** A stage's condition is any predicate of the log. */
  datatype Stage = Stage(condition: Log -> bool, minCount: U32)

  datatype EvictionPolicy = OldestFirst | DropNewest

  /** The rule definition, with the 64-bit group fingerprint the state keys are built from. */
  datatype Rule = Rule(
    id: string,
    windowSeconds: U64,
    maxActiveGroups: U64,
    latenessSeconds: I64,
    stateTtlSeconds: U64,
    policy: EvictionPolicy,
    groupBy: seq<string>,
    stages: seq<Stage>,
    fingerprint: string -> U64)
  {
    function Lateness(): I64 {
      Max(latenessSeconds, 0)
    }

    function Window(): I64 {
      AsI64(windowSeconds)
    }

    /** The most that a stored watermark can run ahead of its window's start. */
    function Span(): int {
      Max(0, Window() + Lateness())
    }

    function Cap(): int {
      Max(1, maxActiveGroups)
    }

    function StateTtl(): U64 {
      Max(stateTtlSeconds, SaturatingAdd(SaturatingAdd(windowSeconds, Lateness()), 60))
    }
  }

  /** How many matches complete a stage: the count is compared after a match, so zero acts as one. */
  function Count(stage: Stage): int {
    Max(1, stage.minCount)
  }

  function FieldValue(field: string, log: Log): string {
    if field == "source_ip" then log.sourceIp
    else if field == "target_user" then (if log.targetUser.Some? then log.targetUser.value else "")
    else if field == "event_type" then log.eventType
    else ""
  }

  function GroupKey(fields: seq<string>, log: Log): string {
    if |fields| == 0 then ""
    else if |fields| == 1 then FieldValue(fields[0], log)
    else FieldValue(fields[0], log) + ":" + GroupKey(fields[1..], log)
  }

  datatype State = State(
    groupKey: string,
    stageIdx: nat,
    eventsInStage: U32,
    windowStart: EventTime,
    maxTs: EventTime,
    lastTs: EventTime)

  datatype Alert = Alert(
    ruleId: string,
    tenantId: string,
    sourceIp: string,
    events: seq<Log>,
    firstSeen: EventTime,
    lastSeen: EventTime,
    eventsCount: nat)

  // ---------- The store ----------

  datatype Entry = Entry(state: State, expiresAt: int)

  /** State entries by fingerprint, and the active index: fingerprints scored by last event time. */
  datatype Store = Store(states: map<U64, Entry>, active: map<U64, int>, activeExpiresAt: int)

  const EMPTY_STORE := Store(map[], map[], 0)

  /** Every key whose expiry has passed is gone. */
  function Sweep(s: Store, now: int): Store {
    Store(
      map k | k in s.states && now <= s.states[k].expiresAt :: s.states[k],
      if now <= s.activeExpiresAt then s.active else map[],
      s.activeExpiresAt)
  }

  /** Index order: lowest score first, equal scores by member. */
  predicate Before(active: map<U64, int>, j: U64, k: U64)
    requires j in active && k in active
  {
    active[j] < active[k] || (active[j] == active[k] && j <= k)
  }

  ghost predicate IsOldest(active: map<U64, int>, k: U64) {
    k in active && forall j :: j in active ==> Before(active, k, j)
  }

  lemma {:induction false} OldestExists(active: map<U64, int>)
    requires active != map[]
    ensures exists k :: IsOldest(active, k)
    decreases |active|
  {
    var j :| j in active;
    var rest := map i | i in active && i != j :: active[i];
    if rest == map[] {
      assert forall i :: i in active ==> i == j by {
        forall i | i in active ensures i == j {
          assert i != j ==> i in rest;
        }
      }
      assert IsOldest(active, j);
    } else {
      assert rest.Keys == active.Keys - {j};
      OldestExists(rest);
      var k :| IsOldest(rest, k);
      var best := if Before(active, j, k) then j else k;
      forall i | i in active ensures Before(active, best, i) {
        assert i != j ==> i in rest;
      }
      assert IsOldest(active, best);
    }
  }

  /** The member that popping the minimum returns. */
  ghost function Oldest(active: map<U64, int>): (k: U64)
    requires active != map[]
    ensures IsOldest(active, k)
  {
    OldestExists(active);
    var k :| IsOldest(active, k);
    k
  }

  // ---------- One evaluation ----------

  function ResetState(group: string, ts: EventTime): State {
    State(group, 0, 0, ts, ts, ts)
  }

  function LoadState(s: Store, key: U64, group: string, ts: EventTime): State {
    if key in s.states && s.states[key].state.groupKey == group then s.states[key].state
    else ResetState(group, ts)
  }

  predicate IsStale(rule: Rule, st: State, ts: EventTime) {
    ts < SaturatingSub(st.maxTs, rule.Lateness())
  }

  /** Takes the event's time into the state, opening a new window once the watermark has left the old one. */
  function Advance(rule: Rule, st: State, group: string, ts: EventTime): State {
    var st1 := st.(maxTs := Max(st.maxTs, ts), lastTs := ts);
    if SaturatingSub(st1.maxTs, rule.Lateness()) - st1.windowStart > rule.Window()
    then ResetState(group, ts)
    else st1
  }

  predicate IsNewGroup(st: State, ts: EventTime) {
    st.stageIdx == 0 && st.eventsInStage == 0 && st.windowStart == ts && st.maxTs == ts
  }

  /** Makes room in the index; the flag says whether the group may go on. */
  ghost function EvictIfNeeded(rule: Rule, s: Store, key: U64): (Store, bool) {
    if |s.active| < rule.maxActiveGroups then (s, true)
    else if rule.policy.DropNewest? then (s.(active := s.active - {key}), false)
    else if s.active == map[] then (s, true)
    else
      var victim := Oldest(s.active);
      (s.(active := s.active - {victim}, states := s.states - {victim}), true)
  }

  /** Feeds the log to the current stage; the flag says whether the last stage completed. */
  function MatchStage(rule: Rule, st: State, log: Log): (State, bool) {
    if st.stageIdx < |rule.stages| && rule.stages[st.stageIdx].condition(log) then
      var n: U32 := (st.eventsInStage + 1) % 0x1_0000_0000;
      if n >= rule.stages[st.stageIdx].minCount then
        var st1 := st.(stageIdx := st.stageIdx + 1, eventsInStage := 0, lastTs := log.timestamp);
        (st1, st1.stageIdx >= |rule.stages|)
      else
        (st.(eventsInStage := n, lastTs := log.timestamp), false)
    else
      (st, false)
  }

  function PersistState(rule: Rule, s: Store, key: U64, st: State, now: int): Store {
    var expiresAt := now + AsI64(rule.StateTtl());
    Store(s.states[key := Entry(st, expiresAt)], s.active[key := st.lastTs], expiresAt)
  }

  function ForgetState(s: Store, key: U64): Store {
    s.(states := s.states - {key}, active := s.active - {key})
  }

  function MakeAlert(rule: Rule, log: Log): Alert {
    Alert(rule.id, log.tenantId, log.sourceIp, [log], log.timestamp, log.timestamp, 1)
  }

  datatype Result = Result(store: Store, alert: Option<Alert>)

  /** The state that reaches the new-group test; None for an event that is ignored or too late. */
  function Arriving(rule: Rule, s: Store, log: Log, now: int): Option<State> {
    var group := GroupKey(rule.groupBy, log);
    if group == "" then None
    else
      var st := LoadState(Sweep(s, now), rule.fingerprint(group), group, log.timestamp);
      if IsStale(rule, st, log.timestamp) then None
      else Some(Advance(rule, st, group, log.timestamp))
  }

  /** The new-group test; the flag says whether the group may go on. */
  ghost function Admit(rule: Rule, s: Store, key: U64, st: State, ts: EventTime): (Store, bool) {
    if IsNewGroup(st, ts) then EvictIfNeeded(rule, s, key) else (s, true)
  }

  /** The stages, and then either the alert or the saved state. */
  function Conclude(rule: Rule, s: Store, key: U64, st: State, log: Log, now: int): Result {
    var outcome := MatchStage(rule, st, log);
    if outcome.1 then Result(ForgetState(s, key), Some(MakeAlert(rule, log)))
    else Result(PersistState(rule, s, key, outcome.0, now), None)
  }

  /** One evaluation of the rule on a log, at store time `now`. */
  ghost function Evaluate(rule: Rule, s: Store, log: Log, now: int): Result {
    var group := GroupKey(rule.groupBy, log);
    var key := rule.fingerprint(group);
    if group == "" then Result(s, None)
    else
      var st := Arriving(rule, s, log, now);
      if st.None? then Result(Sweep(s, now), None)
      else
        var admitted := Admit(rule, Sweep(s, now), key, st.value, log.timestamp);
        if admitted.1 then Conclude(rule, admitted.0, key, st.value, log, now)
        else Result(admitted.0, None)
  }

  // ---------- Runs ----------

  /** A log and the store time at which it is evaluated. */
  datatype Event = Event(log: Log, now: int)

  /** The store after evaluating the events in order, from an empty store. */
  ghost function StoreAfter(rule: Rule, events: seq<Event>): Store {
    if |events| == 0 then EMPTY_STORE
    else
      var n := |events| - 1;
      Evaluate(rule, StoreAfter(rule, events[..n]), events[n].log, events[n].now).store
  }

  lemma RunExtends(rule: Rule, events: seq<Event>, e: Event)
    ensures StoreAfter(rule, []) == EMPTY_STORE
    ensures StoreAfter(rule, events + [e]) == Evaluate(rule, StoreAfter(rule, events), e.log, e.now).store
  {
    assert (events + [e])[..|events|] == events;
  }

  /** What the evaluation of event `n` returns in that run. */
  ghost function AlertAt(rule: Rule, events: seq<Event>, n: nat): Option<Alert>
    requires n < |events|
  {
    Evaluate(rule, StoreAfter(rule, events[..n]), events[n].log, events[n].now).alert
  }

  ghost predicate Fires(rule: Rule, events: seq<Event>, n: nat)
    requires n < |events|
  {
    AlertAt(rule, events, n).Some?
  }

  ghost function GroupAt(rule: Rule, events: seq<Event>, n: nat): string
    requires n < |events|
  {
    GroupKey(rule.groupBy, events[n].log)
  }

  // ---------- The evaluator ----------

  /** The rule object with the part of the cache that is its own namespace. */
  class CorrelationRule {
    const rule: Rule
    var states: map<U64, Entry>
    var active: map<U64, int>
    var activeExpiresAt: int

    ghost function Contents(): Store
      reads this
    {
      Store(states, active, activeExpiresAt)
    }

    constructor (rule: Rule)
      ensures this.rule == rule && Contents() == EMPTY_STORE
    {
      this.rule := rule;
      states, active, activeExpiresAt := map[], map[], 0;
    }

    /** What the cache does by itself: expired keys vanish. */
    method ExpireKeys(now: int)
      modifies this
      ensures Contents() == Sweep(old(Contents()), now)
    {
      states := map k | k in states && now <= states[k].expiresAt :: states[k];
      if activeExpiresAt < now {
        active := map[];
      }
    }

    method PopOldest() returns (victim: U64)
      requires active != map[]
      modifies this`active
      ensures victim == Oldest(old(active)) && active == old(active) - {victim}
    {
      OldestExists(active);
      victim :| victim in active && forall j :: j in active ==> Before(active, victim, j);
      assert IsOldest(active, victim) && IsOldest(active, Oldest(active));
      active := active - {victim};
    }

    method EvictGroupIfNeeded(key: U64) returns (allowed: bool)
      modifies this`states, this`active
      ensures (Contents(), allowed) == EvictIfNeeded(rule, old(Contents()), key)
    {
      if |active| < rule.maxActiveGroups {
        return true;
      }
      match rule.policy
      case OldestFirst =>
        if active != map[] {
          var victim := PopOldest();
          states := states - {victim};
        }
        return true;
      case DropNewest =>
        active := active - {key};
        return false;
    }

    method Persist(key: U64, st: State, now: int)
      modifies this
      ensures Contents() == PersistState(rule, old(Contents()), key, st, now)
    {
      var ttl := AsI64(rule.StateTtl());
      states := states[key := Entry(st, now + ttl)];
      active := active[key := st.lastTs];
      activeExpiresAt := now + ttl;
    }

    method Load(key: U64, group: string, ts: EventTime) returns (state: State)
      ensures state == LoadState(Contents(), key, group, ts)
    {
      if key in states {
        state := states[key].state;
        if state.groupKey == group {
          return;
        }
      }
      state := ResetState(group, ts);
    }

    /** Takes the event's time into the state and opens a new window when the old one has passed. */
    method AdvanceWindow(loaded: State, ts: EventTime) returns (state: State)
      ensures state == Advance(rule, loaded, loaded.groupKey, ts)
    {
      state := loaded;
      if ts > state.maxTs {
        state := state.(maxTs := ts);
      }
      state := state.(lastTs := ts);
      if SaturatingSub(state.maxTs, rule.Lateness()) - state.windowStart > rule.Window() {
        state := ResetState(loaded.groupKey, ts);
      }
    }

    method MatchCurrentStage(state: State, log: Log) returns (next: State, complete: bool)
      ensures (next, complete) == MatchStage(rule, state, log)
    {
      next, complete := state, false;
      if next.stageIdx < |rule.stages| {
        var stage := rule.stages[next.stageIdx];
        if stage.condition(log) {
          next := next.(eventsInStage := (next.eventsInStage + 1) % 0x1_0000_0000, lastTs := log.timestamp);
          if next.eventsInStage >= stage.minCount {
            next := next.(stageIdx := next.stageIdx + 1, eventsInStage := 0);
            complete := next.stageIdx >= |rule.stages|;
          }
        }
      }
    }

    /** One evaluation, in the source's order of steps. */
    method EvaluateLog(log: Log, now: int) returns (alert: Option<Alert>)
      modifies this
      ensures Result(Contents(), alert) == Evaluate(rule, old(Contents()), log, now)
    {
      var group := GroupKey(rule.groupBy, log);
      if group == "" {
        return None;
      }
      var ts := log.timestamp;
      var key := rule.fingerprint(group);
      ExpireKeys(now);
      var state := Load(key, group, ts);
      if IsStale(rule, state, ts) {
        return None;
      }
      state := AdvanceWindow(state, ts);
      if IsNewGroup(state, ts) {
        var allowed := EvictGroupIfNeeded(key);
        if !allowed {
          return None;
        }
      }
      var complete: bool;
      state, complete := MatchCurrentStage(state, log);
      if complete {
        states := states - {key};
        active := active - {key};
        return Some(MakeAlert(rule, log));
      }
      Persist(key, state, now);
      return None;
    }
  }
}
