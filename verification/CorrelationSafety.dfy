/**
  What every run of a correlation rule keeps: sane automaton states, a
  watermark that never moves back, and a bounded index of active groups.
 */
module CorrelationSafety {
  import opened Basics
  import opened Options
  import opened Correlation

  // ---------- Stored states ----------

  /** The automaton state every entry of the store is in, whatever the run. */
  ghost predicate SaneState(rule: Rule, st: State) {
    && st.windowStart <= st.maxTs <= st.windowStart + rule.Span()
    && st.maxTs - rule.Lateness() <= st.lastTs <= st.maxTs
    && (rule.stages == [] ==> st.stageIdx == 0 && st.eventsInStage == 0)
    && (rule.stages != [] ==>
          st.stageIdx < |rule.stages| && st.eventsInStage < Count(rule.stages[st.stageIdx]))
  }

  ghost predicate SaneStore(rule: Rule, s: Store) {
    forall k :: k in s.states ==>
      && s.states[k].state.groupKey != ""
      && rule.fingerprint(s.states[k].state.groupKey) == k
      && SaneState(rule, s.states[k].state)
  }

  /** Saturation never shows, and the signed subtraction of the window test never overflows. */
  lemma WindowTestIsExact(rule: Rule, st: State, ts: EventTime)
    requires st.windowStart <= st.maxTs && rule.Window() >= 0
    ensures IsStale(rule, st, ts) <==> ts < st.maxTs - rule.Lateness()
    ensures SaturatingSub(st.maxTs, rule.Lateness()) - st.windowStart > rule.Window()
       <==> st.maxTs - rule.Lateness() - st.windowStart > rule.Window()
    ensures -0x8000_0000_0000_0000 <= SaturatingSub(st.maxTs, rule.Lateness()) - st.windowStart < 0x8000_0000_0000_0000
  {
  }

  /** A match never wraps the stage counter and never leaves an unfinished state out of range. */
  lemma MatchIsSane(rule: Rule, st: State, log: Log)
    requires SaneState(rule, st) && st.lastTs == log.timestamp
    ensures st.eventsInStage + 1 < 0x1_0000_0000
    ensures var (st1, complete) := MatchStage(rule, st, log);
            && st1.groupKey == st.groupKey && st1.windowStart == st.windowStart
            && st1.maxTs == st.maxTs && st1.lastTs == st.lastTs
            && (complete ==> rule.stages != [])
            && (!complete ==> SaneState(rule, st1))
  {
  }

  lemma ArrivingIsSane(rule: Rule, s: Store, log: Log, now: int)
    requires SaneStore(rule, s)
    ensures SaneStore(rule, Sweep(s, now))
    ensures var st := Arriving(rule, s, log, now);
            st.Some? ==>
              && st.value.groupKey == GroupKey(rule.groupBy, log) != ""
              && st.value.lastTs == log.timestamp
              && SaneState(rule, st.value)
  {
    hide GroupKey;
  }

  lemma AdmitIsSane(rule: Rule, s: Store, key: U64, st: State, ts: EventTime)
    ensures var s1 := Admit(rule, s, key, st, ts).0;
            forall k :: k in s1.states ==> k in s.states && s1.states[k] == s.states[k]
  {
  }

  lemma ConcludeIsSane(rule: Rule, s: Store, st: State, log: Log, now: int)
    requires SaneStore(rule, s) && SaneState(rule, st) && st.groupKey != "" && st.lastTs == log.timestamp
    ensures SaneStore(rule, Conclude(rule, s, rule.fingerprint(st.groupKey), st, log, now).store)
  {
    MatchIsSane(rule, st, log);
  }

  lemma StepIsSane(rule: Rule, s: Store, log: Log, now: int)
    requires SaneStore(rule, s)
    ensures SaneStore(rule, Evaluate(rule, s, log, now).store)
  {
    hide GroupKey, Arriving, Admit, Conclude;
    ArrivingIsSane(rule, s, log, now);
    var st := Arriving(rule, s, log, now);
    if st.Some? {
      var s1 := Admit(rule, Sweep(s, now), rule.fingerprint(st.value.groupKey), st.value, log.timestamp);
      AdmitIsSane(rule, Sweep(s, now), rule.fingerprint(st.value.groupKey), st.value, log.timestamp);
      ConcludeIsSane(rule, s1.0, st.value, log, now);
    }
  }

  /** In every run, every persisted state is sane. */
  lemma {:induction false} PersistedStatesAreSane(rule: Rule, events: seq<Event>)
    ensures SaneStore(rule, StoreAfter(rule, events))
  {
    hide Evaluate;
    if |events| > 0 {
      var n := |events| - 1;
      PersistedStatesAreSane(rule, events[..n]);
      StepIsSane(rule, StoreAfter(rule, events[..n]), events[n].log, events[n].now);
    }
  }

  // ---------- The watermark ----------

  /** Whether an event at `ts` makes the state's window reset. */
  ghost predicate WindowMoves(rule: Rule, st: State, ts: EventTime) {
    SaturatingSub(Max(st.maxTs, ts), rule.Lateness()) - st.windowStart > rule.Window()
  }

  /**
    The rules whose window test is exact enough: the cast window and the lateness
    do not sum below zero, and the saturating subtraction cannot tip the balance.
   */
  predicate MovesForward(rule: Rule) {
    && rule.Window() + rule.Lateness() >= 0
    && (rule.Lateness() <= 0x7FFF_F800_0000_0000 || rule.Window() >= -0x7FFF_F800_0000_0000)
  }

  /** A window resets only on an event that strictly advances the newest time, exactly for these rules. */
  lemma WindowMovesOnlyForward(rule: Rule)
    ensures (forall st, ts: EventTime ::
               SaneState(rule, st) && !IsStale(rule, st, ts) && WindowMoves(rule, st, ts) ==> ts > st.maxTs)
       <==> MovesForward(rule)
  {
    if !MovesForward(rule) {
      var start: EventTime := if rule.Window() + rule.Lateness() < 0 then 0 else -0x800_0000_0000;
      var st := ResetState("g", start);
      assert SaneState(rule, st) && !IsStale(rule, st, start) && WindowMoves(rule, st, start);
    }
  }

  /** The rules under which an event never takes a group's newest time back. */
  predicate KeepsNewest(rule: Rule) {
    || rule.Lateness() == 0
    || (rule.Window() + rule.Lateness() >= 0
        && (rule.Lateness() <= 0x7FFF_F800_0000_0001 || rule.Window() >= -0x7FFF_F800_0000_0000))
  }

  lemma NewestTimeIsKeptExactlyWhen(rule: Rule)
    ensures (forall st, ts: EventTime ::
               SaneState(rule, st) && !IsStale(rule, st, ts) ==> Advance(rule, st, st.groupKey, ts).maxTs >= st.maxTs)
       <==> KeepsNewest(rule)
  {
    if !KeepsNewest(rule) {
      if rule.Window() + rule.Lateness() < 0 {
        var st := ResetState("g", 0);
        assert SaneState(rule, st) && !IsStale(rule, st, -1) && Advance(rule, st, "g", -1).maxTs == -1;
      } else {
        var ts: EventTime := -0x800_0000_0000;
        var start: EventTime := if rule.Window() + rule.Lateness() == 0 then ts + 1 else ts;
        var st := State("g", 0, 0, start, ts + 1, ts + 1);
        assert SaneState(rule, st) && !IsStale(rule, st, ts) && Advance(rule, st, "g", ts).maxTs == ts;
      }
    }
  }

  /** What an evaluation can do to the entries: keep them, drop them, or write its own group's. */
  lemma EvaluateCases(rule: Rule, s: Store, log: Log, now: int)
    ensures var r := Evaluate(rule, s, log, now);
            var key := rule.fingerprint(GroupKey(rule.groupBy, log));
            var st := Arriving(rule, s, log, now);
            && (r.alert.Some? ==> st.Some? && MatchStage(rule, st.value, log).1 && key !in r.store.states)
            && (forall k :: k in r.store.states ==>
                  || (k in s.states && r.store.states[k] == s.states[k])
                  || (k == key && r.alert.None? && st.Some? && !MatchStage(rule, st.value, log).1
                      && r.store.states[k].state == MatchStage(rule, st.value, log).0))
  {
    hide GroupKey, MatchStage, IsNewGroup, Arriving;
  }

  /** A state that is met alive arrives with its newest time not taken back. */
  lemma ArrivingKeepsWatermark(rule: Rule, s: Store, log: Log, now: int)
    requires KeepsNewest(rule) && SaneStore(rule, s)
    ensures var key := rule.fingerprint(GroupKey(rule.groupBy, log));
            var st := Arriving(rule, s, log, now);
            st.Some? && key in s.states && now <= s.states[key].expiresAt
              && s.states[key].state.groupKey == GroupKey(rule.groupBy, log) ==>
              && st.value.maxTs >= s.states[key].state.maxTs
              && MatchStage(rule, st.value, log).0.maxTs == st.value.maxTs
  {
    hide GroupKey;
  }

  /** While a group's state survives an evaluation, its newest event time does not decrease. */
  lemma WatermarkNeverMovesBack(rule: Rule, events: seq<Event>, e: Event, k: U64)
    requires KeepsNewest(rule)
    requires var s := StoreAfter(rule, events);
             var s' := StoreAfter(rule, events + [e]);
             && k in s.states && e.now <= s.states[k].expiresAt && k in s'.states
             && s'.states[k].state.groupKey == s.states[k].state.groupKey
    ensures StoreAfter(rule, events + [e]).states[k].state.maxTs >= StoreAfter(rule, events).states[k].state.maxTs
  {
    PersistedStatesAreSane(rule, events);
    RunExtends(rule, events, e);
    hide Evaluate, GroupKey, Arriving, MatchStage, StoreAfter;
    var s := StoreAfter(rule, events);
    EvaluateCases(rule, s, e.log, e.now);
    ArrivingIsSane(rule, s, e.log, e.now);
    ArrivingKeepsWatermark(rule, s, e.log, e.now);
    var st := Arriving(rule, s, e.log, e.now);
    if st.Some? {
      MatchIsSane(rule, st.value, e.log);
    }
  }

  /** A window that casts to below minus the lateness resets on every event, so nothing that needs two matches fires. */
  lemma WrappedWindowNeverCorrelates(rule: Rule, events: seq<Event>, n: nat)
    requires n < |events|
    requires rule.Window() + rule.Lateness() < 0
    requires |rule.stages| > 1 || (|rule.stages| == 1 && rule.stages[0].minCount > 1)
    ensures !Fires(rule, events, n)
  {
    hide Evaluate, GroupKey, Arriving, StoreAfter, SaneState;
    PersistedStatesAreSane(rule, events[..n]);
    var s := StoreAfter(rule, events[..n]);
    EvaluateCases(rule, s, events[n].log, events[n].now);
    AlwaysResets(rule, s, events[n].log, events[n].now);
  }

  lemma AlwaysResets(rule: Rule, s: Store, log: Log, now: int)
    requires rule.Window() + rule.Lateness() < 0 && SaneStore(rule, s)
    ensures var st := Arriving(rule, s, log, now);
            st.Some? ==> st.value == ResetState(GroupKey(rule.groupBy, log), log.timestamp)
  {
    hide GroupKey;
  }

  // ---------- The active index ----------

  /** Every stored state is indexed under its last event time, does not outlive the index, and the index is bounded. */
  ghost predicate Indexed(rule: Rule, s: Store) {
    && (forall k :: k in s.states ==>
          && k in s.active
          && s.active[k] == s.states[k].state.lastTs
          && s.states[k].expiresAt <= s.activeExpiresAt)
    && |s.active| <= rule.Cap()
  }

  lemma EvictionMakesRoom(rule: Rule, s: Store, key: U64)
    requires rule.policy.OldestFirst? && Indexed(rule, s)
    ensures var (s1, allowed) := EvictIfNeeded(rule, s, key);
            && allowed && Indexed(rule, s1) && |s1.active| <= rule.Cap() - 1
            && s1.activeExpiresAt == s.activeExpiresAt && s1.states.Keys <= s.states.Keys
  {
    if |s.active| >= rule.maxActiveGroups && s.active != map[] {
      var victim := Oldest(s.active);
      assert (s.active - {victim}).Keys == s.active.Keys - {victim};
    }
  }

  lemma PersistKeepsIndex(rule: Rule, s: Store, key: U64, st: State, now: int)
    requires Indexed(rule, s)
    requires key in s.active || |s.active| < rule.Cap()
    requires s.activeExpiresAt <= now + AsI64(rule.StateTtl()) || s.states == map[]
    ensures Indexed(rule, PersistState(rule, s, key, st, now))
  {
    assert s.active[key := st.lastTs].Keys == s.active.Keys + {key};
  }

  lemma SweepKeepsIndex(rule: Rule, s: Store, now: int)
    requires Indexed(rule, s)
    ensures Indexed(rule, Sweep(s, now))
  {
  }

  /** Store times do not decrease along the run. */
  ghost predicate Ordered(events: seq<Event>) {
    forall i, j :: 0 <= i < j < |events| ==> events[i].now <= events[j].now
  }

  /** A group that does not look new came from a stored, indexed state. */
  lemma OldGroupIsIndexed(rule: Rule, s: Store, log: Log, now: int)
    requires Indexed(rule, Sweep(s, now))
    ensures var st := Arriving(rule, s, log, now);
            st.Some? ==>
              && st.value.lastTs == log.timestamp
              && (IsNewGroup(st.value, log.timestamp)
                  || rule.fingerprint(GroupKey(rule.groupBy, log)) in Sweep(s, now).active)
  {
    hide GroupKey, IsStale, SaturatingSub;
  }

  lemma ConcludeKeepsIndex(rule: Rule, s: Store, key: U64, st: State, log: Log, now: int)
    requires Indexed(rule, s) && st.lastTs == log.timestamp
    requires key in s.active || |s.active| < rule.Cap()
    requires s.activeExpiresAt <= now + AsI64(rule.StateTtl()) || s.states == map[]
    ensures var s' := Conclude(rule, s, key, st, log, now).store;
            Indexed(rule, s') && (s'.activeExpiresAt <= now + AsI64(rule.StateTtl()) || s'.states == map[])
  {
    hide MatchStage;
    PersistKeepsIndex(rule, s, key, MatchStage(rule, st, log).0, now);
    assert (s.active - {key}).Keys == s.active.Keys - {key};
  }

  lemma StepKeepsIndex(rule: Rule, s: Store, log: Log, now: int)
    requires rule.policy.OldestFirst? && Indexed(rule, s)
    requires s.activeExpiresAt <= now + AsI64(rule.StateTtl()) || s.states == map[]
    ensures Indexed(rule, Evaluate(rule, s, log, now).store)
    ensures var s' := Evaluate(rule, s, log, now).store;
            s'.activeExpiresAt <= now + AsI64(rule.StateTtl()) || s'.states == map[]
  {
    hide GroupKey, Arriving, EvictIfNeeded, Conclude, IsNewGroup;
    SweepKeepsIndex(rule, s, now);
    OldGroupIsIndexed(rule, s, log, now);
    var st := Arriving(rule, s, log, now);
    var key := rule.fingerprint(GroupKey(rule.groupBy, log));
    if st.Some? {
      EvictionMakesRoom(rule, Sweep(s, now), key);
      ConcludeKeepsIndex(rule, Admit(rule, Sweep(s, now), key, st.value, log.timestamp).0, key, st.value, log, now);
    }
  }

  /** Under oldest-first eviction, every run keeps the index complete and within its bound. */
  lemma {:induction false} IndexStaysBounded(rule: Rule, events: seq<Event>)
    requires rule.policy.OldestFirst? && Ordered(events)
    ensures Indexed(rule, StoreAfter(rule, events))
    ensures |events| > 0 ==>
              var s := StoreAfter(rule, events);
              s.activeExpiresAt <= events[|events| - 1].now + AsI64(rule.StateTtl()) || s.states == map[]
  {
    hide Evaluate;
    if |events| > 0 {
      var n := |events| - 1;
      IndexStaysBounded(rule, events[..n]);
      StepKeepsIndex(rule, StoreAfter(rule, events[..n]), events[n].log, events[n].now);
    }
  }

  /** So no more groups hold state than the configured number. */
  lemma StoredGroupsAreBounded(rule: Rule, events: seq<Event>)
    requires rule.policy.OldestFirst? && Ordered(events)
    ensures |StoreAfter(rule, events).states| <= rule.Cap()
  {
    IndexStaysBounded(rule, events);
    var s := StoreAfter(rule, events);
    assert s.states.Keys <= s.active.Keys;
    SubsetIsNoLarger(s.states.Keys, s.active.Keys);
  }

  // ---------- Where the code departs from its intent ----------

  /**
    An evaluation removes a live group other than its own exactly when it looks
    new, the index is full, and the oldest indexed group is that other one. A
    group that already holds state can look new.
   */
  lemma EvictsAnotherExactlyWhen(rule: Rule, s: Store, log: Log, now: int, victim: U64)
    requires rule.policy.OldestFirst? && Indexed(rule, s)
    requires victim in Sweep(s, now).states && victim != rule.fingerprint(GroupKey(rule.groupBy, log))
    ensures victim !in Evaluate(rule, s, log, now).store.states
       <==> && Arriving(rule, s, log, now).Some?
            && IsNewGroup(Arriving(rule, s, log, now).value, log.timestamp)
            && |Sweep(s, now).active| >= rule.maxActiveGroups
            && IsOldest(Sweep(s, now).active, victim)
  {
    var s0 := Sweep(s, now);
    assert victim in s0.active;
    assert forall j :: IsOldest(s0.active, j) ==> j == Oldest(s0.active);
  }

  /** Logs at store time 0, of groups named by their source address. */
  function Quiet(ip: string, ts: EventTime): Event {
    Event(Log(0, "t", ts, ip, None, "e"), 0)
  }

  /** A rule that matches nothing, for the groups "a" and "b". */
  function QuietRule(slots: U64, policy: EvictionPolicy): Rule {
    Rule("r", 100, slots, 0, 900, policy, ["source_ip"], [Stage((l: Log) => false, 1)],
         (g: string) => if g == "a" then 0 else 1)
  }

  ghost predicate QuietStore(s: Store) {
    s.activeExpiresAt == 900 && forall k :: k in s.states ==> s.states[k].expiresAt == 900
  }

  /** What one event does to such a rule's store, once admitted. */
  lemma QuietStep(slots: U64, policy: EvictionPolicy, s: Store, e: Event, ip: string, st: State, s1: Store)
    requires ip in {"a", "b"} && e == Quiet(ip, e.log.timestamp)
    requires QuietStore(s) || s == EMPTY_STORE
    requires var rule := QuietRule(slots, policy);
             var ts := e.log.timestamp;
             var loaded := LoadState(s, rule.fingerprint(ip), ip, ts);
             && ts >= loaded.maxTs
             && st == Advance(rule, loaded, ip, ts)
             && (s1, true) == if IsNewGroup(st, ts) then EvictIfNeeded(rule, s, rule.fingerprint(ip)) else (s, true)
    ensures var rule := QuietRule(slots, policy);
            Evaluate(rule, s, e.log, e.now).store == PersistState(rule, s1, rule.fingerprint(ip), st, 0)
    ensures QuietStore(Evaluate(QuietRule(slots, policy), s, e.log, e.now).store)
  {
    var rule := QuietRule(slots, policy);
    QuietArrival(slots, policy, s, e, ip, st);
    QuietAdmission(rule, s, rule.fingerprint(ip), st, e.log.timestamp);
    assert MatchStage(rule, st, e.log) == (st, false);
    assert rule.StateTtl() == 900;
    hide GroupKey, Arriving, MatchStage, Admit, Sweep, IsNewGroup, EvictIfNeeded, LoadState, Advance;
  }

  lemma QuietArrival(slots: U64, policy: EvictionPolicy, s: Store, e: Event, ip: string, st: State)
    requires ip in {"a", "b"} && e == Quiet(ip, e.log.timestamp) && (QuietStore(s) || s == EMPTY_STORE)
    requires var rule := QuietRule(slots, policy);
             var loaded := LoadState(s, rule.fingerprint(ip), ip, e.log.timestamp);
             e.log.timestamp >= loaded.maxTs && st == Advance(rule, loaded, ip, e.log.timestamp)
    ensures var rule := QuietRule(slots, policy);
            GroupKey(rule.groupBy, e.log) == ip && Sweep(s, 0) == s && Arriving(rule, s, e.log, 0) == Some(st)
  {
    var rule := QuietRule(slots, policy);
    assert GroupKey(rule.groupBy, e.log) == FieldValue(rule.groupBy[0], e.log) == ip;
    hide GroupKey, FieldValue, LoadState, Advance;
    assert Sweep(s, 0) == s;
  }

  /** Admission writes no entry and leaves the expiry of the index. */
  lemma QuietAdmission(rule: Rule, s: Store, key: U64, st: State, ts: EventTime)
    ensures var s1 := Admit(rule, s, key, st, ts).0;
            && s1.activeExpiresAt == s.activeExpiresAt
            && (forall k :: k in s1.states ==> k in s.states && s1.states[k] == s.states[k])
  {
  }

  /** A second event of the stored group "b" pushes out the live group "a". */
  lemma StoredGroupEvictsAnother()
    ensures var rule := QuietRule(2, OldestFirst);
            && StoreAfter(rule, [Quiet("a", 0), Quiet("b", 1)]).states.Keys == {0, 1}
            && StoreAfter(rule, [Quiet("a", 0), Quiet("b", 1), Quiet("b", 1)]).states.Keys == {1}
  {
    hide StoreAfter, Evaluate;
    var rule := QuietRule(2, OldestFirst);
    var a, b := Quiet("a", 0), Quiet("b", 1);
    assert [] + [a] == [a] && [a] + [b] == [a, b] && [a, b] + [b] == [a, b, b];
    RunExtends(rule, [], a);
    RunExtends(rule, [a], b);
    RunExtends(rule, [a, b], b);
    var s1 := StoreAfter(rule, [a]);
    QuietStep(2, OldestFirst, EMPTY_STORE, a, "a", ResetState("a", 0), EMPTY_STORE);
    assert s1.states.Keys == {0} && s1.active == map[0 := 0] && |s1.active| == |{0}|;
    QuietStep(2, OldestFirst, s1, b, "b", ResetState("b", 1), s1);
    SpuriousEviction(StoreAfter(rule, [a, b]));
  }

  /** The last step of that run: "b" looks new although it is stored. */
  lemma SpuriousEviction(s: Store)
    requires QuietStore(s) && s.states.Keys == {0, 1} && s.active == map[0 := 0, 1 := 1]
    requires s.states[1].state == ResetState("b", 1)
    ensures var e := Quiet("b", 1);
            Evaluate(QuietRule(2, OldestFirst), s, e.log, e.now).store.states.Keys == {1}
  {
    var rule := QuietRule(2, OldestFirst);
    assert s.active.Keys == {0, 1} && |s.active| == |{0, 1}|;
    assert IsOldest(s.active, 0) && Oldest(s.active) == 0;
    QuietStep(2, OldestFirst, s, Quiet("b", 1), "b", ResetState("b", 1), EvictIfNeeded(rule, s, 1).0);
  }

  /** Under drop-newest the index of a one-slot rule grows to two. */
  lemma DropNewestExceedsTheBound()
    ensures var rule := QuietRule(1, DropNewest);
            |StoreAfter(rule, [Quiet("a", 0), Quiet("a", 0), Quiet("b", 0), Quiet("a", 1)]).active| == 2 > rule.Cap()
  {
    hide StoreAfter, Evaluate;
    var rule := QuietRule(1, DropNewest);
    var a, b, c := Quiet("a", 0), Quiet("b", 0), Quiet("a", 1);
    assert [] + [a] == [a] && [a] + [a] == [a, a] && [a, a] + [b] == [a, a, b] && [a, a, b] + [c] == [a, a, b, c];
    RunExtends(rule, [], a);
    RunExtends(rule, [a], a);
    RunExtends(rule, [a, a], b);
    RunExtends(rule, [a, a, b], c);
    QuietStep(1, DropNewest, EMPTY_STORE, a, "a", ResetState("a", 0), EMPTY_STORE);
    var s1 := StoreAfter(rule, [a]);
    assert s1.active == map[0 := 0] && |s1.active| == |s1.active.Keys| == |{0}|;
    QuietDrop(s1);
    QuietOverflow(StoreAfter(rule, [a, a]));
  }

  /** The last two steps of that run: the unindexed state comes back beside the new one. */
  lemma QuietOverflow(s: Store)
    requires QuietStore(s) && s.states.Keys == {0} && s.states[0].state == ResetState("a", 0) && s.active == map[]
    ensures var rule := QuietRule(1, DropNewest);
            var s1 := Evaluate(rule, s, Quiet("b", 0).log, 0).store;
            |Evaluate(rule, s1, Quiet("a", 1).log, 0).store.active| == 2
  {
    hide Evaluate;
    QuietStep(1, DropNewest, s, Quiet("b", 0), "b", ResetState("b", 0), s);
    QuietReturn(Evaluate(QuietRule(1, DropNewest), s, Quiet("b", 0).log, 0).store);
  }

  /** The last step of that run: "a" is stored, so it does not look new, and is not indexed. */
  lemma QuietReturn(s: Store)
    requires QuietStore(s) && s.states.Keys == {0, 1} && s.states[0].state == ResetState("a", 0)
    requires s.active == map[1 := 0]
    ensures |Evaluate(QuietRule(1, DropNewest), s, Quiet("a", 1).log, 0).store.active| == 2
  {
    hide Evaluate;
    QuietStep(1, DropNewest, s, Quiet("a", 1), "a", State("a", 0, 0, 0, 1, 1), s);
    var s1 := Evaluate(QuietRule(1, DropNewest), s, Quiet("a", 1).log, 0).store;
    assert |s1.active| == |s1.active.Keys| && s1.active.Keys == {0, 1};
  }

  /** The dropped event takes its group out of the index and leaves its state. */
  lemma QuietDrop(s: Store)
    requires QuietStore(s) && |s.active| == 1 && s.active.Keys == {0}
    requires 0 in s.states && s.states[0].state == ResetState("a", 0)
    ensures var e := Quiet("a", 0);
            Evaluate(QuietRule(1, DropNewest), s, e.log, e.now).store == s.(active := map[])
  {
    var rule := QuietRule(1, DropNewest);
    var log := Quiet("a", 0).log;
    assert GroupKey(rule.groupBy, log) == FieldValue(rule.groupBy[0], log) == "a";
    assert Sweep(s, 0) == s;
    assert s.active - {0} == map[];
  }

  lemma NoGroupNeverArrives(rule: Rule, s: Store, log: Log, now: int)
    ensures GroupKey(rule.groupBy, log) == "" ==> Arriving(rule, s, log, now).None?
  {
  }

  /**
    Under drop-newest one evaluation pushes the index over its bound exactly
    when it persists a group that is not new, is not indexed any more, and the
    index is full.
   */
  lemma DropNewestExceedsExactlyWhen(rule: Rule, s: Store, log: Log, now: int)
    requires rule.policy.DropNewest? && |s.active| <= rule.Cap()
    ensures |Evaluate(rule, s, log, now).store.active| > rule.Cap()
       <==> && Arriving(rule, s, log, now).Some?
            && !IsNewGroup(Arriving(rule, s, log, now).value, log.timestamp)
            && !MatchStage(rule, Arriving(rule, s, log, now).value, log).1
            && rule.fingerprint(GroupKey(rule.groupBy, log)) !in Sweep(s, now).active
            && |Sweep(s, now).active| == rule.Cap()
  {
    hide GroupKey, Arriving, MatchStage, IsNewGroup, Conclude, EvictIfNeeded;
    var s0 := Sweep(s, now);
    var key := rule.fingerprint(GroupKey(rule.groupBy, log));
    NoGroupNeverArrives(rule, s, log, now);
    SweepShrinksIndex(s, now);
    hide Sweep;
    if Arriving(rule, s, log, now).Some? {
      var st := Arriving(rule, s, log, now).value;
      ConcludedSize(rule, s0, key, st, log, now);
      DroppedSize(rule, s0, key);
    }
  }

  lemma SweepShrinksIndex(s: Store, now: int)
    ensures |Sweep(s, now).active| <= |s.active|
  {
  }

  /** How the index grows when an admitted group concludes. */
  lemma ConcludedSize(rule: Rule, s: Store, key: U64, st: State, log: Log, now: int)
    ensures var after := |Conclude(rule, s, key, st, log, now).store.active|;
            if MatchStage(rule, st, log).1 then after <= |s.active|
            else after == |s.active| + if key in s.active then 0 else 1
  {
    hide MatchStage;
    assert (s.active - {key}).Keys == s.active.Keys - {key};
    assert s.active[key := MatchStage(rule, st, log).0.lastTs].Keys == s.active.Keys + {key};
  }

  /** Under drop-newest a new group is admitted only below the cap. */
  lemma DroppedSize(rule: Rule, s: Store, key: U64)
    requires rule.policy.DropNewest?
    ensures var (s1, allowed) := EvictIfNeeded(rule, s, key);
            if allowed then s1 == s && |s.active| < rule.maxActiveGroups else |s1.active| <= |s.active|
  {
    assert (s.active - {key}).Keys == s.active.Keys - {key};
  }
}
