/**
  Groups do not interfere: while there are index slots for all of them, each
  group sees exactly what it would see if its events were the whole stream.
 */
module CorrelationIsolation {
  import opened Basics
  import opened Options
  import opened Correlation
  import opened CorrelationSafety

  /** The events of one group, in order. */
  function Only(rule: Rule, events: seq<Event>, group: string): seq<Event> {
    if |events| == 0 then []
    else
      var n := |events| - 1;
      var own := Only(rule, events[..n], group);
      if GroupKey(rule.groupBy, events[n].log) == group then own + [events[n]] else own
  }

  /** What the evaluations of one group's events return, in order. */
  ghost function OutputsOf(rule: Rule, events: seq<Event>, group: string): seq<Option<Alert>> {
    if |events| == 0 then []
    else
      var n := |events| - 1;
      var outputs := OutputsOf(rule, events[..n], group);
      if GroupAt(rule, events, n) == group then outputs + [AlertAt(rule, events, n)] else outputs
  }

  function Groups(rule: Rule, events: seq<Event>): set<string> {
    if |events| == 0 then {}
    else
      var n := |events| - 1;
      var group := GroupKey(rule.groupBy, events[n].log);
      Groups(rule, events[..n]) + (if group == "" then {} else {group})
  }

  /** The entry a key has at a store time. */
  function View(s: Store, key: U64, now: int): Option<Entry> {
    if key in s.states && now <= s.states[key].expiresAt then Some(s.states[key]) else None
  }

  // ---------- The index never fills ----------

  lemma AdmissionShrinksIndex(rule: Rule, s: Store, key: U64, st: State, ts: EventTime)
    ensures Admit(rule, s, key, st, ts).0.active.Keys <= s.active.Keys
  {
  }

  lemma ActiveGrowsByOwnKey(rule: Rule, s: Store, log: Log, now: int)
    ensures var group := GroupKey(rule.groupBy, log);
            Evaluate(rule, s, log, now).store.active.Keys
              <= s.active.Keys + (if group == "" then {} else {rule.fingerprint(group)})
  {
    hide GroupKey, Arriving, MatchStage, Admit;
    var st := Arriving(rule, s, log, now);
    if st.Some? {
      AdmissionShrinksIndex(rule, Sweep(s, now), rule.fingerprint(GroupKey(rule.groupBy, log)),
                            st.value, log.timestamp);
    }
  }

  lemma {:induction false} ActiveKeysAreGroups(rule: Rule, events: seq<Event>)
    ensures StoreAfter(rule, events).active.Keys <= (set g | g in Groups(rule, events) :: rule.fingerprint(g))
  {
    hide Evaluate, GroupKey;
    if |events| > 0 {
      var n := |events| - 1;
      ActiveKeysAreGroups(rule, events[..n]);
      ActiveGrowsByOwnKey(rule, StoreAfter(rule, events[..n]), events[n].log, events[n].now);
    }
  }

  lemma {:induction false} ImageIsNoLarger(f: string -> U64, a: set<string>)
    ensures |set g | g in a :: f(g)| <= |a|
  {
    if a != {} {
      var x :| x in a;
      ImageIsNoLarger(f, a - {x});
      assert (set g | g in a :: f(g)) == (set g | g in a - {x} :: f(g)) + {f(x)};
    }
  }

  lemma IndexHasRoom(rule: Rule, events: seq<Event>, now: int)
    requires |Groups(rule, events)| < rule.maxActiveGroups
    ensures |Sweep(StoreAfter(rule, events), now).active| < rule.maxActiveGroups
  {
    hide Evaluate, GroupKey;
    var active := Sweep(StoreAfter(rule, events), now).active;
    ActiveKeysAreGroups(rule, events);
    ImageIsNoLarger(rule.fingerprint, Groups(rule, events));
    SubsetIsNoLarger(active.Keys, set g | g in Groups(rule, events) :: rule.fingerprint(g));
    assert |active| == |active.Keys|;
  }

  // ---------- One step is local ----------

  /** With room in the index, admission changes nothing. */
  lemma RoomyOutcome(rule: Rule, s: Store, log: Log, now: int)
    requires |Sweep(s, now).active| < rule.maxActiveGroups
    ensures var key := rule.fingerprint(GroupKey(rule.groupBy, log));
            var st := Arriving(rule, s, log, now);
            Evaluate(rule, s, log, now) ==
              if GroupKey(rule.groupBy, log) == "" then Result(s, None)
              else if st.None? then Result(Sweep(s, now), None)
              else Conclude(rule, Sweep(s, now), key, st.value, log, now)
  {
    hide GroupKey, Arriving, Conclude, IsNewGroup;
  }

  lemma ConcludeTouchesItsOwn(rule: Rule, s: Store, key: U64, st: State, log: Log, now: int, other: U64)
    requires other != key
    ensures View(Conclude(rule, s, key, st, log, now).store, other, now) == View(s, other, now)
  {
    hide MatchStage;
  }

  /** With room in the index, an evaluation touches no entry but its own group's. */
  lemma OthersUntouched(rule: Rule, s: Store, log: Log, now: int, key: U64)
    requires |Sweep(s, now).active| < rule.maxActiveGroups
    requires GroupKey(rule.groupBy, log) == "" || key != rule.fingerprint(GroupKey(rule.groupBy, log))
    ensures View(Evaluate(rule, s, log, now).store, key, now) == View(s, key, now)
  {
    RoomyOutcome(rule, s, log, now);
    hide GroupKey, Arriving, Conclude, Evaluate;
    var st := Arriving(rule, s, log, now);
    if st.Some? && GroupKey(rule.groupBy, log) != "" {
      ConcludeTouchesItsOwn(rule, Sweep(s, now), rule.fingerprint(GroupKey(rule.groupBy, log)),
                            st.value, log, now, key);
    }
  }

  /** With room in the index, what an evaluation does to its group depends on that group's entry alone. */
  lemma StepIsLocal(rule: Rule, s: Store, t: Store, log: Log, now: int)
    requires |Sweep(s, now).active| < rule.maxActiveGroups && |Sweep(t, now).active| < rule.maxActiveGroups
    requires var key := rule.fingerprint(GroupKey(rule.groupBy, log)); View(s, key, now) == View(t, key, now)
    requires GroupKey(rule.groupBy, log) != ""
    ensures var key := rule.fingerprint(GroupKey(rule.groupBy, log));
            && View(Evaluate(rule, s, log, now).store, key, now) == View(Evaluate(rule, t, log, now).store, key, now)
            && Evaluate(rule, s, log, now).alert == Evaluate(rule, t, log, now).alert
  {
    RoomyOutcome(rule, s, log, now);
    RoomyOutcome(rule, t, log, now);
    ArrivalIsLocal(rule, s, t, log, now);
    hide GroupKey, MatchStage, Evaluate, Arriving;
  }

  lemma ArrivalIsLocal(rule: Rule, s: Store, t: Store, log: Log, now: int)
    requires var key := rule.fingerprint(GroupKey(rule.groupBy, log)); View(s, key, now) == View(t, key, now)
    ensures Arriving(rule, s, log, now) == Arriving(rule, t, log, now)
  {
    hide GroupKey, IsStale, Advance;
  }

  // ---------- Runs ----------

  lemma {:induction false} OnlyItsGroup(rule: Rule, events: seq<Event>, group: string)
    ensures Groups(rule, Only(rule, events, group)) <= {group} * Groups(rule, events)
  {
    hide GroupKey;
    if |events| > 0 {
      var n := |events| - 1;
      OnlyItsGroup(rule, events[..n], group);
      var own := Only(rule, events[..n], group);
      assert (own + [events[n]])[..|own|] == own;
    }
  }

  /** Each group gets, from any interleaving, exactly the outputs and the state of its own events alone. */
  lemma {:induction false} GroupsDoNotInterfere(rule: Rule, events: seq<Event>, group: string, now: int)
    requires group != "" && Ordered(events)
    requires |events| > 0 ==> events[|events| - 1].now <= now
    requires |Groups(rule, events)| < rule.maxActiveGroups
    requires forall g :: g in Groups(rule, events) && g != group ==> rule.fingerprint(g) != rule.fingerprint(group)
    ensures OutputsOf(rule, events, group) == OutputsOf(rule, Only(rule, events, group), group)
    ensures View(StoreAfter(rule, events), rule.fingerprint(group), now)
         == View(StoreAfter(rule, Only(rule, events, group)), rule.fingerprint(group), now)
  {
    hide GroupKey, Evaluate;
    if |events| > 0 {
      var n := |events| - 1;
      var e := events[n];
      assert Groups(rule, events[..n]) <= Groups(rule, events);
      SubsetIsNoLarger(Groups(rule, events[..n]), Groups(rule, events));
      GroupsDoNotInterfere(rule, events[..n], group, e.now);
      var s := StoreAfter(rule, events[..n]);
      var own := Only(rule, events[..n], group);
      IndexHasRoom(rule, events[..n], e.now);
      if GroupKey(rule.groupBy, e.log) == group {
        OnlyItsGroup(rule, events[..n], group);
        SubsetIsNoLarger(Groups(rule, own), Groups(rule, events));
        IndexHasRoom(rule, own, e.now);
        StepIsLocal(rule, s, StoreAfter(rule, own), e.log, e.now);
        assert (own + [e])[..|own|] == own;
      } else {
        OthersUntouched(rule, s, e.log, e.now, rule.fingerprint(group));
      }
    }
  }
}
