/**
  The one-pass automaton is optimal: an in-order stream of one group divides
  where a window resets, and within each segment the automaton raises as many
  alerts, each as early, as any choice of events would allow.
 */
module CorrelationGreedy {
  import opened Basics
  import opened Options
  import opened Correlation
  import opened CorrelationSafety
  import opened CorrelationSoundness

  // ---------- Rounds of matches ----------

  /** How many matches an alert takes. */
  function Round(rule: Rule): (n: nat)
    ensures |rule.stages| <= n
  {
    Need(rule.stages, |rule.stages|)
  }

  /** Whether a log serves as match number `p` of a stream, the stages starting over after every round. */
  predicate Fits(rule: Rule, p: nat, log: Log)
    requires rule.stages != []
  {
    Accepts(rule, p % Round(rule), log)
  }

  /** The positions, in order, serve as the first matches of a stream: round after round, none shared. */
  ghost predicate IsEmbedding(rule: Rule, events: seq<Event>, pos: seq<nat>)
    requires rule.stages != []
  {
    && (forall i, j :: 0 <= i < j < |pos| ==> pos[i] < pos[j])
    && (forall i :: 0 <= i < |pos| ==> pos[i] < |events| && Fits(rule, i, events[pos[i]].log))
  }

  /** Some choice of events serves as the first `p` matches. */
  ghost predicate Embeds(rule: Rule, events: seq<Event>, p: nat)
    requires rule.stages != []
  {
    exists pos: seq<nat> :: |pos| == p && IsEmbedding(rule, events, pos)
  }

  /** Some choice of events makes `k` full rounds, one after the other. */
  ghost predicate HasRounds(rule: Rule, events: seq<Event>, k: nat)
    requires rule.stages != []
  {
    Embeds(rule, events, k * Round(rule))
  }

  /** How many matches are collected by taking each event that fits. */
  function Greedy(rule: Rule, events: seq<Event>): nat
    requires rule.stages != []
  {
    if |events| == 0 then 0
    else
      var n := |events| - 1;
      var p := Greedy(rule, events[..n]);
      if Fits(rule, p, events[n].log) then p + 1 else p
  }

  lemma {:induction false} GreedyEmbeds(rule: Rule, events: seq<Event>)
    requires rule.stages != []
    ensures Embeds(rule, events, Greedy(rule, events))
  {
    hide Fits;
    if |events| == 0 {
      var pos: seq<nat> := [];
      assert IsEmbedding(rule, events, pos);
    } else {
      var n := |events| - 1;
      GreedyEmbeds(rule, events[..n]);
      var pos: seq<nat> :| |pos| == Greedy(rule, events[..n]) && IsEmbedding(rule, events[..n], pos);
      var longer: seq<nat> := pos + [n];
      if Fits(rule, |pos|, events[n].log) {
        assert IsEmbedding(rule, events, longer);
      } else {
        assert IsEmbedding(rule, events, pos);
      }
    }
  }

  /** No choice of events gets further than the greedy one. */
  lemma {:induction false} GreedyIsBest(rule: Rule, events: seq<Event>, pos: seq<nat>)
    requires rule.stages != [] && IsEmbedding(rule, events, pos)
    ensures |pos| <= Greedy(rule, events)
  {
    hide Fits;
    if |pos| > 0 {
      var n := |events| - 1;
      var last := |pos| - 1;
      if pos[last] < n {
        assert forall i :: 0 <= i < |pos| ==> pos[i] <= pos[last];
        GreedyIsBest(rule, events[..n], pos);
      } else {
        assert forall i :: 0 <= i < last ==> pos[i] < pos[last];
        GreedyIsBest(rule, events[..n], pos[..last]);
        assert Fits(rule, last, events[n].log);
      }
    }
  }

  /** The greedy count decides how many matches, and so how many rounds, can be chosen. */
  lemma GreedyDecides(rule: Rule, events: seq<Event>, p: nat)
    requires rule.stages != []
    ensures Embeds(rule, events, p) <==> p <= Greedy(rule, events)
  {
    hide Fits;
    GreedyEmbeds(rule, events);
    if Embeds(rule, events, p) {
      var pos: seq<nat> :| |pos| == p && IsEmbedding(rule, events, pos);
      GreedyIsBest(rule, events, pos);
    }
    if p <= Greedy(rule, events) {
      var pos: seq<nat> :| |pos| == Greedy(rule, events) && IsEmbedding(rule, events, pos);
      assert IsEmbedding(rule, events, pos[..p]);
    }
  }

  /** Each round of an embedding serves all the stages from the first on. */
  lemma RoundsAreFull(rule: Rule, events: seq<Event>, pos: seq<nat>, j: nat, i: nat)
    requires rule.stages != [] && IsEmbedding(rule, events, pos)
    requires i < Round(rule) && 0 <= j * Round(rule) + i < |pos|
    ensures pos[j * Round(rule) + i] < |events| && Accepts(rule, i, events[pos[j * Round(rule) + i]].log)
  {
    hide Accepts, Need;
    ModOfRound(j, i, Round(rule));
    assert Fits(rule, j * Round(rule) + i, events[pos[j * Round(rule) + i]].log);
  }

  lemma ModOfRound(j: nat, i: nat, n: nat)
    requires i < n
    ensures 0 <= j * n + i && (j * n + i) % n == i && (j * n + i) / n == j
  {
    assert j * n >= 0;
    var x := j * n + i;
    DivisionIsUnique(x, n, x / n, x % n, j, i);
  }

  lemma DivisionIsUnique(x: nat, n: nat, q: int, r: nat, j: int, i: nat)
    requires x == q * n + r == j * n + i && r < n && i < n
    ensures q == j && r == i
  {
    if q > j {
      Distribute(j, q - j, n);
      Distribute(q - j - 1, 1, n);
      NotNegative(q - j - 1, n);
    } else if q < j {
      Distribute(q, j - q, n);
      Distribute(j - q - 1, 1, n);
      NotNegative(j - q - 1, n);
    }
  }

  lemma Distribute(a: int, b: int, n: nat)
    ensures (a + b) * n == a * n + b * n
  {
  }

  lemma NotNegative(a: nat, n: nat)
    ensures a * n >= 0
  {
  }

  /** Counting one more match, within its round and in rounds. */
  lemma CountOne(c: nat, n: nat)
    requires n > 0
    ensures (c + 1) % n == 0 <==> c % n + 1 == n
    ensures (c + 1) % n != 0 ==> (c + 1) % n == c % n + 1 && (c + 1) / n == c / n
    ensures (c + 1) % n == 0 ==> (c + 1) / n == c / n + 1
  {
    var j, i := c / n, c % n;
    assert c == j * n + i;
    if i + 1 < n {
      ModOfRound(j, i + 1, n);
    } else {
      ModOfRound(j + 1, 0, n);
      assert c + 1 == (j + 1) * n + 0;
    }
  }

  // ---------- Which events are heard ----------

  /**
    How far a stream of one group has come: its matches in this segment; the
    time its stored state began at, if there is one; whether the group is
    indexed; and the store time its state was last saved at.
   */
  datatype Ear = Ear(count: nat, since: Option<EventTime>, indexed: bool, saved: int)

  const SILENCE := Ear(0, None, false, 0)

  /** The watermark has left the stored state's window: a new segment begins. */
  predicate Outlives(rule: Rule, ear: Ear, e: Event) {
    ear.since.Some? && e.log.timestamp - ear.since.value > rule.Window() + rule.Lateness()
  }

  function Renewed(rule: Rule, ear: Ear, e: Event): Ear {
    if Outlives(rule, ear, e) then ear.(count := 0, since := None) else ear
  }

  predicate LooksNew(rule: Rule, ear: Ear, e: Event)
    requires rule.stages != []
  {
    Outlives(rule, ear, e) || (ear.since == Some(e.log.timestamp) && ear.count % Round(rule) == 0)
  }

  /** Drop-newest refuses an event that looks new when the group's own entry, or nothing at all, fills the index. */
  predicate Refuses(rule: Rule, ear: Ear, e: Event)
    requires rule.stages != []
  {
    rule.policy.DropNewest? &&
    (rule.maxActiveGroups == 0 || (rule.maxActiveGroups == 1 && ear.indexed && LooksNew(rule, ear, e)))
  }

  /** What an event that is let through does to the count, the state's beginning and the index entry. */
  function Take(rule: Rule, ear: Ear, e: Event): Ear
    requires rule.stages != []
  {
    if !Fits(rule, ear.count, e.log) then
      Ear(ear.count, if ear.since.Some? then ear.since else Some(e.log.timestamp), true, e.now)
    else if (ear.count + 1) % Round(rule) == 0 then
      Ear(ear.count + 1, None, false, ear.saved)
    else
      Ear(ear.count + 1, if ear.since.Some? then ear.since else Some(e.log.timestamp), true, e.now)
  }

  function Hear(rule: Rule, ear: Ear, e: Event): Ear
    requires rule.stages != []
  {
    if Refuses(rule, ear, e) then ear.(indexed := false) else Take(rule, Renewed(rule, ear, e), e)
  }

  /** The event completes a round. */
  predicate Completes(rule: Rule, ear: Ear, e: Event)
    requires rule.stages != []
  {
    var before, after := Renewed(rule, ear, e).count, Hear(rule, ear, e).count;
    !Refuses(rule, ear, e) && after > before && after % Round(rule) == 0
  }

  function Listen(rule: Rule, events: seq<Event>): Ear
    requires rule.stages != []
  {
    if |events| == 0 then SILENCE else Hear(rule, Listen(rule, events[..|events| - 1]), events[|events| - 1])
  }

  /** The events that are not refused, in order. */
  function Heard(rule: Rule, events: seq<Event>): seq<Event>
    requires rule.stages != []
  {
    if |events| == 0 then []
    else
      var n := |events| - 1;
      var heard := Heard(rule, events[..n]);
      if Refuses(rule, Listen(rule, events[..n]), events[n]) then heard else heard + [events[n]]
  }

  // ---------- Segments ----------

  /** What one more event does to the segments so far. */
  function NextSegments(rule: Rule, before: seq<seq<Event>>, ear: Ear, e: Event): (after: seq<seq<Event>>)
    requires rule.stages != [] && |before| > 0
    ensures |after| > 0
  {
    if Refuses(rule, ear, e) then before
    else if Outlives(rule, ear, e) then before + [[e]]
    else before[..|before| - 1] + [before[|before| - 1] + [e]]
  }

  /** The heard events, in segments: one begins wherever a stored state's window is left. */
  function Segments(rule: Rule, events: seq<Event>): (segments: seq<seq<Event>>)
    requires rule.stages != []
    ensures |segments| > 0
  {
    if |events| == 0 then [[]]
    else
      var n := |events| - 1;
      NextSegments(rule, Segments(rule, events[..n]), Listen(rule, events[..n]), events[n])
  }

  function Concat(segments: seq<seq<Event>>): seq<Event> {
    if |segments| == 0 then [] else Concat(segments[..|segments| - 1]) + segments[|segments| - 1]
  }

  function Quotient(c: nat, n: nat): nat
    requires n > 0
  {
    c / n
  }

  /** The most rounds that any choice of each segment's events makes, summed over the segments. */
  function MostRounds(rule: Rule, segments: seq<seq<Event>>): nat
    requires rule.stages != []
  {
    if |segments| == 0 then 0
    else
      var n := |segments| - 1;
      MostRounds(rule, segments[..n]) + Quotient(Greedy(rule, segments[n]), Round(rule))
  }

  lemma LastSegment<T>(front: seq<T>, last: T)
    ensures (front + [last])[..|front|] == front && (front + [last])[|front|] == last && |front + [last]| == |front| + 1
  {
  }

  lemma ConcatOneMore(front: seq<seq<Event>>, last: seq<Event>)
    ensures Concat(front + [last]) == Concat(front) + last
  {
    LastSegment(front, last);
  }

  lemma MostRoundsOneMore(rule: Rule, front: seq<seq<Event>>, last: seq<Event>)
    requires rule.stages != []
    ensures MostRounds(rule, front + [last]) == MostRounds(rule, front) + Greedy(rule, last) / Round(rule)
  {
    hide Greedy, Round;
    LastSegment(front, last);
  }

  lemma OneSegment(rule: Rule, segment: seq<Event>)
    requires rule.stages != []
    ensures Concat([segment]) == segment
    ensures MostRounds(rule, [segment]) == Greedy(rule, segment) / Round(rule)
  {
    hide Greedy, Round;
    var none: seq<seq<Event>> := [];
    assert none + [segment] == [segment];
    ConcatOneMore(none, segment);
    MostRoundsOneMore(rule, none, segment);
  }

  lemma SplitLast<T>(s: seq<T>) returns (front: seq<T>, last: T)
    requires |s| > 0
    ensures front == s[..|s| - 1] && last == s[|s| - 1] && s == front + [last]
  {
    front, last := s[..|s| - 1], s[|s| - 1];
  }

  /** The segments, one after the other, are all that is heard. */
  lemma {:induction false} SegmentsAreHeard(rule: Rule, events: seq<Event>)
    requires rule.stages != []
    ensures Concat(Segments(rule, events)) == Heard(rule, events)
  {
    if |events| == 0 {
      OneSegment(rule, []);
    } else {
      var n := |events| - 1;
      SegmentsAreHeard(rule, events[..n]);
      var before := Segments(rule, events[..n]);
      hide Refuses, Outlives, Listen, Concat;
      var front, last := SplitLast(before);
      ConcatOneMore(front, last);
      ConcatOneMore(before, [events[n]]);
      ConcatOneMore(front, last + [events[n]]);
      assert Concat(front) + last + [events[n]] == Concat(front) + (last + [events[n]]);
    }
  }

  lemma GreedyOneMore(rule: Rule, events: seq<Event>, e: Event)
    requires rule.stages != []
    ensures Greedy(rule, events + [e]) ==
            Greedy(rule, events) + if Fits(rule, Greedy(rule, events), e.log) then 1 else 0
  {
    hide Fits;
    assert (events + [e])[..|events|] == events;
  }

  lemma NothingMatches(rule: Rule)
    requires rule.stages != []
    ensures Greedy(rule, []) == 0
  {
  }

  /** What one event does to the last segment, when it is let through. */
  lemma TakenIsGreedy(rule: Rule, segment: seq<Event>, ear: Ear, e: Event)
    requires rule.stages != [] && ear.count == Greedy(rule, segment)
    ensures Take(rule, ear, e).count == Greedy(rule, segment + [e])
    ensures Greedy(rule, segment + [e]) / Round(rule) ==
            Greedy(rule, segment) / Round(rule) +
            if Take(rule, ear, e).count > ear.count && Take(rule, ear, e).count % Round(rule) == 0 then 1 else 0
  {
    hide Fits, Greedy, Round;
    GreedyOneMore(rule, segment, e);
    CountOne(Greedy(rule, segment), Round(rule));
  }

  /** Listening counts the last segment's matches; an event that completes a round adds one round to the segments. */
  lemma {:induction false} ListenCountsSegment(rule: Rule, events: seq<Event>)
    requires rule.stages != []
    ensures var segments := Segments(rule, events);
            Listen(rule, events).count == Greedy(rule, segments[|segments| - 1])
    ensures |events| > 0 ==>
              var n := |events| - 1;
              MostRounds(rule, Segments(rule, events)) ==
              MostRounds(rule, Segments(rule, events[..n])) +
              if Completes(rule, Listen(rule, events[..n]), events[n]) then 1 else 0
  {
    if |events| == 0 {
      NothingMatches(rule);
    } else {
      var n := |events| - 1;
      ListenCountsSegment(rule, events[..n]);
      SegmentStep(rule, Segments(rule, events[..n]), Listen(rule, events[..n]), events[n]);
      hide Greedy, Round, MostRounds, Hear, NextSegments, Completes;
    }
  }

  lemma SegmentStep(rule: Rule, before: seq<seq<Event>>, ear: Ear, e: Event)
    requires rule.stages != [] && |before| > 0 && ear.count == Greedy(rule, before[|before| - 1])
    ensures var after := NextSegments(rule, before, ear, e);
            && |after| > 0 && Hear(rule, ear, e).count == Greedy(rule, after[|after| - 1])
            && MostRounds(rule, after) == MostRounds(rule, before) + if Completes(rule, ear, e) then 1 else 0
  {
    var front, last := SplitLast(before);
    hide Greedy, Round, MostRounds, Take, Refuses, Outlives;
    if !Refuses(rule, ear, e) {
      if Outlives(rule, ear, e) {
        NothingMatches(rule);
        TakenIsGreedy(rule, [], Renewed(rule, ear, e), e);
        NothingDivides(Round(rule));
        assert [] + [e] == [e];
        MostRoundsOneMore(rule, before, [e]);
        LastSegment(before, [e]);
      } else {
        TakenIsGreedy(rule, last, ear, e);
        MostRoundsOneMore(rule, front, last);
        MostRoundsOneMore(rule, front, last + [e]);
        LastSegment(front, last + [e]);
      }
    }
  }

  lemma NothingDivides(n: nat)
    requires n > 0
    ensures 0 / n == 0
  {
  }

  // ---------- One group, in order ----------

  ghost predicate InTime(events: seq<Event>) {
    forall i, j :: 0 <= i < j < |events| ==> events[i].log.timestamp <= events[j].log.timestamp
  }

  /** The whole stream is one group's, in order, and prompt enough that no stored state of it expires. */
  ghost predicate Steady(rule: Rule, events: seq<Event>, group: string)
    requires rule.stages != []
  {
    && group != "" && rule.Window() >= 0 && InTime(events)
    && (forall i :: 0 <= i < |events| ==> GroupAt(rule, events, i) == group)
    && (forall i :: 0 <= i < |events| ==> IsPrompt(rule, Listen(rule, events[..i]), events[i]))
  }

  /** And it is no longer than window plus lateness. */
  ghost predicate Calm(rule: Rule, events: seq<Event>, group: string)
    requires rule.stages != []
  {
    Steady(rule, events, group) && Last(events) - First(events) <= rule.Window() + rule.Lateness()
  }

  predicate IsPrompt(rule: Rule, ear: Ear, e: Event) {
    ear.since.Some? ==> e.now <= ear.saved + AsI64(rule.StateTtl())
  }

  /** The times an in-order stream lies between. */
  function First(events: seq<Event>): int {
    if |events| == 0 then 0 else events[0].log.timestamp
  }

  function Last(events: seq<Event>): int {
    if |events| == 0 then 0 else events[|events| - 1].log.timestamp
  }

  /** The state stored for a group that has come so far, with times up to `hi`. */
  ghost predicate Remembers(rule: Rule, st: State, ear: Ear, group: string, hi: int)
    requires rule.stages != []
  {
    && st.groupKey == group && SaneState(rule, st)
    && ear.since == Some(st.windowStart)
    && st.maxTs == st.lastTs && st.maxTs <= hi
    && Progress(rule, st) == ear.count % Round(rule)
  }

  /** What the store of a steady stream holds. */
  ghost predicate Tracks(rule: Rule, s: Store, ear: Ear, group: string, hi: int)
    requires rule.stages != []
  {
    var key, expiry := rule.fingerprint(group), ear.saved + AsI64(rule.StateTtl());
    && s.states.Keys == (if ear.since.Some? then {key} else {})
    && s.active.Keys == (if ear.indexed then {key} else {})
    && (ear.indexed ==> ear.since.Some? && s.activeExpiresAt == expiry)
    && (ear.since.Some? ==>
          s.states[key].expiresAt == expiry && Remembers(rule, s.states[key].state, ear, group, hi))
    && (ear.since.None? ==> ear.count % Round(rule) == 0)
    && (rule.policy.DropNewest? && rule.maxActiveGroups == 0 ==> ear == SILENCE)
  }

  /** The state the next event of a steady stream meets at the stages, in a window renewed if it was left. */
  ghost predicate Meets(rule: Rule, st: State, ear: Ear, group: string, ts: EventTime)
    requires rule.stages != []
  {
    && st.groupKey == group && SaneState(rule, st)
    && st.windowStart == (if ear.since.Some? then ear.since.value else ts)
    && st.maxTs == st.lastTs == ts
    && Progress(rule, st) == ear.count % Round(rule)
  }

  lemma SweepKeepsTrack(rule: Rule, s: Store, ear: Ear, group: string, hi: int, e: Event)
    requires rule.stages != [] && Tracks(rule, s, ear, group, hi) && IsPrompt(rule, ear, e)
    ensures Tracks(rule, Sweep(s, e.now), ear, group, hi)
    ensures Sweep(s, e.now).states == s.states
  {
    hide Remembers, Round;
  }

  lemma SteadyArrival(rule: Rule, s: Store, ear: Ear, group: string, hi: int, e: Event)
    requires rule.stages != [] && rule.Window() >= 0 && group != "" && GroupKey(rule.groupBy, e.log) == group
    requires Tracks(rule, s, ear, group, hi) && IsPrompt(rule, ear, e)
    requires ear.since.Some? ==> hi <= e.log.timestamp
    ensures var st := Arriving(rule, s, e.log, e.now);
            st.Some? && Meets(rule, st.value, Renewed(rule, ear, e), group, e.log.timestamp)
  {
    SweepKeepsTrack(rule, s, ear, group, hi, e);
    hide GroupKey, Sweep, Round;
    var ts := e.log.timestamp;
    if ear.since.Some? {
      var st := s.states[rule.fingerprint(group)].state;
      WindowTestIsExact(rule, st, ts);
      WindowTestIsExact(rule, st.(maxTs := ts), ts);
      ResetIsMet(rule, group, ts);
    } else {
      WindowTestIsExact(rule, ResetState(group, ts), ts);
    }
  }

  lemma ResetIsMet(rule: Rule, group: string, ts: EventTime)
    requires rule.stages != [] && rule.Window() >= 0
    ensures Meets(rule, ResetState(group, ts), SILENCE, group, ts)
  {
  }

  lemma LooksNewExactlyWhen(rule: Rule, st: State, ear: Ear, group: string, ts: EventTime)
    requires rule.stages != [] && Meets(rule, st, ear, group, ts)
    ensures IsNewGroup(st, ts) <==> ear.count % Round(rule) == 0 && (ear.since.Some? ==> ear.since.value == ts)
  {
    hide Round;
  }

  lemma NewExactlyWhen(rule: Rule, ear: Ear, group: string, st: State, e: Event)
    requires rule.stages != [] && (ear.since.None? ==> ear.count % Round(rule) == 0)
    requires Meets(rule, st, Renewed(rule, ear, e), group, e.log.timestamp)
    ensures IsNewGroup(st, e.log.timestamp) <==> LooksNew(rule, ear, e) || ear.since.None?
  {
    LooksNewExactlyWhen(rule, st, Renewed(rule, ear, e), group, e.log.timestamp);
    hide IsNewGroup, Meets, Round;
    assert 0 % Round(rule) == 0;
  }

  /** Making room in an index that holds a lone group, or nothing. */
  lemma EvictLone(rule: Rule, s: Store, key: U64, indexed: bool)
    requires s.states.Keys <= {key} && s.active.Keys == if indexed then {key} else {}
    ensures var (s1, allowed) := EvictIfNeeded(rule, s, key);
            && (allowed <==> !(rule.policy.DropNewest? &&
                               (rule.maxActiveGroups == 0 || (rule.maxActiveGroups == 1 && indexed))))
            && (allowed ==> s1.states.Keys <= {key} && s1.active.Keys <= {key})
            && (!allowed ==> s1 == s.(active := map[]))
  {
    assert |s.active| == |s.active.Keys| == if indexed then 1 else 0;
    assert s.active - {key} == map[];
  }

  /** The index admits a lone group's event exactly when it is not refused. */
  lemma AdmittedExactlyWhen(rule: Rule, s: Store, ear: Ear, group: string, hi: int, st: State, e: Event)
    requires rule.stages != [] && Tracks(rule, s, ear, group, hi)
    requires Meets(rule, st, Renewed(rule, ear, e), group, e.log.timestamp)
    ensures var key := rule.fingerprint(group);
            var (s1, allowed) := Admit(rule, s, key, st, e.log.timestamp);
            && (allowed <==> !Refuses(rule, ear, e))
            && (allowed ==> s1.states.Keys <= {key} && s1.active.Keys <= {key})
            && (!allowed ==> s1 == s.(active := map[]))
  {
    NewExactlyWhen(rule, ear, group, st, e);
    EvictLone(rule, s, rule.fingerprint(group), ear.indexed);
    hide IsNewGroup, Remembers, Round, Meets, LooksNew, EvictIfNeeded;
  }

  lemma AtMostOneEntry<T>(m: map<U64, T>, key: U64, value: T)
    requires m.Keys <= {key}
    ensures m[key := value] == map[key := value] && m - {key} == map[]
  {
  }

  /** A lone group's conclusion, in a store that holds nothing else. */
  lemma AloneConclusion(rule: Rule, s: Store, key: U64, st: State, log: Log, now: int)
    requires s.states.Keys <= {key} && s.active.Keys <= {key}
    ensures var r := Conclude(rule, s, key, st, log, now);
            var (st1, complete) := MatchStage(rule, st, log);
            && (r.alert.Some? <==> complete)
            && (complete ==> r.store.states == map[] && r.store.active == map[])
            && (!complete ==> r.store == Store(map[key := Entry(st1, now + AsI64(rule.StateTtl()))],
                                               map[key := st1.lastTs], now + AsI64(rule.StateTtl())))
  {
    hide MatchStage;
    var st1 := MatchStage(rule, st, log).0;
    AtMostOneEntry(s.states, key, Entry(st1, now + AsI64(rule.StateTtl())));
    AtMostOneEntry(s.active, key, st1.lastTs);
  }

  /** The stages do to the met state what taking the event does to the count. */
  lemma ConclusionTracks(rule: Rule, s: Store, ear: Ear, group: string, st: State, e: Event)
    requires rule.stages != [] && Meets(rule, st, ear, group, e.log.timestamp)
    requires s.states.Keys <= {rule.fingerprint(group)} && s.active.Keys <= {rule.fingerprint(group)}
    requires !(rule.policy.DropNewest? && rule.maxActiveGroups == 0)
    ensures var r := Conclude(rule, s, rule.fingerprint(group), st, e.log, e.now);
            var after := Take(rule, ear, e);
            && Tracks(rule, r.store, after, group, e.log.timestamp)
            && (r.alert.Some? <==> after.count > ear.count && after.count % Round(rule) == 0)
  {
    AloneConclusion(rule, s, rule.fingerprint(group), st, e.log, e.now);
    MatchIsProgress(rule, st, e.log);
    MatchIsSane(rule, st, e.log);
    CountOne(ear.count, Round(rule));
    hide Conclude, MatchStage, Accepts, Need, SaneState, Progress;
    assert Round(rule) == Need(rule.stages, |rule.stages|);
  }

  /** One event of a steady stream. */
  lemma SteadyStep(rule: Rule, s: Store, ear: Ear, group: string, hi: int, e: Event)
    requires rule.stages != [] && rule.Window() >= 0 && group != "" && GroupKey(rule.groupBy, e.log) == group
    requires Tracks(rule, s, ear, group, hi) && IsPrompt(rule, ear, e)
    requires ear.since.Some? ==> hi <= e.log.timestamp
    ensures var r := Evaluate(rule, s, e.log, e.now);
            && Tracks(rule, r.store, Hear(rule, ear, e), group, e.log.timestamp)
            && (r.alert.Some? <==> Completes(rule, ear, e))
  {
    SteadyArrival(rule, s, ear, group, hi, e);
    SweepKeepsTrack(rule, s, ear, group, hi, e);
    var st := Arriving(rule, s, e.log, e.now).value;
    hide GroupKey, Arriving, Sweep, Admit, Conclude, Meets, Round, IsPrompt, Take, Renewed;
    AdmittedExactlyWhen(rule, Sweep(s, e.now), ear, group, hi, st, e);
    var key := rule.fingerprint(group);
    var (s1, allowed) := Admit(rule, Sweep(s, e.now), key, st, e.log.timestamp);
    if allowed {
      NotRefused(rule, ear, e);
      hide Tracks, Refuses;
      ConclusionTracks(rule, s1, Renewed(rule, ear, e), group, st, e);
    } else {
      RefusedTracks(rule, Sweep(s, e.now), ear, group, hi, e);
    }
  }

  lemma NotRefused(rule: Rule, ear: Ear, e: Event)
    requires rule.stages != [] && !Refuses(rule, ear, e)
    ensures !(rule.policy.DropNewest? && rule.maxActiveGroups == 0)
  {
  }

  /** A refused event leaves the state as it was, and takes it out of the index. */
  lemma RefusedTracks(rule: Rule, s: Store, ear: Ear, group: string, hi: int, e: Event)
    requires rule.stages != [] && Tracks(rule, s, ear, group, hi) && (ear.since.Some? ==> hi <= e.log.timestamp)
    ensures Tracks(rule, s.(active := map[]), ear.(indexed := false), group, e.log.timestamp)
  {
    hide Round, Progress, SaneState;
  }

  lemma SteadyOfPrefix(rule: Rule, events: seq<Event>, group: string, n: nat)
    requires rule.stages != [] && n <= |events| && Steady(rule, events, group)
    ensures Steady(rule, events[..n], group)
  {
    hide GroupKey, Listen, IsPrompt;
    forall i | 0 <= i < n
      ensures GroupAt(rule, events[..n], i) == group && IsPrompt(rule, Listen(rule, events[..n][..i]), events[..n][i])
    {
      assert GroupAt(rule, events, i) == group && events[..n][..i] == events[..i];
    }
  }

  lemma NothingTracked(rule: Rule, group: string, hi: int)
    requires rule.stages != []
    ensures Tracks(rule, EMPTY_STORE, SILENCE, group, hi)
  {
  }

  lemma SteadyLast(rule: Rule, events: seq<Event>, group: string)
    requires rule.stages != [] && |events| > 0 && Steady(rule, events, group)
    ensures var n := |events| - 1;
            && GroupKey(rule.groupBy, events[n].log) == group && group != "" && rule.Window() >= 0
            && IsPrompt(rule, Listen(rule, events[..n]), events[n])
            && (n > 0 ==> Last(events[..n]) <= events[n].log.timestamp)
  {
    hide GroupKey, Listen, IsPrompt;
    assert GroupAt(rule, events, |events| - 1) == group;
  }

  /** A steady run stores what listening says, and fires on just the events that complete a round of their segment. */
  lemma {:induction false} SteadyRunIsGreedy(rule: Rule, events: seq<Event>, group: string)
    requires rule.stages != [] && Steady(rule, events, group)
    ensures Tracks(rule, StoreAfter(rule, events), Listen(rule, events), group, Last(events))
    ensures |events| > 0 ==>
              var n := |events| - 1;
              Fires(rule, events, n) <==> Completes(rule, Listen(rule, events[..n]), events[n])
  {
    hide Steady, GroupKey, Evaluate, Hear, Round, Tracks, IsPrompt, Completes;
    if |events| == 0 {
      NothingTracked(rule, group, 0);
    } else {
      var n := |events| - 1;
      SteadyOfPrefix(rule, events, group, n);
      SteadyRunIsGreedy(rule, events[..n], group);
      SteadyLast(rule, events, group);
      if n == 0 {
        NothingTracked(rule, group, events[0].log.timestamp);
      }
      SteadyStep(rule, StoreAfter(rule, events[..n]), Listen(rule, events[..n]), group,
                 if n == 0 then events[0].log.timestamp else Last(events[..n]), events[n]);
    }
  }

  // ---------- As many alerts as possible ----------

  /** How many evaluations of a run return an alert. */
  ghost function AlertsIn(rule: Rule, events: seq<Event>): nat {
    if |events| == 0 then 0
    else
      AlertsIn(rule, events[..|events| - 1]) + if Fires(rule, events, |events| - 1) then 1 else 0
  }

  /** The number of alerts is the sum, over the segments, of the most rounds that any choice of their events makes. */
  lemma {:induction false} AlertsAreSummed(rule: Rule, events: seq<Event>, group: string)
    requires rule.stages != [] && Steady(rule, events, group)
    ensures AlertsIn(rule, events) == MostRounds(rule, Segments(rule, events))
  {
    hide Steady, Fires, MostRounds, Segments, Completes, Listen, Tracks, StoreAfter;
    if |events| > 0 {
      var n := |events| - 1;
      SteadyOfPrefix(rule, events, group, n);
      AlertsAreSummed(rule, events[..n], group);
      SteadyRunIsGreedy(rule, events, group);
      ListenCountsSegment(rule, events);
    } else {
      NothingSummed(rule);
    }
  }

  lemma NothingSummed(rule: Rule)
    requires rule.stages != []
    ensures MostRounds(rule, Segments(rule, [])) == 0
  {
    NothingMatches(rule);
    OneSegment(rule, []);
    NothingDivides(Round(rule));
  }

  lemma RoundsWithin(k: nat, c: nat, n: nat)
    requires n > 0
    ensures k * n <= c <==> k <= c / n
  {
    var j, i := c / n, c % n;
    assert c == j * n + i && 0 <= i < n;
    if k <= j {
      Distribute(k, j - k, n);
      NotNegative(j - k, n);
    } else {
      Distribute(j + 1, k - j - 1, n);
      Distribute(j, 1, n);
      NotNegative(k - j - 1, n);
    }
  }

  /** How many rounds a choice of a segment's events can make. */
  lemma MostRoundsOfOne(rule: Rule, events: seq<Event>, k: nat)
    requires rule.stages != []
    ensures HasRounds(rule, events, k) <==> k <= Greedy(rule, events) / Round(rule)
  {
    hide Embeds, Greedy, Round;
    GreedyDecides(rule, events, k * Round(rule));
    RoundsWithin(k, Greedy(rule, events), Round(rule));
  }

  /** Rounds chosen in each segment: their numbers, one for each. */
  ghost predicate AreChosen(rule: Rule, segments: seq<seq<Event>>, rounds: seq<nat>)
    requires rule.stages != []
  {
    |rounds| == |segments| && forall i :: 0 <= i < |rounds| ==> HasRounds(rule, segments[i], rounds[i])
  }

  function Sum(rounds: seq<nat>): nat {
    if |rounds| == 0 then 0 else Sum(rounds[..|rounds| - 1]) + rounds[|rounds| - 1]
  }

  /** Some choice of events within each segment makes `k` full rounds in all. */
  ghost predicate HasRoundsInSegments(rule: Rule, segments: seq<seq<Event>>, k: nat)
    requires rule.stages != []
  {
    exists rounds: seq<nat> :: AreChosen(rule, segments, rounds) && Sum(rounds) == k
  }

  lemma {:induction false} ChosenSumToNoMore(rule: Rule, segments: seq<seq<Event>>, rounds: seq<nat>)
    requires rule.stages != [] && AreChosen(rule, segments, rounds)
    ensures Sum(rounds) <= MostRounds(rule, segments)
  {
    hide HasRounds, Greedy, Round;
    if |segments| > 0 {
      var n := |segments| - 1;
      ChosenSumToNoMore(rule, segments[..n], rounds[..n]);
      MostRoundsOfOne(rule, segments[n], rounds[n]);
    }
  }

  lemma {:induction false} SomeSumTo(rule: Rule, segments: seq<seq<Event>>, k: nat)
    requires rule.stages != [] && k <= MostRounds(rule, segments)
    ensures HasRoundsInSegments(rule, segments, k)
  {
    hide HasRounds, Greedy, Round;
    if |segments| == 0 {
      var rounds: seq<nat> := [];
      assert AreChosen(rule, segments, rounds) && Sum(rounds) == 0;
    } else {
      var n := |segments| - 1;
      var front: nat := Min(k, MostRounds(rule, segments[..n]));
      SomeSumTo(rule, segments[..n], front);
      var fewer: seq<nat> :| AreChosen(rule, segments[..n], fewer) && Sum(fewer) == front;
      MostRoundsOfOne(rule, segments[n], k - front);
      var rounds := fewer + [k - front];
      assert rounds[..n] == fewer;
      assert AreChosen(rule, segments, rounds) && Sum(rounds) == k;
    }
  }

  /**
    A steady run of any length: its alerts are the largest number of full rounds that
    any choice makes of the heard events, no round reaching over the end of a segment.
   */
  lemma AlertsAreMostInSegments(rule: Rule, events: seq<Event>, group: string, k: nat)
    requires rule.stages != [] && Steady(rule, events, group)
    ensures HasRoundsInSegments(rule, Segments(rule, events), k) <==> k <= AlertsIn(rule, events)
    ensures Concat(Segments(rule, events)) == Heard(rule, events)
  {
    hide Steady, AlertsIn, MostRounds, Segments, AreChosen, Heard, Concat;
    AlertsAreSummed(rule, events, group);
    SegmentsAreHeard(rule, events);
    if HasRoundsInSegments(rule, Segments(rule, events), k) {
      var rounds: seq<nat> :| AreChosen(rule, Segments(rule, events), rounds) && Sum(rounds) == k;
      ChosenSumToNoMore(rule, Segments(rule, events), rounds);
    }
    if k <= AlertsIn(rule, events) {
      SomeSumTo(rule, Segments(rule, events), k);
    }
  }

  // ---------- Calm streams are one segment ----------

  /** No stored state of a stream begins before the stream. */
  lemma {:induction false} BeganWithin(rule: Rule, events: seq<Event>)
    requires rule.stages != [] && InTime(events)
    ensures Listen(rule, events).since.Some? ==> |events| > 0 && First(events) <= Listen(rule, events).since.value
  {
    hide Round, Fits, LooksNew, Outlives;
    if |events| > 0 {
      BeganWithin(rule, events[..|events| - 1]);
      assert First(events) <= events[|events| - 1].log.timestamp;
    }
  }

  lemma {:induction false} CalmIsOneSegment(rule: Rule, events: seq<Event>)
    requires rule.stages != [] && InTime(events)
    requires Last(events) - First(events) <= rule.Window() + rule.Lateness()
    ensures Segments(rule, events) == [Heard(rule, events)]
  {
    if |events| > 0 {
      var n := |events| - 1;
      BeganWithin(rule, events[..n]);
      assert n > 0 ==> Last(events[..n]) <= Last(events) && First(events[..n]) == First(events);
      if n > 0 || rule.Window() + rule.Lateness() >= 0 {
        CalmIsOneSegment(rule, events[..n]);
      }
      assert !Outlives(rule, Listen(rule, events[..n]), events[n]);
      hide Refuses, Listen, Outlives;
    }
  }

  /**
    On a calm stream the number of alerts is the largest number of full rounds that
    any choice of the heard events makes, one round after the other.
   */
  lemma AlertsAreMost(rule: Rule, events: seq<Event>, group: string, k: nat)
    requires rule.stages != [] && Calm(rule, events, group)
    ensures HasRounds(rule, Heard(rule, events), k) <==> k <= AlertsIn(rule, events)
  {
    AlertsAreSummed(rule, events, group);
    CalmIsOneSegment(rule, events);
    hide Calm, AlertsIn, Heard, HasRounds, Greedy, Round, Segments;
    MostRoundsOfOne(rule, Heard(rule, events), k);
    OneSegment(rule, Heard(rule, events));
  }

  lemma CalmOfPrefix(rule: Rule, events: seq<Event>, group: string, n: nat)
    requires rule.stages != [] && n <= |events| && Calm(rule, events, group)
    ensures Calm(rule, events[..n], group)
  {
    SteadyOfPrefix(rule, events, group, n);
    assert InTime(events);
    assert n > 0 ==> Last(events[..n]) <= Last(events) && First(events[..n]) == First(events);
    hide Steady;
  }

  lemma {:induction false} NoAlertsMeansNoFire(rule: Rule, events: seq<Event>)
    ensures AlertsIn(rule, events) == 0 <==> forall m :: 0 <= m < |events| ==> !Fires(rule, events, m)
  {
    hide Evaluate, StoreAfter;
    if |events| > 0 {
      var n := |events| - 1;
      NoAlertsMeansNoFire(rule, events[..n]);
      forall m | 0 <= m < n ensures Fires(rule, events[..n], m) <==> Fires(rule, events, m) {
        assert events[..n][..m] == events[..m];
      }
    }
  }

  /** The first alert comes exactly with the shortest prefix whose heard events some choice completes. */
  lemma FirstAlertIsEarliest(rule: Rule, events: seq<Event>, group: string, n: nat)
    requires n < |events| && rule.stages != [] && Calm(rule, events, group)
    ensures IsFirstAlert(rule, events, n)
       <==> HasRounds(rule, Heard(rule, events[..n + 1]), 1) && !HasRounds(rule, Heard(rule, events[..n]), 1)
  {
    CalmOfPrefix(rule, events, group, n);
    CalmOfPrefix(rule, events, group, n + 1);
    hide Calm, Evaluate, StoreAfter, HasRounds, Heard;
    AlertsAreMost(rule, events[..n], group, 1);
    AlertsAreMost(rule, events[..n + 1], group, 1);
    FirstAlertIsCounted(rule, events, n);
  }

  ghost predicate IsFirstAlert(rule: Rule, events: seq<Event>, n: nat)
    requires n < |events|
  {
    Fires(rule, events, n) && forall m :: 0 <= m < n ==> !Fires(rule, events, m)
  }

  lemma FirstAlertIsCounted(rule: Rule, events: seq<Event>, n: nat)
    requires n < |events|
    ensures IsFirstAlert(rule, events, n) <==> AlertsIn(rule, events[..n]) == 0 && AlertsIn(rule, events[..n + 1]) > 0
  {
    hide Evaluate, StoreAfter;
    NoAlertsMeansNoFire(rule, events[..n]);
    assert events[..n + 1][..n] == events[..n];
    forall m | 0 <= m < n ensures Fires(rule, events[..n], m) <==> Fires(rule, events, m) {
      assert events[..n][..m] == events[..m];
    }
  }

  // ---------- When every event is heard ----------

  /** The last event began a state and is no match of it: another event of its time would look new too. */
  predicate Dangling(rule: Rule, events: seq<Event>)
    requires rule.stages != [] && |events| > 0
  {
    var n := |events| - 1;
    Listen(rule, events[..n]).since.None? && !Accepts(rule, 0, events[n].log)
  }

  /** Each event that finds no stored state is itself a match, or the next has another time; and no window is left. */
  predicate OpensWell(rule: Rule, events: seq<Event>)
    requires rule.stages != []
  {
    var n := |events| - 1;
    |events| > 1 ==>
      && OpensWell(rule, events[..n])
      && (Dangling(rule, events[..n]) ==> events[n].log.timestamp != events[n - 1].log.timestamp)
      && !Outlives(rule, Listen(rule, events[..n]), events[n])
  }

  /** There is room for the group's own entry: by the policy, by the slots, or by the events. */
  predicate HasRoom(rule: Rule, events: seq<Event>)
    requires rule.stages != []
  {
    || events == []
    || rule.policy.OldestFirst?
    || rule.maxActiveGroups >= 2
    || (rule.maxActiveGroups == 1 && OpensWell(rule, events))
  }

  lemma {:induction false} HeardIsNoLonger(rule: Rule, events: seq<Event>)
    requires rule.stages != []
    ensures |Heard(rule, events)| <= |events|
  {
    hide Refuses;
    if |events| > 0 {
      HeardIsNoLonger(rule, events[..|events| - 1]);
    }
  }

  /**
    What listening knows after a stream that one slot has all heard: `ts` is the last
    event's time, and `dangling` and `well` say how the stream stands.
   */
  ghost predicate Attends(ear: Ear, round: nat, ts: int, dangling: bool, well: bool)
    requires round > 0
  {
    && ear.indexed == ear.since.Some?
    && (ear.since.None? ==> ear.count % round == 0)
    && (dangling ==> ear.since.Some? && ear.since.value == ts && ear.count % round == 0)
    && (ear.since.Some? && ear.count % round == 0 && well ==> dangling || ear.since.value < ts)
  }

  ghost predicate Attentive(rule: Rule, events: seq<Event>)
    requires rule.stages != []
  {
    Attends(Listen(rule, events), Round(rule), Last(events),
            events != [] && Dangling(rule, events), OpensWell(rule, events))
  }

  predicate OneSlot(rule: Rule) {
    rule.policy.DropNewest? && rule.maxActiveGroups == 1
  }

  /** What hearing one event does to the count, the round and its beginning. */
  lemma AttendsStep(rule: Rule, ear: Ear, e: Event, ts: int, dangling: bool, well: bool)
    requires rule.stages != [] && OneSlot(rule)
    requires Attends(ear, Round(rule), ts, dangling, well) && !Refuses(rule, ear, e)
    requires ts <= e.log.timestamp || ear.since.None?
    ensures Attends(Hear(rule, ear, e), Round(rule), e.log.timestamp,
                    ear.since.None? && !Accepts(rule, 0, e.log),
                    well && (dangling ==> e.log.timestamp != ts))
    ensures !Outlives(rule, ear, e)
  {
    hide Accepts, Round;
    assert !Outlives(rule, ear, e);
  }

  /** Once the stream so far was all heard and opened well, just the next event's time decides. */
  lemma RefusedExactlyWhen(rule: Rule, ear: Ear, e: Event, ts: int, dangling: bool)
    requires rule.stages != [] && OneSlot(rule) && Attends(ear, Round(rule), ts, dangling, true)
    requires ts <= e.log.timestamp || ear.since.None?
    ensures Refuses(rule, ear, e) <==> (dangling && e.log.timestamp == ts) || Outlives(rule, ear, e)
  {
    hide Round;
  }

  lemma AppendedAgree<T>(a: seq<T>, b: seq<T>, e: T)
    ensures a + [e] == b + [e] <==> a == b
  {
    LastSegment(a, e);
    LastSegment(b, e);
    if a + [e] == b + [e] {
      assert |a + [e]| == |b + [e]|;
    }
  }

  lemma HeardAllStep(rule: Rule, events: seq<Event>)
    requires rule.stages != [] && |events| > 0
    ensures var n := |events| - 1;
            Heard(rule, events) == events <==>
              Heard(rule, events[..n]) == events[..n] && !Refuses(rule, Listen(rule, events[..n]), events[n])
  {
    hide Refuses, Listen, Heard;
    var n := |events| - 1;
    var heard := Heard(rule, events[..n]);
    HeardIsNoLonger(rule, events[..n]);
    HeardOneMore(rule, events);
    var front, last := SplitLast(events);
    AppendedAgree(heard, front, last);
  }

  lemma HeardOneMore(rule: Rule, events: seq<Event>)
    requires rule.stages != [] && |events| > 0
    ensures var n := |events| - 1;
            Heard(rule, events) ==
            if Refuses(rule, Listen(rule, events[..n]), events[n]) then Heard(rule, events[..n])
            else Heard(rule, events[..n]) + [events[n]]
  {
    hide Refuses, Listen;
  }

  lemma AttentiveStep(rule: Rule, events: seq<Event>)
    requires rule.stages != [] && OneSlot(rule)
    requires |events| > 0 && InTime(events) && Attentive(rule, events[..|events| - 1])
    requires !Refuses(rule, Listen(rule, events[..|events| - 1]), events[|events| - 1])
    ensures Attentive(rule, events)
  {
    hide Round, Hear, Refuses, Attends, Accepts, Outlives;
    var n := |events| - 1;
    LastInTime(rule, events);
    AttendsStep(rule, Listen(rule, events[..n]), events[n], Last(events[..n]),
                n > 0 && Dangling(rule, events[..n]), OpensWell(rule, events[..n]));
  }

  /** One slot: whether the next event is refused, after a stream that was all heard. */
  lemma RoomStep(rule: Rule, events: seq<Event>)
    requires rule.stages != [] && OneSlot(rule) && |events| > 0 && InTime(events)
    ensures var before, e := events[..|events| - 1], events[|events| - 1];
            Attentive(rule, before) && OpensWell(rule, before) ==>
              (Refuses(rule, Listen(rule, before), e) <==> !OpensWell(rule, events))
  {
    var n := |events| - 1;
    assert n == 0 ==> !Outlives(rule, Listen(rule, events[..n]), events[n]);
    hide Round, Hear, Refuses, Attends, Accepts, Listen, Outlives;
    LastInTime(rule, events);
    if Attentive(rule, events[..n]) && OpensWell(rule, events[..n]) {
      RefusedExactlyWhen(rule, Listen(rule, events[..n]), events[n], Last(events[..n]),
                         n > 0 && Dangling(rule, events[..n]));
    }
  }

  /** Every event of an in-order stream is heard exactly when there is room for the group. */
  lemma {:induction false} AllHeardExactlyWhen(rule: Rule, events: seq<Event>)
    requires rule.stages != [] && InTime(events)
    ensures Heard(rule, events) == events <==> HasRoom(rule, events)
    ensures Heard(rule, events) == events && OneSlot(rule) ==> Attentive(rule, events)
  {
    if |events| == 0 {
      NothingAttended(rule);
    } else {
      var n := |events| - 1;
      AllHeardExactlyWhen(rule, events[..n]);
      HeardAllStep(rule, events);
      RefusedByPolicy(rule, Listen(rule, events[..n]), events[n]);
      hide Attentive, Refuses, Listen, Heard, Dangling;
      if Heard(rule, events[..n]) == events[..n] && OneSlot(rule) {
        if !Refuses(rule, Listen(rule, events[..n]), events[n]) {
          AttentiveStep(rule, events);
        }
        RoomStep(rule, events);
      }
    }
  }

  lemma NothingAttended(rule: Rule)
    requires rule.stages != []
    ensures Attentive(rule, [])
  {
  }

  lemma RefusedByPolicy(rule: Rule, ear: Ear, e: Event)
    requires rule.stages != []
    ensures rule.policy.OldestFirst? || rule.maxActiveGroups >= 2 ==> !Refuses(rule, ear, e)
    ensures rule.policy.DropNewest? && rule.maxActiveGroups == 0 ==> Refuses(rule, ear, e)
  {
  }

  lemma LastInTime(rule: Rule, events: seq<Event>)
    requires rule.stages != [] && |events| > 0 && InTime(events)
    ensures var n := |events| - 1;
            Last(events[..n]) <= events[n].log.timestamp || Listen(rule, events[..n]).since.None?
  {
    hide Hear;
  }

  // ---------- As many alerts as any choice of all events allows ----------

  lemma {:induction false} HearingLessMatchesNoMore(rule: Rule, events: seq<Event>)
    requires rule.stages != []
    ensures Greedy(rule, Heard(rule, events)) <= Greedy(rule, events)
  {
    hide Fits, Refuses;
    if |events| > 0 {
      var n := |events| - 1;
      var heard := Heard(rule, events[..n]);
      HearingLessMatchesNoMore(rule, events[..n]);
      assert (heard + [events[n]])[..|heard|] == heard;
    }
  }

  lemma CalmIsInTime(rule: Rule, events: seq<Event>, group: string)
    requires rule.stages != [] && Calm(rule, events, group)
    ensures InTime(events)
  {
    hide GroupKey, Listen;
  }

  /**
    A calm run never raises more alerts than some choice of all its events
    makes rounds, and where there is room it raises just as many.
   */
  lemma CalmRunIsOptimal(rule: Rule, events: seq<Event>, group: string, k: nat)
    requires rule.stages != [] && Calm(rule, events, group)
    ensures k <= AlertsIn(rule, events) ==> HasRounds(rule, events, k)
    ensures HasRoom(rule, events) ==> (HasRounds(rule, events, k) <==> k <= AlertsIn(rule, events))
  {
    CalmIsInTime(rule, events, group);
    hide Calm, AlertsIn, Heard, HasRounds, Greedy, Round, HasRoom, InTime, Attentive;
    AlertsAreMost(rule, events, group, k);
    AllHeardExactlyWhen(rule, events);
    HearingLessMatchesNoMore(rule, events);
    if HasRounds(rule, Heard(rule, events), k) {
      RoundsOfMore(rule, Heard(rule, events), events, k);
    }
  }

  lemma RoundsOfMore(rule: Rule, fewer: seq<Event>, more: seq<Event>, k: nat)
    requires rule.stages != [] && Greedy(rule, fewer) <= Greedy(rule, more) && HasRounds(rule, fewer, k)
    ensures HasRounds(rule, more, k)
  {
    hide Embeds, Greedy, Round;
    GreedyDecides(rule, fewer, k * Round(rule));
    GreedyDecides(rule, more, k * Round(rule));
  }

  // ---------- Rules that miss alerts ----------

  /** A drop-newest rule with no slots never fires, in any run of any groups. */
  lemma {:induction false} NoSlotsNeverFire(rule: Rule, events: seq<Event>)
    requires rule.policy.DropNewest? && rule.maxActiveGroups == 0
    ensures StoreAfter(rule, events).states == map[]
    ensures |events| > 0 ==> !Fires(rule, events, |events| - 1)
  {
    hide GroupKey, MatchStage;
    if |events| > 0 {
      NoSlotsNeverFire(rule, events[..|events| - 1]);
    }
  }

  /** A match of the rule below is an event of type "x". */
  function SlotRule(): Rule {
    Rule("r", 100, 1, 0, 900, DropNewest, ["source_ip"], [Stage((l: Log) => l.eventType == "x", 1)], (g: string) => 0)
  }

  function Typed(eventType: string): Event {
    Event(Log(0, "t", 0, "a", None, eventType), 0)
  }

  /** With one slot, a match that shares its second with the group's first event is refused, and its alert missed. */
  lemma RefusedMatchIsMissed()
    ensures var rule, events := SlotRule(), [Typed("u"), Typed("x")];
            Calm(rule, events, "a") && HasRounds(rule, events, 1) && !Fires(rule, events, 1)
  {
    var rule, u, x := SlotRule(), Typed("u"), Typed("x");
    var events := [u, x];
    assert GroupKey(rule.groupBy, u.log) == FieldValue(rule.groupBy[0], u.log) == "a";
    assert GroupKey(rule.groupBy, x.log) == FieldValue(rule.groupBy[0], x.log) == "a";
    OneStageRule(rule);
    assert events[..1] == [u] && [u][..0] == [] && events[..0] == [];
    var ear := Listen(rule, [u]);
    assert Listen(rule, [u][..0]) == SILENCE && |[u]| - 1 == 0;
    assert !Fits(rule, 0, u.log) && ear == Hear(rule, SILENCE, u);
    assert ear == Ear(0, Some(0), true, 0);
    assert Listen(rule, events) == ear.(indexed := false);
    assert GroupAt(rule, events, 0) == GroupAt(rule, events, 1) == "a";
    assert rule.StateTtl() == 900;
    assert forall i :: 0 <= i < 2 ==> IsPrompt(rule, Listen(rule, events[..i]), events[i]);
    assert Calm(rule, events, "a");
    var pos: seq<nat> := [1];
    assert IsEmbedding(rule, events, pos);
    hide Calm, Steady, GroupKey;
    SteadyRunIsGreedy(rule, events, "a");
  }

  /** A first match of type "x" and then one of type "y", within a hundred seconds. */
  function PairRule(): Rule {
    Rule("r", 100, 2, 0, 900, OldestFirst, ["source_ip"],
         [Stage((l: Log) => l.eventType == "x", 1), Stage((l: Log) => l.eventType == "y", 1)], (g: string) => 0)
  }

  function TypedAt(eventType: string, ts: EventTime): Event {
    Event(Log(0, "t", ts, "a", None, eventType), ts)
  }

  /**
    A window begins at the group's first event even if that is no match: the two
    matches are eighty seconds apart, yet the second finds the window left.
   */
  lemma IdleEventOpensWindow()
    ensures var rule, events := PairRule(), [TypedAt("u", 0), TypedAt("x", 60), TypedAt("y", 140)];
            && Steady(rule, events, "a") && HasRounds(rule, events, 1) && AlertsIn(rule, events) == 0
            && Calm(rule, events[1..], "a") && AlertsIn(rule, events[1..]) > 0
  {
    var rule, u, x, y := PairRule(), TypedAt("u", 0), TypedAt("x", 60), TypedAt("y", 140);
    var events := [u, x, y];
    assert events[1..] == [x, y];
    PairIsSteady(events);
    PairIsSteady([x, y]);
    PairHasRound(events, 1, 2);
    PairHasRound([x, y], 0, 1);
    hide Steady, HasRounds, AlertsIn;
    IdleEventSilences(u, x, y);
    CalmRunIsOptimal(rule, [x, y], "a", 1);
  }

  lemma PairFits(p: nat, log: Log)
    ensures Round(PairRule()) == 2
    ensures Fits(PairRule(), p, log) <==> log.eventType == if p % 2 == 0 then "x" else "y"
  {
    var rule := PairRule();
    assert Need(rule.stages, 0) == 0 && Need(rule.stages, 1) == 1 && Need(rule.stages, 2) == 2;
    AcceptsInStage(rule, p % 2, p % 2, log);
  }

  lemma {:induction false} SavedFrom(rule: Rule, events: seq<Event>)
    requires rule.stages != [] && forall i :: 0 <= i < |events| ==> 0 <= events[i].now
    ensures Listen(rule, events).saved >= 0
  {
    hide Fits, Refuses, Outlives, Round;
    if |events| > 0 {
      SavedFrom(rule, events[..|events| - 1]);
    }
  }

  lemma PairIsSteady(events: seq<Event>)
    requires InTime(events) && forall i :: 0 <= i < |events| ==> 0 <= events[i].now <= 900
    requires forall i :: 0 <= i < |events| ==> events[i].log.sourceIp == "a"
    ensures Steady(PairRule(), events, "a")
  {
    var rule := PairRule();
    assert rule.StateTtl() == 900;
    forall i | 0 <= i < |events|
      ensures GroupAt(rule, events, i) == "a" && IsPrompt(rule, Listen(rule, events[..i]), events[i])
    {
      assert GroupKey(rule.groupBy, events[i].log) == FieldValue(rule.groupBy[0], events[i].log);
      SavedFrom(rule, events[..i]);
    }
  }

  lemma PairHasRound(events: seq<Event>, i: nat, j: nat)
    requires i < j < |events| && events[i].log.eventType == "x" && events[j].log.eventType == "y"
    ensures HasRounds(PairRule(), events, 1)
  {
    PairFits(0, events[i].log);
    PairFits(1, events[j].log);
    var pos: seq<nat> := [i, j];
    assert IsEmbedding(PairRule(), events, pos);
  }

  /** The third event leaves the window that the idle first one began, and so no event completes a round. */
  lemma IdleEventSilences(u: Event, x: Event, y: Event)
    requires u == TypedAt("u", 0) && x == TypedAt("x", 60) && y == TypedAt("y", 140)
    requires Steady(PairRule(), [u, x, y], "a")
    ensures AlertsIn(PairRule(), [u, x, y]) == 0
  {
    var rule, none := PairRule(), [];
    assert none + [u] == [u] && [u] + [x] == [u, x] && [u, x] + [y] == [u, x, y];
    assert [u, x, y][..1] == [u] && [u, x, y][..2] == [u, x];
    SteadyOfPrefix(rule, [u, x, y], "a", 1);
    SteadyOfPrefix(rule, [u, x, y], "a", 2);
    assert AlertsIn(rule, none) == 0;
    NothingYet(rule, u, x, y);
    hide Steady, AlertsIn, Completes, Listen, PairRule;
    QuietEvent(rule, none, u, "a");
    QuietEvent(rule, [u], x, "a");
    QuietEvent(rule, [u, x], y, "a");
  }

  /** How far listening has come before each of the three events. */
  lemma NothingYet(rule: Rule, u: Event, x: Event, y: Event)
    requires rule == PairRule() && u == TypedAt("u", 0) && x == TypedAt("x", 60) && y == TypedAt("y", 140)
    ensures !Completes(rule, Listen(rule, []), u) && !Completes(rule, Listen(rule, [u]), x)
    ensures !Completes(rule, Listen(rule, [u, x]), y)
  {
    PairFits(0, u.log);
    PairFits(0, x.log);
    PairFits(0, y.log);
    assert Listen(rule, []) == SILENCE;
    ListenOneMore(rule, [], u);
    ListenOneMore(rule, [u], x);
    hide Fits, Listen, Round, PairRule;
    assert [] + [u] == [u] && [u] + [x] == [u, x];
    assert Listen(rule, [u]) == Ear(0, Some(0), true, 0);
    assert Listen(rule, [u, x]) == Ear(1, Some(0), true, 60);
  }

  lemma ListenOneMore(rule: Rule, events: seq<Event>, e: Event)
    requires rule.stages != []
    ensures Listen(rule, events + [e]) == Hear(rule, Listen(rule, events), e)
  {
    hide Hear;
    LastSegment(events, e);
  }

  /** An event that completes no round adds no alert. */
  lemma QuietEvent(rule: Rule, events: seq<Event>, e: Event, group: string)
    requires rule.stages != [] && Steady(rule, events + [e], group) && !Completes(rule, Listen(rule, events), e)
    ensures AlertsIn(rule, events + [e]) == AlertsIn(rule, events)
  {
    hide Steady, Completes, Listen, Tracks, Fires, StoreAfter;
    LastSegment(events, e);
    SteadyRunIsGreedy(rule, events + [e], group);
  }

  lemma OneStageRule(rule: Rule)
    requires |rule.stages| == 1 && rule.stages[0].minCount == 1
    ensures Round(rule) == 1
    ensures forall p, log: Log :: Fits(rule, p, log) <==> rule.stages[0].condition(log)
  {
    assert Need(rule.stages, 1) == Need(rule.stages, 0) + 1;
  }
}
