/**
  Optimality among interleaved groups: with index slots for all of them, each
  group gets as many alerts as any choice of its own events makes rounds.
 */
module CorrelationOptimality {
  import opened Basics
  import opened Options
  import opened Correlation
  import opened CorrelationSafety
  import opened CorrelationGreedy
  import opened CorrelationIsolation

  /** How many of the outputs are alerts. */
  function AlertsAmong(outputs: seq<Option<Alert>>): nat {
    if |outputs| == 0 then 0
    else AlertsAmong(outputs[..|outputs| - 1]) + if outputs[|outputs| - 1].Some? then 1 else 0
  }

  lemma {:induction false} OnlyIsOneGroup(rule: Rule, events: seq<Event>, group: string)
    ensures forall i :: 0 <= i < |Only(rule, events, group)| ==> GroupAt(rule, Only(rule, events, group), i) == group
  {
    hide GroupKey;
    if |events| > 0 {
      OnlyIsOneGroup(rule, events[..|events| - 1], group);
      var own := Only(rule, events[..|events| - 1], group);
      forall i | 0 <= i < |own| ensures GroupKey(rule.groupBy, own[i].log) == group {
        assert GroupAt(rule, own, i) == group;
      }
    }
  }

  /** A stream of one group: its outputs are those of every evaluation. */
  lemma {:induction false} OutputsAreCounted(rule: Rule, events: seq<Event>, group: string)
    requires forall i :: 0 <= i < |events| ==> GroupAt(rule, events, i) == group
    ensures AlertsAmong(OutputsOf(rule, events, group)) == AlertsIn(rule, events)
  {
    hide GroupKey, Evaluate, StoreAfter;
    if |events| > 0 {
      var n := |events| - 1;
      forall i | 0 <= i < n ensures GroupAt(rule, events[..n], i) == group {
        assert GroupAt(rule, events, i) == group;
      }
      OutputsAreCounted(rule, events[..n], group);
      var outputs := OutputsOf(rule, events[..n], group);
      assert GroupAt(rule, events, n) == group;
      assert (outputs + [AlertAt(rule, events, n)])[..|outputs|] == outputs;
    }
  }

  /** Each group has a slot and a fingerprint to itself. */
  ghost predicate RoomForEach(rule: Rule, events: seq<Event>, group: string) {
    && Ordered(events) && |Groups(rule, events)| < rule.maxActiveGroups
    && forall g :: g in Groups(rule, events) && g != group ==> rule.fingerprint(g) != rule.fingerprint(group)
  }

  /** Then the group's own events get the alerts they would get alone, and all of them are heard. */
  lemma ServedAsAlone(rule: Rule, events: seq<Event>, group: string)
    requires rule.stages != [] && RoomForEach(rule, events, group) && Steady(rule, Only(rule, events, group), group)
    ensures var own := Only(rule, events, group);
            && AlertsAmong(OutputsOf(rule, events, group)) == AlertsIn(rule, own)
            && HasRoom(rule, own) && Heard(rule, own) == own
  {
    hide Evaluate, StoreAfter, AlertsIn, AlertsAmong, OutputsOf, Listen, Heard, IsPrompt, GroupKey, OpensWell;
    var own := Only(rule, events, group);
    GroupsDoNotInterfere(rule, events, group, if |events| == 0 then 0 else events[|events| - 1].now);
    OnlyIsOneGroup(rule, events, group);
    OutputsAreCounted(rule, own, group);
    RoomForAll(rule, events, group);
    AllHeardExactlyWhen(rule, own);
  }

  /** In any interleaving of fewer groups than slots, a calm group's alerts are the most that its own events allow. */
  lemma InterleavedGroupsAreOptimal(rule: Rule, events: seq<Event>, group: string, k: nat)
    requires rule.stages != [] && RoomForEach(rule, events, group) && Calm(rule, Only(rule, events, group), group)
    ensures HasRounds(rule, Only(rule, events, group), k) <==> k <= AlertsAmong(OutputsOf(rule, events, group))
  {
    hide RoomForEach, HasRounds, AlertsIn, AlertsAmong, OutputsOf, Steady, HasRoom, Heard;
    ServedAsAlone(rule, events, group);
    CalmRunIsOptimal(rule, Only(rule, events, group), group, k);
  }

  /** A steady group's are the most within its segments, and its segments make up all of its events. */
  lemma InterleavedSegmentsAreOptimal(rule: Rule, events: seq<Event>, group: string, k: nat)
    requires rule.stages != [] && RoomForEach(rule, events, group) && Steady(rule, Only(rule, events, group), group)
    ensures var segments := Segments(rule, Only(rule, events, group));
            && Concat(segments) == Only(rule, events, group)
            && (HasRoundsInSegments(rule, segments, k) <==> k <= AlertsAmong(OutputsOf(rule, events, group)))
  {
    hide RoomForEach, HasRoundsInSegments, AlertsIn, AlertsAmong, OutputsOf, Steady, HasRoom, Heard, Segments;
    ServedAsAlone(rule, events, group);
    AlertsAreMostInSegments(rule, Only(rule, events, group), group, k);
  }

  lemma RoomForAll(rule: Rule, events: seq<Event>, group: string)
    requires rule.stages != [] && group != "" && |Groups(rule, events)| < rule.maxActiveGroups
    ensures HasRoom(rule, Only(rule, events, group))
  {
    hide GroupKey;
    if Only(rule, events, group) != [] {
      OwnGroupIsCounted(rule, events, group);
      SubsetIsNoLarger({group}, Groups(rule, events));
    }
  }

  lemma {:induction false} OwnGroupIsCounted(rule: Rule, events: seq<Event>, group: string)
    requires group != "" && Only(rule, events, group) != []
    ensures group in Groups(rule, events)
  {
    hide GroupKey;
    var n := |events| - 1;
    if Only(rule, events[..n], group) != [] {
      OwnGroupIsCounted(rule, events[..n], group);
    }
  }
}
