/**
  Every alert of a correlation rule is backed by the group's own events: the
  stages' blocks, in arrival order, close together in time, used for nothing else.
 */
module CorrelationSoundness {
  import opened Basics
  import opened Correlation
  import opened CorrelationSafety

  // ---------- Slots ----------

  /** How many matches the first `i` stages take together. */
  function Need(stages: seq<Stage>, i: nat): (n: nat)
    requires i <= |stages|
    ensures i <= n
  {
    if i == 0 then 0 else Need(stages, i - 1) + Count(stages[i - 1])
  }

  lemma {:induction false} NeedGrows(stages: seq<Stage>, i: nat, j: nat)
    requires i < j <= |stages|
    ensures Need(stages, i) + Count(stages[i]) == Need(stages, i + 1) <= Need(stages, j)
  {
    if i + 1 < j {
      NeedGrows(stages, i, j - 1);
    }
  }

  /** The stage, among the first `i`, that the match number `p` belongs to. */
  function StageOf(stages: seq<Stage>, i: nat, p: nat): (r: nat)
    requires i <= |stages| && p < Need(stages, i)
    ensures r < i && Need(stages, r) <= p < Need(stages, r + 1)
  {
    if p >= Need(stages, i - 1) then i - 1 else StageOf(stages, i - 1, p)
  }

  /** Whether a log can serve as match number `p` of the rule. */
  predicate Accepts(rule: Rule, p: nat, log: Log) {
    && p < Need(rule.stages, |rule.stages|)
    && rule.stages[StageOf(rule.stages, |rule.stages|, p)].condition(log)
  }

  lemma AcceptsInStage(rule: Rule, i: nat, p: nat, log: Log)
    requires i < |rule.stages| && Need(rule.stages, i) <= p < Need(rule.stages, i + 1)
    ensures Accepts(rule, p, log) <==> rule.stages[i].condition(log)
  {
    NeedGrows(rule.stages, i, |rule.stages|);
    var r := StageOf(rule.stages, |rule.stages|, p);
    if r < i {
      NeedGrows(rule.stages, r, i);
    } else if i < r {
      NeedGrows(rule.stages, i, r);
    }
  }

  /** The matches a state has collected since its window opened. */
  function Progress(rule: Rule, st: State): nat
    requires st.stageIdx <= |rule.stages|
  {
    Need(rule.stages, st.stageIdx) + st.eventsInStage
  }

  /** A match moves progress up by one, and completes the rule at the full count. */
  lemma MatchIsProgress(rule: Rule, st: State, log: Log)
    requires SaneState(rule, st)
    ensures var (st1, complete) := MatchStage(rule, st, log);
            && st1.stageIdx <= |rule.stages|
            && Progress(rule, st1) == Progress(rule, st) + (if Accepts(rule, Progress(rule, st), log) then 1 else 0)
            && (complete <==>
                  Accepts(rule, Progress(rule, st), log) && Progress(rule, st1) == Need(rule.stages, |rule.stages|))
    ensures st.stageIdx < |rule.stages| ==>
              (Accepts(rule, Progress(rule, st), log) <==> rule.stages[st.stageIdx].condition(log))
  {
    if st.stageIdx < |rule.stages| {
      AcceptsInStage(rule, st.stageIdx, Progress(rule, st), log);
      if st.stageIdx + 1 < |rule.stages| {
        NeedGrows(rule.stages, st.stageIdx + 1, |rule.stages|);
      }
    }
  }

  // ---------- What a run looks like from outside ----------

  /** One evaluation, seen from outside: the log's group, the log, and whether it raised an alert. */
  datatype Step = Step(group: string, log: Log, fired: bool)

  ghost function Trace(rule: Rule, events: seq<Event>): (trace: seq<Step>)
    ensures |trace| == |events|
  {
    if |events| == 0 then []
    else
      var n := |events| - 1;
      Trace(rule, events[..n]) + [Step(GroupAt(rule, events, n), events[n].log, Fires(rule, events, n))]
  }

  lemma {:induction false} TraceAt(rule: Rule, events: seq<Event>, n: nat)
    requires n < |events|
    ensures Trace(rule, events)[n] == Step(GroupAt(rule, events, n), events[n].log, Fires(rule, events, n))
  {
    hide Evaluate, StoreAfter, GroupKey;
    var m := |events| - 1;
    if n < m {
      TraceAt(rule, events[..m], n);
      assert events[..m][..n] == events[..n];
    }
  }

  lemma {:induction false} TraceOfPrefix(rule: Rule, events: seq<Event>, n: nat)
    requires n <= |events|
    ensures Trace(rule, events[..n]) == Trace(rule, events)[..n]
  {
    if n < |events| {
      TraceOfPrefix(rule, events[..|events| - 1], n);
      assert events[..|events| - 1][..n] == events[..n];
    } else {
      assert events[..n] == events;
    }
  }

  // ---------- Evidence ----------

  /** The positions are distinct steps of the group, in arrival order, with times between `lo` and `hi`. */
  ghost predicate InGroup(trace: seq<Step>, group: string, pos: seq<nat>, lo: int, hi: int) {
    && (forall i, j :: 0 <= i < j < |pos| ==> pos[i] < pos[j])
    && (forall i :: 0 <= i < |pos| ==>
          pos[i] < |trace| && trace[pos[i]].group == group && lo <= trace[pos[i]].log.timestamp <= hi)
  }

  /** The positions' times lie in one stretch as long as window and lateness allow. */
  ghost predicate Within(rule: Rule, trace: seq<Step>, group: string, pos: seq<nat>, lo: int) {
    InGroup(trace, group, pos, lo, lo + rule.Span() + rule.Lateness())
  }

  /** The positions serve as the rule's first matches, one after the other. */
  ghost predicate FillsStages(rule: Rule, trace: seq<Step>, pos: seq<nat>) {
    forall i :: 0 <= i < |pos| ==> pos[i] < |trace| && Accepts(rule, i, trace[pos[i]].log)
  }

  /** The group raised no alert from the first of the positions on, before step `n`. */
  ghost predicate NoAlertSince(trace: seq<Step>, group: string, pos: seq<nat>, n: nat)
    requires n <= |trace|
  {
    |pos| > 0 ==> forall m :: pos[0] <= m < n && trace[m].group == group ==> !trace[m].fired
  }

  /** What backs a stored state: one step for each match it has counted. */
  ghost predicate Backs(rule: Rule, trace: seq<Step>, st: State, pos: seq<nat>)
    requires st.stageIdx <= |rule.stages|
  {
    && InGroup(trace, st.groupKey, pos, st.windowStart - rule.Lateness(), st.maxTs)
    && |pos| == Progress(rule, st)
    && FillsStages(rule, trace, pos)
    && NoAlertSince(trace, st.groupKey, pos, |trace|)
  }

  ghost predicate Backed(rule: Rule, trace: seq<Step>, st: State) {
    st.stageIdx <= |rule.stages| && exists pos: seq<nat> :: Backs(rule, trace, st, pos)
  }

  ghost predicate StoreBacked(rule: Rule, trace: seq<Step>, s: Store) {
    forall k :: k in s.states ==> Backed(rule, trace, s.states[k].state)
  }

  /**
    What backs an alert at step `n`: a full set of matches that ends with step
    n itself, within the span that window and lateness allow, and with no other
    alert of the group since its first step.
   */
  ghost predicate BacksAlert(rule: Rule, trace: seq<Step>, n: nat, pos: seq<nat>)
    requires n < |trace|
  {
    && (exists lo :: Within(rule, trace, trace[n].group, pos, lo))
    && |pos| == Need(rule.stages, |rule.stages|) > 0
    && pos[|pos| - 1] == n
    && FillsStages(rule, trace, pos)
    && NoAlertSince(trace, trace[n].group, pos, n)
  }

  ghost predicate HasEvidence(rule: Rule, trace: seq<Step>, n: nat)
    requires n < |trace|
  {
    exists pos: seq<nat> :: BacksAlert(rule, trace, n, pos)
  }

  /** Block `k` of the evidence: exactly as many steps as stage `k` asks for, all satisfying its condition. */
  ghost predicate IsBlock(rule: Rule, trace: seq<Step>, pos: seq<nat>, k: nat)
    requires k < |rule.stages|
  {
    && Need(rule.stages, k) <= Need(rule.stages, k + 1) <= |pos|
    && var block := pos[Need(rule.stages, k)..Need(rule.stages, k + 1)];
    && |block| == Max(1, rule.stages[k].minCount)
    && forall i :: 0 <= i < |block| ==> block[i] < |trace| && rule.stages[k].condition(trace[block[i]].log)
  }

  // ---------- One step ----------

  /** Evidence is still evidence after one more step, if that raises no alert of the group. */
  lemma BackedExtends(rule: Rule, trace: seq<Step>, step: Step, st: State)
    requires Backed(rule, trace, st)
    requires step.group == st.groupKey ==> !step.fired
    ensures Backed(rule, trace + [step], st)
  {
    var pos: seq<nat> :| Backs(rule, trace, st, pos);
    assert Backs(rule, trace + [step], st, pos);
  }

  /** A freshly reset state needs no evidence. */
  lemma ResetIsBacked(rule: Rule, trace: seq<Step>, group: string, ts: EventTime)
    ensures Backed(rule, trace, ResetState(group, ts))
  {
    assert Backs(rule, trace, ResetState(group, ts), []);
  }

  /** Taking the time in keeps what backs the state, or resets it to need nothing. */
  lemma AdvanceIsBacked(rule: Rule, trace: seq<Step>, st: State, ts: EventTime)
    requires Backed(rule, trace, st)
    ensures Backed(rule, trace, Advance(rule, st, st.groupKey, ts))
  {
    var st1 := Advance(rule, st, st.groupKey, ts);
    if st1 == ResetState(st.groupKey, ts) {
      ResetIsBacked(rule, trace, st.groupKey, ts);
    } else {
      var pos: seq<nat> :| Backs(rule, trace, st, pos);
      assert Backs(rule, trace, st1, pos);
    }
  }

  /** What an admitted event does to its own group's evidence. */
  lemma MatchIsBacked(rule: Rule, trace: seq<Step>, step: Step, st: State)
    requires step.group == st.groupKey && step.log.timestamp == st.lastTs
    requires SaneState(rule, st) && Backed(rule, trace, st)
    ensures var (st1, complete) := MatchStage(rule, st, step.log);
            && (complete ==> HasEvidence(rule, trace + [step], |trace|))
            && (!complete && !step.fired ==> Backed(rule, trace + [step], st1))
  {
    MatchIsProgress(rule, st, step.log);
    MatchIsSane(rule, st, step.log);
    hide MatchStage, Accepts, Need, SaneState;
    var (st1, complete) := MatchStage(rule, st, step.log);
    if Accepts(rule, Progress(rule, st), step.log) {
      var pos: seq<nat> :| Backs(rule, trace, st, pos);
      var pos': seq<nat> := pos + [|trace|];
      assert InGroup(trace + [step], st.groupKey, pos', st.windowStart - rule.Lateness(), st.maxTs);
      assert FillsStages(rule, trace + [step], pos');
      if complete {
        assert Within(rule, trace + [step], st.groupKey, pos', st.windowStart - rule.Lateness());
        assert BacksAlert(rule, trace + [step], |trace|, pos');
      } else if !step.fired {
        assert Backs(rule, trace + [step], st1, pos');
      }
    } else if !step.fired {
      BackedExtends(rule, trace, step, st);
    }
  }

  /** The state that reaches the stages is backed, like the store it came from. */
  lemma ArrivingIsBacked(rule: Rule, trace: seq<Step>, s: Store, log: Log, now: int)
    requires StoreBacked(rule, trace, s)
    ensures var st := Arriving(rule, s, log, now);
            st.Some? ==> Backed(rule, trace, st.value)
  {
    hide GroupKey, Advance;
    var group := GroupKey(rule.groupBy, log);
    ResetIsBacked(rule, trace, group, log.timestamp);
    var st := LoadState(Sweep(s, now), rule.fingerprint(group), group, log.timestamp);
    AdvanceIsBacked(rule, trace, st, log.timestamp);
  }

  lemma StepIsBacked(rule: Rule, trace: seq<Step>, step: Step, s: Store, now: int)
    requires SaneStore(rule, s) && StoreBacked(rule, trace, s)
    requires step.group == GroupKey(rule.groupBy, step.log)
    requires step.fired == Evaluate(rule, s, step.log, now).alert.Some?
    ensures StoreBacked(rule, trace + [step], Evaluate(rule, s, step.log, now).store)
    ensures step.fired ==> HasEvidence(rule, trace + [step], |trace|)
  {
    hide Evaluate, GroupKey, Arriving, MatchStage;
    EvaluateCases(rule, s, step.log, now);
    ArrivingIsSane(rule, s, step.log, now);
    ArrivingIsBacked(rule, trace, s, step.log, now);
    var arriving := Arriving(rule, s, step.log, now);
    if arriving.Some? {
      MatchIsBacked(rule, trace, step, arriving.value);
    }
    var s' := Evaluate(rule, s, step.log, now).store;
    forall k | k in s'.states ensures Backed(rule, trace + [step], s'.states[k].state) {
      if k in s.states && s'.states[k] == s.states[k] {
        BackedExtends(rule, trace, step, s.states[k].state);
      }
    }
  }

  // ---------- Whole runs ----------

  lemma {:induction false} RunIsBacked(rule: Rule, events: seq<Event>)
    ensures StoreBacked(rule, Trace(rule, events), StoreAfter(rule, events))
    ensures |events| > 0 && Trace(rule, events)[|events| - 1].fired ==>
              HasEvidence(rule, Trace(rule, events), |events| - 1)
  {
    hide Evaluate, GroupKey;
    if |events| > 0 {
      var n := |events| - 1;
      RunIsBacked(rule, events[..n]);
      PersistedStatesAreSane(rule, events[..n]);
      var step := Step(GroupAt(rule, events, n), events[n].log, Fires(rule, events, n));
      StepIsBacked(rule, Trace(rule, events[..n]), step, StoreAfter(rule, events[..n]), events[n].now);
    }
  }

  /** In any run, with any interleaving, eviction, expiry or fingerprint collision, an alert has its evidence. */
  lemma AlertsAreSound(rule: Rule, events: seq<Event>, n: nat)
    requires n < |events| && Fires(rule, events, n)
    ensures HasEvidence(rule, Trace(rule, events), n)
  {
    hide Evaluate, StoreAfter, GroupKey;
    var run := events[..n + 1];
    RunIsBacked(rule, run);
    TraceOfPrefix(rule, events, n + 1);
    TraceAt(rule, events, n);
    var pos: seq<nat> :| BacksAlert(rule, Trace(rule, run), n, pos);
    var lo :| Within(rule, Trace(rule, run), Trace(rule, run)[n].group, pos, lo);
    assert Within(rule, Trace(rule, events), Trace(rule, events)[n].group, pos, lo);
    assert BacksAlert(rule, Trace(rule, events), n, pos);
  }

  /**
    The two numbers of the guarantee, for a window that fits a signed integer:
    exact block sizes, and a span of W + 2L.
   */
  lemma EvidenceIsTight(rule: Rule, trace: seq<Step>, n: nat, pos: seq<nat>)
    requires n < |trace| && BacksAlert(rule, trace, n, pos) && rule.Window() >= 0
    ensures forall i, j :: 0 <= i < |pos| && 0 <= j < |pos| ==>
              trace[pos[i]].log.timestamp - trace[pos[j]].log.timestamp <= rule.windowSeconds + 2 * rule.Lateness()
    ensures forall k :: 0 <= k < |rule.stages| ==> IsBlock(rule, trace, pos, k)
  {
    forall k | 0 <= k < |rule.stages| ensures IsBlock(rule, trace, pos, k) {
      NeedGrows(rule.stages, k, |rule.stages|);
      var block := pos[Need(rule.stages, k)..Need(rule.stages, k + 1)];
      forall i | 0 <= i < |block| ensures block[i] < |trace| && rule.stages[k].condition(trace[block[i]].log) {
        var p := Need(rule.stages, k) + i;
        AcceptsInStage(rule, k, p, trace[pos[p]].log);
      }
    }
  }

  /** Two alerts of one group share no event. */
  lemma AlertsShareNoEvent(rule: Rule, trace: seq<Step>, m: nat, n: nat, p: seq<nat>, q: seq<nat>)
    requires m < n < |trace| && trace[m].group == trace[n].group && trace[m].fired
    requires BacksAlert(rule, trace, m, p) && BacksAlert(rule, trace, n, q)
    ensures forall i, j :: 0 <= i < |p| && 0 <= j < |q| ==> p[i] < q[j]
  {
    assert q[0] > m;
  }
}
