# Verified models of the SIEM pipeline

This project models the stateful algorithms of the mini-SIEM backend (Rust) and of
its log-shipping agent (Go), and proves what they promise over every input and every run.
`dafny verify dfyconfig.toml` checks all of it.

Each area has a *specification* (functions that say what one step does to a store, a table
or a queue), the *imperative form* of the source (classes and loops) proved equal to it, and
*theorems over whole runs* about the specification.

- **Correlation rules** (`Correlation*.dfy`): a multi-stage automaton per group in event time,
  with watermark, window reset, expiring state, and a bounded index of active groups with
  eviction. `CorrelationSoundness` shows that every alert is backed by events, `CorrelationGreedy` that
  the one-pass automaton raises as many alerts, as early, as any choice of events within each window allows,
  `CorrelationIsolation` that groups do not interfere, `CorrelationOptimality` both together,
  `CorrelationSafety` the state and index invariants, and where they fail.
- **Alert batching and deduplication** (`Fingerprint`, `Alerts`, `AlertTable`, `AlertBatcher`,
  `AlertRuns`): text normalisation, merging, the flush into a table with a 32-bit count column,
  and the batcher's loop.
- **Rate limiters** (`TokenBucket`, `RedisLimiters`, `RateLimiting`): the per-address token buckets with
  idle collection, the two shared limiters that run as scripts in the key-value store, and what an
  address gets through both.
- **Audit chain** (`AuditJson`, `AuditChain`, `AuditForks`): the bytes that are hashed, the per-tenant
  hash chain, retention purges, and when the chain forks.
- **Refresh tokens** (`RefreshTokens`): token keys with the per-user index they are revoked through.
- **Detection dispatch** (`Dispatch`): queue, dispatcher, worker mailboxes.
- **Agent** (`AgentQueue`, `AgentShipper`): the bounded queue and the retrying shipper.

Conventions. Time is a whole number; a key of the key-value store can be seen as long as now is not
past its expiry, and giving it no time to live deletes it. One evaluation, script, flush or
handler is one step. Hashes are arbitrary functions; what a theorem needs of
them (different messages, different hashes) is in its `requires`, and only for the messages at hand.
Machine widths are written out where they show: the casts of the
window and of the counts, saturating subtraction, wrapping counters.

## What the proofs found

Where the code does less than it seems meant to, the model keeps the code as it is and
proves exactly when it does what is meant:

- A correlation group that already holds state can look new, and then pushes out another live
  group (`StoredGroupEvictsAnother`, `EvictsAnotherExactlyWhen`).
- Under drop-newest the index can outgrow its bound: the dropped event unindexes a group that
  keeps its state (`DropNewestExceedsTheBound`, `DropNewestExceedsExactlyWhen`).
- A window begins at a group's first event even if that is no match of any stage, so two matches closer than the
  window can fall into two windows; without the idle event there is an alert (`IdleEventOpensWindow`).
- Under drop-newest with one slot, an event that shares its second with the one that began its group's
  state, before any match, is refused, and a match can be lost with it (`RefusedMatchIsMissed`,
  `AllHeardExactlyWhen`); with no slots the rule never fires (`NoSlotsNeverFire`).
- A window of 2^63 seconds or more is negative after its cast. If its sum with the lateness is negative too,
  every event resets the window and a rule that needs two matches never fires
  (`WrappedWindowNeverCorrelates`). Which rules reset a window, or take the newest time back, on an event that
  is not the newest is settled for all of them (`WindowMovesOnlyForward`, `NewestTimeIsKeptExactlyWhen`).
- How the batcher cuts what it receives shows in the table only if a key without an open row is met
  again after a first alert that arrived closed (`BatchingIsTransparentExactlyWhen`); counts are lost only when one
  passes the signed 32-bit column (`FlushAddsCounts`, `CountWraps`).
- The sliding window limiter counts distinct milliseconds: with a limit above one, calls that share one
  are all let through (`AdmissionsAreLimitedExactlyWhen`). Behind an address's own bucket this shows again: with
  a limit above one, any number of logs in one millisecond gets through both (`FloodIsAdmitted`); calls that
  share no millisecond keep to a bound (`DistinctCallsKeepTheBound`).
- The fixed window limiter renews its expiry at every admission, so it limits unbroken streaks of
  admissions (`FixedWindowCountsTheStreak`); a window of no length limits nothing
  (`CostIsLimitedExactlyWhen`).
- With a limit of zero an address's own bucket still holds one token and lets a log through (`BoundIsMet`).
- An audit event that is not later than the latest one forks its tenant's chain, as soon as another event follows
  (`ForksExactlyWhenNotLater`, `RunIsLinkedExactlyWhen`, `EarlierEventForks`); a purge that empties a tenant starts a
  second chain (`HistoryIsOneChainExactlyWhen`, `EmptyingPurgeStartsAgain`).
- A refresh token with a shorter life than an earlier one of the same user cuts short the index, and the earlier one
  escapes revocation (`StoreKeepsIndexExactlyWhen`, `ShorterTokenEscapesRevocation`).
- The agent's retry waits for room in a queue that only the waiting shipper empties: it can end exactly when the
  whole remainder fits (`RetryCanEndExactlyWhen`), and there are runs in which it does not
  (`RetryCanWaitForever`).

## Model

| member | source | states |
|---|---|---|
| Correlation.OldestExists | mini-siem/backend/src/detection/rules/correlation.rs:185 | a nonempty index always has a member to pop: the lowest score, ties by member |
| Correlation.CorrelationRule.EvaluateLog | mini-siem/backend/src/detection/rules/correlation.rs:232-319 | the step-by-step evaluation leaves the store, and returns the alert, that the specification of one evaluation gives |
| Correlation.CorrelationRule.EvictGroupIfNeeded | mini-siem/backend/src/detection/rules/correlation.rs:177-199 | makes room by the policy: nothing below the cap, the oldest group and its state under oldest-first, a refusal under drop-newest |
| Correlation.CorrelationRule.PopOldest | mini-siem/backend/src/detection/rules/correlation.rs:185 | removes from the index the member the order makes first, and no other |
| Correlation.CorrelationRule.Persist | mini-siem/backend/src/detection/rules/correlation.rs:201-210 | state, index score and both expiries are written together |
| Correlation.CorrelationRule.Load | mini-siem/backend/src/detection/rules/correlation.rs:165-175 | the stored state if it is this group's, else a fresh one, so a fingerprint collision never mixes groups |
| Correlation.CorrelationRule.AdvanceWindow | mini-siem/backend/src/detection/rules/correlation.rs:256-266 | the newest time is taken in and the window reopened once the watermark has left it |
| Correlation.CorrelationRule.MatchCurrentStage | mini-siem/backend/src/detection/rules/correlation.rs:277-313 | the counter and stage logic gives the specified next state and completion |
| CorrelationSafety.WindowTestIsExact | mini-siem/backend/src/detection/rules/correlation.rs:149-152 | for a window that fits a signed integer, saturation never changes the stale or the window test and the signed difference never overflows |
| CorrelationSafety.MatchIsSane | mini-siem/backend/src/detection/rules/correlation.rs:277-313 | a match never overflows the stage counter and leaves stage index and count in range unless the rule completes |
| CorrelationSafety.PersistedStatesAreSane | mini-siem/backend/src/detection/rules/correlation.rs:232-319 | in every run each stored state has window start <= newest time <= window start + W + L, a last time within the lateness, stage and count in range, and sits under its own group's fingerprint |
| CorrelationSafety.WindowMovesOnlyForward | mini-siem/backend/src/detection/rules/correlation.rs:256-266 | a window resets only on an event that strictly advances the newest time, if and only if cast window plus lateness is not negative and the saturating subtraction cannot tip the balance |
| CorrelationSafety.NewestTimeIsKeptExactlyWhen | mini-siem/backend/src/detection/rules/correlation.rs:256-266 | no accepted event takes a group's newest time back, if and only if there is no lateness or the same balance holds, one second apart at the saturated end |
| CorrelationSafety.WatermarkNeverMovesBack | mini-siem/backend/src/detection/rules/correlation.rs:244-266 | for those rules, while a group's state survives an evaluation of any run, its newest time does not decrease |
| CorrelationSafety.WrappedWindowNeverCorrelates | mini-siem/backend/src/detection/rules/correlation.rs:264-266 | with a window whose cast is below minus the lateness, no rule that needs two matches ever fires |
| CorrelationSafety.IndexStaysBounded | mini-siem/backend/src/detection/rules/correlation.rs:177-211 | under oldest-first, in every run whose store times do not go back, each stored state is indexed under its last event time, the index outlives every state, and it has at most max(1, cap) members |
| CorrelationSafety.StoredGroupsAreBounded | mini-siem/backend/src/detection/rules/correlation.rs:268-275 | so in such a run at most max(1, cap) groups hold state |
| CorrelationSafety.EvictsAnotherExactlyWhen | mini-siem/backend/src/detection/rules/correlation.rs:268-275 | a live group is removed by another's event if and only if that event's state looks new, the index is full, and the live group is the oldest |
| CorrelationSafety.StoredGroupEvictsAnother | mini-siem/backend/src/detection/rules/correlation.rs:268-275 | a run in which a second event of a stored group pushes out another live group |
| CorrelationSafety.DropNewestExceedsTheBound | mini-siem/backend/src/detection/rules/correlation.rs:193-197 | a run of four events after which a one-slot index has two members |
| CorrelationSafety.DropNewestExceedsExactlyWhen | mini-siem/backend/src/detection/rules/correlation.rs:193-197 | under drop-newest an evaluation breaks the bound if and only if it persists an unindexed group that does not look new while the index is full |
| CorrelationSoundness.MatchIsProgress | mini-siem/backend/src/detection/rules/correlation.rs:277-313 | stage and count together count matches one by one, and the rule completes exactly at the full count |
| CorrelationSoundness.RunIsBacked | mini-siem/backend/src/detection/rules/correlation.rs:232-319 | in every run each stored state is backed by as many of its group's own steps as it has counted, in order, in its window, since the group's last alert |
| CorrelationSoundness.AlertsAreSound | mini-siem/backend/src/detection/rules/correlation.rs:232-319 | in any run, with any interleaving, eviction, expiry or collision, an alert has a full set of matches among its group's own steps, ending with the alert's event |
| CorrelationSoundness.EvidenceIsTight | mini-siem/backend/src/detection/rules/correlation.rs:277-313 | that evidence is consecutive blocks, block i with exactly max(1, min_count) events satisfying stage i, any two events at most W + 2L apart |
| CorrelationSoundness.AlertsShareNoEvent | mini-siem/backend/src/detection/rules/correlation.rs:290-309 | the evidence of two alerts of one group is disjoint, and in order |
| CorrelationGreedy.GreedyIsBest | mini-siem/backend/src/detection/rules/correlation.rs:277-316 | over a whole stream, the stages starting over after every round, no choice of events makes more matches than taking each event that fits |
| CorrelationGreedy.GreedyDecides | mini-siem/backend/src/detection/rules/correlation.rs:277-316 | some choice of events makes `p` matches if and only if the greedy count reaches `p` |
| CorrelationGreedy.RoundsAreFull | mini-siem/backend/src/detection/rules/correlation.rs:277-309 | each round of such a choice serves every stage from the first on |
| CorrelationGreedy.SteadyRunIsGreedy | mini-siem/backend/src/detection/rules/correlation.rs:232-319 | on one in-order group of any length, prompt enough not to expire, the store holds exactly the state, index entry and expiry that listening predicts, and the run fires exactly on the events that complete a round of the matches heard since the window was last left |
| CorrelationGreedy.SegmentsAreHeard | mini-siem/backend/src/detection/rules/correlation.rs:256-266 | cut wherever the watermark leaves a stored window, the segments are, one after the other, all the events that are heard |
| CorrelationGreedy.AlertsAreSummed | mini-siem/backend/src/detection/rules/correlation.rs:232-319 | on such a stream the number of alerts is the sum, over the segments, of the most full rounds each allows |
| CorrelationGreedy.AlertsAreMostInSegments | mini-siem/backend/src/detection/rules/correlation.rs:232-319 | and so `k` full rounds can be chosen among the heard events, none reaching over the end of a segment, if and only if there are at least `k` alerts |
| CorrelationGreedy.CalmIsOneSegment | mini-siem/backend/src/detection/rules/correlation.rs:256-266 | an in-order stream no longer than W + L never leaves a window: it is one segment |
| CorrelationGreedy.AlertsAreMost | mini-siem/backend/src/detection/rules/correlation.rs:277-316 | on a stream no longer than W + L the number of alerts is the largest number of disjoint full rounds, one after the other, that any choice of the heard events makes |
| CorrelationGreedy.AllHeardExactlyWhen | mini-siem/backend/src/detection/rules/correlation.rs:268-275 | every event of an in-order stream is heard if and only if there is room: by oldest-first, by two slots, or by one slot when no stored window is left and each event that begins a state is a match or the next has another time |
| CorrelationGreedy.CalmRunIsOptimal | mini-siem/backend/src/detection/rules/correlation.rs:232-319 | a run no longer than W + L never raises more alerts than some choice of all its events makes rounds, and with room it raises just as many |
| CorrelationGreedy.FirstAlertIsEarliest | mini-siem/backend/src/detection/rules/correlation.rs:277-316 | on any in-order stream no longer than W + L the first alert is at event n if and only if the heard events up to n make a full round and those before n do not |
| CorrelationGreedy.NoSlotsNeverFire | mini-siem/backend/src/detection/rules/correlation.rs:193-197 | a drop-newest rule with no slots stores nothing and never fires, in any run of any groups |
| CorrelationGreedy.RefusedMatchIsMissed | mini-siem/backend/src/detection/rules/correlation.rs:268-275 | a calm stream of two events that completes a one-slot drop-newest rule and raises no alert |
| CorrelationGreedy.IdleEventOpensWindow | mini-siem/backend/src/detection/rules/correlation.rs:154-163 | with a window of 100 seconds, an event of no stage at 0, a first match at 60 and a second at 140 raise no alert; without the first event they do |
| CorrelationIsolation.OthersUntouched | mini-siem/backend/src/detection/rules/correlation.rs:177-211 | with room in the index, an evaluation leaves every other group's entry as it was |
| CorrelationIsolation.StepIsLocal | mini-siem/backend/src/detection/rules/correlation.rs:232-319 | with room in the index, output and own entry depend on the group's own entry alone |
| CorrelationIsolation.GroupsDoNotInterfere | mini-siem/backend/src/detection/rules/correlation.rs:232-319 | in any run of fewer groups than the cap, each group with a fingerprint of its own gets the outputs and the stored state that its own events alone would give |
| CorrelationOptimality.InterleavedGroupsAreOptimal | mini-siem/backend/src/detection/rules/correlation.rs:232-319 | in any interleaving of fewer groups than the cap, a group whose own events are in order, prompt and no longer than W + L gets as many alerts as any choice of its own events makes disjoint rounds |
| CorrelationOptimality.InterleavedSegmentsAreOptimal | mini-siem/backend/src/detection/rules/correlation.rs:232-319 | in such an interleaving the segments of an in-order, prompt group of any length make up all of its own events, and it gets as many alerts as rounds can be chosen within them |
| Fingerprint.NormalizeFingerprint | mini-siem/backend/src/alerting/db_batcher.rs:21-50 | the loop with its flags computes the specified normal form |
| Fingerprint.NormalizeIsTrimmedCollapse | mini-siem/backend/src/alerting/db_batcher.rs:26-49 | the flag-driven scan equals replacing each whole digit run and white-space run at once, then trimming |
| Fingerprint.NormalizeIsNormal | mini-siem/backend/src/alerting/db_batcher.rs:21-50 | the result has no ASCII digit, no ASCII capital, no white space but single inner blanks |
| Fingerprint.NormalFormsAreFixed | mini-siem/backend/src/alerting/db_batcher.rs:21-50 | a text is left alone if and only if it is in normal form |
| Fingerprint.NormalizeIsIdempotent | mini-siem/backend/src/alerting/db_batcher.rs:21-50 | normalising twice is normalising once |
| Fingerprint.WordsAreKept | mini-siem/backend/src/alerting/db_batcher.rs:21-50 | no character other than digits, white space and '#' is lost, so texts with different words stay different |
| Fingerprint.CaseIsIgnored | mini-siem/backend/src/alerting/db_batcher.rs:37 | texts that differ in ASCII case have one normal form |
| Fingerprint.DigitsAreIgnored | mini-siem/backend/src/alerting/db_batcher.rs:27-34 | any nonempty digit run may replace another, in any context |
| Fingerprint.SpacingIsIgnored | mini-siem/backend/src/alerting/db_batcher.rs:38-42 | any nonempty white-space run may replace another, in any context |
| Fingerprint.OuterSpacingIsIgnored | mini-siem/backend/src/alerting/db_batcher.rs:49 | white space around a text does not show |
| Alerts.MergeAlert | mini-siem/backend/src/alerting/db_batcher.rs:72-82 | the field-by-field merge computes the specified alert, the description test reading the advanced time |
| Alerts.MergeKeepsKey | mini-siem/backend/src/alerting/db_batcher.rs:58-82 | merging alerts of one key keeps the key, whichever description and time win |
| Alerts.MergeIsAssociative | mini-siem/backend/src/alerting/db_batcher.rs:72-82 | merging is associative in every field |
| Alerts.AggregateConcat | mini-siem/backend/src/alerting/db_batcher.rs:135-145 | aggregating a concatenation is joining the aggregates |
| Alerts.AggregateKeys | mini-siem/backend/src/alerting/db_batcher.rs:135-145 | every aggregated alert carries its key, and the id and status of an alert of the batch with that key |
| Alerts.AggregateKeepsTotal | mini-siem/backend/src/alerting/db_batcher.rs:135-145 | aggregating keeps the total count of events |
| AlertTable.OpenAfterFlush | mini-siem/backend/src/alerting/db_batcher.rs:155-183 | a key has an open row after a flush if and only if it had one or its alert is open |
| AlertTable.FlushKeepsOneOpen | mini-siem/backend/src/alerting/db_batcher.rs:132-186 | a flush keeps at most one open row per key |
| AlertTable.BatchBoundaryIsInvisible | mini-siem/backend/src/alerting/db_batcher.rs:132-186 | flushing two aggregates in turn leaves the rows of flushing them together, but for description, first-seen and created-at, if and only if no key met by both and without an open row starts out closed |
| AlertTable.FlushDisjoint | mini-siem/backend/src/alerting/db_batcher.rs:147-183 | flushing different keys one after the other is one flush, to the letter |
| AlertTable.FlushIgnoresProse | mini-siem/backend/src/db/postgres.rs:321 | tables that differ only in columns the conflict clause does not write stay so |
| AlertTable.CountsCompose | mini-siem/backend/src/db/postgres.rs:338 | a count that wrapped through the 32-bit column adds up as if it had not |
| AlertTable.FlushAddsCounts | mini-siem/backend/src/db/postgres.rs:294-338 | the table's total count grows by the batch's total if and only if no row passes the signed 32-bit column, and by less otherwise |
| AlertTable.CountWraps | mini-siem/backend/src/db/postgres.rs:294 | a row whose count is one past the column holds a negative count |
| AlertTable.DirtySplitDiffers | mini-siem/backend/src/db/postgres.rs:244 | a key that starts out closed gets a second row from the second flush, which one flush would not make |
| AlertBatcher.FlushedToIsFlush | mini-siem/backend/src/alerting/db_batcher.rs:155-183 | with one open row per key, merging into the most recent open rows and inserting the rest leaves exactly the table of the specified flush |
| AlertBatcher.AlertDb.GetOpenAlertsByIps | mini-siem/backend/src/db/postgres.rs:236-258 | all and only the tenant's open rows with the addresses, most recently seen first |
| AlertBatcher.AlertDb.CreateAlertsBatch | mini-siem/backend/src/db/postgres.rs:260-301 | inserts every alert as a row, in order |
| AlertBatcher.AlertDb.UpsertAlertsBatch | mini-siem/backend/src/db/postgres.rs:304-345 | inserts, or on a conflict of the id changes only the columns the clause names |
| AlertBatcher.IndexExisting | mini-siem/backend/src/alerting/db_batcher.rs:157-160 | every fetched key is indexed, and of its alerts the first is kept |
| AlertBatcher.FirstIsMostRecent | mini-siem/backend/src/db/postgres.rs:244-245 | and that is the key's most recently seen open row; a key has none if and only if it has no open row |
| AlertBatcher.Divide | mini-siem/backend/src/alerting/db_batcher.rs:162-172 | every alert is, once, either merged into its key's existing alert or created |
| AlertBatcher.DbBatcher.FlushTenant | mini-siem/backend/src/alerting/db_batcher.rs:147-183 | whatever the table, each key's alert goes into a most recent open row of the key, or else becomes a row, and nothing else changes |
| AlertBatcher.FlushesJoin | mini-siem/backend/src/alerting/db_batcher.rs:147-183 | on any table, flushes of different keys one after the other make one flush of both |
| AlertBatcher.DbBatcher.GroupByTenant | mini-siem/backend/src/alerting/db_batcher.rs:135-145 | the nested maps hold, by tenant, the aggregate of the buffer |
| AlertBatcher.DbBatcher.FlushBatch | mini-siem/backend/src/alerting/db_batcher.rs:132-186 | the buffer is emptied and, whatever the table and the order of tenants, each key of the aggregated buffer goes into a most recent open row or becomes a row and nothing else changes; with one open row per key the table is the specified flush |
| AlertBatcher.DbBatcher.Serve | mini-siem/backend/src/alerting/db_batcher.rs:99-127 | one turn of the loop, on any table, is the specified turn: full buffer, tick and shutdown flush |
| AlertRuns.BufferIsBounded | mini-siem/backend/src/alerting/db_batcher.rs:99-127 | between turns the buffer is below the batch size, and empty after the shutdown |
| AlertRuns.RunStands | mini-siem/backend/src/alerting/db_batcher.rs:99-127 | when each key met again without an open row starts open, then at every moment the table is, up to unwritten columns, a single flush of a first part of what was received, and the rest is buffered |
| AlertRuns.BatchingIsTransparent | mini-siem/backend/src/alerting/db_batcher.rs:86-130 | and after the shutdown as if everything received had been flushed at once, with one open row per key |
| AlertRuns.EveryCutIsInvisibleExactlyWhen | mini-siem/backend/src/alerting/db_batcher.rs:132-186 | wherever a batch is cut in two the table is the same, if and only if each key met again without an open row starts open |
| AlertRuns.BatchingIsTransparentExactlyWhen | mini-siem/backend/src/alerting/db_batcher.rs:86-130 | every batch size and every placing of ticks leaves the table of a single flush, if and only if each key met again without an open row starts open |
| AlertRuns.NoCountIsLost | mini-siem/backend/src/alerting/db_batcher.rs:86-130 | over such a run the counts grow by what was received if and only if no row passes the 32-bit column |
| TokenBucket.LocalRateLimitState.constructor | mini-siem/backend/src/queue/kafka.rs:41-53 | a new bucket is full, limit and window at least one |
| TokenBucket.LocalRateLimitState.RefillTokens | mini-siem/backend/src/queue/kafka.rs:59-67 | refills by the time passed, up to the capacity, never when time stands or goes back |
| TokenBucket.LocalRateLimitState.AllowOne | mini-siem/backend/src/queue/kafka.rs:69-83 | the specified answer and bucket |
| TokenBucket.LocalRateLimitState.Block | mini-siem/backend/src/queue/kafka.rs:85-89 | the specified blocked, empty bucket |
| TokenBucket.TokensStayInRange | mini-siem/backend/src/queue/kafka.rs:41-89 | tokens stay between none and the capacity over any run of any calls with any clocks |
| TokenBucket.GrantsAreBounded | mini-siem/backend/src/queue/kafka.rs:41-89 | calls timed from s to t, in any order, grant at most C + C * (t - s) / W |
| TokenBucket.LogConsumer.HandleLog | mini-siem/backend/src/queue/kafka.rs:346-377 | one log touches its address's bucket alone, made full if missing, and gives the specified verdict |
| TokenBucket.LogConsumer.Decide | mini-siem/backend/src/queue/kafka.rs:351-377 | own bucket first, then the shared limiter: its admission empties, its refusal blocks, its failure lets through |
| TokenBucket.LogConsumer.CleanUp | mini-siem/backend/src/queue/kafka.rs:336-340 | keeps exactly the buckets idle no longer than the expiry |
| TokenBucket.RecoveredActsNew | mini-siem/backend/src/queue/kafka.rs:349 | a bucket past its block and its refill answers as a new one would and leaves an equivalent bucket |
| TokenBucket.CollectionIsInvisible | mini-siem/backend/src/queue/kafka.rs:336-377 | with a clock that does not go back, dropping idle buckets and making them anew changes no verdict |
| TokenBucket.AddressIsLimited | mini-siem/backend/src/queue/kafka.rs:336-377 | with cleanups, blocks and shared answers in any mixture, one address's own bucket lets through at most C + C * (t - s) / W from s to t |
| RedisLimiters.RedisStore.AllowSlidingWindow | mini-siem/backend/src/db/redis.rs:141-174 | the script does the specified step on its key and touches no other |
| RedisLimiters.RedisStore.AllowFixedWindow | mini-siem/backend/src/db/redis.rs:176-201 | the script does the specified step on its key and touches no other |
| RedisLimiters.SlidingForgetsNothing | mini-siem/backend/src/db/redis.rs:149-157 | the answer is that of a limiter that never forgets an admission, so the key's expiry drops nothing the trim would keep |
| RedisLimiters.EveryWindowIsLimited | mini-siem/backend/src/db/redis.rs:149-157 | no interval (t - window, t] holds more than `limit` distinct admission times |
| RedisLimiters.RefusedExactlyWhenFull | mini-siem/backend/src/db/redis.rs:152-157 | a call is refused if and only if exactly `limit` distinct times remain |
| RedisLimiters.DistinctCallsAreLimited | mini-siem/backend/src/db/redis.rs:139-140 | calls at different milliseconds: no window holds more than `limit` admissions |
| RedisLimiters.AdmissionsAreLimitedExactlyWhen | mini-siem/backend/src/db/redis.rs:139-140 | every run keeps every window to `limit` admissions if and only if the window is empty or the limit at most one |
| RedisLimiters.FixedWindowCountsTheStreak | mini-siem/backend/src/db/redis.rs:183-189 | with a window of some length, the limiter admits if and only if the unbroken streak of admissions plus the cost is within the limit |
| RedisLimiters.StreaksAreLimited | mini-siem/backend/src/db/redis.rs:183-189 | with a window of some length, admissions with no gap longer than it cost at most `limit` in all |
| RedisLimiters.CostIsLimitedExactlyWhen | mini-siem/backend/src/db/redis.rs:183-189 | over any number of resets no interval as long as the window costs more than `limit`, if and only if the window has a length or the limit is zero |
| RateLimiting.ThroughIsShared | mini-siem/backend/src/queue/kafka.rs:351-377 | while the shared limiter answers, what an address gets through in a window, sampled logs aside, is what its own bucket grants and what the shared script admits |
| RateLimiting.DistinctCallsKeepTheBound | mini-siem/backend/src/queue/kafka.rs:336-377 | with cleanups, blocks and other addresses in any mixture, an address for which the shared limiter is never asked twice in one millisecond gets at most L + 2 * max(L, 1) - 1 logs through in any window |
| RateLimiting.AddressesAreKeptExactlyWhen | mini-siem/backend/src/queue/kafka.rs:351-354 | every run keeps every address to that bound in every window, if and only if the window is empty or the limit at most one |
| RateLimiting.FloodIsAdmitted | mini-siem/backend/src/queue/kafka.rs:351-358 | with a limit above one, any number of logs that share one millisecond gets through |
| RateLimiting.BoundIsMet | mini-siem/backend/src/queue/kafka.rs:41-53 | with a limit of at most one there is a run that meets the bound: one log for a limit of none, two for a limit of one |
| AuditJson.EncodeIsReadable | mini-siem/backend/src/utils/audit.rs:14 | no two JSON values, each followed by something that ends it, have the same bytes; numbers are any tokens of number characters |
| AuditJson.BytesTellPayload | mini-siem/backend/src/utils/audit.rs:26-49 | payloads with the same bytes are the same payload, field by field |
| AuditChain.MessageIsUnambiguous | mini-siem/backend/src/utils/audit.rs:9-16 | the previous hash and the payload can be told apart in the bytes that are hashed |
| AuditChain.AuditTable.LatestAuditHash | mini-siem/backend/src/db/postgres.rs:569-578 | the hash of the tenant's latest event |
| AuditChain.LatestIsLatest | mini-siem/backend/src/db/postgres.rs:571 | that event is the tenant's, and none of the tenant's is later by time and then id; there is none if and only if the tenant has no events |
| AuditChain.AuditTable.InsertAuditEvent | mini-siem/backend/src/db/postgres.rs:580-609 | the table gains the event at its end and is otherwise as it was |
| AuditChain.AuditTable.PurgeAuditEventsBefore | mini-siem/backend/src/db/postgres.rs:650-660 | exactly the tenant's events before the cutoff go, and their number is returned |
| AuditChain.RecordAuditView | mini-siem/backend/src/api/handlers/audit.rs:18-72 | the handler appends the next event of the viewer's chain, with the view's payload |
| AuditChain.ViewIsOnViewersChain | mini-siem/backend/src/api/handlers/audit.rs:24-65 | a view extends the viewer's tenant's chain, and the viewed tenant's if and only if it is the same, which the action tells |
| AuditChain.ViewTellsAll | mini-siem/backend/src/api/handlers/audit.rs:26-37 | the bytes recorded for a view tell the claims, the viewed tenant and the limit |
| AuditChain.PurgeLeavesLinked | mini-siem/backend/src/db/postgres.rs:650-660 | a retention purge leaves the end of the chain, linked |
| AuditChain.TenantsStayLinked | mini-siem/backend/src/api/handlers/audit.rs:39-70 | over any appends and purges of all tenants, a tenant whose events go up in time and id has one linked chain stored, the last of all ever written |
| AuditChain.HistoryIsOneChainExactlyWhen | mini-siem/backend/src/api/handlers/audit.rs:39-70 | all events ever written for a tenant are one complete chain if and only if no append came after a purge that left none |
| AuditChain.ForksExactlyWhenNotLater | mini-siem/backend/src/db/postgres.rs:571 | the event after next links to the next if that became the latest, and otherwise to the same event as the next does: a fork |
| AuditChain.HashesTellPlaces | mini-siem/backend/src/utils/audit.rs:9-16 | without collisions, no two events of a complete chain have one hash |
| AuditChain.LastHashTellsHistory | mini-siem/backend/src/utils/audit.rs:9-16 | without collisions among their messages, linked chains with one last hash agree as far back as both go, and complete ones altogether |
| AuditChain.LatestHashTellsRun | mini-siem/backend/src/utils/audit.rs:9-16 | two runs whose events for a tenant go up and are never all purged before more are written, without collisions between their messages: if they end with the same latest hash they recorded the same payloads, in the same order |
| AuditForks.RunIsLinkedExactlyWhen | mini-siem/backend/src/db/postgres.rs:569-578 | over any appends and purges, of events with any times, without collisions among a tenant's messages: what is stored for the tenant is one linked chain if and only if all of it before the last event goes up in time and id |
| AuditForks.EarlierEventForks | mini-siem/backend/src/db/postgres.rs:571 | three appends, the second earlier: the second and the third both link to the first |
| AuditForks.EmptyingPurgeStartsAgain | mini-siem/backend/src/db/postgres.rs:650-660 | an append, a purge of it, an append: two events with no previous hash |
| RefreshTokens.TokenStore.StoreRefreshToken | mini-siem/backend/src/db/redis.rs:204-218 | the token key, the user's set and its expiry are written as specified; a zero life is refused and changes nothing |
| RefreshTokens.TokenStore.GetUserIdByRefreshToken | mini-siem/backend/src/db/redis.rs:220-226 | the value of the token's key while it lives |
| RefreshTokens.TokenStore.RevokeRefreshToken | mini-siem/backend/src/db/redis.rs:228-239 | a live token's key and its entry in its user's set go |
| RefreshTokens.TokenStore.RevokeAllUserTokens | mini-siem/backend/src/db/redis.rs:241-253 | the keys of all hashes in the user's live set go, and the set |
| RefreshTokens.ValueTellsUserExactlyWhen | mini-siem/backend/src/db/redis.rs:233 | the last segment of the stored value is the user, whatever colons the tenant has, if and only if the user has none |
| RefreshTokens.StoreKeepsIndexExactlyWhen | mini-siem/backend/src/db/redis.rs:213-215 | storing a token keeps every live token revocable through its user's set if and only if no live token of the user outlives the new one |
| RefreshTokens.RevokeAllKeepsIndex | mini-siem/backend/src/db/redis.rs:241-253 | revoking all leaves the user no live token, leaves every other user's as it was, and keeps the index |
| RefreshTokens.ShorterTokenEscapesRevocation | mini-siem/backend/src/db/redis.rs:215 | two tokens, the second shorter-lived: revoking all leaves the first live |
| RefreshTokens.TokensActAsSessions | mini-siem/backend/src/db/redis.rs:204-253 | over any run with expiries that do not go back for a user, the store answers at any later time as if each token were a session that knows its user |
| Dispatch.SameKeyExactlyWhen | mini-siem/backend/src/main.rs:855-871 | which logs share a partition key, for each configured key and for an unknown one |
| Dispatch.DetectionPipeline.Send | mini-siem/backend/src/main.rs:192 | a log enters at the end of the queue if and only if the dispatcher runs and there is room; until then its producer waits |
| Dispatch.DetectionPipeline.Receive | mini-siem/backend/src/main.rs:245-247 | the dispatcher takes the oldest log when it has none at hand |
| Dispatch.DetectionPipeline.Forward | mini-siem/backend/src/main.rs:247-257 | the log at hand goes to the end of its worker's mailbox, waits if that is full, and is dropped if and only if the worker has stopped |
| Dispatch.DetectionPipeline.TakeUp | mini-siem/backend/src/main.rs:221-229 | an idle worker takes the oldest log of its mailbox |
| Dispatch.DetectionPipeline.Complete | mini-siem/backend/src/main.rs:228 | a worker that ends its log is idle, and the log is the last it finished |
| Dispatch.DetectionPipeline.ShutDownWorker | mini-siem/backend/src/main.rs:230-233 | a worker stops between two logs and its mailbox is lost |
| Dispatch.DetectionPipeline.ShutDownDispatcher | mini-siem/backend/src/main.rs:259-262 | the dispatcher stops with no log at hand and the queue is lost |
| Dispatch.RunKeepsOrder | mini-siem/backend/src/main.rs:212-266 | under every interleaving what a worker took up and has waiting is a prefix of its share of the arrivals, and all of it but what is on its way while both run |
| Dispatch.KeysAreTakenInOrder | mini-siem/backend/src/main.rs:212-266 | for each partition key the logs taken up are the first to arrive, in order, at most one unfinished; no other worker ever holds a log of that key |
| Dispatch.NoKeyIsLost | mini-siem/backend/src/main.rs:212-266 | while the key's worker and the dispatcher run, every arrival of the key is taken up, in the mailbox, at hand, or queued, in that order |
| Dispatch.CapacitiesHold | mini-siem/backend/src/main.rs:214 | mailboxes and queue never hold more than their capacity |
| AgentQueue.Queue.constructor | mini-siem/agent/queue/queue.go:20-27 | a new queue is empty, in order and within its bound |
| AgentQueue.Queue.Push | mini-siem/agent/queue/queue.go:30-41 | adds at the end if and only if there is room, and otherwise waits |
| AgentQueue.Queue.TryPush | mini-siem/agent/queue/queue.go:45-57 | adds at the end if and only if there is room, and otherwise counts a drop |
| AgentQueue.Queue.Pop | mini-siem/agent/queue/queue.go:61-79 | removes the first item, or gives none |
| AgentQueue.Queue.PopBatch | mini-siem/agent/queue/queue.go:82-107 | removes the first items, as many as asked for and there are; a negative size panics, just when there are any, and takes none |
| AgentShipper.Shipper.PollQueue | mini-siem/agent/shipper/shipper.go:74-90 | one log joins the batch, which is sent when full |
| AgentShipper.Shipper.FlushOnTick | mini-siem/agent/shipper/shipper.go:68-72 | a tick sends what is batched |
| AgentShipper.Shipper.FlushAndEnd | mini-siem/agent/shipper/shipper.go:61-66 | cancellation sends what is batched and ends |
| AgentShipper.Shipper.Send | mini-siem/agent/shipper/shipper.go:95-134 | each outcome counts the batch as sent or failed, and gives it up, finishes it, or has it put back |
| AgentShipper.Shipper.RetryOne | mini-siem/agent/shipper/shipper.go:137-142 | the next log goes back to the end of the queue, or waits for room |
| AgentShipper.Collect | mini-siem/agent/collector/file.go:106 | a collector's log enters the queue if and only if there is room |
| AgentShipper.AgentKeepsItsBooks | mini-siem/agent/shipper/shipper.go:53-146 | over every interleaving: each log got in is once queued, batched, to be put back, acknowledged or given up; the queue is first in, first out and the batches are what left it; the counters count; queue and batches keep to their sizes |
| AgentShipper.RetryCanEndExactlyWhen | mini-siem/agent/shipper/shipper.go:137-142 | a retry can ever end, whatever happens, if and only if its remainder fits into the queue at its start |
| AgentShipper.RetryCanWaitForever | mini-siem/agent/shipper/shipper.go:137-142 | a run of three steps after which the retry never ends, whatever follows |

## Left out

- CorrelationGreedy.CalmRunIsOptimal: optimal among all events only with room; on a one-slot drop-newest rule without it the alerts are the most among the heard events, and no count of those missed is given. Streams longer than W + L are optimal within each segment (AlertsAreMostInSegments), not across the resets. Streams out of order, and windows of 2^63 seconds or more, are covered by soundness alone.
- RateLimiting.DistinctCallsKeepTheBound: one consumer, whose clock is the store's; other consumers' calls on the same address are not modelled, nor the bound while the store fails, when everything is let through.
- AlertBatcher.DbBatcher.Serve: alert ids are new to the table and database calls succeed; the branches that log a failed query or write and go on lose the drained batch or miss open rows.
- TokenBucket.GrantsAreBounded: tokens are exact (scaled by the window); the rounding of 64-bit floating point is not modelled, nor overflow of now plus window.
- RedisLimiters.RedisStore.AllowSlidingWindow: the service's clock and the store's clock are one clock that does not go back; script numbers are exact.
- AuditChain.TenantsStayLinked: reading the latest hash and inserting are one step; concurrent handlers, which can read the same latest hash, are not modelled.
- RefreshTokens.TokensActAsSessions: the commands of one call are one step; hashes are issued to one user only, and user ids have no colon (they are UUIDs).
- AgentQueue.Queue.Push: waiting is a step that does nothing; which waiter a signal wakes, and so liveness with one condition variable, is not modelled. Neither is the order in which waiting producers of Dispatch get their turn.
- The batcher-full fallback in the alert worker, which writes past the deduplication key.
- The duplicate evaluation of a rule with several tags in the detection engine.
- The joining of group fields with ":", which is not injective: a group is its joined text.
- Logs inside alert rows are known by their ids: that they survive the JSON column is taken for granted, as is that row times keep their microseconds.
- HMAC, SHA-256, the text hashes and the random ids: arbitrary functions or parameters. The audit row's columns that repeat payload fields are not kept apart.
- Key-value store errors, unreadable stored state, and values of a time to live that the store rejects for being too large.
- JWT and password handling, case management, detection packs, the L1 counter cache, notifications, telemetry, configuration and the frontend: these are outside the pipeline's stateful algorithms.
