# OHM trade agent: verified model

A Dafny model of the durable and time-bounded parts of the OHM trade agent, with proofs of
what they are for. `dafny verify dfyconfig.toml` checks the whole project.

| part | modules |
|---|---|
| Outcome ledger, its SQLite index, the accountability handoff and its backfill | `Text`, `LedgerBytes`, `Keyset`, `OutcomeTables`, `HandoffBackfill`, `OutcomeMachine`, `RevisionChain`, `OutcomeStore` |
| Due queue of forward outcomes | `Maturation` |
| Agent bridge: receipts, phases, policy budget, polling, CI gate | `BridgeProtocol`, `BridgeStore`, `BridgePoll`, `CheckGate` |
| Prospective evidence capture: cursor, anchor, point-in-time audit | `EvidenceCapture`, `EvidenceAnchor`, `PointInTime` |
| Bounded feature-bus capture pass | `CaptureSchedule` |
| Request limiter | `SlidingWindow` |
| Indicators, replay, report | `Indicators`, `Replay`, `Report` |

## How it is built

Each durable protocol is a machine of small steps over values, and its theorems are about
every run of every length: `OutcomeMachine.EveryRunIsSound`, `BridgeProtocol.EffectsAtMostOnce`,
`EvidenceCapture.CursorPassesOnlyTerminalRows`, `Maturation.AtMostTenEvaluations`,
`RevisionChain.EveryBuildKeepsChainIff`. A crash is a run that stops: it may stop before every
step, and an append may stop after any byte. The code that changes state is written as classes
and loops (`OutcomeStore.Store`, `BridgeStore.Bridge`, `BridgePoll.Discovery`,
`EvidenceCapture.Capture`, `Maturation.SnapshotQueue`, `CaptureSchedule.Writer`,
`SlidingWindow.Limiter`, and the loops of `EvidenceAnchor`, `PointInTime`, `CheckGate`,
`Indicators`, `Replay` and `Report`), and each method's contract gives its new state by the
functions the theorems are about.

Parameters stand for what the code calls and cannot control: the JSON codec (reading inverts
writing, a written object has no raw newline, no proper prefix of it is an object), the content
hash, the coverage boundary, the calendar, the writer's and the market's answers, the clock's
readings, and how long each wave, each submit and each piece of local work takes.

Where a method and its specification share a function, that function has laws of its own that do
not mention its body: what an acknowledgement removes (`OutcomeStore.AcknowledgingPageClearsIt`),
what the world decides (`BridgeStore.FreshInvocation`, `ResumedInvocation`), when a row is terminal
(`EvidenceCapture.TerminalRowIff`), what a range spans (`Indicators.AtrOnRampIsStep`), what a trade
pays (`Replay.TradeIsPaid`).

## Where the code does not do what it is for

Each of these is proved: inputs that show it, and the exact condition under which it happens.

- A snapshot id with surrounding white space repeats revision 1 on every build: the index
  stores the stripped id, the build looks up the raw one
  (`RevisionChain.PaddedIdRepeatsRevisionOne`, `EveryIdCanBePadded`, `RowKeepsChainIff`). Builds of
  distinct, plainly spelled ids keep the chains whole (`EveryBuildKeepsChain`).
- An acknowledgement names a record id, which leaves the revision out. Acknowledging the k-th
  revision removes the waiting last one if and only if the two contents have the same hash
  (`RevisionChain.AcknowledgingRemovesIff`); builds of the labels a, b and a again do it
  (`AcknowledgingAnOldRevisionCanRemoveANewOne`).
- The bridge's note that a failed status write never consumes a task holds before the claim and
  in the CI wait only; in between the handler turns the same failure into owner-recovery work
  (`BridgePoll.RetryableFailureRetriesIff`; a run that does it is
  `StatusFailureAfterClaimConsumes`).
- A poll that meets a left-over lock refuses every candidate for good, tasks that were never claimed
  included (`BridgePoll.LockedPollRefusesAll`, `KillLeavesLock`; what drops an unclaimed or waiting
  task at all is `EligibleTaskIsDroppedIff`).
- Labels are to be revisited at the next milestone only, which makes ten evaluations. While the
  stored label is a complete one of an older schema, every seeding pulls the snapshot forward
  again: each pull adds at most one evaluation, pulls end with the first label a build finds, and
  until then they have no bound (`Maturation.AtMostTenEvaluations`, `EachPullAddsAtMostOne`,
  `MigratedAtMostOnce`, `PullsHaveNoBound`).
- A finished receipt is not final: when the status line after a basic run's last receipt fails,
  the handler rewrites `APPLIED_UNTESTED` to `FAILED_OWNER_RECOVERY`
  (`BridgeProtocol.AppliedReceiptCanFail`; `FinishedStays` says that nothing else does).
- The failure handler rewrites a row under the policy of the failing invocation, so a row left by
  a kill can overrun another policy's budget (`BridgeProtocol.ForeignFailureBreaksBudget`,
  `FailureBreaksBudgetIff`).
- The printed audit drops fractions of a second, so an input up to a second after the epoch can
  read back as valid (`PointInTime.FractionRescuesAnInput`, `RecomputedValidityIff`). Published
  records hold no such input (`BuildLong`, `BuildShort`).
- A stale anchor answer can later become a retryable capture error, when the epoch's candle has
  closed and is unusable (`EvidenceAnchor.StaleIsPermanent`, `StaleCanBecomeUnreadable`).
- An unreadable cursor file restarts capture at the head and skips what lies between
  (`EvidenceCapture.LostCursorSkips`).
- The capture budget is clamped to 5 seconds and more, but a record needs 10: with a budget below
  that no pass ever gets past a readable row, however old it is
  (`EvidenceCapture.SmallBudgetNeverTakes`, `BudgetAdmitsARowIff`).
- The writer timeout is described as only ever narrowed; it is never widened if and only if it was
  at least the floor of 0.05 seconds (`CaptureSchedule.Writer.BoundTimeout`).
- The average true range takes negative periods, slices from the end and returns a range that is
  never positive; its one-pass series then wraps around and sets ranges against closes of other bars
  (`Indicators.AtrOf`, `AtrPercentages`).
- A short setup whose direction is not spelled in upper case is valid but tested with the exits
  of a long one; it makes no difference only when the stop is the entry
  (`Replay.SpellingMattersIff`, `FlatBarMisreads`).
- The reported drawdown is the greatest fall over all pairs of equities if and only if no negative
  equity falls further from the lowest positive one before it
  (`Report.OnePassIsGreatestFallIff`; an input is `NegativeEquityBreaksDrawdown`).

## Model

| member | source | states |
|---|---|---|
| Text.PrintableIsNoSpace | OHM-Trade-Agent-v1/app/jobs/build_phase3c_forward_outcomes.py:946-955 | What an identifier is stripped of: blanks, tabs and line ends are white space, no printable ASCII character is. |
| LedgerBytes.RepairKeepsPrefix | OHM-Trade-Agent-v1/app/jobs/build_phase3c_forward_outcomes.py:36-81 | Tail repair never cuts below any line boundary and leaves everything below it unchanged. |
| LedgerBytes.RowsAfterRepair | OHM-Trade-Agent-v1/app/jobs/build_phase3c_forward_outcomes.py:62-79 | Repair keeps every object on a finished line and adds exactly the object of an unfinished last line when that line is a whole object. |
| LedgerBytes.RowsOfWritten | OHM-Trade-Agent-v1/app/jobs/build_phase3c_forward_outcomes.py:1750-1766 | Appending rows to a ledger that ends on a boundary and reading it back gives the earlier rows followed by exactly these rows. |
| LedgerBytes.TornAppendKeepsWholeRows | OHM-Trade-Agent-v1/app/jobs/build_phase3c_forward_outcomes.py:1750-1766 | An append killed after any number of bytes, then repaired, leaves the earlier rows and exactly a leading part of the appended ones. |
| Keyset.InOrderIsSorted | OHM-Trade-Agent-v1/app/jobs/build_phase3c_forward_outcomes.py:461-482 | The (reference, snapshot) order of a finite table lists each key once, strictly ascending. |
| Keyset.PageLeavesNoGap | OHM-Trade-Agent-v1/app/jobs/build_phase3c_forward_outcomes.py:461-482 | A page past a cursor leaves no gap: each key past the cursor is in the page or past its last key, and a short page leaves nothing. |
| Keyset.AfterTheIthKey | OHM-Trade-Agent-v1/app/jobs/build_phase3c_forward_outcomes.py:461-482 | Moving the cursor to the i-th key leaves exactly the later keys. |
| Keyset.Select | OHM-Trade-Agent-v1/app/jobs/build_phase3c_forward_outcomes.py:461-482 | The ordered, limited select returns exactly the specified page. |
| OutcomeTables.IncrementalIsReplay | OHM-Trade-Agent-v1/app/jobs/build_phase3c_forward_outcomes.py:943-1030 | Upserting new rows into an index that replays the old ones gives the replay of all rows. |
| OutcomeTables.IndexIsLastGreatestRevision | OHM-Trade-Agent-v1/app/jobs/build_phase3c_forward_outcomes.py:949-991 | A snapshot's index entry is e if and only if e comes from the last ledger row of greatest revision for that snapshot. |
| OutcomeTables.UpsertLosesNothing | OHM-Trade-Agent-v1/app/jobs/build_phase3c_forward_outcomes.py:943-1030 | One upsert keeps every latest outcome accounted for, including the deletion that a row without a record id may cause. |
| OutcomeTables.AcknowledgeRemovesExactlyItsRecord | OHM-Trade-Agent-v1/app/jobs/build_phase3c_forward_outcomes.py:1199-1217 | An acknowledgement removes a waiting outcome if and only if some acknowledged pair carries that snapshot and the record id that is waiting; otherwise the outcome keeps waiting unchanged. |
| OutcomeTables.AcknowledgeAllLosesNothing | OHM-Trade-Agent-v1/app/jobs/build_phase3c_forward_outcomes.py:1184-1220 | Acknowledging any list of pairs keeps every outcome accounted for. |
| HandoffBackfill.BatchLosesNothing | OHM-Trade-Agent-v1/app/jobs/build_phase3c_forward_outcomes.py:405-705 | A batch whose terminal candidates were persisted first leaves no outcome behind the cursor that is neither waiting, acknowledged, terminal nor without an evidence window. |
| HandoffBackfill.BoundaryDecides | OHM-Trade-Agent-v1/app/jobs/build_phase3c_forward_outcomes.py:561-612 | In a page of trusted rows a row whose window crosses the coverage boundary becomes a terminal candidate and keeps its handoff as it was, one that does not is enqueued at its latest revision; without a boundary nothing is terminal, a row with a reference is enqueued and one without keeps its handoff as it was. |
| HandoffBackfill.BackfillIsExact | OHM-Trade-Agent-v1/app/jobs/build_phase3c_forward_outcomes.py:461-482 | Over a fixed table of trusted rows the n-th batch reads exactly the keys from n times the batch size on, up to one batch, and finishes the backfill if and only if the batch is not full. |
| HandoffBackfill.CompletionCall | OHM-Trade-Agent-v1/app/jobs/build_phase3c_forward_outcomes.py:617-621 | Over n valid rows and batch size b the backfill is complete after exactly floor(n/b)+1 calls, and not one call earlier. |
| HandoffBackfill.InvalidRowFreezesBatch | OHM-Trade-Agent-v1/app/jobs/build_phase3c_forward_outcomes.py:520-557 | A batch that holds a row without a record id or a readable object, or under a boundary without a reference that reads as a timestamp, changes neither the handoff nor the cursor. |
| OutcomeMachine.LegacyStartIsSound | OHM-Trade-Agent-v1/app/jobs/build_phase3c_forward_outcomes.py:405-436 | A database whose index was built before the handoff existed is a sound start for the backfill. |
| OutcomeMachine.ReconcileIndexesEverything | OHM-Trade-Agent-v1/app/jobs/build_phase3c_forward_outcomes.py:1033-1078 | Reconciling leaves the index equal to the replay of every finished ledger line, with the stored offset on a line boundary. |
| OutcomeMachine.StepKeepsSound | OHM-Trade-Agent-v1/app/jobs/build_phase3c_forward_outcomes.py:405-829 | Every durable step (append of any bytes, tail repair, reconcile, purge, acknowledge, persisting terminal dispositions, applying a batch) keeps the machine invariant. |
| OutcomeMachine.EveryRunIsSound | OHM-Trade-Agent-v1/app/jobs/build_phase3c_forward_outcomes.py:405-829 | Over every interleaving of these steps, stopped anywhere, no outcome is lost to accountability and the index and offset are right. |
| OutcomeMachine.IndexEqualsFullReplay | OHM-Trade-Agent-v1/app/jobs/build_phase3c_forward_outcomes.py:1033-1078 | After any history one reconcile makes the index equal to the fold of upsert over all complete ledger rows. |
| OutcomeMachine.FinishedLinesSurvive | OHM-Trade-Agent-v1/app/jobs/build_phase3c_forward_outcomes.py:36-81 | The finished part of the ledger at any moment is a prefix of the ledger at every later moment. |
| RevisionChain.IndexHoldsLastOfChain | OHM-Trade-Agent-v1/app/jobs/build_phase3c_forward_outcomes.py:943-991 | In a chain the index holds the last row of each snapshot. |
| RevisionChain.ChainGrowsByOne | OHM-Trade-Agent-v1/app/jobs/build_phase3c_forward_outcomes.py:1728-1748 | One more row keeps the chain if and only if it carries the next revision and a new record id. |
| RevisionChain.RowKeepsChainIff | OHM-Trade-Agent-v1/app/jobs/build_phase3c_forward_outcomes.py:1716-1748 | A chosen row keeps the chain if and only if the snapshot spells its id without surrounding white space or the stripped id is new to the index. |
| RevisionChain.PaddedIdRepeatsRevisionOne | OHM-Trade-Agent-v1/app/jobs/build_phase3c_forward_outcomes.py:1716-1748 | A padded snapshot id repeats revision 1 on the next build although nothing about the label changed. |
| RevisionChain.EveryIdCanBePadded | OHM-Trade-Agent-v1/app/jobs/build_phase3c_forward_outcomes.py:1716-1748 | Every plain id has such a spelling: any white space before it makes builds of an unchanged label repeat revision 1. |
| RevisionChain.ChosenRowsKeepChainIff | OHM-Trade-Agent-v1/app/jobs/build_phase3c_forward_outcomes.py:1716-1748 | The rows a build has chosen keep the chain if and only if each of them fits after those before it: its stripped id is blank, or it is the first chosen row of its snapshot and spells the id without surrounding white space or the stripped id is new to the index. |
| RevisionChain.EveryBuildKeepsChainIff | OHM-Trade-Agent-v1/app/jobs/build_phase3c_forward_outcomes.py:1672-1781 | Over any sequence of bounded builds of any batches from an empty ledger, each killed after any number of appended bytes, every snapshot's rows carry revisions 1, 2, 3, ... without gap or repeat and neighbours differ in record id after every build, if and only if the rows that reached the ledger fitted it in every build. |
| RevisionChain.LastOfChainWaits | OHM-Trade-Agent-v1/app/jobs/build_phase3c_forward_outcomes.py:943-1030 | Along a chain whose rows carry record ids the handoff holds exactly the last row of each snapshot. |
| RevisionChain.AcknowledgingRemovesIff | OHM-Trade-Agent-v1/app/jobs/build_phase3c_forward_outcomes.py:1184-1220 | Acknowledging the k-th revision on a chain removes the waiting last one if and only if the two contents have the same hash. |
| RevisionChain.AcknowledgingAnOldRevisionCanRemoveANewOne | OHM-Trade-Agent-v1/app/jobs/build_phase3c_forward_outcomes.py:84-99 | Builds of the labels a, b and a again append revisions 1, 2 and 3, revision 3 is waiting, and acknowledging revision 1 removes it. |
| RevisionChain.RerunAppendsNothing | OHM-Trade-Agent-v1/app/jobs/build_phase3c_forward_outcomes.py:1716-1748 | A build repeated over unchanged labels appends nothing. |
| OutcomeStore.Store.RepairTail | OHM-Trade-Agent-v1/app/jobs/build_phase3c_forward_outcomes.py:36-81 | The chunked backward scan leaves the file exactly as the byte-level repair specifies, and reports a repair if and only if the last line was unfinished. |
| OutcomeStore.Store.UpsertOutcome | OHM-Trade-Agent-v1/app/jobs/build_phase3c_forward_outcomes.py:943-1030 | One ledger object changes the open transaction exactly as the specified upsert. |
| OutcomeStore.Store.ReconcileOutput | OHM-Trade-Agent-v1/app/jobs/build_phase3c_forward_outcomes.py:1033-1078 | Reading the finished lines past the offset commits the reconciled tables, or refuses a ledger shorter than the offset and changes nothing. |
| OutcomeStore.Store.PendingOutcomes | OHM-Trade-Agent-v1/app/jobs/build_phase3c_forward_outcomes.py:1137-1181 | Returns the stored objects of the first page of the handoff after repair, reconcile and purge; interrupted between its durable writes it keeps the invariant. |
| OutcomeStore.Store.AcknowledgeOutcomes | OHM-Trade-Agent-v1/app/jobs/build_phase3c_forward_outcomes.py:1184-1220 | After the reconcile a waiting outcome goes if and only if some acknowledged row names its snapshot with the record id that waits, white space around either aside; every other keeps waiting unchanged, none is added, the count of deleted rows is returned, and interrupted it keeps the invariant. |
| OutcomeStore.AcknowledgingPageClearsIt | OHM-Trade-Agent-v1/app/jobs/build_phase3c_forward_outcomes.py:1137-1220 | Delivery is complete: acknowledging the rows of a page removes every outcome of the page whose stored object can be read, and no other. |
| OutcomeStore.RowsAtFollowPage | OHM-Trade-Agent-v1/app/jobs/build_phase3c_forward_outcomes.py:1158-1181 | Without damaged objects the delivered rows are those of the page, one for one and in its order. |
| OutcomeStore.ClassifyPage | OHM-Trade-Agent-v1/app/jobs/build_phase3c_forward_outcomes.py:487-621 | The classification loop finds exactly the candidates of the page and a plan that enqueues what the page enqueues, and raises if and only if a coverage boundary meets an invalid row. |
| OutcomeStore.Store.AdvanceBackfillLocked | OHM-Trade-Agent-v1/app/jobs/build_phase3c_forward_outcomes.py:405-705 | Dry run and apply find the same candidates; the dry run commits nothing and the apply commits exactly the specified batch. |
| OutcomeStore.Store.AdvanceBackfill | OHM-Trade-Agent-v1/app/jobs/build_phase3c_forward_outcomes.py:744-829 | Classify, persist, apply under one lock is two machine steps; killed between them the machine invariant still holds. |
| OutcomeStore.Store.BuildBounded | OHM-Trade-Agent-v1/app/jobs/build_phase3c_forward_outcomes.py:1611-1781 | A bounded build drops the due snapshots that have no label or are migration-only without a complete one, leaves the repaired ledger followed by the written part of the rows chosen for the rest, commits either the reconciled tables of the whole append or those before it, and is a build step of the revision chain. |
| Maturation.NextDueAt | OHM-Trade-Agent-v1/app/jobs/build_phase3c_forward_outcomes.py:1081-1117 | The scheduling loop computes the specified next due instant. |
| Maturation.NextMilestoneIsLeastAhead | OHM-Trade-Agent-v1/app/jobs/build_phase3c_forward_outcomes.py:1101-1114 | The next milestone is the least one ahead, none is ahead only when all have passed, and passing it leaves one fewer. |
| Maturation.RescheduleUsesOneUp | OHM-Trade-Agent-v1/app/jobs/build_phase3c_forward_outcomes.py:1101-1117 | Every reschedule of an unfinished snapshot lies ahead and leaves strictly fewer evaluations; it leaves the queue if and only if the 25 hour grace is over. |
| Maturation.SnapshotQueue.Seed | OHM-Trade-Agent-v1/app/jobs/build_phase3c_forward_outcomes.py:1375-1395 | Seeding queues a snapshot whose stored label is a complete one of an older schema and whose migration has not failed; if it is queued already, seeding only lowers its due instant. |
| Maturation.SnapshotQueue.Arrive | OHM-Trade-Agent-v1/app/jobs/build_phase3c_forward_outcomes.py:1436-1503 | A line of the snapshot ledger queues its snapshot where the stored label schedules it, makes a queued one a live one at the due instant it has, and takes out one whose stored label is finished. |
| Maturation.SnapshotQueue.EvaluateBatch | OHM-Trade-Agent-v1/app/jobs/build_phase3c_forward_outcomes.py:1672-1776 | The loop over a due batch moves or deletes queue rows, stores the labels it keeps and notes failed migrations exactly as specified. |
| Maturation.AtMostTenEvaluations | OHM-Trade-Agent-v1/app/jobs/build_phase3c_forward_outcomes.py:1081-1117 | However arrivals, re-arrivals, seedings and bounded builds interleave, and whatever the clock does, a live snapshot that no seeding has pulled forward is evaluated at most ten times between entering the queue and leaving it, and a migration-only one at most once. |
| Maturation.EachPullAddsAtMostOne | OHM-Trade-Agent-v1/app/jobs/build_phase3c_forward_outcomes.py:1375-1395 | With a clock that does not run backwards, each seeding that pulls a live snapshot forward adds at most one evaluation. |
| Maturation.MigratedAtMostOnce | OHM-Trade-Agent-v1/app/jobs/build_phase3c_forward_outcomes.py:1284-1312 | Over any run, once a build has found a label for a snapshot or has evaluated it for migration, seeding never touches it again, and no snapshot is evaluated for migration twice. |
| Maturation.PullsHaveNoBound | OHM-Trade-Agent-v1/app/jobs/build_phase3c_forward_outcomes.py:1375-1395 | For every number there is a run that evaluates a live snapshot as often: its stored label is a complete one of an older schema, and no build finds another. |
| Maturation.TenIsReached | OHM-Trade-Agent-v1/app/jobs/build_phase3c_forward_outcomes.py:1101-1117 | An unlabelled snapshot is evaluated at its decision and 5, 15, 30, 60, 240, 480, 720, 1440 and 1500 minutes later; the tenth evaluation is the last. |
| Maturation.LastEvaluation | OHM-Trade-Agent-v1/app/jobs/build_phase3c_forward_outcomes.py:1081-1117 | A live snapshot stays queued if and only if it is evaluated before the grace ends with no complete label. |
| Maturation.EvaluationProgressesIff | OHM-Trade-Agent-v1/app/jobs/build_phase3c_forward_outcomes.py:1086-1096 | Scheduling uses an evaluation up if and only if the row it schedules is not a complete one of an older schema, which it makes due at once. |
| BridgeProtocol.StepKeepsSound | OHM-Trade-Agent-v1/tools/local_bridge_autonomy.py:337-450 | Every step of a basic or autonomous run, a failure, a kill and a lock recovery keeps each effect of each task at most once and in order. |
| BridgeProtocol.EffectsAtMostOnce | OHM-Trade-Agent-v1/tools/local_bridge_autonomy.py:337-450 | Over any sequence of runs, resumes, failures and kills each task is coded, edited, pushed and reviewed at most once, each only after the one before. |
| BridgeProtocol.ResumeNeverRecodes | OHM-Trade-Agent-v1/tools/local_bridge_autonomy.py:358-366 | A task waiting for CI has been coded, edited and pushed exactly once, and no later step does any of these to it again. |
| BridgeProtocol.StepOnFinished | OHM-Trade-Agent-v1/tools/local_agent_bridge.py:1109-1117 | One step leaves a task with a terminal receipt terminal, with its effects and its run row; it changes the receipt if and only if a basic run fails between its last receipt and its status line. |
| BridgeProtocol.FinishedStays | OHM-Trade-Agent-v1/tools/local_agent_bridge.py:1109-1117 | Over any run a terminal task stays terminal with the same effects and run row; its receipt changes if and only if a basic run failed to announce it, and then from APPLIED_UNTESTED to FAILED_OWNER_RECOVERY. |
| BridgeProtocol.AppliedReceiptCanFail | OHM-Trade-Agent-v1/tools/local_agent_bridge.py:1109-1117 | A reachable run in which that happens. |
| BridgeProtocol.FailureConsumesIff | OHM-Trade-Agent-v1/tools/local_agent_bridge.py:989-1003 | A failure leaves a task exactly as eligible as it was; inside a run it stays eligible if and only if the failure comes before the claim or in the CI wait. |
| BridgeProtocol.PolicyBudgetHolds | OHM-Trade-Agent-v1/tools/local_bridge_autonomy.py:371-380 | While tasks are invoked under the policy that recorded them, no policy ever has more run rows than it allows. |
| BridgeProtocol.FailureBreaksBudgetIff | OHM-Trade-Agent-v1/tools/local_bridge_autonomy.py:435-442 | The failure handler breaks a budget if and only if it rewrites an ambiguous row of another policy under a policy that has none left. |
| BridgeProtocol.ForeignFailureBreaksBudget | OHM-Trade-Agent-v1/tools/local_bridge_autonomy.py:435-442 | A reachable run in which that happens: two rows under a policy that allows one. |
| BridgeStore.AllowedStepsAreARun | OHM-Trade-Agent-v1/tools/local_bridge_autonomy.py:322-450 | Any allowed steps from the empty database form a run of the machine. |
| BridgeStore.Bridge.InsertReceipt | OHM-Trade-Agent-v1/tools/local_agent_bridge.py:709-714 | A claim succeeds if and only if the task has no receipt, and then inserts exactly that one. |
| BridgeStore.Bridge.WritePhase | OHM-Trade-Agent-v1/tools/local_bridge_autonomy.py:265-269 | Replaces the run row and updates an existing receipt of the task, nothing else. |
| BridgeStore.Bridge.HandleFailure | OHM-Trade-Agent-v1/tools/local_bridge_autonomy.py:435-442 | The handler changes the two tables exactly as the machine's failure step. |
| BridgeStore.Bridge.Guard | OHM-Trade-Agent-v1/tools/local_bridge_autonomy.py:352-377 | The checks read from the tables decide admission, budget and claim exactly as the machine's guard. |
| BridgeStore.Bridge.Invoke | OHM-Trade-Agent-v1/tools/local_bridge_autonomy.py:337-450 | One invocation that gets the lock is a sequence of allowed machine steps on its own task, decided by the world: it is killed exactly where its fate says so, waits exactly at a gate whose checks have not finished, fails exactly where its fate says so or a guard refuses, and else goes on with the verdict. How it ended can be read off the steps, and the lock stays if and only if it was killed. |
| BridgeStore.FreshInvocation | OHM-Trade-Agent-v1/tools/local_bridge_autonomy.py:371-440 | An undisturbed invocation of a fresh admitted task: a basic run applies it; an autonomous one does every effect once and ends approved or with requested changes as the checks say, or waits with everything but the review done while they have not finished. |
| BridgeStore.ResumedInvocation | OHM-Trade-Agent-v1/tools/local_bridge_autonomy.py:358-440 | An undisturbed invocation of a task in the CI wait reviews and records the verdict once the checks have finished, and changes nothing before. |
| BridgePoll.Decide | OHM-Trade-Agent-v1/tools/local_agent_bridge.py:947-955 | Recording a disposition keeps the whole table up to the limit, and past it exactly as many entries as the limit, those of the highest task ids. |
| BridgePoll.LastDecisionIs | OHM-Trade-Agent-v1/tools/local_agent_bridge.py:1018-1044 | The decision on a task is that of the last attempt that decides it: handled when it came back and does not wait for CI, rejected with its reason when it was stopped for one that is not retryable, failed on any other error. |
| BridgePoll.RecordedIsLastDecision | OHM-Trade-Agent-v1/tools/local_agent_bridge.py:1006-1051 | Whatever the table holds after a poll is that decision, or else what it held before; while it has room it forgets nothing. |
| BridgePoll.PollIsARun | OHM-Trade-Agent-v1/tools/local_agent_bridge.py:1006-1051 | The invocations of a poll, one after the other, are one sequence of allowed machine steps. |
| BridgePoll.Discovery.Poll | OHM-Trade-Agent-v1/tools/local_agent_bridge.py:1006-1051 | A poll invokes its candidates one by one, each with no step at all if it meets the lock; killed in an attempt, between attempts or before its save it leaves the discovery file as it was, and otherwise it saves exactly the record of the attempts its invocations ended in. |
| BridgePoll.RetryableFailureRetriesIff | OHM-Trade-Agent-v1/tools/local_agent_bridge.py:1022-1034 | A retryable reason leaves the task to the next poll if and only if it struck before the claim or in the CI wait. |
| BridgePoll.StatusFailureAfterClaimConsumes | OHM-Trade-Agent-v1/tools/local_agent_bridge.py:1022-1034 | A reachable run in which the status write after the claim fails, nothing is recorded and the task is never a candidate again. |
| BridgePoll.EligibleTaskIsDroppedIff | OHM-Trade-Agent-v1/tools/local_agent_bridge.py:1022-1040 | After a finished poll a task that is unclaimed or waits for CI is a candidate no longer if and only if some attempt on it met the lock or failed for a reason that is not retryable (past the table's limit: only if). |
| BridgePoll.LockedPollRefusesAll | OHM-Trade-Agent-v1/tools/local_agent_bridge.py:1022-1040 | A poll that meets a left-over lock changes no task and records a refusal for every one of its candidates, so none is a candidate any longer. |
| BridgePoll.KillLeavesLock | OHM-Trade-Agent-v1/tools/local_bridge_autonomy.py:337-450 | Such a lock is reachable while every task is still an unclaimed candidate. |
| CheckGate.LatestIsNewest | OHM-Trade-Agent-v1/tools/local_bridge_autonomy.py:215-222 | With distinct ids, the filled dictionary maps a name to a value if and only if the newest record of that name has it. |
| CheckGate.Gate | OHM-Trade-Agent-v1/tools/local_bridge_autonomy.py:214-232 | APPROVE if and only if something is required and every required name has a record and only successes among its newest; REQUEST_CHANGES if and only if some required newest record is failing. |
| CheckGate.OrderDoesNotMatter | OHM-Trade-Agent-v1/tools/local_bridge_autonomy.py:214-222 | The verdict does not depend on the order of the records. |
| CheckGate.RequiringMoreIsStricter | OHM-Trade-Agent-v1/tools/local_bridge_autonomy.py:214-232 | Enlarging a non-empty required set never creates an approval and keeps every request for changes. |
| CheckGate.ProtectedAlwaysDecide | OHM-Trade-Agent-v1/tools/local_bridge_autonomy.py:235-241 | Whatever the policy requires, an approval needs a record of each protected context and only successes among its newest. |
| EvidenceCapture.CertainlyTerminalIff | OHM-Trade-Agent-v1/app/jobs/capture_feasibility_evidence_shadow.py:943-985 | A row is terminal whatever the world answers if and only if it is unreadable, has no boundary or is older than the maximum age. |
| EvidenceCapture.TerminalRowIff | OHM-Trade-Agent-v1/app/jobs/capture_feasibility_evidence_shadow.py:935-1094 | For every answer of the world, the gates find a row terminal if and only if it is unusable, or inside its age window and ruled out (unsupported direction, point-in-time violation, stale, no evidence, other direction) or committed by the writer; it is recorded if and only if the writer answered OK to evidence, a duplicate if and only if it answered DUPLICATE_OK. |
| EvidenceCapture.PositionsAreOrdered | OHM-Trade-Agent-v1/app/jobs/capture_feasibility_evidence_shadow.py:794-892 | Log positions are ordered by epoch first and by sequence within an epoch, and any two different ones are comparable. |
| EvidenceCapture.Capture.RunPass | OHM-Trade-Agent-v1/app/jobs/capture_feasibility_evidence_shadow.py:794-892 | A pass takes a leading part of the next terminal rows and stands right after it; without exhaustion or a crash it takes all of them, it is exhausted only at a clock reading it took, the first that left the batch gate or the gate of a readable next row less time than it needs, and it takes the first row if and only if that row is terminal, both gates before it find time and the pass lives to save. |
| EvidenceCapture.CursorPassesOnlyTerminalRows | OHM-Trade-Agent-v1/app/jobs/capture_feasibility_evidence_shadow.py:794-892 | Over any sequence of passes on a growing log, the cursor stands after the rows present at the cold start and rows each taken exactly once, in order, without skips, when they were unusable, ruled out or committed; no row up to the head is ever taken. |
| EvidenceCapture.OverdueRowIsTakenIff | OHM-Trade-Agent-v1/app/jobs/capture_feasibility_evidence_shadow.py:794-892 | In any history a pass that meets next a row past its boundary plus the maximum age moves the cursor past it if and only if its first two gates find enough time left and it lives to save. |
| EvidenceCapture.BudgetAdmitsARowIff | OHM-Trade-Agent-v1/app/jobs/capture_feasibility_evidence_shadow.py:794-892 | Some pass with a given budget can take a readable row if and only if the budget is at least ten seconds. |
| EvidenceCapture.SmallBudgetNeverTakes | OHM-Trade-Agent-v1/app/jobs/capture_feasibility_evidence_shadow.py:794-892 | With a smaller budget no pass of any history ever moves past a readable row. |
| EvidenceCapture.LostCursorSkips | OHM-Trade-Agent-v1/app/jobs/capture_feasibility_evidence_shadow.py:571-581 | After a lost cursor file the next pass stands at the head; nothing was skipped if and only if the cursor stood there already. |
| EvidenceAnchor.ResolveAnchor | OHM-Trade-Agent-v1/app/jobs/capture_feasibility_evidence_shadow.py:449-533 | The resolution loop computes the specified classification. |
| EvidenceAnchor.FormingRowsAreIgnored | OHM-Trade-Agent-v1/app/jobs/capture_feasibility_evidence_shadow.py:449-500 | No answer depends on the still-forming last analytical row, the cutoff is that of the row before it, and the forming one-minute row never is the anchor. |
| EvidenceAnchor.AnchorIsFresh | OHM-Trade-Agent-v1/app/jobs/capture_feasibility_evidence_shadow.py:466-533 | An anchor closes at the epoch second, is 0 to 120 seconds old at acquisition, comes from a closed usable candle, and stands beside an analytical cutoff not after the epoch. |
| EvidenceAnchor.NothingPendsForever | OHM-Trade-Agent-v1/app/jobs/capture_feasibility_evidence_shadow.py:476-500 | More than 120 seconds after the epoch the answer is stale or a capture error. |
| EvidenceAnchor.StaleReasons | OHM-Trade-Agent-v1/app/jobs/capture_feasibility_evidence_shadow.py:449-520 | An answer is stale if and only if the analytical cutoff is past the epoch, or the epoch candle is absent and too late or the source is past it, or it is there, usable and too old. |
| EvidenceAnchor.StaleIsPermanent | OHM-Trade-Agent-v1/app/jobs/capture_feasibility_evidence_shadow.py:449-533 | Over a source that only appends and a clock that does not go back, a stale answer is never followed by an anchor or a pending one; it stays stale except exactly when the epoch candle has closed meanwhile and is unusable. |
| EvidenceAnchor.StaleCanBecomeUnreadable | OHM-Trade-Agent-v1/app/jobs/capture_feasibility_evidence_shadow.py:501-509 | A stale answer that later becomes a capture error, because the epoch candle closed with unusable prices. |
| PointInTime.ProvenanceRoundTrip | OHM-Trade-Agent-v1/app/jobs/capture_feasibility_evidence_shadow.py:248-303 | Parsing a printed reference always recovers the whole-second event and the flag; it recovers the kind if and only if the kind has no colon, and then the name if and only if the name has none. |
| PointInTime.AuditsAreNeverDropped | OHM-Trade-Agent-v1/app/jobs/capture_feasibility_evidence_shadow.py:264-303 | Exactly the references with the audit prefix are read, and one that holds no field at all is an error, not an entry that is left out. |
| PointInTime.RecomputedValidityIff | OHM-Trade-Agent-v1/app/jobs/capture_feasibility_evidence_shadow.py:243-246 | Recomputed validity agrees with the original if and only if the input is exempt or its event does not lie after the epoch within a second that has begun by the epoch; it is never stricter. |
| PointInTime.FractionRescuesAnInput | OHM-Trade-Agent-v1/app/jobs/capture_feasibility_evidence_shadow.py:334-347 | An invalid input half a second after a whole-second epoch reads back as valid. |
| PointInTime.AssertSupport | OHM-Trade-Agent-v1/app/jobs/capture_feasibility_evidence_shadow.py:306-326 | The gate passes if and only if every input is valid at the epoch. |
| PointInTime.BuildLong | OHM-Trade-Agent-v1/app/jobs/capture_feasibility_evidence_shadow.py:1163-1238 | The LONG builder publishes if and only if the anchor resolves and no book read the epoch admits raises; the final gate never fires, and the book is listed if and only if the read was not after the epoch. |
| PointInTime.BuildShort | OHM-Trade-Agent-v1/app/jobs/capture_feasibility_evidence_shadow.py:1345-1442 | The SHORT builder likewise, with venue metadata exempt and the margin book listed exactly when eligible, not after the epoch and read. |
| PointInTime.PublishedRefsReadBack | OHM-Trade-Agent-v1/app/jobs/capture_feasibility_evidence_shadow.py:1225-1232 | Every reference of a published record reads back as its own input in whole seconds and is valid again. |
| CaptureSchedule.PlanLeavesRoom | OHM-Trade-Agent-v1/app/jobs/capture_feature_bus_shadow.py:403-440 | The deadline is the configured budget held between 15 and 50 seconds, ten seconds of it are reserved exactly from 25 seconds on, acquisition always keeps 15, and with the standard bound the setup envelope is what the budget exceeds 25 seconds by. |
| CaptureSchedule.Acquire | OHM-Trade-Agent-v1/app/jobs/capture_feature_bus_shadow.py:695-740 | Acquisition ends by its deadline for every number of instruments, requests a leading part of them in whole waves, stops only when a wave no longer fits, and after a setup inside its envelope always requests the first wave. |
| CaptureSchedule.Writer.BoundTimeout | OHM-Trade-Agent-v1/app/jobs/capture_feature_bus_shadow.py:221-248 | A positive timeout ends at the share or below it, and is never widened if and only if it was at least the floor; any other timeout is left alone. |
| CaptureSchedule.ShareFits | OHM-Trade-Agent-v1/app/jobs/capture_feature_bus_shadow.py:797-804 | The declared number of submits at the enforced share fits into the remaining time. |
| CaptureSchedule.SummaryBalances | OHM-Trade-Agent-v1/app/jobs/capture_feature_bus_shadow.py:766-875 | Every requested instrument is counted once: as a source error or as a cycle that was promoted, deferred, refused or failed. |
| CaptureSchedule.Materialize | OHM-Trade-Agent-v1/app/jobs/capture_feature_bus_shadow.py:757-902 | It stops if and only if the last cycle was cut or the next one's declared submits would get less than 0.05 seconds each. For every number of cycles and every client the last cycle begins before the pass deadline and only its own submits and local work come after; with a positive timeout or a bound deadline those submits end by the deadline too. It counts exactly what it did, and never raises a timeout that starts at or above the floor. |
| CaptureSchedule.RunPass | OHM-Trade-Agent-v1/app/jobs/capture_feature_bus_shadow.py:403-902 | The whole pass ends by its deadline, at most 50 seconds after its start, but for the local work since its last cycle started; it leaves items over only for one of the two reasons a materialization stops, and runs no cycle for an instrument never requested. |
| SlidingWindow.Limiter.Allow | OHM-Trade-Agent-v1/app/api/tradevisor.py:71-87 | With time that does not run backwards a request is allowed if and only if fewer than limit earlier allowed ones of its source lie in the last window; only its own history changes, and only a new source in a full map makes the oldest forgotten. |
| SlidingWindow.EveryWindowHoldsAtMostLimit | OHM-Trade-Agent-v1/app/api/tradevisor.py:82-87 | Every closed interval of the window's length holds at most limit allowed requests. |
| SlidingWindow.LimiterIsBounded | OHM-Trade-Agent-v1/app/api/tradevisor.py:71-87 | That holds for every remembered source of a valid limiter, and it remembers at most 512. |
| Indicators.EmaOf | OHM-Trade-Agent-v1/app/indicators/technical.py:7-22 | The loop computes the recurrence, and fails if and only if the period is not positive or too long. |
| Indicators.EmaStaysBetween | OHM-Trade-Agent-v1/app/indicators/technical.py:16-22 | The exponential average stays within any bounds of its series. |
| Indicators.EmaLagsOnRamp | OHM-Trade-Agent-v1/app/indicators/technical.py:16-22 | On a straight line the exponential average lags by exactly half of period - 1 steps from its first value on. |
| Indicators.MacdByPrefixes | OHM-Trade-Agent-v1/app/indicators/technical.py:56-84 | The form that recomputes every prefix gives the specified line, signal and histogram; it is defined if and only if 0 < fast <= slow, 0 < signal and the series has slow + signal values. |
| Indicators.MacdStreaming | OHM-Trade-Agent-v1/app/indicators/technical.py:56-84 | A one-pass form with three running averages gives the same result. |
| Indicators.RsiOf | OHM-Trade-Agent-v1/app/indicators/technical.py:25-53 | The loops compute the index from the smoothed gains and losses. |
| Indicators.RsiIsHundredIff | OHM-Trade-Agent-v1/app/indicators/technical.py:45-53 | The index stays in [0,100] and is 100 if and only if nothing fell (period one: the last step did not fall). |
| Indicators.StrengthIsShareOfGains | OHM-Trade-Agent-v1/app/indicators/technical.py:49-53 | The index is the share of the smoothed gains in all smoothed movement, in percent, and 100 without movement. |
| Indicators.WilderStaysBetween | OHM-Trade-Agent-v1/app/indicators/technical.py:41-46 | Wilder's average, shared by the index and the true range, stays within any bounds of its series. |
| Indicators.RangeSpansPreviousClose | OHM-Trade-Agent-v1/app/indicators/technical.py:102-114 | With ordered prices the true range reaches from the lower of the low and the previous close to the higher of the high and the previous close. |
| Indicators.AtrOnRampIsStep | OHM-Trade-Agent-v1/app/indicators/technical.py:87-123 | On flat bars along a straight line the average true range is exactly the length of one step, for every period. |
| Indicators.AtrOf | OHM-Trade-Agent-v1/app/indicators/technical.py:87-123 | The loops compute the smoothed true range, and fail if and only if lengths differ, the period is zero or the series is too short; a positive period gives Wilder's average, never negative, and a negative one a range that is never positive. |
| Indicators.AtrPercentages | OHM-Trade-Agent-v1/app/indicators/technical.py:195-227 | With a positive period entry j of the one-pass series is the average true range of the prefix of length period + 1 + j as a percentage of that prefix's last close, or zero for a close that is not positive. It fails if and only if lengths differ, the period is zero or it is not shorter than the series in either direction; with a negative one the index wraps, no entry is positive, and the range of the whole series is set against the first close. |
| Replay.ReplaySetup | OHM-Trade-Agent-v1/app/backtesting/engine.py:56-113 | The filter, the entry search and the holding loop compute the specified outcome, invalid setups included. |
| Replay.ExitIsFirstHit | OHM-Trade-Agent-v1/app/backtesting/engine.py:77-90 | The exit is the first bar from the entry on that hits the stop or the target; without one it is the close of the last bar it may be held for. |
| Replay.StopLosesTargetWins | OHM-Trade-Agent-v1/app/backtesting/engine.py:27-53 | With stop and target on their usual sides a stopped trade loses and a trade at its target gains, before costs. |
| Replay.TradeIsPaid | OHM-Trade-Agent-v1/app/backtesting/engine.py:27-113 | Gross is the notional times the relative move in the trade's favour, costs are the given percentage of the notional, and the trade carries the instants of the first bar that reaches the entry and of its exit bar. |
| Replay.EligibleHolds | OHM-Trade-Agent-v1/app/backtesting/engine.py:65-66 | The replay looks at exactly the candles from the signal on. |
| Replay.ShortSpellings | OHM-Trade-Agent-v1/app/backtesting/engine.py:56-63 | The spellings of a short setup: any case of the five letters, the long s included. |
| Replay.ReplayIsCausalIff | OHM-Trade-Agent-v1/app/backtesting/engine.py:65-90 | Whatever prefix holds the exit bar, no change to the candles after it changes the trade if and only if it ended by stop, by target or at the bar limit. |
| Replay.ReplayMirrors | OHM-Trade-Agent-v1/app/backtesting/engine.py:27-95 | Reflecting all prices about the entry and swapping the direction gives the same bars, reason and profit and loss. |
| Replay.SpellingMattersIff | OHM-Trade-Agent-v1/app/backtesting/engine.py:43-57 | A valid setup replays like its upper-case spelling on all series if and only if it is not a short setup spelled otherwise than SHORT, or its stop is its entry. |
| Replay.FlatBarMisreads | OHM-Trade-Agent-v1/app/backtesting/engine.py:43-57 | A short setup spelled otherwise is stopped at once, at a loss, by one flat bar at the entry. |
| Report.BuildReport | OHM-Trade-Agent-v1/app/backtesting/metrics.py:6-43 | Final equity is the initial one plus all results, net profit is gross profit less gross loss, every trade is counted once, and the drawdown is the one-pass one. |
| Report.SidesBalance | OHM-Trade-Agent-v1/app/backtesting/metrics.py:18-25 | Gains less losses are the total of the results. |
| Report.OnePassIsGreatestFall | OHM-Trade-Agent-v1/app/backtesting/metrics.py:7-17 | In particular it is when equity is never negative. |
| Report.TwoSidedIsGreatestFall | OHM-Trade-Agent-v1/app/backtesting/metrics.py:7-17 | Measured from the lowest positive equity as well as from the peak, the one-pass drawdown is the greatest percentage fall over all pairs for every series with a positive start. |
| Report.OnePassIsGreatestFallIff | OHM-Trade-Agent-v1/app/backtesting/metrics.py:7-17 | With a positive start the reported drawdown is the greatest percentage fall over all pairs if and only if no negative equity falls further from the lowest positive one before it. |
| Report.NegativeEquityBreaksDrawdown | OHM-Trade-Agent-v1/app/backtesting/metrics.py:15-17 | From 100 to 1 to -1 the one pass gives 101 percent, the fall between the last two is 200 percent, and the reported figure is not the greatest fall. |

## Left out

- Maturation.AtMostTenEvaluations: counts committed evaluations of one stay in the queue; an evaluation lost in a crash is repeated, a build may seed any stale snapshots and not only the oldest ones up to its limit, and a batch in which no snapshot has a symbol or a decision time is put off hourly without bound.
- BridgeStore.Bridge.Invoke: one process at a time; the owner removes a left-over lock only when no process runs.
- BridgePoll.Discovery.Poll: which comments are task comments, their authors and approvals, and the highest comment id the discovery file keeps, are not modelled; the polls that do not execute record nothing and are left out.
- EvidenceCapture.Capture.RunPass: the canonical log is an ordered sequence of rows; one reply per row and pass stands for the direction, the builder and the writer.
- EvidenceAnchor.ResolveAnchor: instants are not negative, and one flag stands for the finite, positive and ordered prices of a candle.
- PointInTime.ProvenanceRoundTrip: years 1000 to 9999, whose parts print in fixed width; the calendar is a parameter, and the parser accepts the fixed width only.
- CaptureSchedule.Acquire: a wave takes at most its declared bound; the derivation of that bound from the retry policy is not modelled.
- Replay.ReplaySetup: rounding of the reported figures.
- Report.BuildReport: rounding of the reported figures.
- The unbounded `build_outcomes`, the index-column migration and the seeding of schema migrations.
- The window-complete and schema-version columns of the index, and the anchor check over the last 4096 bytes; ledgers only change by appends and tail repair.
- SQLite, fsync, JSON text and sha256 internals.
- Policy files, owner approvals, task envelopes, worktree checks, Docker and GitHub calls beyond one success, failure or kill per call.
- HTTP routes, dashboards, scanners, configuration, Kraken identities, walk-forward evaluation, backup tools.
- Floating-point rounding: indicators, replay, report, limiter and schedule use reals.
