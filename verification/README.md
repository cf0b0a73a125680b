# LapSphere: verified model of the control protocols

LapSphere is a daemon and a GUI that steer laptop hardware: GPU overclocks, fans,
polling and a list of remembered gamepads. This project models its small
shared-state protocols in Dafny and proves what they guarantee over whole runs.
Hardware, drivers and clocks are parameters: every device call succeeds or fails
as an environment value says, and the theorems hold for all of them.

| module | models |
|---|---|
| `Common`, `Wrappers`, `Rounding` | shared notions |
| `DynamicOffset` | the dynamic core-clock offset: interpolation, 32-bit differences, smart rounding |
| `OffsetRanges` | where that offset and its components can go |
| `GpuOps` | GPU settings, the operations a profile issues, and their effect on a card |
| `DeferredReport` | the take-once report channel |
| `GpuController` | profile apply, deferred step, poll tick, idle release and restore: a state machine on values, and a class proved to take exactly its steps |
| `GpuRuns` | what that state machine guarantees over every run |
| `GpuCache` | the remembered dynamic offset against the offset on the card |
| `PendingSlot` | the deferred slot at lock granularity, with any number of threads |
| `RepaintLatch` | the GUI's repaint latch and bounded update channel, with any number of senders |
| `Gamepads` | reconciliation of remembered gamepads |
| `PollTier` | how often a discrete GPU is queried |
| `ClevoFans`, `FanCurve`, `FanControl` | the fan write cache, the fan curve, and the two callers that set fans |
| `SysfsPath` | the path canonicaliser, the allowlist match and the write guard around them |
| `JobScheduler` | the daemon's polling scheduler |
| `RefreshCoordinator` | the GUI's refresh coordinator and in-flight guard |
| `FrameTimes` | nearest-rank percentiles of the frame-time tool |

Where the source changes state step by step there is a class or a method with a
loop, proved equal to a specification function; the theorems are about that
function. `f32` is `real`, clocks are integers in milliseconds, and 32-bit
subtraction is written out.

Where the code falls short of an unconditional statement it is kept as it is. Each
such place has a concrete failing state and the exact condition, both directions:

- A release can overtake a waiting profile step when the write gate refuses a tick's
  retry and then lets its release through (`GpuRuns.UnsteadyGateLosesAStep`, and
  `GpuRuns.StepIsLostFromTheStart` for a whole run). Every standing release is sound
  exactly when no tick finishes one that way (`GpuRuns.ReleasedMeansStockIff`). The
  stronger invariant, which also covers a release begun and not finished, holds exactly
  when no tick overtakes (`GpuRuns.TickKeepsInvIff`, `GpuRuns.InvHoldsIff`), and a
  waiting profile step is safe in the next tick exactly then
  (`GpuRuns.NextTickSparesStepIff`). One reading of the gate per tick rules it out
  (`GpuRuns.SteadyGateNeverOvertakes`). What does not depend on it, the marker and the
  exclusive flags among others, is stated for every run.
- The remembered dynamic offset and the card part when a static attempt writes another
  core offset, or a release clears the offset and fails elsewhere
  (`GpuCache.StaticAttemptLeavesCacheStale`). `GpuCache.RetryKeepsCacheIff`,
  `GpuCache.ApplyKeepsCacheIff` and `GpuCache.CacheFollowsCard` are exact for the parts,
  `GpuCache.TickKeepsCacheIff` and `GpuCache.CacheAgreesThroughoutIff` for ticks and runs.
- A 32-bit difference can wrap (`OffsetRanges.WrappedSpanEscapes`,
  `OffsetRanges.WrappedDrainEscapes`). `OffsetRanges.FreqOffsetInRangeIff`,
  `OffsetRanges.PowerOffsetInRangeIff` and `OffsetRanges.DrainInOwnBandIff` say for which
  configurations a component stays between its extremes at every reading, and the
  `AntitoneIff` lemmas for which it falls with load.
- A connected gamepad can lose its row to a twin (`Gamepads.TwinTakesTheRow`).
  `Gamepads.CompleteIffLaterTwinsAreVolatile` gives the snapshots for which no database
  loses a pad, `Gamepads.CompleteIffNoRowTaken` the condition for one database, and
  `Gamepads.IdempotentIffComplete` shows that idempotence is the same question.
- The comment at `gui/src/app.rs:335-338` promises at most one repaint request per
  frame. That is guaranteed exactly when no winner of an earlier swap has yet to ask
  (`RepaintLatch.OneRequestPerFrameIff`, `RepaintLatch.TwoRequestsBetweenClears`).

Two behaviours are recorded as they are. With manual clocks off, clearing the offsets
is tried once, and a failed try counts as done (`GpuCache.ClearIsTriedOnce`). And every
written fan word commands zero to the fans beyond the fan count
(`ClevoFans.WriteStopsUncountedFans`). The manual set alone would accept a set to zero
of such a fan without writing it. Neither caller lets that happen: the curve loop skips
those fans and the user's command forces a write (`FanControl.CallersAreNeverWrong`).

## Model

| member | source | states |
|---|---|---|
| OffsetRanges.FreqOffsetInRangeIff | daemon/src/main.rs:819-831 | for every configuration, over the whole non-negative clocks the code reads: the component stays between its extremes exactly when no clock can be read inside the window, the offset span is empty, neither difference wraps, or both do and the offset span is at least as wide |
| OffsetRanges.PowerOffsetInRangeIff | daemon/src/main.rs:869-885 | for every configuration with the component on, over all draws in milliwatts: in range exactly when the window is empty, wraps or ends at zero or below, or the offset span fits |
| OffsetRanges.SlideBetweenIff | daemon/src/main.rs:859-865 | a slide between two extremes stays between them for every ratio exactly when their difference fits 32 bits |
| OffsetRanges.FreqOffsetIs | daemon/src/main.rs:823-831 | without wrap the frequency component is its largest offset up to the window, its smallest from the end on, and linear in between |
| OffsetRanges.PowerOffsetIs | daemon/src/main.rs:869-885 | the same for the power component |
| OffsetRanges.DrainAtTheEdges | daemon/src/main.rs:839-850 | in the critical range the low band takes its minimum, above the window its maximum, the high band its minimum in both, and a clock in neither band nothing |
| OffsetRanges.DrainInTheWindow | daemon/src/main.rs:851-866 | otherwise the high band falls linearly from its maximum to its minimum over the temperature window and any other clock rises, flat below the window |
| OffsetRanges.ComponentsAddUp | daemon/src/main.rs:887-888 | with both switches off the total is the frequency component, and each switch adds exactly its own component |
| OffsetRanges.TargetIsTheRoundedTotal | daemon/src/main.rs:914-930 | the written offset is the rounded total itself whenever that fits 32 bits, and the integer part without a grid |
| Rounding.RoundIsNearest | daemon/src/main.rs:992 | rounding gives the nearest integer, and of two the one farther from zero, both directions |
| Rounding.ToI32IsTheIntegerPart | daemon/src/main.rs:930 | the cast gives the integer part, and the end of the range beyond it |
| Rounding.Sub32IsCongruent | daemon/src/main.rs:829-830 | the wrapped difference is the one 32-bit number congruent to the true one |
| OffsetRanges.DrainInOwnBandIff | daemon/src/main.rs:833-867 | for every configuration, over all whole clocks and temperatures: the drain component stays between the extremes of the band that governs it, or is zero, exactly when it is off, no readable temperature slides, or the difference of each readable band fits |
| OffsetRanges.DrainOffsetInRangeIff | daemon/src/main.rs:833-867 | the same condition is exact for zero or either band, unless an active critical range covers the top of the temperature window |
| OffsetRanges.DrainOffsetInRange | daemon/src/main.rs:833-867 | under that condition the component is zero or in one of the two bands, with a covered top too |
| OffsetRanges.WrappedDrainEscapes | daemon/src/main.rs:859-861 | a concrete configuration whose drain component is 2^31 |
| OffsetRanges.FreqOffsetAntitoneIff | daemon/src/main.rs:819-831 | with ordered extremes, over the clocks the code reads: a faster clock never raises the component exactly when it stays in range, or clock 0 alone is inside the window and above the range |
| OffsetRanges.PowerOffsetAntitoneIff | daemon/src/main.rs:869-885 | the same for the power component over all draws, exactly when it stays in range |
| OffsetRanges.TotalOffsetAntitoneIff | daemon/src/main.rs:823-888 | with drain off, clock and draw never raise the total exactly when both components fall |
| DynamicOffset.SmartRoundIsTheGridPoint | daemon/src/main.rs:914-928 | the rounded total is the one multiple of T above total - 2T/3 and at most total + T/3, both directions |
| DynamicOffset.SmartRoundIsMonotone | daemon/src/main.rs:914-928 | a larger total never rounds to less |
| DynamicOffset.SmartRoundIsIdempotent | daemon/src/main.rs:914-928 | rounding twice is rounding once |
| OffsetRanges.TargetAntitone | daemon/src/main.rs:823-930 | under that condition they never raise the written offset, through rounding and the saturating cast |
| OffsetRanges.WrappedSpanEscapes | daemon/src/main.rs:829-830 | a concrete configuration whose window wraps and whose offset leaves its range by 2^31 |
| GpuOps.AttemptIsFinalIffNoGateRefusal | daemon/src/hardware_control.rs:744-771 | every operation is issued whatever fails before it, and an attempt is final exactly when the gate refused none |
| GpuOps.CleanAttemptCarries | daemon/src/hardware_control.rs:885-926 | an attempt without failures leaves the card with the offsets, limit and clocks asked for and every listed fan as its last entry asks, at its speed or in auto, whatever was there before |
| GpuOps.CleanAttemptSparesOtherFans | daemon/src/hardware_control.rs:918-924 | and touches no fan that is not listed |
| GpuOps.UnlistedFansStay | daemon/src/hardware_control.rs:918-924 | whatever fails among the fan operations, a fan that is not listed is not touched |
| GpuOps.StaticOpsInOrder | daemon/src/hardware_control.rs:904-924 | power limit, offsets, clocks, then the fans as listed, each at its own speed or in auto |
| GpuOps.FailuresAreTheRefusals | daemon/src/hardware_control.rs:885-903 | exactly the refused operations are recorded, each once, with its own name, message and kind |
| GpuOps.OverclockIff | daemon/src/main.rs:418 | settings count as an overclock exactly when taking offsets, clocks and manual mode out changes them; the others leave a stock card stock |
| GpuOps.NoteFollowsWrites | daemon/src/hardware_control.rs:1525-1553 | the note of written offsets follows each write and reads zero for a half never written |
| GpuOps.CleanReleaseIsStock | daemon/src/main.rs:464-471 | three successful release operations leave offset 0 and unlocked clocks |
| DeferredReport.SplitFailures | daemon/src/hardware_control.rs:1067-1078 | the loop sorts failures into unsupported warnings and fatal entries, in order |
| DeferredReport.SplitCoversFailures | daemon/src/hardware_control.rs:1064-1089 | no failure is dropped or counted twice; nothing is fatal exactly when all are unsupported |
| DeferredReport.SplitAppends | daemon/src/hardware_control.rs:1067-1078 | failures are sorted one by one, in order |
| DeferredReport.SplitOfOne | daemon/src/hardware_control.rs:1070-1076 | an unsupported operation warns and anything else is fatal, and the entry names operation and message |
| DeferredReport.OutcomeIsWarningIff | daemon/src/hardware_control.rs:809-816 | the outcome is a warning exactly when every failure is an unsupported operation |
| DeferredReport.TextTellsOutcome | daemon/src/hardware_control.rs:810-816 | the text starts with what happened |
| DeferredReport.TextTellsEverything | daemon/src/hardware_control.rs:810-816 | the text contains operation and message of every failure |
| DeferredReport.ReportChannel.PublishOutcome | daemon/src/hardware_control.rs:796-822 | publishing takes the channel to the specified state: series, clean completions, texts and outcomes |
| DeferredReport.ReportChannel.Take | daemon/src/hardware_control.rs:825-827 | hands over the waiting report and leaves the series memory alone |
| DeferredReport.TakeDeliversNewest | daemon/src/hardware_control.rs:790-827 | for any history: the waiting report is the newest that became due since the last take, where a failure is due exactly unless it repeats the completion before it |
| DeferredReport.IdleRestoresAreSilent | daemon/src/hardware_control.rs:792-807 | any number of clean restore completions adds no report |
| GpuController.Controller.PerformAll | daemon/src/hardware_control.rs:885-926 | the loop of operations and recorded failures equals the specified one |
| GpuController.Controller.RetryPending | daemon/src/hardware_control.rs:723-788 | the tick's retry: pre-check, attempt, clear only when final, publish only when final |
| GpuController.Controller.ApplyProfile | daemon/src/hardware_control.rs:829-1062 | the whole apply: skip, generation, early and late failures, slot, marker |
| GpuController.Controller.ResetIdleState | daemon/src/main.rs:707-716 | all idle state is erased on a new generation or without settings or overclock |
| GpuController.Controller.ObserveTick | daemon/src/main.rs:416-448 | idle clock, load choice, and the action decided from them |
| GpuController.Controller.FinishRelease | daemon/src/main.rs:718-736 | only a wholly successful release becomes released with offset cache 0 |
| GpuController.Controller.ReleaseOverclock | daemon/src/main.rs:454-483 | attempt time, three operations, completion |
| GpuController.Controller.QueueRestore | daemon/src/main.rs:484-495 | queues the daemon's settings and forgets the release, when index and settings are known |
| GpuController.Controller.ApplyOffsetTarget | daemon/src/main.rs:748-759 | writes a changed offset and remembers it only on success |
| GpuController.Controller.RunDynamic | daemon/src/main.rs:767-965 | clearing branch, gate, telemetry cases, P-state branch and target write |
| GpuController.Controller.PollTick | daemon/src/main.rs:412-507 | one tick on the real fields equals one tick of the state machine |
| GpuController.Controller.TakeReport | daemon/src/hardware_control.rs:825-827 | a take of the report is a step of the same machine |
| GpuRuns.AlwaysHolds | daemon/src/main.rs:412-507 | in every run, for every gate: flags exclusive, generation seen not ahead, marker in agreement with daemon settings and slot |
| GpuRuns.TickKeepsInvIff | daemon/src/main.rs:412-507 | a tick keeps the release invariant exactly when it does not release past a step its own refused retry left waiting |
| GpuRuns.InvHoldsIff | daemon/src/main.rs:412-507 | the release invariant holds throughout a run exactly when no tick of it overtakes |
| GpuRuns.SteadyGateNeverOvertakes | daemon/src/main.rs:414-416 | a gate that reads the same for retry and decision rules overtaking out |
| GpuRuns.ReleasedMeansStockIff | daemon/src/main.rs:718-736 | throughout a run every standing release has a stock card, cache 0 and nothing waiting, exactly when no tick finishes a release over a waiting step |
| GpuRuns.ReleasedMeansStock | daemon/src/main.rs:718-736 | the same at one point of a run, from the ticks before it |
| GpuRuns.ReleasedTickIsSilent | daemon/src/main.rs:443-507 | for every gate, such a tick issues nothing and only a restore ends the release |
| GpuRuns.ReleasedRunIsSilent | daemon/src/main.rs:412-507 | from a standing release on, over any stretch without a restore and without a new generation, no operation is issued to the card whatever the gate does, provided no earlier tick finished a release over a waiting step |
| GpuRuns.RestoreOverwritesNothing | daemon/src/main.rs:484-486 | when a restore fires, the slot it writes is empty |
| GpuRuns.DeferredStepIsNeverLost | daemon/src/hardware_control.rs:998-1023 | after an apply reaches its GPU step, as long as no later tick overtakes: finally attempted, still waiting, or superseded by a later apply that reached its own |
| GpuRuns.NextTickSparesStepIff | daemon/src/main.rs:412-507 | with a profile step waiting, every possible next tick attempts or keeps it exactly when the present tick does not overtake it |
| GpuRuns.OvertakenStepCanBeLost | daemon/src/main.rs:484-486 | after an overtaking tick, a busy tick whose retry is refused replaces the waiting step by a restore |
| GpuRuns.SlotClearedIffAttemptFinal | daemon/src/hardware_control.rs:723-788 | the retry empties the slot exactly when the gate let everything through, and it attempted the step that was there |
| GpuRuns.DeferredMeansPreCheckRefused | daemon/src/hardware_control.rs:998-1089 | applied-but-deferred is reported only when the pre-check refused; a gate closing mid-apply is an error that keeps the step |
| GpuRuns.ApplyAnswers | daemon/src/hardware_control.rs:829-1062 | what an apply answers by what happened, with every answer exactly characterised, its warnings counted, marker, generation and daemon settings included |
| GpuRuns.ReleaseLeavesStepIff | daemon/src/main.rs:414-472 | a releasing tick leaves a step waiting exactly when its own retry was refused |
| GpuRuns.UnsteadyGateLosesAStep | daemon/src/main.rs:414-486 | three concrete ticks after which a profile's waiting step has become an unreported restore |
| GpuRuns.StepIsLostFromTheStart | daemon/src/main.rs:412-507 | a run from the initial state in which that happens: a deferred apply and four ticks, none of which attempts the step |
| GpuRuns.ReleaseEndsIffWork | daemon/src/main.rs:484-495 | a standing release ends, with its settings queued, exactly when the flag is on, the stored load shows work and the card index is known |
| GpuRuns.UnfinishedReleaseEndsIff | daemon/src/main.rs:416-448 | an unfinished release ends exactly when the flag is on and the load the tick decides on shows work |
| GpuRuns.ReleaseBlocksDynamic | daemon/src/main.rs:473-506 | while a release stands or is unfinished, a tick without an action writes nothing but its retry |
| GpuRuns.WorkBringsTheOverclockBack | daemon/src/main.rs:412-507 | a tick that sees work on a released card, then one clean retry, and the daemon's settings are on the card again |
| GpuRuns.CompletedApplyIsOnTheCard | daemon/src/hardware_control.rs:829-1062 | an apply reported complete with no GPU warning has its settings on the card and is remembered by marker and daemon |
| GpuCache.DynamicOffsetSettles | daemon/src/main.rs:798-954 | under unchanged telemetry a written dynamic offset is not written again, on both P-state branches |
| GpuCache.DynamicPartWritesItsTarget | daemon/src/main.rs:798-954 | the dynamic part brings card and cache to its target, or does nothing when gate, telemetry or P-state give none |
| GpuCache.TickSteersTheOffset | daemon/src/main.rs:496-505 | a tick that is not about a release brings card and cache to the target |
| GpuCache.ClearIff | daemon/src/main.rs:778-794 | with manual clocks off, clearing happens exactly when the gate is open and the note of offsets is anything but two zeros |
| GpuCache.ClearIsTriedOnce | daemon/src/main.rs:778-794 | clearing issues two writes once and never again; the card is clear exactly when each write succeeded or had nothing to undo |
| GpuRuns.RestoreRoundTrip | daemon/src/main.rs:484-495 | restore followed by a clean retry puts the daemon's settings back on the card and empties the slot |
| GpuCache.RetryKeepsCacheIff | daemon/src/hardware_control.rs:774-788 | a gated retry keeps cache and card equal exactly when nothing is cached, no core offset is set, that write does not succeed, or it writes the cached offset |
| GpuCache.ApplyKeepsCacheIff | daemon/src/hardware_control.rs:998-1023 | the same for an apply, which must also reach its GPU step with the gate open to disturb it |
| GpuCache.CacheFollowsCard | daemon/src/main.rs:443-507 | after its retry a tick keeps cache and card equal exactly when it leaves no release half done over a cached non-zero offset |
| GpuCache.TickKeepsCacheIff | daemon/src/main.rs:412-507 | a whole tick keeps cache and card equal exactly when its later part repairs what its retry spoils, or, when the retry spoils nothing, leaves no release half done |
| GpuCache.CacheAgreesThroughoutIff | daemon/src/main.rs:412-507 | cache and card agree throughout a run exactly when every tick and apply meets its condition |
| GpuCache.TargetLandsIff | daemon/src/main.rs:748-759 | a successful target is on the card exactly when the cache does not falsely claim it |
| GpuCache.StaticAttemptLeavesCacheStale | daemon/src/hardware_control.rs:774-788 | a concrete retry after which the target equal to the stale entry is not written |
| GpuRuns.NeverReleasedAndPending | daemon/src/main.rs:718-736 | in every run, for every gate, released and release-pending exclude each other |
| GpuRuns.ReleaseNeedsThirtyIdleSeconds | daemon/src/main.rs:699-705 | a release has a start at least 30 s earlier from which every tick saw a known low load on an overclocked, writable, unreleased card, with no new generation after it |
| GpuRuns.ReleaseAttemptsAreSpaced | daemon/src/main.rs:738-740 | with a monotone clock any two release attempts are 5 s apart although the attempt time is erased in between |
| GpuRuns.ReleaseIff | daemon/src/main.rs:412-507 | in a run with a monotone clock a tick releases exactly when every tick of thirty seconds saw idleness and no attempt was made in the last five |
| GpuRuns.MarkerIsSound | daemon/src/hardware_control.rs:829-879 | in every run, for every gate: a marker names the last apply that ran, which completed undeferred; the daemon steers by it and only its own restore can be waiting |
| GpuRuns.ApplyAfterUnfinishedApplyRuns | daemon/src/hardware_control.rs:1056-1062 | after an apply that failed or was deferred, the next apply always runs: A, B deferred, A |
| GpuRuns.ReportsFollowRun | daemon/src/hardware_control.rs:774-827 | over any run the report channel is what that run's completed retries and takes make of it |
| GpuRuns.TakeHandsOverNewest | daemon/src/hardware_control.rs:790-827 | a take in a run hands over the newest report due from its retries, and leaves none due |
| GpuRuns.SkippedApplyChangesNothing | daemon/src/hardware_control.rs:838-846 | a skipped apply is the identity on the whole state, the D-Bus settings write included |
| PendingSlot.SlotIsLinearizable | daemon/src/hardware_control.rs:723-742 | for any interleaving of retries, restores and applies: with the lock free the slot is what its log replays to, and each retry attempted the value then current |
| PendingSlot.ClearsWhatItAttempted | daemon/src/hardware_control.rs:728-732 | a consumer about to clear the slot finds exactly the value it attempted |
| PendingSlot.NextActionIff | daemon/src/hardware_control.rs:723-742 | in every run an action can be taken exactly when it comes next in the one section under way, and an attempt only on a waiting value |
| PendingSlot.SlotIsTheLedgers | daemon/src/hardware_control.rs:998-1022 | at every moment of every run slot and log are what the sequence of actions alone makes of them, the values handed in and how attempts ended included |
| PendingSlot.RefusedApplyKeepsItsValue | daemon/src/hardware_control.rs:1013-1021 | a refused apply leaves its own value waiting, an attempted one exactly when its attempt was not final |
| PendingSlot.StoredValueIsNeverLost | daemon/src/hardware_control.rs:998-1022 | a value left waiting by a restore or an apply is finally attempted, superseded or still there |
| PendingSlot.WaitingValueWasStored | daemon/src/hardware_control.rs:717-742 | what waits was left by the latest event that stores, and every retry since attempted it without finishing |
| RepaintLatch.WakeupIsNeverLost | gui/src/app.rs:340-365 | for any senders and interleaving, a waiting update is about to be drained, or a frame is asked for, or a sender has yet to swap or ask |
| RepaintLatch.QuiescenceMeansDrained | gui/src/app.rs:922-930 | with all senders idle, the UI asleep and no frame asked for, the UI has received exactly what was sent, in order, and the latch is free |
| RepaintLatch.DrainsWithoutTimer | gui/src/app.rs:343-427 | after any run, any schedule without new sends and without the timer is bounded in length, and once nothing can move the UI has received exactly what was sent |
| RepaintLatch.UpdatesAreConserved | gui/src/app.rs:356-427 | from any state, what was received or waits is what was there and what the schedule sent, in order |
| RepaintLatch.UpdatesArriveInOrder | gui/src/app.rs:403-427 | received and waiting updates are exactly those sent, in order; the channel stays within its capacity and every drop is counted |
| RepaintLatch.StateByHistory | gui/src/app.rs:340-427 | after any run, latch, outstanding request, UI and every sender stand as their own last actions say, and only the first swap after a clear is won |
| RepaintLatch.NextStepIff | gui/src/app.rs:343-427 | after any run, exactly which actions can come next, sends going in below 100 waiting updates and being dropped at 100 |
| RepaintLatch.OneWinBetweenClears | gui/src/app.rs:343-347 | between two clears at most one sender wins the swap |
| RepaintLatch.RequestsAreCoalesced | gui/src/app.rs:335-347 | over any run the requests issued exceed the clears by at most one |
| RepaintLatch.RequestsBetweenClears | gui/src/app.rs:335-347 | between two clears at most one new winner, and exactly one request for each winner that got as far, those from before the earlier clear included |
| RepaintLatch.OneRequestPerFrameIff | gui/src/app.rs:335-347 | right after a clear: at most one request before the next clear, on every schedule, exactly when no earlier winner has yet to ask |
| RepaintLatch.TwoRequestsBetweenClears | gui/src/app.rs:335-347 | a concrete schedule with two requests between two clears |
| Gamepads.Registry.RevisitAt | gui/src/gamepad_registry.rs:43-72 | the first pass on one row: refreshed, flagged or removed, and whether that changed it |
| Gamepads.Registry.RetainRows | gui/src/gamepad_registry.rs:42-72 | the in-place first pass equals the specification, flag included |
| Gamepads.Registry.AdmitPads | gui/src/gamepad_registry.rs:74-98 | the second pass equals the specification, flag included |
| Gamepads.Registry.Reconcile | gui/src/gamepad_registry.rs:39-101 | both passes, and the returned flag |
| Gamepads.DatabaseGrowthIsBounded | gui/src/gamepad_registry.rs:25-39 | over any snapshots uids stay distinct, volatile rows are connected, and rows are at most the stable uids ever seen plus the volatile pads now connected |
| Gamepads.RetainedAppends | gui/src/gamepad_registry.rs:43-72 | the first pass treats rows one by one, in order |
| Gamepads.RetainedRow | gui/src/gamepad_registry.rs:43-72 | a connected pad's row takes all but its id from the snapshot, an absent stable one is kept and flagged, an absent volatile one goes |
| Gamepads.AdmittedRow | gui/src/gamepad_registry.rs:75-98 | a new pad's row is the snapshot's own entry, in place of the first row of its name and connection if the pad is stable and there is one, at the end otherwise; a known pad changes nothing |
| Gamepads.AbsentRowIsRemembered | gui/src/gamepad_registry.rs:28-31 | a stable row absent from the snapshot is in the result, flagged and otherwise unchanged, unless a pad adopts it |
| Gamepads.StableUidIsNeverForgotten | gui/src/gamepad_registry.rs:28-38 | over any snapshots a stable uid keeps its row until a pad adopts it |
| Gamepads.ReconnectedPadIsTheSame | gui/src/gamepad_registry.rs:28-31 | a stable pad that goes and comes back has its row, with its old id and its new fields |
| Gamepads.EveryPadHasItsRow | gui/src/gamepad_registry.rs:39-101 | with no contested adoption every connected pad has exactly one row, connected and with its current fields |
| Gamepads.DistinctPairsAreUncontested | gui/src/gamepad_registry.rs:79-84 | distinct (name, connection) pairs rule out contested adoption for every database |
| Gamepads.ReconcilingTwiceChangesNothing | gui/src/gamepad_registry.rs:39-101 | a second call with the same snapshot is the identity and returns false |
| Gamepads.IdempotentIffComplete | gui/src/gamepad_registry.rs:39-101 | the second call returns false exactly when every connected pad had got a row |
| Gamepads.CompleteIffLaterTwinsAreVolatile | gui/src/gamepad_registry.rs:75-98 | no database loses a connected pad exactly when, of two connected twins, the later always has a volatile uid |
| Gamepads.CompleteIffNoRowTaken | gui/src/gamepad_registry.rs:75-98 | for each database: no connected pad is lost exactly when no pad, at its turn, adopts the row of an earlier connected pad |
| Gamepads.TwinTakesTheRow | gui/src/gamepad_registry.rs:79-92 | two stable twins, both connected, and one row left |
| Gamepads.ChangedMeansDifferent | gui/src/gamepad_registry.rs:25-26 | false means unchanged; when no pad is lost, true means different |
| PollTier.PollTable.RecordObservation | daemon/src/hardware_detection.rs:269-273 | only the status word of this adapter moves |
| PollTier.PollTable.RecordProbe | daemon/src/hardware_detection.rs:277-288 | status and time are set, unread values keep the remembered ones |
| PollTier.PollTable.PollAdapter | daemon/src/hardware_detection.rs:2842-2921 | both tier decisions of a tick, its early exits and what is recorded, other adapters untouched |
| PollTier.QuietCadence | daemon/src/hardware_detection.rs:220-265 | after a pass that found rest the next comes 45 s later or right after a suspended sighting, which it uses up, and never while sysfs says suspended |
| PollTier.TickByHistory | daemon/src/hardware_detection.rs:2842-2921 | exactly what a tick does, by the history of ticks: when it is a pass, when it records the status alone, when nothing |
| PollTier.RememberedIsRecorded | daemon/src/hardware_detection.rs:269-288 | what is remembered is, field by field, what was recorded last |
| PollTier.RestingPassIff | daemon/src/hardware_detection.rs:220-265 | after a pass that found rest a tick is the next pass exactly when the adapter is awake and answers and it was seen suspended last or 45 seconds have passed |
| PollTier.FirstQueryIsImmediate | daemon/src/hardware_detection.rs:224-227 | an adapter never queried before is queried at the first tick that finds it awake and answering |
| PollTier.SuspendedInAnyCase | daemon/src/hardware_detection.rs:221 | "suspended" is recognised in any case of its letters, and nothing else is |
| PollTier.LowerCharIs | daemon/src/hardware_detection.rs:352 | the capitals become the small letters in order, every other character stays |
| PollTier.RestingPassesAreRationed | daemon/src/hardware_detection.rs:220-288 | over any resting stretch, each pass costs 45 s or one suspended sighting |
| PollTier.WorkKeepsPollingLive | daemon/src/hardware_detection.rs:238-254 | after a pass that found work, until the next one, a tick is a pass exactly when the adapter is awake and its handles can be had |
| PollTier.ListingOrderIsIrrelevant | daemon/src/hardware_detection.rs:344-369 | permuting the sysfs list changes neither the runtime word nor the suspended decision of a device |
| PollTier.AdapterHasItsOwnWord | daemon/src/hardware_detection.rs:344-369 | a listed adapter has its own word, an unlisted one none, and without an identity only a single pairing counts |
| PollTier.DecisionFollowsWord | daemon/src/hardware_detection.rs:1920-1935 | the decision about suspension is the word's |
| ClevoFans.PercentRoundTrip | daemon/src/tuxedo_io.rs:263-271 | every percentage survives the raw byte |
| ClevoFans.RawRoundTripIsClose | daemon/src/tuxedo_io.rs:263-271 | a raw byte comes back within one |
| ClevoFans.ConversionsAreNearest | daemon/src/tuxedo_io.rs:263-271 | both conversions round to the nearest value of the other scale |
| ClevoFans.TuxedoIo.InvalidateSpeedCache | daemon/src/tuxedo_io.rs:127-133 | the cache is wholly dropped, the fans stay |
| ClevoFans.TuxedoIo.ReadSpeeds | daemon/src/tuxedo_io.rs:442-463 | the loop reads all counted fans or reports failure, and uncounted fans read zero |
| ClevoFans.TuxedoIo.SetFanSpeed | daemon/src/tuxedo_io.rs:417-559 | the manual set with all its exits equals the specification |
| ClevoFans.TuxedoIo.SetFanAuto | daemon/src/tuxedo_io.rs:584-604 | firmware takes over and the cache is dropped, only on success |
| ClevoFans.TuxedoIo.ForceNextSpeedWrite | daemon/src/tuxedo_io.rs:404-415 | the cache is dropped |
| ClevoFans.AcceptedSetHolds | daemon/src/tuxedo_io.rs:417-559 | an accepted set of a counted fan read every counted fan, leaves this one at the requested speed, the others alone, and a write less than 30 s old |
| ClevoFans.SetAnswers | daemon/src/tuxedo_io.rs:417-559 | what a set answers in every case, and that without a write it leaves everything but auto mode and the dropped cache |
| ClevoFans.WriteIs | daemon/src/tuxedo_io.rs:475-543 | a write commands this fan the request, the other counted fans what they read and the rest zero, and is remembered so |
| ClevoFans.AutoIsLeftAgain | daemon/src/tuxedo_io.rs:428-440 | after auto mode the next set takes the fans back and writes, or is rejected and changes nothing |
| ClevoFans.LeavingAutoWrites | daemon/src/tuxedo_io.rs:428-440 | a set that leaves auto mode writes, whatever the cache held |
| ClevoFans.RepeatedSetIsSkipped | daemon/src/tuxedo_io.rs:510-528 | the same set again within the interval writes nothing |
| ClevoFans.StaleSetWrites | daemon/src/tuxedo_io.rs:110-120 | from 30 s after the last write on an accepted set writes |
| ClevoFans.InvalidatedForgets | daemon/src/tuxedo_io.rs:127-133 | dropping the cache forgets every commanded speed and the last write and moves no fan |
| ClevoFans.UncountedFanIsSkippedBlindly | daemon/src/tuxedo_io.rs:450-463 | the manual set alone, for a running fan beyond the count: a set to zero is accepted and skipped |
| ClevoFans.AcceptedSetIsTrustedIff | daemon/src/tuxedo_io.rs:417-559 | without its callers' precautions an accepted set is right in every state exactly for counted fans and for speeds above zero |
| ClevoFans.WriteStopsUncountedFans | daemon/src/tuxedo_io.rs:450-485 | every accepted write commands zero to all other fans beyond the count |
| FanControl.ApplyFanCurves | daemon/src/main.rs:662-686 | the loop over the curves, with its skips, equals its specification |
| FanControl.SetUserSpeed | daemon/src/hardware_control.rs:1276-1283 | clamp, forced write and set equal the specification |
| FanControl.CurvesHold | daemon/src/main.rs:662-686 | after the loop a fan whose last curve was accepted stands at that curve's speed, later curves notwithstanding |
| FanControl.UserSetIsRight | daemon/src/hardware_control.rs:1276-1286 | an accepted user command with nothing in between always writes, is right for every fan, leaves the other counted fans alone and stops the uncounted ones |
| FanControl.InterruptedUserSetIsRight | daemon/src/hardware_control.rs:1282-1283 | with a pass over the curves between forcing and setting, an accepted user command is still right for every fan |
| FanControl.CallersAreNeverWrong | daemon/src/main.rs:664-666 | neither caller can present the case in which an accepted set is wrong |
| ClevoFans.CacheRefinesAlwaysWriting | daemon/src/tuxedo_io.rs:110-120 | over any commands and any drift the counted fans stand as if every set had written |
| ClevoFans.FirstAcceptedSetWrites | daemon/src/tuxedo_io.rs:413-440 | after auto or force the first accepted set writes |
| ClevoFans.ForgottenFanWrites | daemon/src/tuxedo_io.rs:127-133 | after the cache is dropped each fan's own first accepted set above zero writes, even with other fans written in between |
| FanCurve.CalculateFanSpeed | daemon/src/main.rs:968-997 | the search loop equals the curve, and its trailing fallback is unreachable for any list |
| FanCurve.CurveIsLinear | daemon/src/main.rs:985-994 | inside the curve the first two points that enclose the temperature decide: the speed is their weighted mean, rounded to the nearest with a tie going up |
| FanCurve.CurveOutside | daemon/src/main.rs:969-983 | no points give 50, one point its speed, and off the ends the speed of the end |
| FanCurve.SpeedBetweenNeighbours | daemon/src/main.rs:985-994 | inside the curve the segment found rises in temperature and the rounded result is between its two speeds |
| FanCurve.CurveThroughPoints | daemon/src/main.rs:977-994 | at a point's own temperature the curve gives its speed |
| FanCurve.HotterIsNeverSlower | daemon/src/main.rs:968-997 | with speeds that never fall, a hotter reading never slows the fan, after rounding and across segments |
| SysfsPath.NormalizedComponents | daemon/src/hardware_control.rs:188-201 | the loop with its early refusal equals the component list |
| SysfsPath.IsAllowedSysfsPath | daemon/src/hardware_control.rs:235-244 | the allowlist search answers the specified question |
| SysfsPath.ComponentsArePlain | daemon/src/hardware_control.rs:188-201 | no accepted list holds an empty, "." or ".." component; an absolute path is refused exactly for a ".." segment |
| SysfsPath.NormalizeAppends | daemon/src/hardware_control.rs:193-199 | accepted parts of a path add up, and one refused part refuses the whole |
| SysfsPath.NormalizeOne | daemon/src/hardware_control.rs:194-198 | an empty or "." segment vanishes, ".." refuses, anything else stays |
| SysfsPath.EmptyAndDotVanish | daemon/src/hardware_control.rs:183-185 | a doubled slash or "." segment anywhere leaves the components as they were |
| SysfsPath.JoinSplit | daemon/src/hardware_control.rs:193 | joining the segments of a path gives it back |
| SysfsPath.CanonicalRoundTrip | daemon/src/hardware_control.rs:203-209 | the written spelling has the components that were checked, so canonicalising is idempotent |
| SysfsPath.SpellingIsFaithful | daemon/src/hardware_control.rs:203-209 | same canonical spelling exactly for same components |
| SysfsPath.GuardSysfsWrite | daemon/src/hardware_control.rs:376-392 | canonicalise, check that spelling, write that spelling |
| SysfsPath.GuardDecides | daemon/src/hardware_control.rs:376-392 | the guard writes exactly what has components, is allowed and obeys the rules, and names its reason otherwise |
| SysfsPath.WrittenIsChecked | daemon/src/hardware_control.rs:376-392 | what is written has the components of the given path, is canonical, allowed, and passed the value rules |
| SysfsPath.DecisionIgnoresSpelling | daemon/src/hardware_control.rs:376-392 | two paths get the same decision and target for every allowlist, contents and rules exactly when their components are the same |
| SysfsPath.ContainmentIsImplied | daemon/src/hardware_control.rs:211-233 | a path has the template's shape exactly when it also passes the containment check, as the comment says |
| SysfsPath.AllowedIff | daemon/src/hardware_control.rs:235-244 | a path is allowed exactly when some template has its length and fixes no other component than its own |
| SysfsPath.AllowedStaysInSubtree | daemon/src/hardware_control.rs:211-244 | an allowed path has its template's depth and its full literal prefix, as components and as text |
| JobScheduler.Scheduler.PopEarliest | daemon/src/polling_scheduler.rs:43-48 | takes out one job that no other precedes |
| JobScheduler.Scheduler.CollectDue | daemon/src/polling_scheduler.rs:160-167 | takes out exactly the due jobs, in order of their time |
| JobScheduler.Scheduler.ExecuteDueJobs | daemon/src/polling_scheduler.rs:155-182 | one batch: due jobs run in order and return with a time counted from the end of their run |
| JobScheduler.Scheduler.UpdateJobInterval | daemon/src/polling_scheduler.rs:185-201 | every job of that id gets the interval and a new time, others stay |
| JobScheduler.Scheduler.RemoveJob | daemon/src/polling_scheduler.rs:204-211 | exactly the jobs of that id go |
| JobScheduler.DueJobsRunExactlyOnce | daemon/src/polling_scheduler.rs:155-182 | a batch runs a job as often as it is in the heap when due, and never otherwise |
| JobScheduler.BatchRunsInOrder | daemon/src/polling_scheduler.rs:155-171 | a batch runs earliest first, and nothing before its time |
| JobScheduler.RunJobsGoBack | daemon/src/polling_scheduler.rs:34-39 | each run job is back with a time counted from the end of its run |
| JobScheduler.OtherJobsStay | daemon/src/polling_scheduler.rs:155-182 | what is not due stays, and the number of jobs does not change |
| JobScheduler.RemovalIsExact | daemon/src/polling_scheduler.rs:204-211 | removal takes out every job of the id and no other, however often it is there |
| JobScheduler.RemovedJobsDoNotRun | daemon/src/polling_scheduler.rs:204-211 | no batch runs a removed job |
| JobScheduler.ResetJobsWait | daemon/src/polling_scheduler.rs:185-201 | no batch runs a reset job before its new interval is over |
| JobScheduler.JobsAreConserved | daemon/src/polling_scheduler.rs:155-182 | ids and intervals are the same bag before and after |
| JobScheduler.BatchLeavesOnlyZeroIntervalsDue | daemon/src/polling_scheduler.rs:34-39 | what is due again after a batch has interval zero |
| JobScheduler.SecondBatchIsEmpty | daemon/src/polling_scheduler.rs:155-182 | with positive intervals a second batch at the same time runs nothing |
| RefreshCoordinator.InFlightSet.TryBegin | gui/src/polling_scheduler.rs:42-57 | a claim is granted or counted as skipped |
| RefreshCoordinator.InFlightSet.DropPermit | gui/src/polling_scheduler.rs:82-89 | a dropped permit frees its component |
| RefreshCoordinator.OnePermitPerComponent | gui/src/polling_scheduler.rs:42-90 | over any interleaving each component has at most one live permit, exactly while marked, and grants plus skips are the attempts |
| RefreshCoordinator.GrantedIffFree | gui/src/polling_scheduler.rs:42-57 | over any interleaving a claim is granted exactly when the component has no live permit |
| RefreshCoordinator.WaitIsExact | gui/src/polling_scheduler.rs:361-394 | a polled component is due after the reported wait and not before |
| RefreshCoordinator.PausedIsNeverDue | gui/src/polling_scheduler.rs:361-386 | a paused component is never due and asks for an hour |
| RefreshCoordinator.Coordinator.SleepDuration | gui/src/polling_scheduler.rs:433-438 | the loop sleeps for the least wait of all components, or 100 ms without any |
| RefreshCoordinator.Coordinator.Tick | gui/src/polling_scheduler.rs:442-450 | each due component is called once and marked, the others are untouched |
| RefreshCoordinator.TickIsItsVisits | gui/src/polling_scheduler.rs:442-450 | the tick is the sequence of single visits in any order |
| RefreshCoordinator.Coordinator.ChangePollSet | gui/src/polling_scheduler.rs:464-484 | after the command exactly the components left out are paused |
| RefreshCoordinator.Coordinator.ResumeAll | gui/src/polling_scheduler.rs:485-501 | nothing is paused, nothing else moves |
| RefreshCoordinator.StateFollowsHistory | gui/src/polling_scheduler.rs:452-503 | for any commands: present iff registered, paused iff left out by the latest poll set since registration, interval is the one given last |
| RefreshCoordinator.CallbacksAreSpaced | gui/src/polling_scheduler.rs:352-378 | two callbacks of a component are the interval in force apart, and none comes while it is left out |
| RefreshCoordinator.CallbackIff | gui/src/polling_scheduler.rs:361-450 | for any commands a turn calls back exactly when the component is registered, not left out, and was never called back since or the interval in force has passed |
| FrameTimes.PercentileIsNearestRank | docs/development/tools/frametime_stats.py:98-112 | at least p percent of the frames are no slower than the percentile, and any smaller value covers fewer |
| FrameTimes.PercentileOutside | docs/development/tools/frametime_stats.py:98-112 | a share of zero or less is the fastest frame, 100 percent or more the slowest, and no frames have none |
| FrameTimes.WorstIsTheShare | docs/development/tools/frametime_stats.py:115-122 | the slowest frames are the fewest that make up the share, at least one and at most all |
| FrameTimes.LowPercentIsTheMeanRate | docs/development/tools/frametime_stats.py:115-123 | the low-percent rate is a thousand over the mean of exactly those frames, unbounded when it is not positive |
| FrameTimes.LowPercentIsBelowPercentile | docs/development/tools/frametime_stats.py:98-123 | the worst-q-percent frame rate never exceeds the one of the (100 - q)-th percentile frame |

## Left out

- OffsetRanges.DrainOffsetInRangeIff: leaves out a critical range over the top of the temperature window, where a component outside its own band can still fall into the other one; `DrainInOwnBandIff` covers that case.
- OffsetRanges.TargetAntitone: one direction only, because rounding can hide a rise of the total; `TotalOffsetAntitoneIff` is exact before rounding.
- FanControl.UserSetIsRight: takes forcing and setting as one step; in the code the curve loop can run in between, and then the set may skip its write, which `InterruptedUserSetIsRight` covers for a whole pass. Interleavings inside a single set are not modelled.
- A build with overflow checks, which would stop at a wrapping 32-bit difference.
- RefreshCoordinator.Coordinator.SleepDuration: the order in which a hash map yields its components is not modelled, because `TickIsItsVisits` shows it does not matter.
- Floating-point rounding, infinities and NaN: `f32` is `real`, and the saturating cast is modelled on exact values; the cast of a static offset to 32 bits in the card is not.
- One NVIDIA adapter: the step's index is dropped, and whether the index is known is an input of a tick.
- Apply, tick and take are atomic with respect to each other in `GpuController`; the lock-level interleaving is modelled for the slot alone, in `PendingSlot`.
- A failed GPU operation leaves the card as it was; NVML, RM ioctl and the gate are inputs.
- Direct D-Bus setters of offsets and clocks, and the overclock statistics shown by the GUI.
- Log-once flags, log texts, mutex poisoning, Tokio timing and weak memory order.
- The non-GPU steps of a profile, which succeed or fail as a whole before and after the GPU step.
- Senders that use the channel without the latch, and a closed channel.
- GPU fan polling and NVML handles of adapters that are not live; the tick of several adapters is reduced to one adapter and the flag that another one is live.
- The heap's inner order: the scheduler's heap is a list from which an earliest job is taken.
- The Uniwill fan arm, TDP limits, sorting of fan points (no fan-curve theorem needs it), and the fan temperature reads, which are inputs.
- The concrete allowlist and the value rules after the path check, which are parameters.
- JSON, configuration migration, hardware parsers, lookup tables, egui pages, tray and window code.
- Loading and printing in the frame-time tool.
