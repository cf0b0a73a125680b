/** What the GPU controller guarantees over whole runs. */
module GpuRuns {
  import opened Wrappers
  import opened GpuOps
  import opened DeferredReport
  import opened GpuController
  import opened Common
  import PollTier

  // ----- runs -----

  datatype Run = Run(states: seq<State>, inputs: seq<Input>, outputs: seq<Output>)

  ghost predicate IsRun(r: Run) {
    && |r.states| == |r.inputs| + 1 == |r.outputs| + 1
    && Initial(r.states[0])
    && forall k :: 0 <= k < |r.inputs| ==> StepAt(r, k)
  }

  predicate StepAt(r: Run, k: int)
    requires 0 <= k < |r.inputs| && |r.states| == |r.inputs| + 1 == |r.outputs| + 1
  {
    (r.states[k + 1], r.outputs[k]) == Step(r.states[k], r.inputs[k])
  }

  predicate TickAt(r: Run, k: int) {
    0 <= k < |r.inputs| && r.inputs[k].DoTick?
  }

  predicate ActionAt(r: Run, k: int, action: IdleAction) {
    TickAt(r, k) && k < |r.outputs| && r.outputs[k].Ticked? && r.outputs[k].tick.action == action
  }

  /** The clock never goes back from one tick to a later one. */
  ghost predicate MonotoneClock(r: Run) {
    forall i, j :: 0 <= i < j < |r.inputs| && TickAt(r, i) && TickAt(r, j) ==>
      r.inputs[i].tick.now <= r.inputs[j].tick.now
  }

  // ----- releases that overtake a waiting step -----

  /** The gate refused the retry's pre-check or one of its operations. */
  predicate RetryRefused(g: GpuSettings, e: TickEnv) {
    || !e.retryGate
    || exists n :: 0 <= n < |StaticOps(g)| && RefusedByGate(Outcome(e.retryResults, n))
  }

  predicate RefusedByGate(r: OpResult) {
    r.Refused? && r.kind == GateClosed
  }

  /** This tick decides to release although its own retry was refused and left a step waiting. */
  predicate Overtakes(s: State, e: TickEnv) {
    s.pending.Some? && RetryRefused(s.pending.value.settings, e) && Observe(s, e).1 == Release
  }

  ghost predicate NoOvertaking(r: Run, from: int, to: int) {
    forall k :: from <= k < to && TickAt(r, k) && k < |r.states| ==> !Overtakes(r.states[k], r.inputs[k].tick)
  }

  /** It overtakes and all three release operations succeed, so the release counts as finished over the waiting step. */
  predicate FalselyReleases(s: State, e: TickEnv) {
    Overtakes(s, e) && forall n :: 0 <= n < |RELEASE_OPS| ==> Outcome(e.releaseResults, n).Done?
  }

  ghost predicate NoFalseRelease(r: Run, from: int, to: int) {
    forall k :: from <= k < to && TickAt(r, k) && k < |r.states| ==> !FalselyReleases(r.states[k], r.inputs[k].tick)
  }

  /** The gate does not open between a tick's retry and its decision, nor close while the retry writes. */
  predicate SteadyGate(e: TickEnv) {
    Writable(e) ==> e.retryGate && forall r <- e.retryResults :: !RefusedByGate(r)
  }

  lemma SteadyGateNeverOvertakes(s: State, e: TickEnv)
    requires SteadyGate(e)
    ensures !Overtakes(s, e)
  {}

  // ----- the invariant -----

  /** The idle flags belong to the settings now in force. */
  predicate Current(s: State) {
    s.idle.seenGeneration == s.generation
  }

  /** What every step keeps, whatever the gate does. */
  predicate AlwaysInv(s: State) {
    && s.idle.seenGeneration <= s.generation
    && !(s.idle.released && s.idle.releasePending)
    && (Current(s) && s.idle.released ==> Overclocked(s.daemon))
    && (s.marker.Some? ==>
          && s.daemon == Some(s.marker.value.gpu)
          && (s.pending.Some? ==> s.pending.value == PendingStep(s.marker.value.gpu, IdleRestore)))
  }

  /** A release that stands for the settings in force: the card is stock, the cache says so, nothing waits. */
  predicate ReleaseIsSound(s: State) {
    Current(s) && s.idle.released ==> IsStock(s.adapter) && s.lastOffset == Some(0) && s.pending == None
  }

  /** Moreover a release begun for the settings in force, finished or not, leaves nothing waiting. */
  predicate ReleaseInv(s: State) {
    ReleaseIsSound(s) && (Current(s) && s.pending.Some? ==> !s.idle.released && !s.idle.releasePending)
  }

  predicate Inv(s: State) {
    AlwaysInv(s) && ReleaseInv(s)
  }

  /** What a retry leaves alone, and when it empties the slot. */
  lemma RetryMoves(s: State, e: TickEnv)
    ensures var t := Retry(s, e.retryGate, e.retryResults).0;
            && t == s.(adapter := t.adapter, pending := t.pending, reports := t.reports)
            && (t.pending.Some? <==> s.pending.Some? && RetryRefused(s.pending.value.settings, e))
            && (t.pending.Some? ==> t.pending == s.pending)
            && (s.pending.None? ==> t == s)
            && Observe(t, e) == Observe(s, e)
  {
    if s.pending.Some? && e.retryGate {
      AttemptIsFinalIffNoGateRefusal(s.adapter, StaticOps(s.pending.value.settings), e.retryResults);
    }
  }

  lemma DynamicPartKeepsRest(s: State, e: TickEnv)
    ensures var t := DynamicPart(s, e);
            t == s.(adapter := t.adapter, lastOffset := t.lastOffset)
  {}

  lemma ReleaseStepIsStock(s: State, e: TickEnv)
    ensures var t := ReleaseStep(s, e);
            && t == s.(adapter := t.adapter, lastOffset := t.lastOffset, idle := t.idle)
            && (t.idle.released ==> IsStock(t.adapter) && t.lastOffset == Some(0))
            && (t.idle.released <==> forall n :: 0 <= n < |RELEASE_OPS| ==> Outcome(e.releaseResults, n).Done?)
            && (t.idle.released <==> !t.idle.releasePending)
            && t.idle.seenGeneration == s.idle.seenGeneration
  {
    AttemptIsFinalIffNoGateRefusal(s.adapter, RELEASE_OPS, e.releaseResults);
    if RunOps(s.adapter, RELEASE_OPS, e.releaseResults).1 == [] {
      CleanReleaseIsStock(s.adapter, e.releaseResults);
    }
  }

  /** The state as a tick decides on it: after its retry, with its observation folded in. */
  function Observed(s: State, e: TickEnv): State {
    Retry(s, e.retryGate, e.retryResults).0.(idle := Observe(s, e).0)
  }

  lemma TickFromObserved(s: State, e: TickEnv)
    ensures var o := Observed(s, e);
            && Tick(s, e).1.action == Observe(s, e).1
            && Tick(s, e).0 == (match Observe(s, e).1
                                case Release => ReleaseStep(o, e)
                                case Restore => RestoreStep(o, e)
                                case NoAction =>
                                  if !o.idle.released && !o.idle.releasePending && !IdleLongEnough(o.idle.since, e.now)
                                  then DynamicPart(o, e) else o)
  {
    RetryMoves(s, e);
  }

  lemma ObservedKeepsInv(s: State, e: TickEnv)
    ensures Current(Observed(s, e))
    ensures AlwaysInv(s) ==> AlwaysInv(Observed(s, e))
    ensures AlwaysInv(s) && ReleaseIsSound(s) ==> ReleaseIsSound(Observed(s, e))
    ensures Inv(s) ==> ReleaseInv(Observed(s, e))
    ensures var t := Observed(s, e); t.pending.Some? <==> s.pending.Some? && RetryRefused(s.pending.value.settings, e)
  {
    RetryMoves(s, e);
  }

  lemma TickKeepsAlways(s: State, e: TickEnv)
    requires AlwaysInv(s)
    ensures AlwaysInv(Tick(s, e).0)
  {
    ObservedKeepsInv(s, e);
    TickFromObserved(s, e);
    ReleaseStepIsStock(Observed(s, e), e);
    DynamicPartKeepsRest(Observed(s, e), e);
  }

  /** The exact condition: a tick breaks the release invariant if and only if it overtakes a waiting step. */
  lemma TickKeepsInvIff(s: State, e: TickEnv)
    requires Inv(s)
    ensures Inv(Tick(s, e).0) <==> !Overtakes(s, e)
  {
    TickKeepsAlways(s, e);
    ObservedKeepsInv(s, e);
    TickFromObserved(s, e);
    ReleaseStepIsStock(Observed(s, e), e);
    DynamicPartKeepsRest(Observed(s, e), e);
  }

  /** A release is sound after a tick if and only if the tick did not finish one over a waiting step. */
  lemma TickKeepsSoundIff(s: State, e: TickEnv)
    requires AlwaysInv(s) && ReleaseIsSound(s)
    ensures ReleaseIsSound(Tick(s, e).0) <==> !FalselyReleases(s, e)
  {
    ObservedKeepsInv(s, e);
    TickFromObserved(s, e);
    ReleaseStepIsStock(Observed(s, e), e);
    DynamicPartKeepsRest(Observed(s, e), e);
  }

  /** An apply that is not skipped makes every flag stale, so it establishes the release invariant from any state. */
  lemma ApplyKeepsInv(s: State, p: Profile, e: ApplyEnv)
    requires AlwaysInv(s)
    ensures AlwaysInv(Apply(s, p, e).0)
    ensures ReleaseIsSound(s) || s.marker != Some(p) ==> ReleaseIsSound(Apply(s, p, e).0)
    ensures ReleaseInv(s) || s.marker != Some(p) ==> ReleaseInv(Apply(s, p, e).0)
  {}

  lemma StepKeepsAlways(s: State, i: Input)
    requires AlwaysInv(s)
    ensures AlwaysInv(Step(s, i).0)
  {
    match i
    case DoApply(p, e) => ApplyKeepsInv(s, p, e);
    case DoTick(e) => TickKeepsAlways(s, e);
    case DoTake =>
  }

  lemma StepKeepsInvIff(s: State, i: Input)
    requires Inv(s)
    ensures Inv(Step(s, i).0) <==> !(i.DoTick? && Overtakes(s, i.tick))
  {
    match i
    case DoApply(p, e) => ApplyKeepsInv(s, p, e);
    case DoTick(e) => TickKeepsInvIff(s, e);
    case DoTake =>
  }

  lemma StepKeepsSoundIff(s: State, i: Input)
    requires AlwaysInv(s) && ReleaseIsSound(s)
    ensures ReleaseIsSound(Step(s, i).0) <==> !(i.DoTick? && FalselyReleases(s, i.tick))
  {
    match i
    case DoApply(p, e) => ApplyKeepsInv(s, p, e);
    case DoTick(e) => TickKeepsSoundIff(s, e);
    case DoTake =>
  }

  lemma RunKeepsSound(r: Run, k: nat)
    requires IsRun(r) && k < |r.inputs| && AlwaysInv(r.states[k]) && ReleaseIsSound(r.states[k])
    ensures ReleaseIsSound(r.states[k + 1]) <==> !(TickAt(r, k) && FalselyReleases(r.states[k], r.inputs[k].tick))
  {
    assert StepAt(r, k);
    StepKeepsSoundIff(r.states[k], r.inputs[k]);
  }

  lemma RunKeepsInv(r: Run, k: nat)
    requires IsRun(r) && k < |r.inputs|
    ensures AlwaysInv(r.states[k]) ==> AlwaysInv(r.states[k + 1])
    ensures Inv(r.states[k]) ==> (Inv(r.states[k + 1]) <==> !(TickAt(r, k) && Overtakes(r.states[k], r.inputs[k].tick)))
  {
    assert StepAt(r, k);
    if AlwaysInv(r.states[k]) {
      StepKeepsAlways(r.states[k], r.inputs[k]);
    }
    if Inv(r.states[k]) {
      StepKeepsInvIff(r.states[k], r.inputs[k]);
    }
  }

  lemma {:induction false} AlwaysHolds(r: Run, k: nat)
    requires IsRun(r) && k < |r.states|
    ensures AlwaysInv(r.states[k])
  {
    if k > 0 {
      AlwaysHolds(r, k - 1);
      RunKeepsInv(r, k - 1);
    }
  }

  lemma {:induction false} InvHolds(r: Run, k: nat)
    requires IsRun(r) && NoOvertaking(r, 0, k) && k < |r.states|
    ensures Inv(r.states[k])
  {
    if k > 0 {
      InvHolds(r, k - 1);
      RunKeepsInv(r, k - 1);
    }
  }

  /** Over a run the invariant holds throughout exactly when no tick overtakes a waiting step. */
  lemma InvHoldsIff(r: Run, n: nat)
    requires IsRun(r) && n < |r.states|
    ensures (forall k :: 0 <= k <= n ==> Inv(r.states[k])) <==> NoOvertaking(r, 0, n)
  {
    if NoOvertaking(r, 0, n) {
      forall k | 0 <= k <= n
        ensures Inv(r.states[k])
      {
        InvHolds(r, k);
      }
    } else {
      var k :| 0 <= k < n && TickAt(r, k) && Overtakes(r.states[k], r.inputs[k].tick);
      RunKeepsInv(r, k);
      assert !Inv(r.states[k]) || !Inv(r.states[k + 1]);
    }
  }

  // ----- released means stock -----

  /**
   While a release stands for the settings in force, the card is stock, the last
   written offset is zero and nothing is waiting to be written.
   */
  lemma {:induction false} ReleasedMeansStock(r: Run, k: nat)
    requires IsRun(r) && NoFalseRelease(r, 0, k) && k < |r.states|
    ensures ReleaseIsSound(r.states[k])
  {
    if k > 0 {
      AlwaysHolds(r, k - 1);
      ReleasedMeansStock(r, k - 1);
      RunKeepsSound(r, k - 1);
    }
  }

  /** The exact condition: that holds throughout a run if and only if no tick finishes a release over a waiting step. */
  lemma ReleasedMeansStockIff(r: Run, n: nat)
    requires IsRun(r) && n < |r.states|
    ensures (forall k :: 0 <= k <= n ==> ReleaseIsSound(r.states[k])) <==> NoFalseRelease(r, 0, n)
  {
    if NoFalseRelease(r, 0, n) {
      forall k | 0 <= k <= n
        ensures ReleaseIsSound(r.states[k])
      {
        ReleasedMeansStock(r, k);
      }
    } else {
      var k :| 0 <= k < n && TickAt(r, k) && FalselyReleases(r.states[k], r.inputs[k].tick);
      AlwaysHolds(r, k);
      if ReleaseIsSound(r.states[k]) {
        RunKeepsSound(r, k);
      }
      assert !ReleaseIsSound(r.states[k]) || !ReleaseIsSound(r.states[k + 1]);
    }
  }

  /** A tick that finds a sound release issues nothing; only a restore ends the release. */
  lemma ReleasedTickIsSilent(s: State, e: TickEnv)
    requires AlwaysInv(s) && ReleaseIsSound(s) && s.idle.released && Current(s)
    ensures var (t, o) := Tick(s, e);
            && t.adapter == s.adapter && t.lastOffset == s.lastOffset && t.generation == s.generation
            && o.retry == None && o.action != Release && ReleaseIsSound(t)
            && (o.action == NoAction ==> t.idle.released && Current(t))
  {
    TickKeepsSoundIff(s, e);
    TickFromObserved(s, e);
  }

  /** A skipped apply changes nothing at all. */
  lemma SkippedApplyChangesNothing(s: State, p: Profile, e: ApplyEnv)
    requires AlwaysInv(s) && s.marker == Some(p)
    ensures Apply(s, p, e) == (s, AlreadyApplied)
  {}

  lemma {:induction false} GenerationGrows(r: Run, i: nat, j: nat)
    requires IsRun(r) && i <= j < |r.states|
    ensures r.states[i].generation <= r.states[j].generation
    decreases j
  {
    if i < j {
      GenerationGrows(r, i, j - 1);
      assert StepAt(r, j - 1);
      StepGeneration(r.states[j - 1], r.inputs[j - 1]);
    }
  }

  lemma StepGeneration(s: State, i: Input)
    ensures var t := Step(s, i).0;
            t.generation == if i.DoApply? && s.marker != Some(i.profile) then s.generation + 1 else s.generation
  {
    if i.DoTick? {
      TickFromObserved(s, i.tick);
      RetryMoves(s, i.tick);
      DynamicPartKeepsRest(Observed(s, i.tick), i.tick);
    }
  }

  /**
   From a standing release on, nothing is issued to the card for as long as no
   profile apply gets past its skip check and no earlier tick restored. Only the
   ticks up to the release must not have finished one over a waiting step.
   */
  lemma {:induction false} ReleasedRunIsSilent(r: Run, i: nat, j: nat)
    requires IsRun(r) && NoFalseRelease(r, 0, i) && i <= j < |r.states|
    requires r.states[i].idle.released && Current(r.states[i])
    requires r.states[j].generation == r.states[i].generation
    requires forall k :: i <= k < j - 1 ==> !ActionAt(r, k, Restore)
    ensures ReleaseIsSound(r.states[j])
    ensures r.states[j].adapter == r.states[i].adapter && r.states[j].lastOffset == r.states[i].lastOffset
    ensures (i < j ==> !ActionAt(r, j - 1, Restore)) ==> r.states[j].idle.released && Current(r.states[j])
    decreases j
  {
    if i == j {
      ReleasedMeansStock(r, i);
    } else {
      AlwaysHolds(r, j - 1);
      GenerationGrows(r, i, j - 1);
      assert StepAt(r, j - 1);
      var s, input := r.states[j - 1], r.inputs[j - 1];
      StepGeneration(s, input);
      ReleasedRunIsSilent(r, i, j - 1);
      assert i < j - 1 ==> !ActionAt(r, j - 2, Restore);
      match input
      case DoApply(p, e) => SkippedApplyChangesNothing(s, p, e);
      case DoTick(e) =>
        assert TickAt(r, j - 1);
        ReleasedTickIsSilent(s, e);
      case DoTake =>
    }
  }

  // ----- the deferred step -----

  predicate ReachedAt(r: Run, k: int) {
    0 <= k < |r.inputs| < |r.states| && r.inputs[k].DoApply?
    && ReachesGpuStep(r.states[k], r.inputs[k].profile, r.inputs[k].apply)
  }

  /** Step `k` attempted `g` on behalf of a profile, with no operation refused by the gate. */
  predicate FinallyAttempted(r: Run, k: int, g: GpuSettings) {
    && 0 <= k < |r.inputs| < |r.states| && k < |r.outputs|
    && match r.inputs[k]
       case DoApply(p, e) =>
         ReachedAt(r, k) && p.gpu == g && e.gate
         && Consumed(RunOps(r.states[k].adapter, StaticOps(g), e.results).1)
       case DoTick(_) =>
         && r.outputs[k].Ticked? && r.outputs[k].tick.retry.Some?
         && r.outputs[k].tick.retry.value.final
         && r.outputs[k].tick.retry.value.step == PendingStep(g, ProfileApply)
       case DoTake => false
  }

  /** A restore finds the slot empty: it can replace no step, a profile's least of all. */
  lemma RestoreOverwritesNothing(s: State, e: TickEnv)
    requires Inv(s) && Tick(s, e).1.action == Restore
    ensures s.pending == None && Retry(s, e.retryGate, e.retryResults).0 == s
  {
    RetryMoves(s, e);
    TickFromObserved(s, e);
  }

  /** A tick finally attempts the waiting step or leaves it waiting. */
  predicate TickSparesStep(s: State, e: TickEnv) {
    s.pending.Some? ==>
      var (t, o) := Tick(s, e);
      || (o.retry.Some? && o.retry.value.final && o.retry.value.step == s.pending.value)
      || t.pending == s.pending
  }

  lemma PendingTick(s: State, e: TickEnv)
    requires Inv(s)
    ensures TickSparesStep(s, e)
  {
    if s.pending.Some? {
      RetryMoves(s, e);
      TickFromObserved(s, e);
      ReleaseStepIsStock(Observed(s, e), e);
      DynamicPartKeepsRest(Observed(s, e), e);
    }
  }

  /**
   Once an apply reaches its GPU step, its settings are finally attempted, still
   waiting, or superseded by a later apply that reached its own GPU step. Only the
   ticks in between must not overtake it; what came before the apply does not matter.
   */
  lemma {:induction false} DeferredStepIsNeverLost(r: Run, i: nat, n: nat)
    requires IsRun(r) && i < n < |r.states| && NoOvertaking(r, i, n) && ReachedAt(r, i)
    ensures || r.states[n].pending == Some(PendingStep(r.inputs[i].profile.gpu, ProfileApply))
            || (exists j :: i <= j < n && FinallyAttempted(r, j, r.inputs[i].profile.gpu))
            || (exists j :: i < j < n && ReachedAt(r, j))
    ensures Inv(r.states[n])
    decreases n
  {
    var g := r.inputs[i].profile.gpu;
    var s, input := r.states[n - 1], r.inputs[n - 1];
    assert StepAt(r, n - 1);
    if n == i + 1 {
      AlwaysHolds(r, i);
      ApplyKeepsInv(s, input.profile, input.apply);
      if input.apply.gate && Consumed(RunOps(s.adapter, StaticOps(g), input.apply.results).1) {
        assert FinallyAttempted(r, i, g);
      }
    } else {
      DeferredStepIsNeverLost(r, i, n - 1);
      assert input.DoTick? ==> TickAt(r, n - 1);
      StepKeepsInvIff(s, input);
      if s.pending == Some(PendingStep(g, ProfileApply)) {
        match input
        case DoApply(p, e) => assert ReachesGpuStep(s, p, e) ==> ReachedAt(r, n - 1);
        case DoTick(e) =>
          PendingTick(s, e);
          if r.outputs[n - 1].tick.retry.Some? && r.outputs[n - 1].tick.retry.value.final {
            assert FinallyAttempted(r, n - 1, g);
          }
        case DoTake =>
      }
    }
  }

  /** What an overtaking tick leaves open to a restore: a busy tick whose retry is refused replaces the waiting step. */
  lemma OvertakenStepCanBeLost(s: State, e: TickEnv) returns (f: TickEnv)
    requires Overtakes(s, e)
    ensures var t := Tick(s, e).0;
            && t.pending == s.pending && Tick(t, f).1 == TickOutcome(Restore, None)
            && Tick(t, f).0.pending == Some(PendingStep(s.daemon.value, IdleRestore))
  {
    RetryMoves(s, e);
    TickFromObserved(s, e);
    ReleaseStepIsStock(Observed(s, e), e);
    f := e.(retryGate := false, ownLoad := Some(50.0), monitorLoad := Some(50.0));
    TickFromObserved(Tick(s, e).0, f);
  }

  /** Exactly: every next tick spares a waiting profile step if and only if this one does not overtake it. */
  lemma NextTickSparesStepIff(s: State, e: TickEnv)
    requires Inv(s) && s.pending.Some? && s.pending.value.origin == ProfileApply
    ensures (forall f :: TickSparesStep(Tick(s, e).0, f)) <==> !Overtakes(s, e)
  {
    TickKeepsInvIff(s, e);
    if Overtakes(s, e) {
      var f := OvertakenStepCanBeLost(s, e);
      assert !TickSparesStep(Tick(s, e).0, f);
    } else {
      forall f
        ensures TickSparesStep(Tick(s, e).0, f)
      {
        PendingTick(Tick(s, e).0, f);
      }
    }
  }

  /** The retry empties the slot exactly when the gate let every operation through, and then on the step it held. */
  lemma SlotClearedIffAttemptFinal(s: State, gate: bool, results: seq<OpResult>)
    requires s.pending.Some?
    ensures var (t, a) := Retry(s, gate, results);
            var ops := StaticOps(s.pending.value.settings);
            && (t.pending.None? <==>
                  gate && forall n :: 0 <= n < |ops| ==> !RefusedByGate(Outcome(results, n)))
            && (t.pending.Some? ==> t.pending == s.pending)
            && (a.Some? <==> gate)
            && (a.Some? ==> a.value.step == s.pending.value && t.adapter.issued == s.adapter.issued + |ops|)
            && (a.None? ==> t == s)
  {
    AttemptIsFinalIffNoGateRefusal(s.adapter, StaticOps(s.pending.value.settings), results);
  }

  /** Applied-but-deferred is reported only when the pre-check refused; a gate closing mid-apply rejects the profile. */
  lemma DeferredMeansPreCheckRefused(s: State, p: Profile, e: ApplyEnv)
    ensures var (t, o) := Apply(s, p, e);
            && (o.Completed? && o.deferred ==> !e.gate && t.pending == Some(PendingStep(p.gpu, ProfileApply)))
            && (o.Completed? && !o.deferred ==> e.gate && t.pending == None)
            && (ReachesGpuStep(s, p, e) && e.gate && t.pending.Some? ==> o.Aborted? || o.GpuRejected?)
  {
    SplitCoversFailures(RunOps(s.adapter, StaticOps(p.gpu), e.results).1);
  }

  /** Some operation of the step failed for another reason than not being supported. */
  predicate FailsGenuinely(g: GpuSettings, results: seq<OpResult>) {
    exists n :: 0 <= n < |StaticOps(g)| && Outcome(results, n).Refused? && Outcome(results, n).kind != Unsupported
  }

  lemma FatalIffFailsGenuinely(a: Adapter, g: GpuSettings, results: seq<OpResult>)
    ensures var failures := RunOps(a, StaticOps(g), results).1;
            && (Fatal(failures) != [] <==> FailsGenuinely(g, results))
            && |Warnings(failures)| + |Fatal(failures)| == Refusals(StaticOps(g), results)
  {
    var ops, failures := StaticOps(g), RunOps(a, StaticOps(g), results).1;
    FailuresAreTheRefusals(a, ops, results);
    SplitCoversFailures(failures);
    if k :| 0 <= k < |failures| && failures[k].kind != Unsupported {
      var n := RecordOrigin(a, ops, results, k);
      assert FailsGenuinely(g, results);
    }
    if n :| 0 <= n < |ops| && Outcome(results, n).Refused? && Outcome(results, n).kind != Unsupported {
      assert RecordStands(failures, ops, results, n);
      assert failures[Refusals(ops[..n], results)] in failures;
    }
  }

  /**
   What an apply answers, by what happened: skipped exactly for the marked profile,
   aborted exactly when another step failed, rejected exactly for a genuine GPU
   failure, and completed otherwise, with the CPU warnings and one more for each
   unsupported operation. The daemon steers by the profile in every case.
   */
  lemma ApplyAnswers(s: State, p: Profile, e: ApplyEnv)
    ensures var (t, o) := Apply(s, p, e);
            var genuine := e.gate && FailsGenuinely(p.gpu, e.results);
            && t.daemon == Some(p.gpu)
            && (o.AlreadyApplied? <==> s.marker == Some(p))
            && (o.Aborted? <==> s.marker != Some(p) && !(e.earlierStepsOk && e.laterStepsOk))
            && (o.GpuRejected? <==> s.marker != Some(p) && e.earlierStepsOk && e.laterStepsOk && genuine)
            && (o.Completed? ==>
                  && o.deferred == !e.gate && e.cpuWarnings <= o.warnings
                  && |o.warnings| == |e.cpuWarnings| + if e.gate then Refusals(StaticOps(p.gpu), e.results) else 0)
            && (o.GpuRejected? ==> o.fatal != [])
            && t.marker == (if o.AlreadyApplied? then s.marker
                            else if o.Completed? && !o.deferred then Some(p) else None)
            && t.generation == s.generation + if o.AlreadyApplied? then 0 else 1
  {
    FatalIffFailsGenuinely(s.adapter, p.gpu, e.results);
    SplitCoversFailures(RunOps(s.adapter, StaticOps(p.gpu), e.results).1);
    assert e.cpuWarnings + [] == e.cpuWarnings;
  }

  /** A releasing tick leaves a waiting step behind exactly when its own retry was refused. */
  lemma ReleaseLeavesStepIff(s: State, e: TickEnv)
    requires Tick(s, e).1.action == Release && s.pending.Some?
    ensures Tick(s, e).0.pending.Some? <==> RetryRefused(s.pending.value.settings, e)
    ensures SteadyGate(e) ==> Tick(s, e).0.pending == None
  {
    RetryMoves(s, e);
    TickFromObserved(s, e);
    ReleaseStepIsStock(Observed(s, e), e);
  }

  /** Three ticks whose gate opens between retry and decision: idle, idle long enough, and busy again. */
  function IdleEnv(t: int): TickEnv {
    TickEnv(t, true, false, [], true, Some(0.0), None, [], true, true, Absent, [])
  }

  function ReleaseEnv(t: int): TickEnv {
    IdleEnv(t + IDLE_RELEASE_AFTER)
  }

  function BusyEnv(t: int): TickEnv {
    ReleaseEnv(t).(monitorLoad := Some(50.0))
  }

  /** They turn a profile's waiting step into a restore that nobody is told about. */
  lemma UnsteadyGateLosesAStep(s: State, g: GpuSettings, t: int)
    requires s.pending == Some(PendingStep(g, ProfileApply)) && s.daemon == Some(g) && Current(s)
    requires s.idle == IdleState(None, false, false, None, s.generation)
    requires g.releaseWhenIdle && HasOverclock(g)
    ensures var s1 := Tick(s, IdleEnv(t)).0;
            var s2 := Tick(s1, ReleaseEnv(t)).0;
            FalselyReleases(s1, ReleaseEnv(t)) && Tick(s2, BusyEnv(t)).0.pending == Some(PendingStep(g, IdleRestore))
  {
    var s1 := Tick(s, IdleEnv(t)).0;
    assert s1.idle == s.idle.(since := Some(t)) by {
      assert Observe(s, IdleEnv(t)) == (s.idle.(since := Some(t)), NoAction);
      DynamicPartKeepsRest(s.(idle := s.idle.(since := Some(t))), IdleEnv(t));
    }
    assert s1.pending == s.pending && s1.daemon == s.daemon && s1.generation == s.generation;
    assert Observe(s1, ReleaseEnv(t)).1 == Release;
    TickFromObserved(s1, ReleaseEnv(t));
    ReleaseStepIsStock(Observed(s1, ReleaseEnv(t)), ReleaseEnv(t));
    var s2 := Tick(s1, ReleaseEnv(t)).0;
    assert s2.idle.released && s2.pending == s.pending && s2.daemon == s.daemon && Current(s2);
    TickFromObserved(s2, BusyEnv(t));
  }

  /** The run of the given inputs from a state. */
  function RunFrom(s: State, inputs: seq<Input>): (r: Run)
    ensures r.inputs == inputs && |r.states| == |inputs| + 1 == |r.outputs| + 1 && r.states[0] == s
    ensures forall k :: 0 <= k < |inputs| ==> StepAt(r, k)
  {
    if inputs == [] then Run([s], [], []) else
    var n := |inputs| - 1;
    var before := RunFrom(s, inputs[..n]);
    var (t, o) := Step(before.states[n], inputs[n]);
    var r := Run(before.states + [t], inputs, before.outputs + [o]);
    assert forall k :: 0 <= k < n ==> StepAt(before, k) ==> StepAt(r, k);
    r
  }

  /** A tick that sees the gate shut all along. */
  function ShutEnv(t: int): TickEnv {
    TickEnv(t, true, false, [], false, None, None, [], false, false, Absent, [])
  }

  const DEFERRING := ApplyEnv(true, [], false, [], true)

  /** It happens from the start: a deferred apply, one tick with the gate shut, and those three ticks. */
  lemma StepIsLostFromTheStart(s: State, p: Profile, t: int) returns (r: Run)
    requires Initial(s) && p.gpu.releaseWhenIdle && HasOverclock(p.gpu)
    ensures IsRun(r) && |r.inputs| == 5 && r.states[0] == s && ReachedAt(r, 0) && r.inputs[0].profile == p
    ensures r.states[1].pending == Some(PendingStep(p.gpu, ProfileApply))
    ensures r.states[5].pending == Some(PendingStep(p.gpu, IdleRestore))
    ensures forall k :: 1 <= k < 5 ==> TickAt(r, k) && r.outputs[k].Ticked? && r.outputs[k].tick.retry == None
  {
    r := RunFrom(s, [DoApply(p, DEFERRING), DoTick(ShutEnv(t)),
                     DoTick(IdleEnv(t)), DoTick(ReleaseEnv(t)), DoTick(BusyEnv(t))]);
    assert r.states[1] == Apply(s, p, DEFERRING).0 by {
      assert StepAt(r, 0);
    }
    forall k | 1 <= k < 5
      ensures TickAt(r, k) && r.outputs[k].Ticked? && r.outputs[k].tick.retry == None
      ensures r.states[k + 1] == Tick(r.states[k], r.inputs[k].tick).0
    {
      TickUnretried(r, k);
    }
    LostAfterDeferredApply(r.states[1], r.states[2], r.states[3], r.states[4], p.gpu, t);
  }

  lemma LostAfterDeferredApply(s1: State, s2: State, s3: State, s4: State, g: GpuSettings, t: int)
    requires s1.pending == Some(PendingStep(g, ProfileApply)) && s1.daemon == Some(g) && !Current(s1)
    requires s1.idle == IdleState(None, false, false, None, s1.idle.seenGeneration)
    requires g.releaseWhenIdle && HasOverclock(g)
    requires s2 == Tick(s1, ShutEnv(t)).0 && s3 == Tick(s2, IdleEnv(t)).0 && s4 == Tick(s3, ReleaseEnv(t)).0
    ensures Tick(s4, BusyEnv(t)).0.pending == Some(PendingStep(g, IdleRestore))
  {
    WaitsBehindShutGate(s1, g, t);
    UnsteadyGateLosesAStep(s2, g, t);
  }

  lemma TickUnretried(r: Run, k: nat)
    requires |r.states| == |r.inputs| + 1 == |r.outputs| + 1 && k < |r.inputs| && StepAt(r, k)
    requires TickAt(r, k) && !r.inputs[k].tick.retryGate
    ensures r.outputs[k].Ticked? && r.outputs[k].tick.retry == None
    ensures r.states[k + 1] == Tick(r.states[k], r.inputs[k].tick).0
  {}

  lemma WaitsBehindShutGate(s: State, g: GpuSettings, t: int)
    requires s.pending == Some(PendingStep(g, ProfileApply)) && s.daemon == Some(g)
    requires s.idle == IdleState(None, false, false, None, s.idle.seenGeneration) && !Current(s) && HasOverclock(g)
    ensures var u := Tick(s, ShutEnv(t)).0;
            && u.pending == s.pending && u.daemon == s.daemon && u.generation == s.generation
            && u.idle == IdleState(None, false, false, None, s.generation)
  {
    TickFromObserved(s, ShutEnv(t));
    DynamicPartKeepsRest(Observed(s, ShutEnv(t)), ShutEnv(t));
  }

  // ----- release, then restore -----

  /** A standing release ends exactly when it was asked for, the stored load shows work and the card is known. */
  lemma ReleaseEndsIffWork(s: State, e: TickEnv)
    requires AlwaysInv(s) && ReleaseIsSound(s) && s.idle.released && Current(s)
    ensures var t, ends := Tick(s, e).0, Flag(s.daemon) && LoadIsHigh(e.monitorLoad) && e.indexKnown;
            && (Tick(s, e).1.action == Restore <==> Flag(s.daemon) && LoadIsHigh(e.monitorLoad))
            && t.idle.released == !ends
            && t.pending == (if ends then Some(PendingStep(s.daemon.value, IdleRestore)) else None)
            && t.adapter == s.adapter
  {
    TickFromObserved(s, e);
  }

  /** An unfinished release ends exactly when it was asked for and the load the tick decides on shows work. */
  lemma UnfinishedReleaseEndsIff(s: State, e: TickEnv)
    requires AlwaysInv(s) && s.idle.releasePending && Current(s) && Overclocked(s.daemon)
    ensures Tick(s, e).1.action == Restore <==>
            Flag(s.daemon) && LoadIsHigh(if e.indexKnown && e.gate then e.ownLoad else e.monitorLoad)
    ensures Tick(s, e).1.action == Restore && e.indexKnown ==>
              var t := Tick(s, e).0;
              !t.idle.releasePending && t.pending == Some(PendingStep(s.daemon.value, IdleRestore))
  {
    TickFromObserved(s, e);
    RetryMoves(s, e);
  }

  /** While a release stands or is unfinished, a tick without an action writes nothing but its retry. */
  lemma ReleaseBlocksDynamic(s: State, e: TickEnv)
    requires (s.idle.released || s.idle.releasePending) && Current(s) && Overclocked(s.daemon)
    requires Tick(s, e).1.action == NoAction
    ensures var t, u := Tick(s, e).0, Retry(s, e.retryGate, e.retryResults).0;
            t.adapter == u.adapter && t.lastOffset == s.lastOffset && t.idle.released == s.idle.released
  {
    TickFromObserved(s, e);
    RetryMoves(s, e);
  }

  /** From release to overclock: one tick that sees work and one clean retry put the settings back on the card. */
  lemma WorkBringsTheOverclockBack(s: State, e: TickEnv, gate: bool, results: seq<OpResult>)
    requires AlwaysInv(s) && ReleaseIsSound(s) && s.idle.released && Current(s)
    requires Flag(s.daemon) && LoadIsHigh(e.monitorLoad) && e.indexKnown
    requires var (_, a) := Retry(Tick(s, e).0, gate, results); a.Some? && a.value.failures == []
    ensures var t := Retry(Tick(s, e).0, gate, results).0;
            Carries(t.adapter, s.daemon.value) && t.pending == None && !t.idle.released
  {
    ReleaseEndsIffWork(s, e);
    TickFromObserved(s, e);
    RestoreRoundTrip(s, e, gate, results);
  }

  /** After a restore, the first retry the gate lets through cleanly puts the settings back on the card. */
  lemma RestoreRoundTrip(s: State, e: TickEnv, gate: bool, results: seq<OpResult>)
    requires Tick(s, e).1.action == Restore && e.indexKnown
    requires var (_, a) := Retry(Tick(s, e).0, gate, results); a.Some? && a.value.failures == []
    ensures var t := Retry(Tick(s, e).0, gate, results).0;
            s.daemon.Some? && Carries(t.adapter, s.daemon.value) && t.pending == None && !t.idle.released
  {
    CleanAttemptCarries(Tick(s, e).0.adapter, s.daemon.value, results);
  }

  /** An apply reported complete without a GPU warning has its GPU settings on the card, and is remembered. */
  lemma CompletedApplyIsOnTheCard(s: State, p: Profile, e: ApplyEnv)
    requires Apply(s, p, e).1 == Completed(e.cpuWarnings, false)
    ensures var t := Apply(s, p, e).0;
            Carries(t.adapter, p.gpu) && t.pending == None && t.marker == Some(p) && t.daemon == Some(p.gpu)
  {
    var failures := RunOps(s.adapter, StaticOps(p.gpu), e.results).1;
    SplitCoversFailures(failures);
    assert |e.cpuWarnings + Warnings(failures)| == |e.cpuWarnings|;
    CleanAttemptCarries(s.adapter, p.gpu, e.results);
  }

  // ----- the report channel -----

  /** What a step is to the report channel: a completed retry, a take, or nothing. */
  function ReportEvents(i: Input, o: Output): seq<Event> {
    match i
    case DoTake => [Taken]
    case DoTick(_) =>
      if o.Ticked? && o.tick.retry.Some? && o.tick.retry.value.final
      then [Completion(o.tick.retry.value.step.origin, o.tick.retry.value.failures)] else []
    case DoApply(_, _) => []
  }

  function ReportHistory(r: Run, n: nat): seq<Event>
    requires n <= |r.inputs| == |r.outputs|
  {
    if n == 0 then [] else ReportHistory(r, n - 1) + ReportEvents(r.inputs[n - 1], r.outputs[n - 1])
  }

  /** The channel after at most one event. */
  function Channel(before: ReportState, events: seq<Event>): ReportState {
    if events == [] then before else
    match events[0]
    case Taken => before.(pending := None)
    case Completion(o, f) => Publish(before, o, f)
  }

  lemma StepPublishes(s: State, i: Input)
    ensures Step(s, i).0.reports == Channel(s.reports, ReportEvents(i, Step(s, i).1))
  {
    if i.DoTick? {
      TickFromObserved(s, i.tick);
      DynamicPartKeepsRest(Observed(s, i.tick), i.tick);
      ReleaseStepIsStock(Observed(s, i.tick), i.tick);
    }
  }

  lemma ChannelIsAfter(history: seq<Event>, events: seq<Event>)
    requires |events| <= 1
    ensures After(history + events) == Channel(After(history), events)
  {
    if events == [] {
      assert history + events == history;
    } else {
      assert (history + events)[..|history|] == history;
    }
  }

  lemma RunPublishes(r: Run, k: nat)
    requires IsRun(r) && k < |r.inputs|
    ensures r.states[k + 1].reports == Channel(r.states[k].reports, ReportEvents(r.inputs[k], r.outputs[k]))
  {
    assert StepAt(r, k);
    StepPublishes(r.states[k], r.inputs[k]);
  }

  ghost predicate ReportsFollow(r: Run, n: nat) {
    n <= |r.inputs| == |r.outputs| && n < |r.states| && r.states[n].reports == After(ReportHistory(r, n))
  }

  lemma ReportsExtend(r: Run, m: nat, n: nat)
    requires IsRun(r) && n == m + 1 <= |r.inputs| && ReportsFollow(r, m)
    ensures ReportsFollow(r, n)
  {
    var before, events := ReportHistory(r, m), ReportEvents(r.inputs[m], r.outputs[m]);
    assert ReportHistory(r, n) == before + events;
    RunPublishes(r, m);
    ChannelIsAfter(before, events);
  }

  /** Over any run the channel is what the completed retries and takes of that run make of it. */
  lemma {:induction false} ReportsFollowRun(r: Run, n: nat)
    requires IsRun(r) && n <= |r.inputs|
    ensures ReportsFollow(r, n)
  {
    if n > 0 {
      ReportsFollowRun(r, n - 1);
      ReportsExtend(r, n - 1, n);
    }
  }

  /** A take hands over the newest report due from the retries of the run so far, once. */
  lemma TakeHandsOverNewest(r: Run, k: nat)
    requires IsRun(r) && k < |r.inputs| && r.inputs[k].DoTake?
    ensures r.outputs[k] == Took(Newest(Undelivered(ReportHistory(r, k))))
    ensures Undelivered(ReportHistory(r, k + 1)) == []
  {
    assert StepAt(r, k);
    ReportsFollowRun(r, k);
    TakeDeliversNewest(ReportHistory(r, k));
    var history := ReportHistory(r, k + 1);
    assert history == ReportHistory(r, k) + [Taken];
  }

  // ----- when releases happen -----

  /** Not even an unsteady gate lets a release be both finished and unfinished. */
  lemma NeverReleasedAndPending(r: Run, k: nat)
    requires IsRun(r) && k < |r.states|
    ensures !(r.states[k].idle.released && r.states[k].idle.releasePending)
  {
    AlwaysHolds(r, k);
  }

  /** How a tick moves the idle clock and the attempt time. */
  predicate IdleMoves(s: State, e: TickEnv, t: State, releases: bool) {
    var reset := ResetIdle(s.idle, s.generation, s.daemon.Some?, Overclocked(s.daemon));
    && (t.idle.since.Some? ==>
          t.idle.since == (if reset.since.Some? then reset.since else Some(e.now)) && IdleTick(s, e))
    && (releases ==>
          && IdleTick(s, e)
          && Elapsed(if reset.since.Some? then reset.since.value else e.now, e.now) >= IDLE_RELEASE_AFTER
          && RetryReady(reset.lastAttempt, e.now)
          && (t.idle.lastAttempt == Some(e.now) || t.idle.since.None?))
    && (!releases ==> t.idle.lastAttempt == reset.lastAttempt || t.idle.since.None?)
  }

  /** It holds whatever the gate does. */
  lemma TickMovesIdle(s: State, e: TickEnv)
    ensures IdleMoves(s, e, Tick(s, e).0, Tick(s, e).1.action == Release)
  {
    TickFromObserved(s, e);
    ReleaseStepIsStock(Observed(s, e), e);
    DynamicPartKeepsRest(Observed(s, e), e);
  }

  /** The tick saw a known load at or below the threshold on a card it could release. */
  predicate IdleTick(s: State, e: TickEnv) {
    && Flag(s.daemon) && Overclocked(s.daemon) && Writable(e)
    && !ResetIdle(s.idle, s.generation, s.daemon.Some?, Overclocked(s.daemon)).released
    && e.ownLoad.Some? && e.ownLoad.value <= PollTier.WORK_UTILIZATION_PERCENT
  }

  /** Ticks from `i` up to `k` all saw idleness, and after `i` none saw a new generation. */
  predicate IdleStretch(r: Run, i: nat, k: nat) {
    && |r.inputs| < |r.states| && k <= |r.inputs|
    && (forall j :: i <= j < k && TickAt(r, j) ==> IdleTick(r.states[j], r.inputs[j].tick))
    && (forall j :: i < j < k && TickAt(r, j) ==> Current(r.states[j]))
  }

  /** The same of a step of a run; what is not a tick leaves the idle state alone. */
  lemma RunMovesIdle(r: Run, k: nat)
    requires IsRun(r) && k < |r.inputs|
    ensures var s, t := r.states[k], r.states[k + 1];
            if TickAt(r, k) then IdleMoves(s, r.inputs[k].tick, t, ActionAt(r, k, Release))
            else t.idle == s.idle
  {
    assert StepAt(r, k);
    if TickAt(r, k) {
      TickMovesIdle(r.states[k], r.inputs[k].tick);
    }
  }

  /** An idle clock that is running was started by a tick, and every tick since saw idleness. */
  lemma {:induction false} IdleClockWitness(r: Run, k: nat) returns (i: nat)
    requires IsRun(r) && k < |r.states| && r.states[k].idle.since.Some?
    ensures i < k && TickAt(r, i) && r.inputs[i].tick.now == r.states[k].idle.since.value
    ensures IdleStretch(r, i, k)
  {
    var s := r.states[k - 1];
    RunMovesIdle(r, k - 1);
    if TickAt(r, k - 1) && !(s.idle.since.Some? && Current(s)) {
      i := k - 1;
    } else {
      i := IdleClockWitness(r, k - 1);
    }
  }

  /** A release at tick `k` was preceded by thirty seconds in which every tick saw an idle, releasable card. */
  lemma ReleaseNeedsThirtyIdleSeconds(r: Run, k: nat) returns (i: nat)
    requires IsRun(r) && ActionAt(r, k, Release)
    ensures i <= k && TickAt(r, i) && r.inputs[k].tick.now - r.inputs[i].tick.now >= IDLE_RELEASE_AFTER
    ensures IdleStretch(r, i, k + 1)
  {
    RunMovesIdle(r, k);
    assert r.states[k].idle.since.Some? && Current(r.states[k]);
    i := IdleClockWitness(r, k);
  }

  /** Everything the idle state remembers after a release attempt at time `t` is from `t` or later. */
  predicate Remembers(i: IdleState, t: int) {
    || (i.lastAttempt.Some? && t <= i.lastAttempt.value)
    || i.since.None?
    || t <= i.since.value
  }

  lemma {:induction false} AttemptIsRemembered(r: Run, i: nat, k: nat)
    requires IsRun(r) && MonotoneClock(r) && ActionAt(r, i, Release) && i < k < |r.states|
    ensures Remembers(r.states[k].idle, r.inputs[i].tick.now)
    decreases k
  {
    RunMovesIdle(r, k - 1);
    if i < k - 1 {
      AttemptIsRemembered(r, i, k - 1);
      assert TickAt(r, k - 1) ==> r.inputs[i].tick.now <= r.inputs[k - 1].tick.now;
    }
  }

  /** Any two release attempts are at least five seconds apart, however the attempt time was erased in between. */
  lemma ReleaseAttemptsAreSpaced(r: Run, i: nat, k: nat)
    requires IsRun(r) && MonotoneClock(r) && i < k && ActionAt(r, i, Release) && ActionAt(r, k, Release)
    ensures r.inputs[k].tick.now - r.inputs[i].tick.now >= IDLE_RELEASE_RETRY_AFTER
  {
    AttemptIsRemembered(r, i, k);
    RunMovesIdle(r, k);
    assert r.inputs[i].tick.now <= r.inputs[k].tick.now;
  }

  // ----- exactly when releases happen -----

  /** The state at `j` still runs the idle clock started by `start`, or has just released. */
  predicate ClockRuns(s: State, start: int) {
    s.idle.released || (s.idle.since.Some? && s.idle.since.value <= start)
  }

  /** Within a stretch every state belongs to the settings in force. */
  lemma {:induction false} StretchIsCurrent(r: Run, i: nat, j: nat, k: nat)
    requires IsRun(r) && i < j <= k && k < |r.inputs| && TickAt(r, k) && IdleStretch(r, i, k + 1)
    ensures Current(r.states[j])
    decreases k - j
  {
    if j < k && !TickAt(r, j) {
      StretchIsCurrent(r, i, j + 1, k);
      assert StepAt(r, j);
      StepGeneration(r.states[j], r.inputs[j]);
      AlwaysHolds(r, j);
    }
  }

  lemma IdleTickKeepsClock(s: State, e: TickEnv, start: int)
    requires IdleTick(s, e) && Current(s) && s.idle.since.Some? && s.idle.since.value <= start && !s.idle.released
    ensures ClockRuns(Tick(s, e).0, start)
  {
    TickFromObserved(s, e);
    ReleaseStepIsStock(Observed(s, e), e);
    DynamicPartKeepsRest(Observed(s, e), e);
  }

  lemma IdleTickStartsClock(s: State, e: TickEnv)
    requires IdleTick(s, e) && (s.idle.since.Some? ==> s.idle.since.value <= e.now)
    ensures ClockRuns(Tick(s, e).0, e.now)
  {
    TickFromObserved(s, e);
    ReleaseStepIsStock(Observed(s, e), e);
    DynamicPartKeepsRest(Observed(s, e), e);
  }

  lemma {:induction false} ClockKeepsRunning(r: Run, i: nat, j: nat, k: nat)
    requires IsRun(r) && MonotoneClock(r) && i < j <= k && k < |r.inputs|
    requires TickAt(r, i) && TickAt(r, k) && IdleStretch(r, i, k + 1)
    ensures ClockRuns(r.states[j], r.inputs[i].tick.now)
    decreases j
  {
    assert StepAt(r, j - 1);
    var s := r.states[j - 1];
    if j - 1 == i {
      if s.idle.since.Some? {
        var w := IdleClockWitness(r, i);
        assert r.inputs[w].tick.now <= r.inputs[i].tick.now;
      }
      IdleTickStartsClock(s, r.inputs[i].tick);
    } else {
      ClockKeepsRunning(r, i, j - 1, k);
      StretchIsCurrent(r, i, j - 1, k);
      if TickAt(r, j - 1) {
        assert IdleTick(s, r.inputs[j - 1].tick);
        IdleTickKeepsClock(s, r.inputs[j - 1].tick, r.inputs[i].tick.now);
      } else {
        RunMovesIdle(r, j - 1);
      }
    }
  }

  /** A remembered attempt was one. */
  lemma {:induction false} AttemptWitness(r: Run, k: nat) returns (j: nat)
    requires IsRun(r) && k < |r.states| && r.states[k].idle.lastAttempt.Some?
    ensures j < k && ActionAt(r, j, Release) && r.inputs[j].tick.now == r.states[k].idle.lastAttempt.value
  {
    var s := r.states[k - 1];
    assert StepAt(r, k - 1);
    if TickAt(r, k - 1) {
      TickMovesAttempt(s, r.inputs[k - 1].tick);
    } else {
      RunMovesIdle(r, k - 1);
    }
    if ActionAt(r, k - 1, Release) {
      j := k - 1;
    } else {
      j := AttemptWitness(r, k - 1);
    }
  }

  lemma TickMovesAttempt(s: State, e: TickEnv)
    ensures var (t, o) := Tick(s, e);
            t.idle.lastAttempt.Some? ==>
              t.idle.lastAttempt == if o.action == Release then Some(e.now) else s.idle.lastAttempt
  {
    TickFromObserved(s, e);
    ReleaseStepIsStock(Observed(s, e), e);
    DynamicPartKeepsRest(Observed(s, e), e);
  }

  /** Thirty seconds of idleness seen by every tick, and no attempt in the last five. */
  ghost predicate DueForRelease(r: Run, k: nat)
    requires k < |r.inputs|
  {
    && TickAt(r, k)
    && (exists i: nat :: i <= k && IdleSince(r, i, k))
    && forall j :: 0 <= j < k && ActionAt(r, j, Release) ==>
         r.inputs[k].tick.now - r.inputs[j].tick.now >= IDLE_RELEASE_RETRY_AFTER
  }

  predicate IdleSince(r: Run, i: nat, k: nat)
    requires i <= k < |r.inputs|
  {
    TickAt(r, i) && TickAt(r, k) && IdleStretch(r, i, k + 1)
    && r.inputs[k].tick.now - r.inputs[i].tick.now >= IDLE_RELEASE_AFTER
  }

  lemma LongIdleReleases(s: State, e: TickEnv)
    requires IdleTick(s, e) && Current(s) && s.idle.since.Some? && !s.idle.released
    requires Elapsed(s.idle.since.value, e.now) >= IDLE_RELEASE_AFTER && RetryReady(s.idle.lastAttempt, e.now)
    ensures Tick(s, e).1.action == Release
  {
    TickFromObserved(s, e);
  }

  /** A tick releases exactly when it is due: the release does happen, and only then. */
  lemma ReleaseIff(r: Run, k: nat)
    requires IsRun(r) && MonotoneClock(r) && k < |r.inputs|
    ensures ActionAt(r, k, Release) <==> DueForRelease(r, k)
  {
    if ActionAt(r, k, Release) {
      var i := ReleaseNeedsThirtyIdleSeconds(r, k);
      assert IdleSince(r, i, k);
      forall j | 0 <= j < k && ActionAt(r, j, Release)
        ensures r.inputs[k].tick.now - r.inputs[j].tick.now >= IDLE_RELEASE_RETRY_AFTER
      {
        ReleaseAttemptsAreSpaced(r, j, k);
      }
    }
    if DueForRelease(r, k) {
      var i: nat :| i <= k && IdleSince(r, i, k);
      var s := r.states[k];
      ClockKeepsRunning(r, i, k, k);
      StretchIsCurrent(r, i, k, k);
      if s.idle.lastAttempt.Some? {
        var j := AttemptWitness(r, k);
      }
      LongIdleReleases(s, r.inputs[k].tick);
      assert StepAt(r, k);
    }
  }

  // ----- the applied marker -----

  predicate RanAt(r: Run, k: int) {
    0 <= k < |r.inputs| && k < |r.outputs| && r.inputs[k].DoApply?
    && r.outputs[k].ApplyReturned? && !r.outputs[k].outcome.AlreadyApplied?
  }

  lemma MarkerOnlyMovesOnApply(s: State, i: Input)
    requires !i.DoApply?
    ensures Step(s, i).0.marker == s.marker
  {
    if i.DoTick? {
      var s1 := Retry(s, i.tick.retryGate, i.tick.retryResults).0;
      DynamicPartKeepsRest(s1.(idle := Observe(s1, i.tick).0), i.tick);
    }
  }

  /**
   A marker `p` means that the last apply that ran was `p`, that it completed
   with nothing deferred, that the daemon steers by its GPU settings, and that
   only an idle restore of those settings can be waiting.
   */
  lemma {:induction false} MarkerIsSound(r: Run, k: nat) returns (i: nat)
    requires IsRun(r) && k < |r.states| && r.states[k].marker.Some?
    ensures i < k && RanAt(r, i) && r.inputs[i].profile == r.states[k].marker.value
    ensures r.outputs[i].outcome.Completed? && !r.outputs[i].outcome.deferred
    ensures forall j :: i < j < k ==> !RanAt(r, j)
    ensures r.states[k].daemon == Some(r.states[k].marker.value.gpu)
    ensures r.states[k].pending.Some? ==>
              r.states[k].pending.value == PendingStep(r.states[k].marker.value.gpu, IdleRestore)
  {
    AlwaysHolds(r, k);
    assert StepAt(r, k - 1);
    if RanAt(r, k - 1) {
      i := k - 1;
    } else {
      var input := r.inputs[k - 1];
      if !input.DoApply? {
        MarkerOnlyMovesOnApply(r.states[k - 1], input);
      }
      i := MarkerIsSound(r, k - 1);
    }
  }

  /** Whether the apply at `k` is skipped is decided by the marker, and the marker by the last apply that ran. */
  lemma {:induction false} UnfinishedApplyClearsMarker(r: Run, i: nat, k: nat)
    requires IsRun(r) && i < k < |r.states| && RanAt(r, i)
    requires !(r.outputs[i].outcome.Completed? && !r.outputs[i].outcome.deferred)
    requires forall j :: i < j < k ==> !RanAt(r, j)
    ensures r.states[k].marker == None
    decreases k
  {
    assert StepAt(r, k - 1);
    if i < k - 1 {
      UnfinishedApplyClearsMarker(r, i, k - 1);
      assert !RanAt(r, k - 1);
      if !r.inputs[k - 1].DoApply? {
        MarkerOnlyMovesOnApply(r.states[k - 1], r.inputs[k - 1]);
      }
    }
  }

  /** A, then B deferred (or failed), then A again: the second A runs. */
  lemma ApplyAfterUnfinishedApplyRuns(r: Run, i: nat, k: nat)
    requires IsRun(r) && i < k < |r.inputs| && RanAt(r, i) && r.inputs[k].DoApply?
    requires !(r.outputs[i].outcome.Completed? && !r.outputs[i].outcome.deferred)
    requires forall j :: i < j < k ==> !RanAt(r, j)
    ensures RanAt(r, k)
  {
    UnfinishedApplyClearsMarker(r, i, k);
    assert StepAt(r, k);
  }
}
