/**
 The remembered dynamic offset and the offset on the card: which steps keep them
 equal, exactly, and what the dynamic part of a tick does when nothing changes.
 */
module GpuCache {
  import opened Wrappers
  import opened Rounding
  import opened DynamicOffset
  import opened GpuOps
  import opened GpuController
  import opened GpuRuns

  /** The remembered dynamic offset is the one on the card. */
  predicate CacheAgrees(s: State) {
    s.lastOffset.Some? ==> s.adapter.core == s.lastOffset.value
  }

  // ----- what a list of operations does to the core offset -----

  /** Only the one operation that writes the core offset decides where it ends. */
  lemma {:induction false} CoreAfterOps(a: Adapter, ops: seq<GpuOp>, results: seq<OpResult>, k: nat)
    requires k < |ops| && ops[k].SetCoreOffset?
    requires forall j :: 0 <= j < |ops| && j != k ==> !ops[j].SetCoreOffset?
    ensures RunOps(a, ops, results).0.core == if Outcome(results, k).Done? then Round(ops[k].mhz) else a.core
  {
    var n := |ops| - 1;
    if k < n {
      CoreAfterOps(a, ops[..n], results, k);
    } else {
      OffsetsKept(a, ops[..n], results);
    }
  }

  /** Where the core offset stands among the static operations. */
  function CoreIndex(g: GpuSettings): nat {
    if g.powerLimit.Some? then 1 else 0
  }

  lemma CoreAfterStaticOps(a: Adapter, g: GpuSettings, results: seq<OpResult>)
    ensures RunOps(a, StaticOps(g), results).0.core ==
            if g.coreOffset.Some? && Outcome(results, CoreIndex(g)).Done? then Round(g.coreOffset.value) else a.core
  {
    var ops := StaticOps(g);
    FanOpsAreFans(g.fans);
    assert forall j :: |ClockOps(g)| <= j < |ops| ==> ops[j] in FanOps(g.fans);
    if g.coreOffset.Some? {
      assert ops[CoreIndex(g)] == SetCoreOffset(g.coreOffset.value);
      CoreAfterOps(a, ops, results, CoreIndex(g));
    } else {
      OffsetsKept(a, ops, results);
    }
  }

  // ----- exactly which steps keep cache and card equal -----

  /** The attempt writes no core offset, fails to, or writes the remembered one. */
  predicate AttemptSparesCache(last: Option<int>, g: GpuSettings, results: seq<OpResult>) {
    || last.None?
    || g.coreOffset.None?
    || !Outcome(results, CoreIndex(g)).Done?
    || Round(g.coreOffset.value) == last.value
  }

  lemma RetryKeepsCacheIff(s: State, results: seq<OpResult>)
    requires CacheAgrees(s) && s.pending.Some?
    ensures CacheAgrees(Retry(s, true, results).0) <==>
            AttemptSparesCache(s.lastOffset, s.pending.value.settings, results)
  {
    CoreAfterStaticOps(s.adapter, s.pending.value.settings, results);
  }

  lemma ApplyKeepsCacheIff(s: State, p: Profile, e: ApplyEnv)
    requires CacheAgrees(s)
    ensures CacheAgrees(Apply(s, p, e).0) <==>
            !ReachesGpuStep(s, p, e) || !e.gate || AttemptSparesCache(s.lastOffset, p.gpu, e.results)
  {
    CoreAfterStaticOps(s.adapter, p.gpu, e.results);
  }

  /** A release that cleared the core offset and failed elsewhere, while another offset is remembered. */
  predicate HalfDoneRelease(last: Option<int>, results: seq<OpResult>) {
    && Outcome(results, 1).Done?
    && !(Outcome(results, 0).Done? && Outcome(results, 2).Done?)
    && last.Some? && last.value != 0
  }

  lemma ReleaseKeepsCacheIff(s: State, e: TickEnv)
    requires CacheAgrees(s)
    ensures CacheAgrees(ReleaseStep(s, e)) <==> !HalfDoneRelease(s.lastOffset, e.releaseResults)
  {
    AttemptIsFinalIffNoGateRefusal(s.adapter, RELEASE_OPS, e.releaseResults);
    CoreAfterOps(s.adapter, RELEASE_OPS, e.releaseResults, 1);
  }

  /** After its retry, a tick keeps cache and card equal unless it leaves a release half done. */
  lemma CacheFollowsCard(s: State, e: TickEnv)
    requires CacheAgrees(Retry(s, e.retryGate, e.retryResults).0)
    ensures CacheAgrees(Tick(s, e).0) <==>
            !(Observe(s, e).1 == Release && HalfDoneRelease(s.lastOffset, e.releaseResults))
  {
    RetryMoves(s, e);
    TickFromObserved(s, e);
    ReleaseKeepsCacheIff(Observed(s, e), e);
    DynamicPartKeepsCache(Observed(s, e), e);
  }

  lemma DynamicPartKeepsCache(s: State, e: TickEnv)
    requires CacheAgrees(s)
    ensures CacheAgrees(DynamicPart(s, e))
  {}

  // ----- whole ticks and whole runs -----

  /** The retry moves the card away from the cache. */
  predicate RetrySpoils(s: State, e: TickEnv) {
    && s.pending.Some? && e.retryGate
    && !AttemptSparesCache(s.lastOffset, s.pending.value.settings, e.retryResults)
  }

  /** The target the dynamic part would write, and whether the gates let it. */
  function DynamicTarget(g: GpuSettings, e: TickEnv): Option<int> {
    if !g.advancedControl || !g.manualClocks || !e.dynamicGate || !e.telemetry.Sample? then None
    else if e.telemetry.pstate.None? || e.telemetry.frequency.None? then None
    else if e.telemetry.pstate != Some("P0") then if e.clearGate then Some(0) else None
    else
      var t := if e.telemetry.temperature.Some? then e.telemetry.temperature.value else 0.0;
      var p := if e.telemetry.power.Some? then e.telemetry.power.value else 0.0;
      Some(Target(g.advanced, e.telemetry.frequency.value as real, t, p))
  }

  /** The dynamic part forgets the cached offset, or writes another one. */
  predicate DynamicRepairs(s: State, e: TickEnv) {
    || s.daemon.None?
    || (e.indexKnown &&
        var g := s.daemon.value;
        || !g.advancedControl || !g.manualClocks
        || (DynamicTarget(g, e).Some? && DynamicTarget(g, e) != s.lastOffset && Outcome(e.dynamicResults, 0).Done?))
  }

  /** A release brings the card to the cached offset, or the cache to the card. */
  predicate ReleaseRepairs(s: State, e: TickEnv) {
    Outcome(e.releaseResults, 1).Done?
    && (s.lastOffset == Some(0) || (Outcome(e.releaseResults, 0).Done? && Outcome(e.releaseResults, 2).Done?))
  }

  /** What is left of the tick after its retry brings cache and card together again. */
  predicate TickRepairs(s: State, e: TickEnv) {
    var (idle, action) := Observe(s, e);
    match action
    case Release => ReleaseRepairs(s, e)
    case Restore => false
    case NoAction =>
      !idle.released && !idle.releasePending && !IdleLongEnough(idle.since, e.now) && DynamicRepairs(s, e)
  }

  lemma DynamicPartRepairsIff(s: State, e: TickEnv)
    requires !CacheAgrees(s)
    ensures CacheAgrees(DynamicPart(s, e)) <==> DynamicRepairs(s, e)
  {
    if s.daemon.Some? && DynamicTarget(s.daemon.value, e).Some? {
      RoundOfInteger(DynamicTarget(s.daemon.value, e).value);
    }
  }

  lemma ReleaseRepairsIff(s: State, e: TickEnv)
    requires !CacheAgrees(s)
    ensures CacheAgrees(ReleaseStep(s, e)) <==> ReleaseRepairs(s, e)
  {
    AttemptIsFinalIffNoGateRefusal(s.adapter, RELEASE_OPS, e.releaseResults);
    CoreAfterOps(s.adapter, RELEASE_OPS, e.releaseResults, 1);
  }

  lemma TickRepairsIff(s: State, e: TickEnv)
    requires !CacheAgrees(Retry(s, e.retryGate, e.retryResults).0)
    ensures CacheAgrees(Tick(s, e).0) <==> TickRepairs(s, e)
  {
    RetryMoves(s, e);
    TickFromObserved(s, e);
    ReleaseRepairsIff(Observed(s, e), e);
    DynamicPartRepairsIff(Observed(s, e), e);
  }

  /** A whole tick, exactly: what its retry spoils the rest must repair, and what was in order it must not spoil. */
  predicate TickKeepsCache(s: State, e: TickEnv) {
    if RetrySpoils(s, e) then TickRepairs(s, e)
    else !(Observe(s, e).1 == Release && HalfDoneRelease(s.lastOffset, e.releaseResults))
  }

  lemma TickKeepsCacheIff(s: State, e: TickEnv)
    requires CacheAgrees(s)
    ensures CacheAgrees(Tick(s, e).0) <==> TickKeepsCache(s, e)
  {
    if s.pending.Some? && e.retryGate {
      RetryKeepsCacheIff(s, e.retryResults);
    }
    if RetrySpoils(s, e) {
      TickRepairsIff(s, e);
    } else {
      CacheFollowsCard(s, e);
    }
  }

  predicate StepKeepsCache(s: State, i: Input) {
    match i
    case DoTick(e) => TickKeepsCache(s, e)
    case DoApply(p, e) =>
      !ReachesGpuStep(s, p, e) || !e.gate || AttemptSparesCache(s.lastOffset, p.gpu, e.results)
    case DoTake => true
  }

  lemma StepKeepsCacheIff(s: State, i: Input)
    requires CacheAgrees(s)
    ensures CacheAgrees(Step(s, i).0) <==> StepKeepsCache(s, i)
  {
    match i
    case DoTick(e) => TickKeepsCacheIff(s, e);
    case DoApply(p, e) => ApplyKeepsCacheIff(s, p, e);
    case DoTake =>
  }

  lemma RunKeepsCache(r: Run, k: nat)
    requires IsRun(r) && k < |r.inputs| && CacheAgrees(r.states[k])
    ensures CacheAgrees(r.states[k + 1]) <==> StepKeepsCache(r.states[k], r.inputs[k])
  {
    assert StepAt(r, k);
    StepKeepsCacheIff(r.states[k], r.inputs[k]);
  }

  /** Over a run cache and card agree throughout exactly when every step keeps them so. */
  lemma {:induction false} CacheAgreesThroughoutIff(r: Run, n: nat)
    requires IsRun(r) && n <= |r.inputs|
    ensures (forall k :: 0 <= k <= n ==> CacheAgrees(r.states[k]))
            <==> forall k :: 0 <= k < n ==> StepKeepsCache(r.states[k], r.inputs[k])
  {
    if n > 0 {
      CacheAgreesThroughoutIff(r, n - 1);
      if CacheAgrees(r.states[n - 1]) {
        RunKeepsCache(r, n - 1);
      }
    }
  }

  /** With manual clocks under advanced control the dynamic part writes its target, or nothing when there is none. */
  lemma DynamicPartWritesItsTarget(s: State, g: GpuSettings, e: TickEnv)
    requires g.advancedControl && g.manualClocks
    ensures DynamicTarget(g, e).None? ==> DynamicStep(s, g, e) == s
    ensures DynamicTarget(g, e).Some? && Outcome(e.dynamicResults, 0).Done? ==>
              DynamicStep(s, g, e).lastOffset == DynamicTarget(g, e)
    ensures DynamicTarget(g, e).Some? && DynamicTarget(g, e) != s.lastOffset && Outcome(e.dynamicResults, 0).Done? ==>
              DynamicStep(s, g, e).adapter.core == DynamicTarget(g, e).value
  {
    if DynamicTarget(g, e).Some? {
      RoundOfInteger(DynamicTarget(g, e).value);
    }
  }

  /** The tick decides on no action, no release stands or is under way, and idleness is short. */
  predicate RunsDynamic(s: State, e: TickEnv) {
    var (idle, action) := Observe(s, e);
    && action == NoAction && !idle.released && !idle.releasePending
    && (idle.since.Some? ==> e.now - idle.since.value < 30_000)
  }

  /** Such a tick brings card and cache to the target of the settings in force. */
  lemma TickSteersTheOffset(s: State, e: TickEnv)
    ensures RunsDynamic(s, e) && e.indexKnown && s.daemon.Some? ==>
              var g := s.daemon.value;
              g.advancedControl && g.manualClocks && Outcome(e.dynamicResults, 0).Done?
              && DynamicTarget(g, e).Some? && CacheAgrees(Retry(s, e.retryGate, e.retryResults).0) ==>
                Tick(s, e).0.lastOffset == DynamicTarget(g, e)
                && Tick(s, e).0.adapter.core == DynamicTarget(g, e).value
  {
    RetryMoves(s, e);
    TickFromObserved(s, e);
    if s.daemon.Some? && s.daemon.value.advancedControl && s.daemon.value.manualClocks {
      DynamicPartWritesItsTarget(Observed(s, e), s.daemon.value, e);
    }
  }

  /** A target reaches the card unless the cache already claims it and the card disagrees. */
  lemma TargetLandsIff(s: State, target: int)
    ensures OffsetTarget(s, target, Done).adapter.core == target <==>
            s.lastOffset != Some(target) || s.adapter.core == target
  {
    RoundOfInteger(target);
  }

  /** A static attempt moves the card without the cache, so a later target equal to the stale entry is never written. */
  lemma StaticAttemptLeavesCacheStale(s: State, results: seq<OpResult>, r: OpResult)
    requires s.pending.Some? && s.pending.value.settings.coreOffset == Some(120.0) && s.lastOffset == Some(0)
    requires Retry(s, true, results).1.value.failures == []
    ensures var t := Retry(s, true, results).0;
            OffsetTarget(t, 0, r) == t && t.adapter.core == 120 && !CacheAgrees(t)
  {
    CleanAttemptCarries(s.adapter, s.pending.value.settings, results);
  }

  /** Under unchanged telemetry a dynamic offset that was written is not written again, whatever the gate does. */
  lemma DynamicOffsetSettles(s: State, g: GpuSettings, e: TickEnv, f: TickEnv)
    requires g.advancedControl && g.manualClocks
    requires e.dynamicGate && e.clearGate && Outcome(e.dynamicResults, 0).Done? && f.telemetry == e.telemetry
    ensures DynamicStep(DynamicStep(s, g, e), g, f) == DynamicStep(s, g, e)
    ensures DynamicStep(s, g, e).adapter.issued <= s.adapter.issued + 1
    ensures CacheAgrees(s) ==> CacheAgrees(DynamicStep(s, g, e))
  {
    if e.telemetry.Sample? {
      OffsetTargetSettles(s, 0, Outcome(f.dynamicResults, 0));
      var t := e.telemetry;
      if t.frequency.Some? {
        var target := Target(g.advanced, t.frequency.value as real,
                             if t.temperature.Some? then t.temperature.value else 0.0,
                             if t.power.Some? then t.power.value else 0.0);
        OffsetTargetSettles(s, target, Outcome(f.dynamicResults, 0));
      }
    }
  }

  lemma OffsetTargetSettles(s: State, target: int, r: OpResult)
    ensures var t := OffsetTarget(s, target, Done);
            t.lastOffset == Some(target) && OffsetTarget(t, target, r) == t
            && t.adapter.issued <= s.adapter.issued + 1 && (CacheAgrees(s) ==> CacheAgrees(t))
  {
    RoundOfInteger(target);
  }

  /** Clearing happens exactly when the gate is open and the note says anything but two zeros, and then says so. */
  lemma ClearIff(s: State, g: GpuSettings, e: TickEnv)
    requires !g.manualClocks
    ensures var t := DynamicStep(s, g, e);
            && t.lastOffset == None
            && (t.adapter.issued > s.adapter.issued <==> e.dynamicGate && s.adapter.recorded != Some((0.0, 0.0)))
            && (t.adapter.issued == s.adapter.issued ==> t.adapter == s.adapter)
            && (e.dynamicGate ==> t.adapter.recorded == Some((0.0, 0.0)))
  {}

  /**
   With manual clocks off the offsets are cleared in one attempt and the attempt is
   recorded as done, so it is never repeated: the card is clear exactly when each
   write succeeded or had nothing to undo.
   */
  lemma ClearIsTriedOnce(s: State, g: GpuSettings, e: TickEnv, f: TickEnv)
    requires !g.manualClocks && e.dynamicGate && NeedsClear(s.adapter.recorded)
    ensures var t := DynamicStep(s, g, e);
            && t.adapter.issued == s.adapter.issued + 2
            && DynamicStep(t, g, f) == t
            && (t.adapter.core == 0 <==> Outcome(e.dynamicResults, 0).Done? || s.adapter.core == 0)
            && (t.adapter.memory == 0 <==> Outcome(e.dynamicResults, 1).Done? || s.adapter.memory == 0)
  {}
}
