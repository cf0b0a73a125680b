/**
 The daemon's GPU overclock controller: profile apply with a deferred GPU step,
 the poll tick with its retry, idle release and restore, and the dynamic offset.

 The first half is the specification, a state machine on values with one adapter;
 the second half is the controller that updates its state in place and is proved
 to take exactly those steps. Apply, tick and take are atomic with respect to
 each other. Times are milliseconds of one monotone clock.
 */
module GpuController {
  import opened Wrappers
  import opened DynamicOffset
  import opened GpuOps
  import opened DeferredReport
  import opened Common
  import PollTier

  const IDLE_RELEASE_AFTER := 30_000
  const IDLE_RELEASE_RETRY_AFTER := 5_000

  /** `rest` stands for everything outside the GPU settings. */
  datatype Profile = Profile(gpu: GpuSettings, rest: int)

  datatype PendingStep = PendingStep(settings: GpuSettings, origin: Origin)

  datatype IdleState = IdleState(
    since: Option<int>,
    released: bool,
    releasePending: bool,
    lastAttempt: Option<int>,
    seenGeneration: nat)

  datatype State = State(
    pending: Option<PendingStep>,
    marker: Option<Profile>,
    generation: nat,
    daemon: Option<GpuSettings>,
    idle: IdleState,
    lastOffset: Option<int>,
    reports: ReportState,
    adapter: Adapter)

  predicate Initial(s: State) {
    s == State(None, None, 0, None, IdleState(None, false, false, None, 0), None, EMPTY, s.adapter)
  }

  // ----- one attempt at a GPU step -----

  datatype Attempt = Attempt(step: PendingStep, failures: seq<OpFailure>, final: bool)

  /** The poll tick's retry of the deferred step. The pre-check reads the write gate. */
  function Retry(s: State, gate: bool, results: seq<OpResult>): (State, Option<Attempt>) {
    if s.pending.None? || !gate then (s, None) else
    var step := s.pending.value;
    var (adapter, failures) := RunOps(s.adapter, StaticOps(step.settings), results);
    var final := Consumed(failures);
    (s.(adapter := adapter,
        pending := if final then None else s.pending,
        reports := if final then Publish(s.reports, step.origin, failures) else s.reports),
     Some(Attempt(step, failures, final)))
  }

  // ----- profile apply -----

  /** The non-GPU steps before and after the GPU step succeed or fail as a whole. */
  datatype ApplyEnv = ApplyEnv(
    earlierStepsOk: bool, cpuWarnings: seq<string>,
    gate: bool, results: seq<OpResult>,
    laterStepsOk: bool)

  datatype ApplyOutcome =
    | AlreadyApplied
    | Completed(warnings: seq<string>, deferred: bool)
    | Aborted
    | GpuRejected(fatal: seq<string>)

  /** Did this apply get as far as its GPU step? */
  predicate ReachesGpuStep(s: State, p: Profile, e: ApplyEnv) {
    s.marker != Some(p) && e.earlierStepsOk
  }

  function GpuStep(s: State, p: Profile, e: ApplyEnv): (State, seq<OpFailure>, bool) {
    var deferred := Some(PendingStep(p.gpu, ProfileApply));
    if !e.gate then (s.(pending := deferred), [], true) else
    var (adapter, failures) := RunOps(s.adapter, StaticOps(p.gpu), e.results);
    var final := Consumed(failures);
    (s.(adapter := adapter, pending := if final then None else deferred), failures, !final)
  }

  function Apply(s: State, p: Profile, e: ApplyEnv): (State, ApplyOutcome) {
    var s0 := s.(daemon := Some(p.gpu));
    if s0.marker == Some(p) then (s0, AlreadyApplied) else
    var s1 := s0.(generation := s0.generation + 1);
    if !e.earlierStepsOk then (s1.(marker := None), Aborted) else
    var (s2, failures, deferred) := GpuStep(s1, p, e);
    if !e.laterStepsOk then (s2.(marker := None), Aborted)
    else if Fatal(failures) != [] then (s2.(marker := None), GpuRejected(Fatal(failures)))
    else (s2.(marker := if deferred then None else Some(p)), Completed(e.cpuWarnings + Warnings(failures), deferred))
  }

  // ----- the idle release machine -----

  datatype IdleAction = NoAction | Release | Restore

  function ResetIdle(i: IdleState, generation: nat, settingsPresent: bool, hasOverclock: bool): IdleState {
    if i.seenGeneration != generation || !settingsPresent || !hasOverclock
    then IdleState(None, false, false, None, generation)
    else i
  }

  function NextIdleSince(previous: Option<int>, now: int, load: Option<real>,
                         flag: bool, hasOverclock: bool, writable: bool, released: bool): Option<int> {
    if flag && hasOverclock && writable && !released && load.Some? && load.value <= PollTier.WORK_UTILIZATION_PERCENT
    then Some(if previous.Some? then previous.value else now)
    else None
  }

  predicate IdleLongEnough(since: Option<int>, now: int) {
    since.Some? && Elapsed(since.value, now) >= IDLE_RELEASE_AFTER
  }

  predicate RetryReady(lastAttempt: Option<int>, now: int) {
    lastAttempt.Some? ==> Elapsed(lastAttempt.value, now) >= IDLE_RELEASE_RETRY_AFTER
  }

  function DecideIdleAction(flag: bool, idleLongEnough: bool, hasOverclock: bool, writable: bool,
                            released: bool, releasePending: bool, loadHigh: bool, retryReady: bool): IdleAction {
    if !flag || !hasOverclock then NoAction
    else if (released || releasePending) && loadHigh then Restore
    else if !released && writable && retryReady && idleLongEnough then Release
    else NoAction
  }

  // ----- the poll tick -----

  datatype Telemetry =
    | Unreadable
    | Absent
    | Sample(pstate: Option<string>, frequency: Option<nat>, temperature: Option<real>, power: Option<real>)

  /**
   What one tick observes. The write gate is read afresh by the retry, by the
   tick's own decision, by the dynamic part and by its clearing branch.
   `monitorLoad` is the load another job stored last.
   */
  datatype TickEnv = TickEnv(
    now: int,
    indexKnown: bool,
    retryGate: bool, retryResults: seq<OpResult>,
    gate: bool,
    ownLoad: Option<real>, monitorLoad: Option<real>,
    releaseResults: seq<OpResult>,
    dynamicGate: bool, clearGate: bool, telemetry: Telemetry, dynamicResults: seq<OpResult>)

  datatype TickOutcome = TickOutcome(action: IdleAction, retry: Option<Attempt>)

  function Writable(e: TickEnv): bool {
    e.indexKnown && e.gate
  }

  predicate Flag(settings: Option<GpuSettings>) {
    settings.Some? && settings.value.releaseWhenIdle
  }

  predicate Overclocked(settings: Option<GpuSettings>) {
    settings.Some? && HasOverclock(settings.value)
  }

  /** The load the tick decides on: read now when a release is possible, else the stored one. */
  function LoadSeen(settings: Option<GpuSettings>, released: bool, e: TickEnv): Option<real> {
    if Flag(settings) && Overclocked(settings) && Writable(e) && !released then e.ownLoad else e.monitorLoad
  }

  predicate LoadIsHigh(load: Option<real>) {
    load.Some? && load.value > PollTier.WORK_UTILIZATION_PERCENT
  }

  /** The idle state with this tick's observation folded in, and the action it leads to. */
  function Observe(s: State, e: TickEnv): (IdleState, IdleAction) {
    var idle := ResetIdle(s.idle, s.generation, s.daemon.Some?, Overclocked(s.daemon));
    var load := LoadSeen(s.daemon, idle.released, e);
    var flag, hasOverclock := Flag(s.daemon), Overclocked(s.daemon);
    var since := NextIdleSince(idle.since, e.now, load, flag, hasOverclock, Writable(e), idle.released);
    var action := DecideIdleAction(flag, IdleLongEnough(since, e.now), hasOverclock, Writable(e),
                                   idle.released, idle.releasePending, LoadIsHigh(load),
                                   RetryReady(idle.lastAttempt, e.now));
    (idle.(since := since), action)
  }

  /** Run the release; only three successes in a row make it complete. */
  function ReleaseStep(s: State, e: TickEnv): State {
    var (adapter, failures) := RunOps(s.adapter, RELEASE_OPS, e.releaseResults);
    var attempted := s.idle.(releasePending := true, lastAttempt := Some(e.now));
    if failures == [] then
      s.(adapter := adapter,
         idle := attempted.(since := None, released := true, releasePending := false, lastAttempt := None),
         lastOffset := Some(0))
    else
      s.(adapter := adapter, idle := attempted.(released := false))
  }

  /** Queue the daemon's settings for the retry and forget the release. */
  function RestoreStep(s: State, e: TickEnv): State {
    if e.indexKnown && s.daemon.Some? then
      s.(pending := Some(PendingStep(s.daemon.value, IdleRestore)),
         idle := s.idle.(since := None, released := false, releasePending := false, lastAttempt := None))
    else s
  }

  /** Write a dynamic offset unless it is the one written last; remember it only on success. */
  function OffsetTarget(s: State, target: int, r: OpResult): State {
    if s.lastOffset == Some(target) then s else
    s.(adapter := Issue(s.adapter, SetCoreOffset(target as real), r),
       lastOffset := if r.Done? then Some(target) else s.lastOffset)
  }

  predicate NeedsClear(recorded: Option<(real, real)>) {
    recorded.Some? ==> recorded.value.0 != 0.0 || recorded.value.1 != 0.0
  }

  function DynamicStep(s: State, g: GpuSettings, e: TickEnv): State {
    if !g.advancedControl || !g.manualClocks then
      var cleared := s.(lastOffset := None);
      if !g.manualClocks && NeedsClear(s.adapter.recorded) && e.dynamicGate then
        var a1 := Issue(s.adapter, SetCoreOffset(0.0), Outcome(e.dynamicResults, 0));
        var a2 := Issue(a1, SetMemoryOffset(0.0), Outcome(e.dynamicResults, 1));
        cleared.(adapter := a2.(recorded := Some((0.0, 0.0))))
      else cleared
    else if !e.dynamicGate then s
    else
      match e.telemetry
      case Unreadable => s
      case Absent => s
      case Sample(pstate, frequency, temperature, power) =>
        if pstate.None? || frequency.None? then s
        else if pstate != Some("P0") then
          if s.lastOffset != Some(0) && e.clearGate then OffsetTarget(s, 0, Outcome(e.dynamicResults, 0)) else s
        else
          var t := if temperature.Some? then temperature.value else 0.0;
          var p := if power.Some? then power.value else 0.0;
          OffsetTarget(s, Target(g.advanced, frequency.value as real, t, p), Outcome(e.dynamicResults, 0))
  }

  /** The tail of a tick that takes no idle action. */
  function DynamicPart(s: State, e: TickEnv): State {
    if s.daemon.None? then s.(lastOffset := None)
    else if e.indexKnown then DynamicStep(s, s.daemon.value, e)
    else s
  }

  function Tick(s: State, e: TickEnv): (State, TickOutcome) {
    var (s1, retry) := Retry(s, e.retryGate, e.retryResults);
    var (idle, action) := Observe(s1, e);
    var s2 := s1.(idle := idle);
    var s3 := match action
      case Release => ReleaseStep(s2, e)
      case Restore => RestoreStep(s2, e)
      case NoAction =>
        if !idle.released && !idle.releasePending && !IdleLongEnough(idle.since, e.now)
        then DynamicPart(s2, e) else s2;
    (s3, TickOutcome(action, retry))
  }

  // ----- steps and runs -----

  datatype Input = DoApply(profile: Profile, apply: ApplyEnv) | DoTick(tick: TickEnv) | DoTake

  datatype Output = ApplyReturned(outcome: ApplyOutcome) | Ticked(tick: TickOutcome) | Took(report: Option<Report>)

  function Step(s: State, i: Input): (State, Output) {
    match i
    case DoApply(p, e) => var (t, o) := Apply(s, p, e); (t, ApplyReturned(o))
    case DoTick(e) => var (t, o) := Tick(s, e); (t, Ticked(o))
    case DoTake => (s.(reports := s.reports.(pending := None)), Took(s.reports.pending))
  }

  // ----- the controller itself -----

  class Controller {
    var pending: Option<PendingStep>
    var marker: Option<Profile>
    var generation: nat
    var daemon: Option<GpuSettings>
    var idleSince: Option<int>
    var released: bool
    var releasePending: bool
    var lastAttempt: Option<int>
    var seenGeneration: nat
    var lastOffset: Option<int>
    const channel: ReportChannel
    var adapter: Adapter  // the card, as the driver leaves it

    function Idle(): IdleState
      reads this
    {
      IdleState(idleSince, released, releasePending, lastAttempt, seenGeneration)
    }

    function View(): State
      reads this, channel
    {
      State(pending, marker, generation, daemon, Idle(), lastOffset, channel.State(), adapter)
    }

    constructor (card: Adapter)
      ensures Initial(View()) && View().adapter == card
      ensures fresh(channel)
    {
      pending, marker, generation, daemon := None, None, 0, None;
      idleSince, released, releasePending, lastAttempt, seenGeneration := None, false, false, None, 0;
      lastOffset := None;
      channel := new ReportChannel();
      adapter := card;
    }

    method Perform(op: GpuOp, r: OpResult) returns (ok: bool)
      modifies this`adapter
      ensures ok == r.Done? && adapter == Issue(old(adapter), op, r)
    {
      adapter := Issue(adapter, op, r);
      ok := r.Done?;
    }

    /** Issue a list of operations; every failure is recorded, none stops the rest. */
    method PerformAll(ops: seq<GpuOp>, results: seq<OpResult>) returns (failures: seq<OpFailure>)
      modifies this`adapter
      ensures (adapter, failures) == RunOps(old(adapter), ops, results)
    {
      failures := [];
      for n := 0 to |ops|
        invariant (adapter, failures) == RunOps(old(adapter), ops[..n], results)
      {
        assert ops[..n + 1][..n] == ops[..n];
        var r := Outcome(results, n);
        var ok := Perform(ops[n], r);
        if !ok {
          failures := failures + [OpFailure(OpName(ops[n]), r.message, r.kind)];
        }
      }
      assert ops[..|ops|] == ops;
    }

    method RetryPending(gate: bool, results: seq<OpResult>) returns (attempt: Option<Attempt>)
      modifies this`pending, this`adapter, channel
      ensures (View(), attempt) == Retry(old(View()), gate, results)
    {
      if pending.None? || !gate {
        return None;
      }
      var step := pending.value;
      var failures := PerformAll(StaticOps(step.settings), results);
      var final := Consumed(failures);
      if final {
        pending := None;
        channel.PublishOutcome(step.origin, failures);
      }
      return Some(Attempt(step, failures, final));
    }

    method ApplyProfile(p: Profile, e: ApplyEnv) returns (outcome: ApplyOutcome)
      modifies this`daemon, this`generation, this`marker, this`pending, this`adapter
      ensures (View(), outcome) == Apply(old(View()), p, e)
    {
      daemon := Some(p.gpu);
      if marker == Some(p) {
        return AlreadyApplied;
      }
      generation := generation + 1;
      if !e.earlierStepsOk {
        marker := None;
        return Aborted;
      }
      var failures: seq<OpFailure> := [];
      var deferred := true;
      if e.gate {
        failures := PerformAll(StaticOps(p.gpu), e.results);
        deferred := !Consumed(failures);
      }
      pending := if deferred then Some(PendingStep(p.gpu, ProfileApply)) else None;
      if !e.laterStepsOk {
        marker := None;
        return Aborted;
      }
      var warnings, fatal := SplitFailures(failures);
      if fatal != [] {
        marker := None;
        return GpuRejected(fatal);
      }
      marker := if deferred then None else Some(p);
      return Completed(e.cpuWarnings + warnings, deferred);
    }

    method ResetIdleState(settingsPresent: bool, hasOverclock: bool)
      modifies this`idleSince, this`released, this`releasePending, this`lastAttempt, this`seenGeneration
      ensures Idle() == ResetIdle(old(Idle()), generation, settingsPresent, hasOverclock)
    {
      if seenGeneration != generation || !settingsPresent || !hasOverclock {
        idleSince, released, releasePending, lastAttempt := None, false, false, None;
        seenGeneration := generation;
      }
    }

    method FinishRelease(allSucceeded: bool)
      modifies this`idleSince, this`released, this`releasePending, this`lastAttempt, this`lastOffset
      ensures Idle() == if allSucceeded
                        then old(Idle()).(since := None, released := true, releasePending := false, lastAttempt := None)
                        else old(Idle()).(released := false, releasePending := true)
      ensures lastOffset == if allSucceeded then Some(0) else old(lastOffset)
    {
      if allSucceeded {
        lastOffset := Some(0);
        idleSince, released, releasePending, lastAttempt := None, true, false, None;
      } else {
        released, releasePending := false, true;
      }
    }

    method ApplyOffsetTarget(target: int, r: OpResult)
      modifies this`lastOffset, this`adapter
      ensures View() == OffsetTarget(old(View()), target, r)
    {
      if lastOffset == Some(target) {
        return;
      }
      var ok := Perform(SetCoreOffset(target as real), r);
      if ok {
        lastOffset := Some(target);
      }
    }

    method RunDynamic(g: GpuSettings, e: TickEnv)
      modifies this`lastOffset, this`adapter
      ensures View() == DynamicStep(old(View()), g, e)
    {
      if !g.advancedControl || !g.manualClocks {
        lastOffset := None;
        if !g.manualClocks && NeedsClear(adapter.recorded) && e.dynamicGate {
          var _ := Perform(SetCoreOffset(0.0), Outcome(e.dynamicResults, 0));
          var _ := Perform(SetMemoryOffset(0.0), Outcome(e.dynamicResults, 1));
          adapter := adapter.(recorded := Some((0.0, 0.0)));
        }
        return;
      }
      if !e.dynamicGate {
        return;
      }
      match e.telemetry {
        case Unreadable =>
        case Absent =>
        case Sample(pstate, frequency, temperature, power) =>
          if pstate.None? || frequency.None? {
            return;
          }
          if pstate != Some("P0") {
            if lastOffset != Some(0) && e.clearGate {
              ApplyOffsetTarget(0, Outcome(e.dynamicResults, 0));
            }
            return;
          }
          var t := if temperature.Some? then temperature.value else 0.0;
          var p := if power.Some? then power.value else 0.0;
          ApplyOffsetTarget(Target(g.advanced, frequency.value as real, t, p), Outcome(e.dynamicResults, 0));
      }
    }

    /** Fold in this tick's observation and decide on the idle action. */
    method ObserveTick(e: TickEnv) returns (idleFor: bool, action: IdleAction)
      modifies this`idleSince, this`released, this`releasePending, this`lastAttempt, this`seenGeneration
      ensures (Idle(), action) == Observe(old(View()), e)
      ensures idleFor == IdleLongEnough(idleSince, e.now)
    {
      var flag, hasOverclock := Flag(daemon), Overclocked(daemon);
      ResetIdleState(daemon.Some?, hasOverclock);
      var load := LoadSeen(daemon, released, e);
      idleSince := NextIdleSince(idleSince, e.now, load, flag, hasOverclock, Writable(e), released);
      idleFor := IdleLongEnough(idleSince, e.now);
      action := DecideIdleAction(flag, idleFor, hasOverclock, Writable(e), released, releasePending,
                                 LoadIsHigh(load), RetryReady(lastAttempt, e.now));
    }

    method ReleaseOverclock(e: TickEnv)
      modifies this`idleSince, this`released, this`releasePending, this`lastAttempt, this`lastOffset, this`adapter
      ensures View() == ReleaseStep(old(View()), e)
    {
      releasePending, lastAttempt := true, Some(e.now);
      var failures := PerformAll(RELEASE_OPS, e.releaseResults);
      FinishRelease(failures == []);
    }

    method QueueRestore(e: TickEnv)
      modifies this`idleSince, this`released, this`releasePending, this`lastAttempt, this`pending
      ensures View() == RestoreStep(old(View()), e)
    {
      if e.indexKnown && daemon.Some? {
        pending := Some(PendingStep(daemon.value, IdleRestore));
        idleSince, released, releasePending, lastAttempt := None, false, false, None;
      }
    }

    method PollTick(e: TickEnv) returns (outcome: TickOutcome)
      modifies this, channel
      ensures (View(), outcome) == Tick(old(View()), e)
    {
      var attempt := RetryPending(e.retryGate, e.retryResults);
      var idleFor, action := ObserveTick(e);
      match action {
        case Release => ReleaseOverclock(e);
        case Restore => QueueRestore(e);
        case NoAction =>
          if !released && !releasePending && !idleFor {
            if daemon.Some? && e.indexKnown {
              RunDynamic(daemon.value, e);
            } else if daemon.None? {
              lastOffset := None;
            }
          }
      }
      outcome := TickOutcome(action, attempt);
    }

    method TakeReport() returns (report: Option<Report>)
      modifies channel
      ensures (View(), Took(report)) == Step(old(View()), DoTake)
    {
      report := channel.Take();
    }
  }
}
