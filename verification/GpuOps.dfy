/**
 GPU settings, the operations the static part of a profile issues, and what an
 adapter looks like after them. Hardware and driver are oracles: the n-th
 operation of an attempt ends as the n-th entry of a result list says, and an
 operation that is not `Done` leaves the adapter as it was.
 */
module GpuOps {
  import opened Wrappers
  import opened Rounding
  import opened DynamicOffset

  datatype FanSetting = FanSetting(device: nat, fan: nat, speed: nat, manual: bool)

  datatype FanState = Auto | Manual(speed: nat)

  /** `rest` stands for the settings that no GPU decision reads. */
  datatype GpuSettings = GpuSettings(
    minClock: Option<nat>, maxClock: Option<nat>,
    manualClocks: bool,
    releaseWhenIdle: bool,
    coreOffset: Option<real>, memoryOffset: Option<real>,
    powerLimit: Option<nat>,
    advancedControl: bool, advanced: AdvancedSettings,
    fans: seq<FanSetting>,
    rest: int)

  /** Anything in these settings that an idle release would have to take back. */
  predicate HasOverclock(g: GpuSettings) {
    || g.manualClocks
    || (g.coreOffset.Some? && g.coreOffset.value != 0.0)
    || (g.memoryOffset.Some? && g.memoryOffset.value != 0.0)
    || g.minClock.Some?
    || g.maxClock.Some?
  }

  datatype FailureKind = Unsupported | GateClosed | Failed
  datatype OpResult = Done | Refused(kind: FailureKind, message: string)
  datatype OpFailure = OpFailure(op: string, message: string, kind: FailureKind)

  datatype GpuOp =
    | SetPowerLimit(watts: nat)
    | SetCoreOffset(mhz: real)
    | SetMemoryOffset(mhz: real)
    | LockClocks(min: nat, max: nat)
    | ResetClocks
    | SetFanSpeed(device: nat, fan: nat, speed: nat)
    | SetFanAuto(device: nat, fan: nat)

  function OpName(op: GpuOp): string {
    match op
    case SetPowerLimit(_) => "set_gpu_power_limit"
    case SetCoreOffset(_) => "set_gpu_core_offset"
    case SetMemoryOffset(_) => "set_gpu_memory_offset"
    case LockClocks(_, _) => "set_gpu_locked_clocks"
    case ResetClocks => "reset_gpu_clocks"
    case SetFanSpeed(_, _, _) => "set_gpu_fan_speed"
    case SetFanAuto(_, _) => "set_gpu_fan_auto"
  }

  /**
   What the adapter holds, its fans by device and number, the daemon's note of the
   offsets it last wrote (`recorded`), and how many operations were issued to it.
   */
  datatype Adapter = Adapter(
    core: int, memory: int, locked: Option<(nat, nat)>, power: Option<nat>,
    fans: map<(nat, nat), FanState>,
    recorded: Option<(real, real)>,
    issued: nat)

  /** No overclock on the card. */
  predicate IsStock(a: Adapter) {
    a.core == 0 && a.memory == 0 && a.locked == None
  }

  function Effect(a: Adapter, op: GpuOp): Adapter {
    var noted := if a.recorded.Some? then a.recorded.value else (0.0, 0.0);
    match op
    case SetPowerLimit(w) => a.(power := Some(w))
    case SetCoreOffset(mhz) => a.(core := Round(mhz), recorded := Some((mhz, noted.1)))
    case SetMemoryOffset(mhz) => a.(memory := Round(mhz), recorded := Some((noted.0, mhz)))
    case LockClocks(lo, hi) => a.(locked := Some((lo, hi)))
    case ResetClocks => a.(locked := None)
    case SetFanSpeed(device, fan, speed) => a.(fans := a.fans[(device, fan) := Manual(speed)])
    case SetFanAuto(device, fan) => a.(fans := a.fans[(device, fan) := Auto])
  }

  function Issue(a: Adapter, op: GpuOp, r: OpResult): Adapter {
    var touched := if r.Done? then Effect(a, op) else a;
    touched.(issued := a.issued + 1)
  }

  /** Results past the end of the list are successes. */
  function Outcome(results: seq<OpResult>, n: nat): OpResult {
    if n < |results| then results[n] else Done
  }

  /** Issue every operation in order; a failure never stops the later ones. */
  function RunOps(a: Adapter, ops: seq<GpuOp>, results: seq<OpResult>): (Adapter, seq<OpFailure>) {
    if ops == [] then (a, []) else
    var n := |ops| - 1;
    var (before, failures) := RunOps(a, ops[..n], results);
    var r := Outcome(results, n);
    (Issue(before, ops[n], r),
     if r.Done? then failures else failures + [OpFailure(OpName(ops[n]), r.message, r.kind)])
  }

  function FanOps(fans: seq<FanSetting>): (ops: seq<GpuOp>)
    ensures |ops| == |fans|
  {
    if fans == [] then [] else
    var f := fans[|fans| - 1];
    FanOps(fans[..|fans| - 1])
    + [if f.manual then SetFanSpeed(f.device, f.fan, f.speed) else SetFanAuto(f.device, f.fan)]
  }

  function ClockOps(g: GpuSettings): seq<GpuOp> {
    (if g.powerLimit.Some? then [SetPowerLimit(g.powerLimit.value)] else [])
    + (if g.coreOffset.Some? then [SetCoreOffset(g.coreOffset.value)] else [])
    + (if g.memoryOffset.Some? then [SetMemoryOffset(g.memoryOffset.value)] else [])
    + [if g.minClock.Some? && g.maxClock.Some? then LockClocks(g.minClock.value, g.maxClock.value) else ResetClocks]
  }

  /** The static GPU part of a profile, in the order it is issued. */
  function StaticOps(g: GpuSettings): seq<GpuOp> {
    ClockOps(g) + FanOps(g.fans)
  }

  /** What an idle release issues. */
  const RELEASE_OPS := [ResetClocks, SetCoreOffset(0.0), SetMemoryOffset(0.0)]

  /** An attempt is final unless the runtime write gate refused one of its operations. */
  predicate Consumed(failures: seq<OpFailure>) {
    forall f <- failures :: f.kind != GateClosed
  }

  // ----- what an attempt reports and establishes -----

  /** Every operation is attempted, and an attempt is kept for a retry exactly when the gate refused one. */
  lemma {:induction false} AttemptIsFinalIffNoGateRefusal(a: Adapter, ops: seq<GpuOp>, results: seq<OpResult>)
    ensures RunOps(a, ops, results).0.issued == a.issued + |ops|
    ensures Consumed(RunOps(a, ops, results).1) <==>
            forall n :: 0 <= n < |ops| ==> Outcome(results, n).Done? || Outcome(results, n).kind != GateClosed
    ensures RunOps(a, ops, results).1 == [] <==> forall n :: 0 <= n < |ops| ==> Outcome(results, n).Done?
  {
    if ops != [] {
      var n := |ops| - 1;
      AttemptIsFinalIffNoGateRefusal(a, ops[..n], results);
      var before := RunOps(a, ops[..n], results).1;
      var r := Outcome(results, n);
      if !r.Done? {
        var f := OpFailure(OpName(ops[n]), r.message, r.kind);
        assert RunOps(a, ops, results).1 == before + [f];
        assert f in before + [f];
        assert forall g <- before :: g in before + [f];
      }
    }
  }

  function Refusals(ops: seq<GpuOp>, results: seq<OpResult>): nat {
    if ops == [] then 0 else
    var n := |ops| - 1;
    Refusals(ops[..n], results) + if Outcome(results, n).Done? then 0 else 1
  }

  /** Operation `n` failed, and this is its record. */
  predicate Records(f: OpFailure, ops: seq<GpuOp>, results: seq<OpResult>, n: nat)
    requires n < |ops|
  {
    var r := Outcome(results, n);
    r.Refused? && f.op == OpName(ops[n]) && f.message == r.message && f.kind == r.kind
  }

  /**
   Exactly the refused operations are recorded, in order: the record of a refused
   operation stands behind those of the refusals before it, and there are no others.
   */
  lemma {:induction false} FailuresAreTheRefusals(a: Adapter, ops: seq<GpuOp>, results: seq<OpResult>)
    ensures |RunOps(a, ops, results).1| == Refusals(ops, results)
    ensures forall n :: 0 <= n < |ops| && Outcome(results, n).Refused? ==>
              RecordStands(RunOps(a, ops, results).1, ops, results, n)
  {
    if ops != [] {
      var last := |ops| - 1;
      FailuresAreTheRefusals(a, ops[..last], results);
      var before, failures := RunOps(a, ops[..last], results).1, RunOps(a, ops, results).1;
      forall n | 0 <= n < |ops| && Outcome(results, n).Refused?
        ensures RecordStands(failures, ops, results, n)
      {
        if n < last {
          RecordStays(before, failures, ops, results, n);
        }
      }
    }
  }

  lemma RecordStays(before: seq<OpFailure>, failures: seq<OpFailure>, ops: seq<GpuOp>, results: seq<OpResult>, n: nat)
    requires n < |ops| - 1 && RecordStands(before, ops[..|ops| - 1], results, n)
    requires |before| <= |failures| && failures[..|before|] == before
    ensures RecordStands(failures, ops, results, n)
  {
    assert ops[..|ops| - 1][..n] == ops[..n];
    var k := Refusals(ops[..n], results);
    assert failures[k] == failures[..|before|][k];
  }

  predicate RecordStands(failures: seq<OpFailure>, ops: seq<GpuOp>, results: seq<OpResult>, n: nat)
    requires n < |ops|
  {
    var k := Refusals(ops[..n], results);
    k < |failures| && Records(failures[k], ops, results, n)
  }

  /** Where a record comes from. */
  lemma {:induction false} RecordOrigin(a: Adapter, ops: seq<GpuOp>, results: seq<OpResult>, k: nat) returns (n: nat)
    requires k < |RunOps(a, ops, results).1|
    ensures n < |ops| && Records(RunOps(a, ops, results).1[k], ops, results, n)
  {
    var last := |ops| - 1;
    if k < |RunOps(a, ops[..last], results).1| {
      n := RecordOrigin(a, ops[..last], results, k);
    } else {
      n := last;
    }
  }

  /** Operations in sequence compose. */
  lemma {:induction false} RunOpsAppend(a: Adapter, ops: seq<GpuOp>, more: seq<GpuOp>, results: seq<OpResult>)
    requires RunOps(a, ops + more, results).1 == []
    ensures RunOps(a, ops, results).1 == []
    ensures RunOps(a, ops + more, results).0 == RunOps(RunOps(a, ops, results).0, more, []).0
  {
    if more == [] {
      assert ops + more == ops;
    } else {
      var n := |more| - 1;
      assert (ops + more)[..|ops + more| - 1] == ops + more[..n];
      RunOpsAppend(a, ops, more[..n], results);
      assert RunOps(RunOps(a, ops, results).0, more, []).0
          == Issue(RunOps(RunOps(a, ops, results).0, more[..n], []).0, more[n], Done);
    }
  }

  lemma {:induction false} FanOpsLeaveClocks(a: Adapter, fans: seq<FanSetting>, results: seq<OpResult>)
    ensures var b := RunOps(a, FanOps(fans), results).0;
            && b.core == a.core && b.memory == a.memory && b.locked == a.locked && b.power == a.power
            && b.recorded == a.recorded
  {
    if fans != [] {
      var ops := FanOps(fans);
      assert ops[..|ops| - 1] == FanOps(fans[..|fans| - 1]);
      FanOpsLeaveClocks(a, fans[..|fans| - 1], results);
    }
  }

  /** Power limit, core offset, memory offset, clocks, fans. */
  function Rank(op: GpuOp): nat {
    match op
    case SetPowerLimit(_) => 0
    case SetCoreOffset(_) => 1
    case SetMemoryOffset(_) => 2
    case LockClocks(_, _) => 3
    case ResetClocks => 3
    case SetFanSpeed(_, _, _) => 4
    case SetFanAuto(_, _) => 4
  }

  lemma {:induction false} FanOpsInOrder(fans: seq<FanSetting>, k: nat)
    requires k < |fans|
    ensures var f := fans[k];
            && (f.manual ==> FanOps(fans)[k] == SetFanSpeed(f.device, f.fan, f.speed))
            && (!f.manual ==> FanOps(fans)[k] == SetFanAuto(f.device, f.fan))
  {
    if k < |fans| - 1 {
      FanOpsInOrder(fans[..|fans| - 1], k);
    }
  }

  /** A profile's operations come in this order, each kind at most once but the fans, and those as they are listed. */
  lemma StaticOpsInOrder(g: GpuSettings)
    ensures var ops, clocks := StaticOps(g), |StaticOps(g)| - |g.fans|;
            && 1 <= clocks <= 4
            && (forall i, j :: 0 <= i < j < clocks ==> Rank(ops[i]) < Rank(ops[j]) < 4)
            && forall k :: 0 <= k < |g.fans| ==>
                 ops[clocks + k] ==
                   if g.fans[k].manual then SetFanSpeed(g.fans[k].device, g.fans[k].fan, g.fans[k].speed)
                   else SetFanAuto(g.fans[k].device, g.fans[k].fan)
  {
    forall k | 0 <= k < |g.fans|
      ensures StaticOps(g)[|ClockOps(g)| + k] == FanOps(g.fans)[k]
    {}
    forall k | 0 <= k < |g.fans|
      ensures StaticOps(g)[|ClockOps(g)| + k] ==
                if g.fans[k].manual then SetFanSpeed(g.fans[k].device, g.fans[k].fan, g.fans[k].speed)
                else SetFanAuto(g.fans[k].device, g.fans[k].fan)
    {
      FanOpsInOrder(g.fans, k);
    }
  }

  // ----- the fans -----

  function FanKey(f: FanSetting): (nat, nat) {
    (f.device, f.fan)
  }

  /** No later entry is about the same fan. */
  predicate LastEntry(fans: seq<FanSetting>, k: nat)
    requires k < |fans|
  {
    forall m :: k < m < |fans| ==> FanKey(fans[m]) != FanKey(fans[k])
  }

  predicate Listed(fans: seq<FanSetting>, key: (nat, nat)) {
    exists k :: 0 <= k < |fans| && FanKey(fans[k]) == key
  }

  /** Every listed fan stands as its last entry asks: at its speed when manual, in auto otherwise. */
  predicate FansAsAsked(a: Adapter, fans: seq<FanSetting>) {
    forall k :: 0 <= k < |fans| && LastEntry(fans, k) ==>
      && FanKey(fans[k]) in a.fans
      && (fans[k].manual ==> a.fans[FanKey(fans[k])] == Manual(fans[k].speed))
      && (!fans[k].manual ==> a.fans[FanKey(fans[k])] == Auto)
  }

  /** The fan outside the list is as it was, listed there or not. */
  predicate SameFan(a: Adapter, b: Adapter, key: (nat, nat)) {
    (key in a.fans <==> key in b.fans) && (key in a.fans ==> a.fans[key] == b.fans[key])
  }

  /** Whatever fails, a fan that is not listed is not touched. */
  lemma {:induction false} UnlistedFansStay(a: Adapter, fans: seq<FanSetting>, results: seq<OpResult>, key: (nat, nat))
    requires !Listed(fans, key)
    ensures SameFan(a, RunOps(a, FanOps(fans), results).0, key)
  {
    if fans != [] {
      var n, ops := |fans| - 1, FanOps(fans);
      assert ops[..n] == FanOps(fans[..n]);
      assert !Listed(fans[..n], key);
      UnlistedFansStay(a, fans[..n], results, key);
      assert FanKey(fans[n]) != key;
    }
  }

  lemma {:induction false} CleanFanOpsObey(a: Adapter, fans: seq<FanSetting>, results: seq<OpResult>)
    requires RunOps(a, FanOps(fans), results).1 == []
    ensures FansAsAsked(RunOps(a, FanOps(fans), results).0, fans)
  {
    if fans != [] {
      var n, ops := |fans| - 1, FanOps(fans);
      assert ops[..n] == FanOps(fans[..n]);
      CleanFanOpsObey(a, fans[..n], results);
      var before, after := RunOps(a, FanOps(fans[..n]), results).0, RunOps(a, ops, results).0;
      forall k | 0 <= k < |fans| && LastEntry(fans, k)
        ensures FanKey(fans[k]) in after.fans
        ensures fans[k].manual ==> after.fans[FanKey(fans[k])] == Manual(fans[k].speed)
        ensures !fans[k].manual ==> after.fans[FanKey(fans[k])] == Auto
      {
        if k < n {
          assert LastEntry(fans[..n], k) && fans[..n][k] == fans[k];
          assert FanKey(fans[n]) != FanKey(fans[k]);
        }
      }
    }
  }

  lemma {:induction false} ClockOpsLeaveFans(a: Adapter, ops: seq<GpuOp>, results: seq<OpResult>)
    requires forall op <- ops :: !op.SetFanSpeed? && !op.SetFanAuto?
    ensures RunOps(a, ops, results).0.fans == a.fans
  {
    if ops != [] {
      var n := |ops| - 1;
      assert ops[n] in ops && forall op <- ops[..n] :: op in ops;
      ClockOpsLeaveFans(a, ops[..n], results);
    }
  }

  /** The offsets, the limit and the clocks are those asked for, and the daemon's note of the offsets says so. */
  predicate ClocksCarry(a: Adapter, g: GpuSettings) {
    && (g.coreOffset.Some? ==> a.core == Round(g.coreOffset.value))
    && (g.memoryOffset.Some? ==> a.memory == Round(g.memoryOffset.value))
    && (g.coreOffset.Some? ==> a.recorded.Some? && a.recorded.value.0 == g.coreOffset.value)
    && (g.memoryOffset.Some? ==> a.recorded.Some? && a.recorded.value.1 == g.memoryOffset.value)
    && (g.powerLimit.Some? ==> a.power == g.powerLimit)
    && a.locked == (if g.minClock.Some? && g.maxClock.Some? then Some((g.minClock.value, g.maxClock.value)) else None)
  }

  /** The card carries everything the settings ask for. */
  predicate Carries(a: Adapter, g: GpuSettings) {
    ClocksCarry(a, g) && FansAsAsked(a, g.fans)
  }

  /** A clean attempt puts the profile on the card, whatever was there before. */
  lemma CleanAttemptCarries(a: Adapter, g: GpuSettings, results: seq<OpResult>)
    requires RunOps(a, StaticOps(g), results).1 == []
    ensures Carries(RunOps(a, StaticOps(g), results).0, g)
  {
    RunOpsAppend(a, ClockOps(g), FanOps(g.fans), results);
    CleanPartsCarry(a, g, results);
  }

  /** And it touches no fan that is not listed. */
  lemma CleanAttemptSparesOtherFans(a: Adapter, g: GpuSettings, results: seq<OpResult>, key: (nat, nat))
    requires RunOps(a, StaticOps(g), results).1 == [] && !Listed(g.fans, key)
    ensures SameFan(a, RunOps(a, StaticOps(g), results).0, key)
  {
    RunOpsAppend(a, ClockOps(g), FanOps(g.fans), results);
    var clocks := RunOps(a, ClockOps(g), results).0;
    assert clocks.fans == a.fans by {
      ClockOpsLeaveFans(a, ClockOps(g), results);
    }
    UnlistedFansStay(clocks, g.fans, [], key);
  }

  lemma CleanPartsCarry(a: Adapter, g: GpuSettings, results: seq<OpResult>)
    requires RunOps(a, ClockOps(g), results).1 == []
    ensures Carries(RunOps(RunOps(a, ClockOps(g), results).0, FanOps(g.fans), []).0, g)
  {
    var clocks := RunOps(a, ClockOps(g), results).0;
    ClockOpsCarry(a, g, results);
    FanOpsLeaveClocks(clocks, g.fans, []);
    CleanFanOps(clocks, g.fans);
    CleanFanOpsObey(clocks, g.fans, []);
  }

  lemma {:induction false} CleanFanOps(a: Adapter, fans: seq<FanSetting>)
    ensures RunOps(a, FanOps(fans), []).1 == []
  {
    AttemptIsFinalIffNoGateRefusal(a, FanOps(fans), []);
  }

  lemma ClockOpsCarry(a: Adapter, g: GpuSettings, results: seq<OpResult>)
    requires RunOps(a, ClockOps(g), results).1 == []
    ensures ClocksCarry(RunOps(a, ClockOps(g), results).0, g)
  {
    var p := if g.powerLimit.Some? then [SetPowerLimit(g.powerLimit.value)] else [];
    var c := if g.coreOffset.Some? then [SetCoreOffset(g.coreOffset.value)] else [];
    var m := if g.memoryOffset.Some? then [SetMemoryOffset(g.memoryOffset.value)] else [];
    var l := [if g.minClock.Some? && g.maxClock.Some?
              then LockClocks(g.minClock.value, g.maxClock.value) else ResetClocks];
    RunOpsAppend(a, p + c + m, l, results);
    RunOpsAppend(a, p + c, m, results);
    RunOpsAppend(a, p, c, results);
    RunUpToOne(a, p, results);
    var a1 := RunOps(a, p, results).0;
    RunUpToOne(a1, c, []);
    var a2 := RunOps(a1, c, []).0;
    RunUpToOne(a2, m, []);
    var a3 := RunOps(a2, m, []).0;
    RunUpToOne(a3, l, []);
  }

  lemma RunUpToOne(a: Adapter, ops: seq<GpuOp>, results: seq<OpResult>)
    requires |ops| <= 1 && RunOps(a, ops, results).1 == []
    ensures ops == [] ==> RunOps(a, ops, results).0 == a
    ensures ops != [] ==> RunOps(a, ops, results).0 == Effect(a, ops[0]).(issued := a.issued + 1)
  {
    if ops != [] {
      assert ops[..0] == [];
    }
  }

  /** The daemon's note follows the writes: each sets its own half, and a half never written reads zero. */
  lemma NoteFollowsWrites(a: Adapter, core: real, memory: real)
    requires a.recorded == None
    ensures Effect(a, SetCoreOffset(core)).recorded == Some((core, 0.0))
    ensures Effect(a, SetMemoryOffset(memory)).recorded == Some((0.0, memory))
    ensures Effect(Effect(a, SetCoreOffset(core)), SetMemoryOffset(memory)).recorded == Some((core, memory))
    ensures Effect(Effect(a, SetMemoryOffset(memory)), SetCoreOffset(core)).recorded == Some((core, memory))
  {}

  /** The same settings with nothing to take back: no manual clocks, offsets of zero, no clock limits. */
  function WithoutOverclock(g: GpuSettings): GpuSettings {
    g.(manualClocks := false, minClock := None, maxClock := None,
       coreOffset := if g.coreOffset.Some? then Some(0.0) else None,
       memoryOffset := if g.memoryOffset.Some? then Some(0.0) else None)
  }

  /** Settings count as an overclock exactly when that changes them, and the others leave a stock card stock. */
  lemma OverclockIff(g: GpuSettings, a: Adapter, results: seq<OpResult>)
    ensures HasOverclock(g) <==> g != WithoutOverclock(g)
    ensures !HasOverclock(g) && IsStock(a) && RunOps(a, StaticOps(g), results).1 == [] ==>
              IsStock(RunOps(a, StaticOps(g), results).0)
  {
    if !HasOverclock(g) && IsStock(a) && RunOps(a, StaticOps(g), results).1 == [] {
      CleanAttemptCarries(a, g, results);
      OffsetsKept(a, StaticOps(g), results);
      assert forall op <- FanOps(g.fans) :: op.SetFanSpeed? || op.SetFanAuto? by {
        FanOpsAreFans(g.fans);
      }
    }
  }

  lemma {:induction false} FanOpsAreFans(fans: seq<FanSetting>)
    ensures forall op <- FanOps(fans) :: op.SetFanSpeed? || op.SetFanAuto?
  {
    if fans != [] {
      FanOpsAreFans(fans[..|fans| - 1]);
    }
  }

  /** Offsets move only by operations that write them. */
  lemma {:induction false} OffsetsKept(a: Adapter, ops: seq<GpuOp>, results: seq<OpResult>)
    ensures (forall op <- ops :: !op.SetCoreOffset?) ==> RunOps(a, ops, results).0.core == a.core
    ensures (forall op <- ops :: !op.SetMemoryOffset?) ==> RunOps(a, ops, results).0.memory == a.memory
  {
    if ops != [] {
      var n := |ops| - 1;
      assert ops[n] in ops && forall op <- ops[..n] :: op in ops;
      OffsetsKept(a, ops[..n], results);
    }
  }

  /** A release whose three operations all succeed leaves a stock card. */
  lemma CleanReleaseIsStock(a: Adapter, results: seq<OpResult>)
    requires RunOps(a, RELEASE_OPS, results).1 == []
    ensures IsStock(RunOps(a, RELEASE_OPS, results).0)
  {
    var ops := RELEASE_OPS;
    assert ops == [ResetClocks] + [SetCoreOffset(0.0)] + [SetMemoryOffset(0.0)];
    RunOpsAppend(a, [ResetClocks] + [SetCoreOffset(0.0)], [SetMemoryOffset(0.0)], results);
    RunOpsAppend(a, [ResetClocks], [SetCoreOffset(0.0)], results);
    RunUpToOne(a, [ResetClocks], results);
    var a1 := RunOps(a, [ResetClocks], results).0;
    RunUpToOne(a1, [SetCoreOffset(0.0)], []);
    var a2 := RunOps(a1, [SetCoreOffset(0.0)], []).0;
    RunUpToOne(a2, [SetMemoryOffset(0.0)], []);
  }
}
