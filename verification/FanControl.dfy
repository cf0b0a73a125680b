/**
 The two callers of the manual fan set: the curve loop of the daemon's poll, which
 drives counted fans only, and the user's command, which forces a write first.
 */
module FanControl {
  import opened Wrappers
  import opened FanCurve
  import opened ClevoFans

  /** One fan's curve, the temperature read for it, if that read succeeds, and how its set goes. */
  datatype CurveJob = CurveJob(fan: nat, points: seq<Point>, temp: Option<real>, e: SetEnv)

  predicate ValidJobs(jobs: seq<CurveJob>) {
    forall j <- jobs :: ValidEnv(j.e)
  }

  predicate Drives(j: CurveJob, fanCount: nat) {
    j.fan < fanCount && j.temp.Some?
  }

  function Demand(j: CurveJob): nat
    requires j.temp.Some?
  {
    CurveAt(j.points, j.temp.value)
  }

  function ApplyCurve(s: Fans, fanCount: nat, j: CurveJob): (t: Fans)
    requires Valid(s) && ValidEnv(j.e)
    ensures Valid(t)
  {
    if Drives(j, fanCount) then SetSpeed(s, fanCount, j.fan, Demand(j), j.e).0 else s
  }

  function ApplyCurves(s: Fans, fanCount: nat, jobs: seq<CurveJob>): (t: Fans)
    requires Valid(s) && ValidJobs(jobs)
    ensures Valid(t)
  {
    if jobs == [] then s else
    var n := |jobs| - 1;
    ApplyCurve(ApplyCurves(s, fanCount, jobs[..n]), fanCount, jobs[n])
  }

  /** Clamp, drop the cache, set. */
  function UserSet(s: Fans, fanCount: nat, fan: nat, percent: nat, e: SetEnv): (Fans, SetOutcome)
    requires Valid(s) && ValidEnv(e)
  {
    SetSpeed(Invalidated(s), fanCount, fan, if percent < 100 then percent else 100, e)
  }

  /** The poll's loop over the curves; a fan that fails does not stop the others. */
  method ApplyFanCurves(io: TuxedoIo, jobs: seq<CurveJob>)
    requires io.Sound() && ValidJobs(jobs)
    modifies io, io.commanded
    ensures io.Sound() && io.View() == ApplyCurves(old(io.View()), io.fanCount, jobs)
  {
    ghost var before := io.View();
    for k := 0 to |jobs|
      invariant io.Sound() && io.View() == ApplyCurves(before, io.fanCount, jobs[..k])
    {
      assert jobs[..k + 1][..k] == jobs[..k];
      if jobs[k].fan < io.fanCount && jobs[k].temp.Some? {
        var speed := CalculateFanSpeed(jobs[k].points, jobs[k].temp.value);
        var _ := io.SetFanSpeed(jobs[k].fan, speed, jobs[k].e);
      }
    }
    assert jobs[..|jobs|] == jobs;
  }

  method SetUserSpeed(io: TuxedoIo, fan: nat, percent: nat, e: SetEnv) returns (outcome: SetOutcome)
    requires io.Sound() && ValidEnv(e)
    modifies io, io.commanded
    ensures io.Sound() && (io.View(), outcome) == UserSet(old(io.View()), io.fanCount, fan, percent, e)
  {
    var speed := if percent < 100 then percent else 100;
    io.ForceNextSpeedWrite();
    outcome := io.SetFanSpeed(fan, speed, e);
  }

  // ----- an accepted set from either caller is right -----

  /** After a pass over the curves, a fan whose last curve was accepted stands where that curve wants it. */
  lemma {:induction false} CurvesHold(s: Fans, fanCount: nat, jobs: seq<CurveJob>, k: nat)
    requires Valid(s) && ValidJobs(jobs) && k < |jobs| && Drives(jobs[k], fanCount)
    requires var before := ApplyCurves(s, fanCount, jobs[..k]);
             SetSpeed(before, fanCount, jobs[k].fan, Demand(jobs[k]), jobs[k].e).1.Accepted?
    requires forall m :: k < m < |jobs| && Drives(jobs[m], fanCount) ==> jobs[m].fan != jobs[k].fan
    ensures jobs[k].fan < MAX_FANS
    ensures var t := ApplyCurves(s, fanCount, jobs);
            t.speeds[jobs[k].fan] == PercentToRaw(Demand(jobs[k])) && t.autoDisabled
  {
    var n := |jobs| - 1;
    var t := ApplyCurves(s, fanCount, jobs[..n]);
    if k == n {
      AcceptedSetHolds(t, fanCount, jobs[n].fan, Demand(jobs[n]), jobs[n].e);
    } else {
      assert jobs[..n][..k] == jobs[..k];
      CurvesHold(s, fanCount, jobs[..n], k);
      if Drives(jobs[n], fanCount) && SetSpeed(t, fanCount, jobs[n].fan, Demand(jobs[n]), jobs[n].e).1.Accepted? {
        AcceptedSetHolds(t, fanCount, jobs[n].fan, Demand(jobs[n]), jobs[n].e);
      }
    }
  }

  /** An accepted user set always writes and is right for every fan, counted or not; the other counted fans stay. */
  lemma UserSetIsRight(s: Fans, fanCount: nat, fan: nat, percent: nat, e: SetEnv)
    requires Valid(s) && ValidEnv(e) && UserSet(s, fanCount, fan, percent, e).1.Accepted?
    ensures var (t, o) := UserSet(s, fanCount, fan, percent, e);
            && o.wrote && Valid(t) && fan < MAX_FANS
            && t.speeds[fan] == PercentToRaw(percent)
            && (forall i :: 0 <= i < fanCount && i < MAX_FANS && i != fan ==> t.speeds[i] == Standing(s, e)[i])
            && (forall i :: fanCount <= i < MAX_FANS && i != fan ==> t.speeds[i] == 0)
  {
    UnpackPack(Readback(LeftAuto(Invalidated(s), e), fanCount)[fan := PercentToRaw(percent)]);
  }

  /** The cache is dropped, or the last written word stopped the fans beyond the count. */
  predicate UncountedAreStopped(s: Fans, fanCount: nat)
    requires Valid(s)
  {
    s.lastWrite.None? || forall i :: fanCount <= i < MAX_FANS ==> s.speeds[i] == 0
  }

  lemma CountedSetStopsUncounted(s: Fans, fanCount: nat, fan: nat, percent: nat, e: SetEnv)
    requires Valid(s) && ValidEnv(e) && fan < fanCount && UncountedAreStopped(s, fanCount)
    ensures var t := SetSpeed(s, fanCount, fan, percent, e).0;
            Valid(t) && UncountedAreStopped(t, fanCount)
  {
    if SetSpeed(s, fanCount, fan, percent, e).1 == Accepted(true) {
      WriteStopsUncountedFans(s, fanCount, fan, percent, e);
    }
  }

  lemma {:induction false} CurvesStopUncounted(s: Fans, fanCount: nat, jobs: seq<CurveJob>)
    requires Valid(s) && ValidJobs(jobs) && UncountedAreStopped(s, fanCount)
    ensures UncountedAreStopped(ApplyCurves(s, fanCount, jobs), fanCount)
  {
    if jobs != [] {
      var n := |jobs| - 1;
      CurvesStopUncounted(s, fanCount, jobs[..n]);
      if Drives(jobs[n], fanCount) {
        var before := ApplyCurves(s, fanCount, jobs[..n]);
        CountedSetStopsUncounted(before, fanCount, jobs[n].fan, Demand(jobs[n]), jobs[n].e);
      }
    }
  }

  /**
   Forcing and setting are two calls, and a pass over the curves may come between
   them. The set may then skip its write, but accepted it is right for every fan.
   */
  lemma InterruptedUserSetIsRight(s: Fans, fanCount: nat, jobs: seq<CurveJob>, fan: nat, percent: nat, e: SetEnv)
    requires Valid(s) && ValidJobs(jobs) && ValidEnv(e)
    requires SetSpeed(ApplyCurves(Invalidated(s), fanCount, jobs), fanCount, fan, percent, e).1.Accepted?
    ensures var t := SetSpeed(ApplyCurves(Invalidated(s), fanCount, jobs), fanCount, fan, percent, e).0;
            Valid(t) && fan < MAX_FANS && t.speeds[fan] == PercentToRaw(percent)
  {
    var m := ApplyCurves(Invalidated(s), fanCount, jobs);
    CurvesStopUncounted(Invalidated(s), fanCount, jobs);
    UnpackPack(Readback(LeftAuto(m, e), fanCount)[fan := PercentToRaw(percent)]);
  }

  /** So neither caller can present the case in which an accepted set is wrong. */
  lemma CallersAreNeverWrong(s: Fans, fanCount: nat, fan: nat, percent: nat, e: SetEnv)
    requires Valid(s) && ValidEnv(e) && fan < MAX_FANS
    ensures fan < fanCount ==> !AcceptedAndWrong(s, fanCount, fan, percent, e)
    ensures !AcceptedAndWrong(Invalidated(s), fanCount, fan, percent, e)
  {
    AcceptedSetIsTrustedIff(fanCount, fan, percent);
    UnpackPack(Readback(LeftAuto(Invalidated(s), e), fanCount)[fan := PercentToRaw(percent)]);
  }
}
