/**
 The polling tier of a discrete GPU: when a tick may issue invasive NVML and NVAPI
 queries, and what it remembers for the next decision. Times are milliseconds of a
 monotone clock.
 */
module PollTier {
  import opened Wrappers
  import opened Common

  const QUIET_REPROBE_SECS := 45
  const WORK_UTILIZATION_PERCENT := 1.0

  datatype PollState = PollState(
    lastStatus: Option<string>, lastPstate: Option<nat>, lastLoad: Option<real>, lastProbe: Option<int>)

  const UNSEEN := PollState(None, None, None, None)

  datatype Tier = Live | Quiet | Suspended

  function LowerChar(c: char): char {
    if 'A' <= c <= 'Z' then c - 'A' + 'a' else c
  }

  /** ASCII lower case. */
  function Lower(s: string): (t: string)
    ensures |t| == |s| && forall i :: 0 <= i < |s| ==> t[i] == LowerChar(s[i])
  {
    seq(|s|, i requires 0 <= i < |s| => LowerChar(s[i]))
  }

  predicate SameIgnoringCase(s: string, t: string) {
    Lower(s) == Lower(t)
  }

  /** The 26 capitals become the small letters, in order; every other character stays. */
  lemma LowerCharIs(k: nat, c: char)
    ensures k < 26 ==> LowerChar(('A' as int + k) as char) == ('a' as int + k) as char
    ensures c < 'A' || 'Z' < c ==> LowerChar(c) == c
  {}

  predicate IsSuspended(status: string) {
    SameIgnoringCase(status, "suspended")
  }

  /** Whole seconds since `at`. */
  function ElapsedSecs(at: int, now: int): nat {
    Elapsed(at, now) / 1000
  }

  predicate LastSawSuspended(s: PollState) {
    s.lastStatus.Some? && IsSuspended(s.lastStatus.value)
  }

  /** The remembered p-state is P3 or deeper, or was never reported, and the remembered load is no work. */
  predicate AtRest(s: PollState) {
    && !(s.lastPstate.Some? && s.lastPstate.value <= 2)
    && !(s.lastLoad.Some? && s.lastLoad.value > WORK_UTILIZATION_PERCENT)
  }

  function TierOf(state: Option<PollState>, status: string, now: int): Tier {
    if IsSuspended(status) then Suspended
    else if state.None? then Live
    else if LastSawSuspended(state.value) then Live
    else if state.value.lastPstate.Some? && state.value.lastPstate.value <= 2 then Live
    else if state.value.lastLoad.Some? && state.value.lastLoad.value > WORK_UTILIZATION_PERCENT then Live
    else if state.value.lastProbe.None? then Live
    else if ElapsedSecs(state.value.lastProbe.value, now) < QUIET_REPROBE_SECS then Quiet
    else Live
  }

  function Known(state: Option<PollState>): PollState {
    if state.Some? then state.value else UNSEEN
  }

  function Observed(state: Option<PollState>, status: string): PollState {
    Known(state).(lastStatus := Some(status))
  }

  /** A value the pass could not read leaves the remembered one. */
  function Probed(state: Option<PollState>, status: string, pstate: Option<nat>, load: Option<real>, now: int)
    : PollState
  {
    var s := Known(state);
    PollState(Some(status),
              if pstate.Some? then pstate else s.lastPstate,
              if load.Some? then load else s.lastLoad,
              Some(now))
  }

  /**
   One tick as one adapter with a known identity sees it: its sysfs word, whether
   another adapter needs NVML, which calls succeed, what the pass reads, and the
   clock at the first decision, at the second and when the pass is recorded.
   */
  datatype Poll = Poll(
    status: string, othersLive: bool, nvmlOk: bool, deviceOk: bool,
    pstate: Option<nat>, load: Option<real>,
    decided: int, rechecked: int, recorded: int)

  datatype Effect = Aborted | SawStatus | Pass

  function EffectOf(state: Option<PollState>, p: Poll): Effect {
    if TierOf(state, p.status, p.decided) != Live && !p.othersLive then SawStatus
    else if !p.nvmlOk then Aborted
    else if TierOf(state, p.status, p.rechecked) != Live then SawStatus
    else if !p.deviceOk then Aborted
    else Pass
  }

  function Next(state: Option<PollState>, p: Poll): Option<PollState> {
    match EffectOf(state, p)
    case Aborted => state
    case SawStatus => Some(Observed(state, p.status))
    case Pass => Some(Probed(state, p.status, p.pstate, p.load, p.recorded))
  }

  /** The poll states of all adapters, by lower-case bus id. */
  class PollTable {
    var states: map<string, PollState>

    constructor ()
      ensures states == map[]
    {
      states := map[];
    }

    function Get(key: string): Option<PollState>
      reads this
    {
      if key in states then Some(states[key]) else None
    }

    method RecordObservation(key: string, status: string)
      modifies this
      ensures states == old(states)[key := Observed(old(Get(key)), status)]
    {
      var s := if key in states then states[key] else UNSEEN;
      states := states[key := s.(lastStatus := Some(status))];
    }

    method RecordProbe(key: string, status: string, pstate: Option<nat>, load: Option<real>, now: int)
      modifies this
      ensures states == old(states)[key := Probed(old(Get(key)), status, pstate, load, now)]
    {
      var s := if key in states then states[key] else UNSEEN;
      s := s.(lastStatus := Some(status));
      if pstate.Some? {
        s := s.(lastPstate := pstate);
      }
      if load.Some? {
        s := s.(lastLoad := load);
      }
      states := states[key := s.(lastProbe := Some(now))];
    }

    method PollAdapter(bdf: string, p: Poll) returns (effect: Effect)
      modifies this
      ensures effect == EffectOf(old(Get(Lower(bdf))), p)
      ensures Get(Lower(bdf)) == Next(old(Get(Lower(bdf))), p)
      ensures forall key :: key != Lower(bdf) ==> Get(key) == old(Get(key))
    {
      var key := Lower(bdf);
      if TierOf(Get(key), p.status, p.decided) != Live && !p.othersLive {
        RecordObservation(key, p.status);
        return SawStatus;
      }
      if !p.nvmlOk {
        return Aborted;
      }
      if TierOf(Get(key), p.status, p.rechecked) != Live {
        RecordObservation(key, p.status);
        return SawStatus;
      }
      if !p.deviceOk {
        return Aborted;
      }
      RecordProbe(key, p.status, p.pstate, p.load, p.recorded);
      return Pass;
    }
  }

  // ----- runs of one adapter -----

  function After(polls: seq<Poll>): Option<PollState> {
    if polls == [] then None else Next(After(polls[..|polls| - 1]), polls[|polls| - 1])
  }

  function EffectAt(polls: seq<Poll>, k: nat): Effect
    requires k < |polls|
  {
    EffectOf(After(polls[..k]), polls[k])
  }

  predicate MonotoneClock(polls: seq<Poll>) {
    && (forall k :: 0 <= k < |polls| ==> polls[k].decided <= polls[k].rechecked <= polls[k].recorded)
    && (forall j, k :: 0 <= j < k < |polls| ==> polls[j].recorded <= polls[k].decided)
  }

  lemma AfterOneMore(polls: seq<Poll>, k: nat)
    requires k < |polls|
    ensures After(polls[..k + 1]) == Next(After(polls[..k]), polls[k])
  {
    assert polls[..k + 1][..k] == polls[..k];
  }

  /** The last thing recorded before `k` is a suspended observation, and it was recorded after `i`. */
  predicate WokenSince(polls: seq<Poll>, i: nat, k: nat)
    requires k <= |polls|
  {
    exists m :: i < m < k && EffectAt(polls, m) == SawStatus && IsSuspended(polls[m].status)
                && forall n :: m < n < k ==> EffectAt(polls, n) == Aborted
  }

  predicate SameApartFromStatus(s: Option<PollState>, t: Option<PollState>) {
    s.Some? && t.Some? && t.value == s.value.(lastStatus := t.value.lastStatus)
  }

  /** What one tick does to a remembered state. */
  lemma NextMoves(state: Option<PollState>, p: Poll)
    ensures var t, e := Next(state, p), EffectOf(state, p);
            && (e == Aborted ==> t == state)
            && (e == SawStatus ==> t == Some(Known(state).(lastStatus := Some(p.status))))
            && (e != Pass && state.Some? ==> SameApartFromStatus(state, t))
            && (e == Pass ==> t.Some? && t.value.lastProbe == Some(p.recorded) && !LastSawSuspended(t.value))
            && (e == Pass && state.Some? && AtRest(state.value) && state.value.lastProbe.Some? ==>
                  || LastSawSuspended(state.value)
                  || p.rechecked - state.value.lastProbe.value >= 1000 * QUIET_REPROBE_SECS)
  {}

  lemma WokenExtends(polls: seq<Poll>, i: nat, k: nat)
    requires k < |polls| && WokenSince(polls, i, k) && EffectAt(polls, k) == Aborted
    ensures WokenSince(polls, i, k + 1)
  {
    var w :| i < w < k && EffectAt(polls, w) == SawStatus && IsSuspended(polls[w].status)
             && forall n :: w < n < k ==> EffectAt(polls, n) == Aborted;
    forall n | w < n < k + 1
      ensures EffectAt(polls, n) == Aborted
    {
      assert n < k || n == k;
    }
  }

  /** Between passes only the status word moves. */
  lemma {:induction false} BetweenPasses(polls: seq<Poll>, i: nat, k: nat)
    requires i < k <= |polls| && EffectAt(polls, i) == Pass
    requires forall m :: i < m < k ==> EffectAt(polls, m) != Pass
    ensures SameApartFromStatus(After(polls[..i + 1]), After(polls[..k]))
    decreases k
  {
    if k == i + 1 {
      AfterOneMore(polls, i);
      NextMoves(After(polls[..i]), polls[i]);
    } else {
      var m := k - 1;
      BetweenPasses(polls, i, m);
      AfterOneMore(polls, m);
      assert EffectAt(polls, m) != Pass;
      NextMoves(After(polls[..m]), polls[m]);
    }
  }

  /** A remembered suspension after a pass was seen after that pass, and nothing was recorded since. */
  lemma {:induction false} RememberedSuspensionWasSeen(polls: seq<Poll>, i: nat, k: nat)
    requires i < k <= |polls| && EffectAt(polls, i) == Pass
    requires forall m :: i < m < k ==> EffectAt(polls, m) != Pass
    requires LastSawSuspended(Known(After(polls[..k])))
    ensures WokenSince(polls, i, k)
    decreases k
  {
    var m := k - 1;
    AfterOneMore(polls, m);
    NextMoves(After(polls[..m]), polls[m]);
    if EffectAt(polls, m) == Aborted {
      RememberedSuspensionWasSeen(polls, i, m);
      WokenExtends(polls, i, m);
    } else {
      assert EffectAt(polls, m) == SawStatus && i < m;
    }
  }

  /**
   Cadence: after a pass that leaves the adapter at rest, the next pass comes no
   earlier than 45 seconds later, or right after a suspended observation. The new
   pass records its own awake status, so one suspended observation pays for one pass.
   */
  lemma QuietCadence(polls: seq<Poll>, i: nat, k: nat)
    requires i < k < |polls| && EffectAt(polls, i) == Pass && EffectAt(polls, k) == Pass
    requires forall m :: i < m < k ==> EffectAt(polls, m) != Pass
    requires AtRest(Known(After(polls[..i + 1])))
    ensures polls[k].rechecked - polls[i].recorded >= 1000 * QUIET_REPROBE_SECS || WokenSince(polls, i, k)
    ensures !LastSawSuspended(Known(After(polls[..k + 1]))) && !IsSuspended(polls[k].status)
  {
    BetweenPasses(polls, i, k);
    AfterOneMore(polls, i);
    AfterOneMore(polls, k);
    NextMoves(After(polls[..i]), polls[i]);
    if LastSawSuspended(Known(After(polls[..k]))) {
      RememberedSuspensionWasSeen(polls, i, k);
    }
    NextMoves(After(polls[..k]), polls[k]);
  }

  /** A pass that saw work keeps polling live: until the next pass, every tick that may and can query does. */
  lemma WorkKeepsPollingLive(polls: seq<Poll>, i: nat, k: nat)
    requires i < k < |polls| && EffectAt(polls, i) == Pass && !AtRest(Known(After(polls[..i + 1])))
    requires forall m :: i < m < k ==> EffectAt(polls, m) != Pass
    ensures EffectAt(polls, k) == Pass <==> !IsSuspended(polls[k].status) && polls[k].nvmlOk && polls[k].deviceOk
  {
    BetweenPasses(polls, i, k);
    AfterOneMore(polls, i);
    NextMoves(After(polls[..i]), polls[i]);
  }

  // ----- exactly when a tick is a pass -----

  /** The word recorded last. */
  function LastStatus(polls: seq<Poll>): Option<string> {
    if polls == [] then None else
    var n := |polls| - 1;
    if EffectAt(polls, n) == Aborted then LastStatus(polls[..n]) else Some(polls[n].status)
  }

  /** The p-state that a pass read last. */
  function LastPstate(polls: seq<Poll>): Option<nat> {
    if polls == [] then None else
    var n := |polls| - 1;
    if EffectAt(polls, n) == Pass && polls[n].pstate.Some? then polls[n].pstate else LastPstate(polls[..n])
  }

  /** The load that a pass read last. */
  function LastLoad(polls: seq<Poll>): Option<real> {
    if polls == [] then None else
    var n := |polls| - 1;
    if EffectAt(polls, n) == Pass && polls[n].load.Some? then polls[n].load else LastLoad(polls[..n])
  }

  /** When the latest pass was recorded. */
  function LastPassTime(polls: seq<Poll>): Option<int> {
    if polls == [] then None else
    var n := |polls| - 1;
    if EffectAt(polls, n) == Pass then Some(polls[n].recorded) else LastPassTime(polls[..n])
  }

  /** What is remembered is what was recorded last, field by field. */
  lemma {:induction false} RememberedIsRecorded(polls: seq<Poll>)
    ensures Known(After(polls)) == PollState(LastStatus(polls), LastPstate(polls), LastLoad(polls), LastPassTime(polls))
  {
    if polls != [] {
      var n := |polls| - 1;
      RememberedIsRecorded(polls[..n]);
      assert polls[..n + 1] == polls;
      AfterOneMore(polls, n);
    }
  }

  /**
   May the adapter be queried, by its history? It must be awake, and the last word
   recorded was a suspended one, or it was last read at P0 to P2 or above one percent
   of load, or it was never queried, or the latest pass is 45 seconds old.
   */
  predicate MayQuery(history: seq<Poll>, status: string, now: int) {
    && !IsSuspended(status)
    && (|| (LastStatus(history).Some? && IsSuspended(LastStatus(history).value))
        || (LastPstate(history).Some? && LastPstate(history).value <= 2)
        || (LastLoad(history).Some? && LastLoad(history).value > 1.0)
        || LastPassTime(history).None?
        || now - LastPassTime(history).value >= 45_000)
  }

  /**
   Exactly what a tick does. It is a pass when the adapter may be queried at both
   decisions, another live adapter standing in for the first, and both handles can be
   had. It records the status alone when NVML is not needed, or is there and the second
   decision is against a query. Otherwise it records nothing.
   */
  lemma TickByHistory(polls: seq<Poll>, k: nat)
    requires k < |polls|
    ensures var p, history := polls[k], polls[..k];
            var needed := p.othersLive || MayQuery(history, p.status, p.decided);
            var queried := MayQuery(history, p.status, p.rechecked);
            && (EffectAt(polls, k) == Pass <==> needed && p.nvmlOk && queried && p.deviceOk)
            && (EffectAt(polls, k) == SawStatus <==> !needed || (p.nvmlOk && !queried))
  {
    RememberedIsRecorded(polls[..k]);
  }

  lemma PrefixEffects(polls: seq<Poll>, n: nat)
    requires n <= |polls|
    ensures forall m :: 0 <= m < n ==> EffectAt(polls[..n], m) == EffectAt(polls, m)
  {
    forall m | 0 <= m < n
      ensures EffectAt(polls[..n], m) == EffectAt(polls, m)
    {
      assert polls[..n][..m] == polls[..m];
    }
  }

  lemma {:induction false} NothingReadBefore(polls: seq<Poll>)
    requires forall m :: 0 <= m < |polls| ==> EffectAt(polls, m) != Pass
    ensures LastPassTime(polls) == None
  {
    if polls != [] {
      var n := |polls| - 1;
      PrefixEffects(polls, n);
      NothingReadBefore(polls[..n]);
    }
  }

  /** An adapter never queried before is queried at the first tick that finds it awake and answering. */
  lemma FirstQueryIsImmediate(polls: seq<Poll>, k: nat)
    requires k < |polls| && forall m :: 0 <= m < k ==> EffectAt(polls, m) != Pass
    ensures EffectAt(polls, k) == Pass <==> !IsSuspended(polls[k].status) && polls[k].nvmlOk && polls[k].deviceOk
  {
    PrefixEffects(polls, k);
    NothingReadBefore(polls[..k]);
    TickByHistory(polls, k);
  }

  lemma {:induction false} PassTimeStays(polls: seq<Poll>, i: nat, k: nat)
    requires i < k <= |polls| && EffectAt(polls, i) == Pass
    requires forall m :: i < m < k ==> EffectAt(polls, m) != Pass
    ensures LastPassTime(polls[..k]) == Some(polls[i].recorded)
    decreases k
  {
    var m := k - 1;
    assert polls[..k][..m] == polls[..m] && polls[..k][m] == polls[m];
    assert EffectAt(polls[..k], m) == EffectAt(polls, m);
    if m > i {
      PassTimeStays(polls, i, m);
    }
  }

  predicate LastWordSuspended(history: seq<Poll>) {
    LastStatus(history).Some? && IsSuspended(LastStatus(history).value)
  }

  /** One more tick moves the last recorded word exactly when it records one. */
  lemma LastWordMoves(polls: seq<Poll>, m: nat)
    requires m < |polls|
    ensures LastWordSuspended(polls[..m + 1]) <==>
              if EffectAt(polls, m) == Aborted then LastWordSuspended(polls[..m]) else IsSuspended(polls[m].status)
  {
    assert polls[..m + 1][..m] == polls[..m] && polls[..m + 1][m] == polls[m];
  }

  lemma WokenShrinks(polls: seq<Poll>, i: nat, m: nat)
    requires m < |polls| && i < m && WokenSince(polls, i, m + 1)
    requires EffectAt(polls, m) == Aborted || !IsSuspended(polls[m].status)
    ensures EffectAt(polls, m) == Aborted && WokenSince(polls, i, m)
  {
    var w :| i < w < m + 1 && EffectAt(polls, w) == SawStatus && IsSuspended(polls[w].status)
             && forall n :: w < n < m + 1 ==> EffectAt(polls, n) == Aborted;
    assert w < m;
  }

  lemma {:induction false} WokenWasRecorded(polls: seq<Poll>, i: nat, k: nat)
    requires i < k <= |polls| && EffectAt(polls, i) == Pass
    requires forall m :: i < m < k ==> EffectAt(polls, m) != Pass
    ensures WokenSince(polls, i, k) <==> LastWordSuspended(polls[..k])
    decreases k
  {
    var m := k - 1;
    LastWordMoves(polls, m);
    if m == i {
      TickByHistory(polls, i);
    } else {
      WokenWasRecorded(polls, i, m);
      if EffectAt(polls, m) == SawStatus && IsSuspended(polls[m].status) {
        assert WokenSince(polls, i, k);
      } else {
        if WokenSince(polls, i, k) {
          WokenShrinks(polls, i, m);
        }
        if EffectAt(polls, m) == Aborted && WokenSince(polls, i, m) {
          WokenExtends(polls, i, m);
        }
      }
    }
  }

  /**
   The re-query of a resting adapter, both directions: after a pass that found rest,
   the tick is the next pass exactly when the adapter is awake and answers, and it was
   seen suspended last or 45 seconds have passed since the pass was recorded, at the
   second decision and, unless another adapter is live, at the first.
   */
  lemma RestingPassIff(polls: seq<Poll>, i: nat, k: nat)
    requires i < k < |polls| && EffectAt(polls, i) == Pass && AtRest(Known(After(polls[..i + 1])))
    requires forall m :: i < m < k ==> EffectAt(polls, m) != Pass
    ensures var p, pass := polls[k], polls[i].recorded;
            EffectAt(polls, k) == Pass <==>
              && !IsSuspended(p.status) && p.nvmlOk && p.deviceOk
              && (WokenSince(polls, i, k) || p.rechecked - pass >= 45_000)
              && (p.othersLive || WokenSince(polls, i, k) || p.decided - pass >= 45_000)
  {
    BetweenPasses(polls, i, k);
    PassTimeStays(polls, i, k);
    WokenWasRecorded(polls, i, k);
    RememberedIsRecorded(polls[..k]);
    TickByHistory(polls, k);
  }

  /** "suspended" is recognised in any case of its letters, and nothing else is. */
  lemma SuspendedInAnyCase(status: string)
    ensures IsSuspended(status) <==>
            && |status| == 9
            && forall i :: 0 <= i < 9 ==>
                 status[i] == "suspended"[i] || status[i] == "SUSPENDED"[i]
  {
    var word, capitals := "suspended", "SUSPENDED";
    assert forall i :: 0 <= i < 9 ==> LowerChar(word[i]) == word[i] && LowerChar(capitals[i]) == word[i];
    if |status| == 9 && forall i :: 0 <= i < 9 ==> status[i] == word[i] || status[i] == capitals[i] {
      assert forall i :: 0 <= i < 9 ==> Lower(status)[i] == Lower(word)[i];
      assert Lower(status) == Lower(word);
    }
  }

  // ----- how many passes a resting adapter costs -----

  function Passes(polls: seq<Poll>, i: nat, k: nat): nat
    requires i <= k <= |polls|
  {
    if i == k then 0 else Passes(polls, i, k - 1) + if EffectAt(polls, k - 1) == Pass then 1 else 0
  }

  function SuspendedSightings(polls: seq<Poll>, i: nat, k: nat): nat
    requires i <= k <= |polls|
  {
    if i == k then 0 else
    SuspendedSightings(polls, i, k - 1)
    + if EffectAt(polls, k - 1) == SawStatus && IsSuspended(polls[k - 1].status) then 1 else 0
  }

  function Credit(s: PollState): nat {
    if LastSawSuspended(s) then 1 else 0
  }

  /** The budget, with a suspended sighting not yet spent counted as a pass. */
  predicate WithinBudget(polls: seq<Poll>, i: nat, k: nat)
    requires i < k <= |polls|
  {
    var s := After(polls[..k]);
    && s.Some? && s.value.lastProbe.Some? && AtRest(s.value)
    && polls[i].recorded <= s.value.lastProbe.value <= polls[k - 1].recorded
    && 45_000 * (Passes(polls, i + 1, k) - SuspendedSightings(polls, i + 1, k) + Credit(s.value))
       <= s.value.lastProbe.value - polls[i].recorded
  }

  /** A pass at tick `m` leaves the adapter at rest. */
  predicate PassRests(polls: seq<Poll>, m: nat)
    requires m < |polls|
  {
    EffectAt(polls, m) == Pass ==> AtRest(Known(After(polls[..m + 1])))
  }

  lemma FirstPassSetsBudget(polls: seq<Poll>, i: nat)
    requires i < |polls| && EffectAt(polls, i) == Pass && PassRests(polls, i)
    ensures WithinBudget(polls, i, i + 1)
  {
    AfterOneMore(polls, i);
    NextMoves(After(polls[..i]), polls[i]);
  }

  lemma TickKeepsBudget(polls: seq<Poll>, i: nat, m: nat)
    requires MonotoneClock(polls) && i < m < |polls| && WithinBudget(polls, i, m)
    requires PassRests(polls, m)
    ensures WithinBudget(polls, i, m + 1)
  {
    AfterOneMore(polls, m);
    NextMoves(After(polls[..m]), polls[m]);
    assert polls[m - 1].recorded <= polls[m].decided;
  }

  lemma {:induction false} BudgetHolds(polls: seq<Poll>, i: nat, k: nat)
    requires MonotoneClock(polls) && i < k <= |polls| && EffectAt(polls, i) == Pass
    requires forall m :: i <= m < k ==> PassRests(polls, m)
    ensures WithinBudget(polls, i, k)
    decreases k
  {
    if k == i + 1 {
      FirstPassSetsBudget(polls, i);
    } else {
      BudgetHolds(polls, i, k - 1);
      TickKeepsBudget(polls, i, k - 1);
    }
  }

  /**
   While every pass finds the adapter at rest, the passes after the first are paid
   for by 45 seconds each or by one suspended observation each.
   */
  lemma RestingPassesAreRationed(polls: seq<Poll>, i: nat, k: nat)
    requires MonotoneClock(polls) && i < k <= |polls| && EffectAt(polls, i) == Pass
    requires forall m :: i <= m < k ==> PassRests(polls, m)
    ensures 45_000 * (Passes(polls, i + 1, k) - SuspendedSightings(polls, i + 1, k))
            <= polls[k - 1].recorded - polls[i].recorded
  {
    BudgetHolds(polls, i, k);
  }

  // ----- identity: the order of the sysfs list decides nothing -----

  datatype SysfsDevice = SysfsDevice(bdf: string, status: string)

  function FindByBdf(sysfs: seq<SysfsDevice>, bdf: string): (d: Option<SysfsDevice>)
    ensures d.Some? ==> d.value in sysfs && SameIgnoringCase(d.value.bdf, bdf)
    ensures d.None? ==> forall e <- sysfs :: !SameIgnoringCase(e.bdf, bdf)
  {
    if sysfs == [] then None
    else if SameIgnoringCase(sysfs[0].bdf, bdf) then Some(sysfs[0])
    else FindByBdf(sysfs[1..], bdf)
  }

  /** The runtime word of one NVML device; by its own identity, or the only pairing there is. */
  function RuntimeStatus(slotBdf: Option<string>, slots: nat, sysfs: seq<SysfsDevice>): Option<string> {
    match slotBdf
    case Some(bdf) =>
      var d := FindByBdf(sysfs, bdf);
      if d.Some? then Some(d.value.status) else None
    case None =>
      if slots == 1 && |sysfs| == 1 then Some(sysfs[0].status) else None
  }

  function SuspendedDecision(sysfs: seq<SysfsDevice>, knownBdf: Option<string>, candidates: nat): Option<bool> {
    match knownBdf
    case Some(bdf) =>
      var d := FindByBdf(sysfs, bdf);
      if d.Some? then Some(IsSuspended(d.value.status)) else None
    case None =>
      if candidates == 1 && |sysfs| == 1 then Some(IsSuspended(sysfs[0].status)) else None
  }

  predicate OneEntryPerAdapter(sysfs: seq<SysfsDevice>) {
    forall d, e :: d in sysfs && e in sysfs && SameIgnoringCase(d.bdf, e.bdf) ==> d == e
  }

  /** A listed adapter has its own word, an unlisted one none; without an identity only a single pairing counts. */
  lemma AdapterHasItsOwnWord(sysfs: seq<SysfsDevice>, d: SysfsDevice, bdf: string, n: nat)
    requires OneEntryPerAdapter(sysfs)
    ensures d in sysfs && SameIgnoringCase(d.bdf, bdf) ==> RuntimeStatus(Some(bdf), n, sysfs) == Some(d.status)
    ensures (forall e <- sysfs :: !SameIgnoringCase(e.bdf, bdf)) ==> RuntimeStatus(Some(bdf), n, sysfs) == None
    ensures RuntimeStatus(None, n, sysfs) == if n == 1 && |sysfs| == 1 then Some(sysfs[0].status) else None
  {}

  /** The decision about suspension is the word's. */
  lemma DecisionFollowsWord(sysfs: seq<SysfsDevice>, bdf: Option<string>, n: nat)
    ensures var word := RuntimeStatus(bdf, n, sysfs);
            SuspendedDecision(sysfs, bdf, n) == if word.None? then None else Some(IsSuspended(word.value))
  {}

  lemma ListingOrderIsIrrelevant(a: seq<SysfsDevice>, b: seq<SysfsDevice>, bdf: Option<string>, n: nat)
    requires multiset(a) == multiset(b) && OneEntryPerAdapter(a)
    ensures RuntimeStatus(bdf, n, a) == RuntimeStatus(bdf, n, b)
    ensures SuspendedDecision(a, bdf, n) == SuspendedDecision(b, bdf, n)
  {
    assert forall d :: d in a <==> d in multiset(a);
    assert forall d :: d in b <==> d in multiset(b);
    assert |a| == |multiset(a)| && |b| == |multiset(b)|;
    if bdf.None? && |a| == 1 {
      assert b[0] in a;
    }
  }
}
