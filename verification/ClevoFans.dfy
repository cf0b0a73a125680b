/**
 Manual fan control on the Clevo interface: one packed word carries all fan speeds,
 and a cache of commanded speeds lets the stable case skip the write. Times are
 milliseconds of a monotone clock; device calls succeed or fail as the environment says.
 */
module ClevoFans {
  import opened Wrappers
  import opened Common

  const RECOMMAND_INTERVAL := 30_000
  const MAX_FANS := 3

  function PercentToRaw(percent: nat): byte {
    var p := if percent < 100 then percent else 100;
    (p * 255 + 50) / 100
  }

  function RawToPercent(raw: byte): nat {
    (raw * 100 + 127) / 255
  }

  /** Every percentage survives the trip through the raw byte. */
  lemma PercentRoundTrip(percent: nat)
    ensures RawToPercent(PercentToRaw(percent)) == if percent < 100 then percent else 100
  {
    var p := if percent < 100 then percent else 100;
    var raw := PercentToRaw(percent);
    assert 255 * p - 50 <= 100 * raw <= 255 * p + 50;
  }

  /** A raw byte comes back within one step. */
  lemma RawRoundTripIsClose(raw: byte)
    ensures -1 <= PercentToRaw(RawToPercent(raw)) - raw <= 1
  {
    var p := RawToPercent(raw);
    assert 100 * raw - 128 <= 255 * p <= 100 * raw + 127;
  }

  /** Both conversions round to the nearest value of the other scale. */
  lemma ConversionsAreNearest(percent: nat, raw: byte)
    ensures var p := if percent < 100 then percent else 100;
            -50 < 100 * PercentToRaw(percent) - 255 * p <= 50
    ensures -128 < 255 * RawToPercent(raw) - 100 * raw <= 127
  {}

  /** One byte per fan, fan 0 lowest. */
  function Pack(b: seq<byte>): nat
    requires |b| == MAX_FANS
  {
    b[0] as int + 0x100 * b[1] as int + 0x1_0000 * b[2] as int
  }

  function Unpack(word: nat): (b: seq<byte>)
    ensures |b| == MAX_FANS
  {
    [word % 0x100, word / 0x100 % 0x100, word / 0x1_0000 % 0x100]
  }

  lemma UnpackPack(b: seq<byte>)
    requires |b| == MAX_FANS
    ensures Unpack(Pack(b)) == b
  {
    var hi := b[2] as int * 0x100 + b[1] as int;
    assert Pack(b) == hi * 0x100 + b[0] as int;
    assert Pack(b) / 0x100 == hi;
    assert Pack(b) / 0x1_0000 == b[2];
  }

  predicate ShouldWrite(commanded: byte, readback: byte, requested: byte, lastWriteAge: Option<nat>) {
    var recent := lastWriteAge.Some? && lastWriteAge.value < RECOMMAND_INTERVAL;
    commanded != requested || readback != requested || !recent
  }

  // ----- specification -----

  /** `speeds` is what the fans hold; they keep written bytes, but firmware may move them at any time. */
  datatype Fans = Fans(autoDisabled: bool, commanded: seq<byte>, lastWrite: Option<(nat, int)>, speeds: seq<byte>)

  predicate Valid(s: Fans) {
    |s.commanded| == MAX_FANS && |s.speeds| == MAX_FANS
  }

  datatype Failure = InvalidFan | AutoFailed | ReadFailed | WriteFailed
  datatype SetOutcome = Accepted(wrote: bool) | Rejected(why: Failure)

  /** `afterManual` is where the fans stand once auto mode is off; `readable` says which fans answer. */
  datatype SetEnv = SetEnv(
    autoOk: bool, afterManual: seq<byte>, readable: seq<bool>, now: int, writeOk: bool, wroteAt: int)

  predicate ValidEnv(e: SetEnv) {
    |e.afterManual| == MAX_FANS && |e.readable| == MAX_FANS
  }

  const NOTHING_COMMANDED: seq<byte> := [0, 0, 0]

  function Invalidated(s: Fans): Fans {
    s.(commanded := NOTHING_COMMANDED, lastWrite := None)
  }

  function LeftAuto(s: Fans, e: SetEnv): Fans {
    if s.autoDisabled then s else Invalidated(s.(autoDisabled := true, speeds := e.afterManual))
  }

  predicate AllReadable(fanCount: nat, e: SetEnv)
    requires ValidEnv(e)
  {
    forall i :: 0 <= i < fanCount && i < MAX_FANS ==> e.readable[i]
  }

  /** The bytes read back; fans beyond the count read as zero. */
  function Readback(s: Fans, fanCount: nat): (b: seq<byte>)
    requires Valid(s)
    ensures |b| == MAX_FANS
  {
    seq(MAX_FANS, i requires 0 <= i < MAX_FANS => if i < fanCount then s.speeds[i] else 0)
  }

  /** The manual set with the write decision as a parameter. */
  function SetWith(s: Fans, fanCount: nat, fan: nat, percent: nat, e: SetEnv, cached: bool): (Fans, SetOutcome)
    requires Valid(s) && ValidEnv(e)
  {
    if fan >= MAX_FANS then (s, Rejected(InvalidFan))
    else if !s.autoDisabled && !e.autoOk then (s, Rejected(AutoFailed)) else
    var m := LeftAuto(s, e);
    if !AllReadable(fanCount, e) then (m, Rejected(ReadFailed)) else
    var current, requested := Readback(m, fanCount), PercentToRaw(percent);
    var packed := Pack(current[fan := requested]);
    var age := if m.lastWrite.Some? then Some(Elapsed(m.lastWrite.value.1, e.now)) else None;
    if cached && !ShouldWrite(m.commanded[fan], current[fan], requested, age) then (m, Accepted(false))
    else if !e.writeOk then (m, Rejected(WriteFailed))
    else
      (Fans(true, m.commanded[fan := requested], Some((packed, e.wroteAt)), Unpack(packed)), Accepted(true))
  }

  function SetSpeed(s: Fans, fanCount: nat, fan: nat, percent: nat, e: SetEnv): (Fans, SetOutcome)
    requires Valid(s) && ValidEnv(e)
  {
    SetWith(s, fanCount, fan, percent, e, true)
  }

  /** Firmware takes the fans back and moves them where it likes. */
  function SetAuto(s: Fans, ok: bool, firmware: seq<byte>): Fans {
    if ok then Invalidated(s.(autoDisabled := false, speeds := firmware)) else s
  }

  // ----- the driver -----

  class TuxedoIo {
    const fanCount: nat
    var autoDisabled: bool
    const commanded: array<byte>
    var lastWrite: Option<(nat, int)>
    var speeds: seq<byte>  // the fans themselves, as the device answers

    ghost predicate Sound()
      reads this
    {
      commanded.Length == MAX_FANS && |speeds| == MAX_FANS
    }

    ghost function View(): Fans
      reads this, commanded
    {
      Fans(autoDisabled, commanded[..], lastWrite, speeds)
    }

    constructor (fans: nat, now: seq<byte>)
      requires |now| == MAX_FANS
      ensures Sound() && fresh(commanded)
      ensures View() == Fans(false, NOTHING_COMMANDED, None, now) && fanCount == fans
    {
      fanCount := fans;
      autoDisabled, lastWrite, speeds := false, None, now;
      commanded := new byte[MAX_FANS](_ => 0);
      new;
      assert commanded[..] == NOTHING_COMMANDED;
    }

    method InvalidateSpeedCache()
      requires Sound()
      modifies this`lastWrite, commanded
      ensures Sound() && View() == Invalidated(old(View()))
    {
      for i := 0 to commanded.Length
        invariant forall k :: 0 <= k < i ==> commanded[k] == 0
      {
        commanded[i] := 0;
      }
      lastWrite := None;
      assert commanded[..] == NOTHING_COMMANDED;
    }

    /** Read all counted fans into a fresh buffer; one failure spoils the read. */
    method ReadSpeeds(e: SetEnv) returns (current: array<byte>, readOk: bool)
      requires Sound() && ValidEnv(e)
      ensures fresh(current) && current.Length == MAX_FANS
      ensures readOk == AllReadable(fanCount, e)
      ensures readOk ==> current[..] == Readback(View(), fanCount)
    {
      current := new byte[MAX_FANS](_ => 0);
      readOk := true;
      var count := if fanCount < MAX_FANS then fanCount else MAX_FANS;
      for i := 0 to count
        invariant forall k :: i <= k < MAX_FANS ==> current[k] == 0
        invariant readOk ==> forall k :: 0 <= k < i ==> e.readable[k] && current[k] == speeds[k]
        invariant !readOk ==> exists k :: 0 <= k < i && !e.readable[k]
      {
        if e.readable[i] {
          current[i] := speeds[i];
        } else {
          readOk := false;
        }
      }
    }

    method SetFanSpeed(fan: nat, percent: nat, e: SetEnv) returns (outcome: SetOutcome)
      requires Sound() && ValidEnv(e)
      modifies this, commanded
      ensures Sound() && (View(), outcome) == SetSpeed(old(View()), fanCount, fan, percent, e)
    {
      if fan >= MAX_FANS {
        return Rejected(InvalidFan);
      }
      if !autoDisabled {
        if !e.autoOk {
          return Rejected(AutoFailed);
        }
        autoDisabled := true;
        speeds := e.afterManual;
        InvalidateSpeedCache();
      }
      ghost var m := View();
      assert m == LeftAuto(old(View()), e);
      var current, readOk := ReadSpeeds(e);
      if !readOk {
        return Rejected(ReadFailed);
      }
      var readback, requested := current[fan], PercentToRaw(percent);
      current[fan] := requested;
      assert current[..] == Readback(m, fanCount)[fan := requested];
      var packed := current[0] as int + 0x100 * current[1] as int + 0x1_0000 * current[2] as int;
      assert packed == Pack(current[..]);
      var age := if lastWrite.Some? then Some(Elapsed(lastWrite.value.1, e.now)) else None;
      if !ShouldWrite(commanded[fan], readback, requested, age) {
        return Accepted(false);
      }
      if !e.writeOk {
        return Rejected(WriteFailed);
      }
      speeds := Unpack(packed);
      commanded[fan] := requested;
      lastWrite := Some((packed, e.wroteAt));
      assert commanded[..] == m.commanded[fan := requested];
      return Accepted(true);
    }

    method SetFanAuto(ok: bool, firmware: seq<byte>)
      requires Sound() && |firmware| == MAX_FANS
      modifies this, commanded
      ensures Sound() && View() == SetAuto(old(View()), ok, firmware)
    {
      if ok {
        autoDisabled := false;
        speeds := firmware;
        InvalidateSpeedCache();
      }
    }

    method ForceNextSpeedWrite()
      requires Sound()
      modifies this`lastWrite, commanded
      ensures Sound() && View() == Invalidated(old(View()))
    {
      InvalidateSpeedCache();
    }
  }

  // ----- what one accepted set means -----

  /**
   An accepted set of a counted fan leaves it at the requested speed and the other
   counted fans where they were, with a packed write less than the interval old.
   */
  lemma AcceptedSetHolds(s: Fans, fanCount: nat, fan: nat, percent: nat, e: SetEnv)
    requires Valid(s) && ValidEnv(e) && fan < fanCount
    requires SetSpeed(s, fanCount, fan, percent, e).1.Accepted?
    ensures var t := SetSpeed(s, fanCount, fan, percent, e).0;
            && Valid(t) && t.speeds[fan] == PercentToRaw(percent)
            && (forall i :: 0 <= i < fanCount && i < MAX_FANS && i != fan ==>
                  t.speeds[i] == if s.autoDisabled then s.speeds[i] else e.afterManual[i])
            && t.lastWrite.Some?
            && (Elapsed(t.lastWrite.value.1, e.now) < RECOMMAND_INTERVAL || t.lastWrite.value.1 == e.wroteAt)
            && AllReadable(fanCount, e)
  {
    UnpackPack(Readback(LeftAuto(s, e), fanCount)[fan := PercentToRaw(percent)]);
  }

  /** Where the fans stand when the set reads them: as they are, or as leaving auto mode left them. */
  function Standing(s: Fans, e: SetEnv): seq<byte> {
    if s.autoDisabled then s.speeds else e.afterManual
  }

  /** The cache vouches for the request: this fan was last commanded it, reads it, and the last write is recent. */
  predicate CacheVouches(s: Fans, fanCount: nat, fan: nat, percent: nat, e: SetEnv)
    requires Valid(s) && fan < MAX_FANS
  {
    && s.autoDisabled && s.commanded[fan] == PercentToRaw(percent)
    && (if fan < fanCount then s.speeds[fan] else 0) == PercentToRaw(percent)
    && s.lastWrite.Some? && e.now - s.lastWrite.value.1 < 30_000
  }

  /** What a set answers, in every case, and what it leaves when it does not write. */
  lemma SetAnswers(s: Fans, fanCount: nat, fan: nat, percent: nat, e: SetEnv)
    requires Valid(s) && ValidEnv(e)
    ensures var (t, o) := SetSpeed(s, fanCount, fan, percent, e);
            var blind := exists i :: 0 <= i < fanCount && i < 3 && !e.readable[i];
            if fan >= 3 then o == Rejected(InvalidFan) && t == s
            else if !s.autoDisabled && !e.autoOk then o == Rejected(AutoFailed) && t == s
            else if blind then o == Rejected(ReadFailed) && Unwritten(s, e, t)
            else if CacheVouches(s, fanCount, fan, percent, e) then o == Accepted(false) && t == s
            else if !e.writeOk then o == Rejected(WriteFailed) && Unwritten(s, e, t)
            else o == Accepted(true) && t.autoDisabled && t.lastWrite.Some? && t.lastWrite.value.1 == e.wroteAt
  {}

  /** Manual mode, nothing written: from auto mode the cache is dropped, otherwise nothing changed. */
  predicate Unwritten(s: Fans, e: SetEnv, t: Fans) {
    t == if s.autoDisabled then s else Fans(true, [0, 0, 0], None, e.afterManual)
  }

  /** A write commands this fan the request, the other counted fans what they read, and the rest zero. */
  lemma WriteIs(s: Fans, fanCount: nat, fan: nat, percent: nat, e: SetEnv)
    requires Valid(s) && ValidEnv(e) && SetSpeed(s, fanCount, fan, percent, e).1 == Accepted(true)
    ensures var t := SetSpeed(s, fanCount, fan, percent, e).0;
            && fan < 3 && Valid(t)
            && (forall i :: 0 <= i < 3 ==>
                  t.speeds[i] == if i == fan then PercentToRaw(percent)
                                 else if i < fanCount then Standing(s, e)[i] else 0)
            && (forall i :: 0 <= i < 3 ==>
                  t.commanded[i] == if i == fan then PercentToRaw(percent)
                                    else if s.autoDisabled then s.commanded[i] else 0)
            && t.lastWrite.Some? && Unpack(t.lastWrite.value.0) == t.speeds
  {
    UnpackPack(Readback(LeftAuto(s, e), fanCount)[fan := PercentToRaw(percent)]);
  }

  /** The packed word holds one byte per fan, the first lowest. */
  lemma PackedBytes(word: nat)
    requires word < 0x100_0000
    ensures Unpack(word)[0] as int + 256 * Unpack(word)[1] as int + 65536 * Unpack(word)[2] as int == word
  {}

  /** While firmware owns the fans an accepted set has taken them back and written, whatever the cache held. */
  lemma LeavingAutoWrites(s: Fans, fanCount: nat, fan: nat, percent: nat, e: SetEnv)
    requires Valid(s) && ValidEnv(e) && !s.autoDisabled && SetSpeed(s, fanCount, fan, percent, e).1.Accepted?
    ensures var (t, o) := SetSpeed(s, fanCount, fan, percent, e);
            o.wrote && e.autoOk && t.autoDisabled
  {}

  /** After auto mode firmware owns the fans: the next set must take them back, or is rejected and changes nothing. */
  lemma AutoIsLeftAgain(s: Fans, firmware: seq<byte>, fanCount: nat, fan: nat, percent: nat, e: SetEnv)
    requires Valid(s) && |firmware| == MAX_FANS && ValidEnv(e) && fan < MAX_FANS
    ensures var auto := SetAuto(s, true, firmware);
            && auto.speeds == firmware && Valid(auto) && !auto.autoDisabled
            && var (t, o) := SetSpeed(auto, fanCount, fan, percent, e);
               && (!e.autoOk ==> o == Rejected(AutoFailed) && t == auto)
               && (o.Accepted? ==> o.wrote && t.autoDisabled)
    ensures SetAuto(s, false, firmware) == s
  {}

  /** The point of the cache: the same set again within the interval writes nothing and changes nothing. */
  lemma RepeatedSetIsSkipped(s: Fans, fanCount: nat, fan: nat, percent: nat, e: SetEnv, f: SetEnv)
    requires Valid(s) && ValidEnv(e) && ValidEnv(f) && fan < fanCount
    requires SetSpeed(s, fanCount, fan, percent, e).1 == Accepted(true)
    requires AllReadable(fanCount, f) && f.now - e.wroteAt < 30_000
    ensures var t := SetSpeed(s, fanCount, fan, percent, e).0;
            Valid(t) && SetSpeed(t, fanCount, fan, percent, f) == (t, Accepted(false))
  {
    UnpackPack(Readback(LeftAuto(s, e), fanCount)[fan := PercentToRaw(percent)]);
  }

  /** And from 30 seconds after the last write on, an accepted set writes again. */
  lemma StaleSetWrites(s: Fans, fanCount: nat, fan: nat, percent: nat, e: SetEnv)
    requires Valid(s) && ValidEnv(e) && s.lastWrite.Some? && e.now - s.lastWrite.value.1 >= 30_000
    requires SetSpeed(s, fanCount, fan, percent, e).1.Accepted?
    ensures SetSpeed(s, fanCount, fan, percent, e).1.wrote
  {}

  predicate AcceptedAndWrong(s: Fans, fanCount: nat, fan: nat, percent: nat, e: SetEnv)
    requires Valid(s) && ValidEnv(e) && fan < MAX_FANS
  {
    var (t, o) := SetSpeed(s, fanCount, fan, percent, e);
    o.Accepted? && Valid(t) && t.speeds[fan] != PercentToRaw(percent)
  }

  /** A fan beyond the count reads as zero: a set to zero is skipped while the fan runs. */
  lemma UncountedFanIsSkippedBlindly(fanCount: nat, fan: nat) returns (s: Fans, e: SetEnv)
    requires fanCount <= fan < MAX_FANS
    ensures Valid(s) && ValidEnv(e) && AcceptedAndWrong(s, fanCount, fan, 0, e)
    ensures SetSpeed(s, fanCount, fan, 0, e) == (s, Accepted(false))
  {
    s := Fans(true, [0, 0, 0], Some((0, 0)), [200, 200, 200]);
    e := SetEnv(true, [0, 0, 0], [true, true, true], 0, true, 0);
    assert s.speeds[fan] == 200 && s.commanded[fan] == 0 && Readback(s, fanCount)[fan] == 0;
  }

  /**
   On its own, without the precautions its callers take, an accepted set is right in
   every state and environment exactly for counted fans and for speeds above zero.
   */
  lemma AcceptedSetIsTrustedIff(fanCount: nat, fan: nat, percent: nat)
    requires fan < MAX_FANS
    ensures (forall s, e :: Valid(s) && ValidEnv(e) ==> !AcceptedAndWrong(s, fanCount, fan, percent, e))
            <==> fan < fanCount || percent > 0
  {
    if fan < fanCount || percent > 0 {
      forall s, e | Valid(s) && ValidEnv(e)
        ensures !AcceptedAndWrong(s, fanCount, fan, percent, e)
      {
        UnpackPack(Readback(LeftAuto(s, e), fanCount)[fan := PercentToRaw(percent)]);
      }
    } else {
      var s, e := UncountedFanIsSkippedBlindly(fanCount, fan);
    }
  }

  /** Every written word commands zero to the fans beyond the count. */
  lemma WriteStopsUncountedFans(s: Fans, fanCount: nat, fan: nat, percent: nat, e: SetEnv)
    requires Valid(s) && ValidEnv(e) && SetSpeed(s, fanCount, fan, percent, e).1 == Accepted(true)
    ensures var t := SetSpeed(s, fanCount, fan, percent, e).0;
            Valid(t) && forall i :: fanCount <= i < MAX_FANS && i != fan ==> t.speeds[i] == 0
  {
    UnpackPack(Readback(LeftAuto(s, e), fanCount)[fan := PercentToRaw(percent)]);
  }

  // ----- whole runs, against a controller that always writes -----

  datatype Command =
    | Set(fan: nat, percent: nat, e: SetEnv)
    | Auto(ok: bool, firmware: seq<byte>)
    | Force
    | Drift(to: seq<byte>)   // firmware, suspend or the embedded controller moved the fans

  predicate ValidCommand(c: Command, fanCount: nat) {
    match c
    case Set(fan, _, e) => fan < fanCount && ValidEnv(e)
    case Auto(_, firmware) => |firmware| == MAX_FANS
    case Force => true
    case Drift(to) => |to| == MAX_FANS
  }

  function Obey(s: Fans, fanCount: nat, c: Command, cached: bool): (r: (Fans, SetOutcome))
    requires Valid(s) && ValidCommand(c, fanCount)
    ensures Valid(r.0)
  {
    match c
    case Set(fan, percent, e) => SetWith(s, fanCount, fan, percent, e, cached)
    case Auto(ok, firmware) => (SetAuto(s, ok, firmware), Accepted(ok))
    case Force => (Invalidated(s), Accepted(false))
    case Drift(to) => (s.(speeds := to), Accepted(false))
  }

  predicate ValidRun(commands: seq<Command>, fanCount: nat) {
    forall c <- commands :: ValidCommand(c, fanCount)
  }

  function ObeyAll(s: Fans, fanCount: nat, commands: seq<Command>, cached: bool): (t: Fans)
    requires Valid(s) && ValidRun(commands, fanCount)
    ensures Valid(t)
  {
    if commands == [] then s else
    var n := |commands| - 1;
    Obey(ObeyAll(s, fanCount, commands[..n], cached), fanCount, commands[n], cached).0
  }

  /** Same mode, and the same speed at every counted fan. */
  predicate Agree(s: Fans, t: Fans, fanCount: nat)
    requires Valid(s) && Valid(t)
  {
    s.autoDisabled == t.autoDisabled && forall i :: 0 <= i < fanCount && i < MAX_FANS ==> s.speeds[i] == t.speeds[i]
  }

  /** The cached controller fails only where the always-writing one fails, in the same way. */
  predicate NoNewFailure(cached: SetOutcome, always: SetOutcome) {
    cached.Rejected? ==> always == cached
  }

  lemma StepRefines(s: Fans, t: Fans, fanCount: nat, c: Command)
    requires Valid(s) && Valid(t) && ValidCommand(c, fanCount) && Agree(s, t, fanCount)
    ensures Agree(Obey(s, fanCount, c, true).0, Obey(t, fanCount, c, false).0, fanCount)
    ensures NoNewFailure(Obey(s, fanCount, c, true).1, Obey(t, fanCount, c, false).1)
  {
    if c.Set? && c.fan < MAX_FANS {
      var r := PercentToRaw(c.percent);
      var a, b := Readback(LeftAuto(s, c.e), fanCount), Readback(LeftAuto(t, c.e), fanCount);
      assert a == b;
      UnpackPack(a[c.fan := r]);
    }
  }

  /** Skipping writes is invisible: after any commands the counted fans stand as if every set had written. */
  lemma {:induction false} CacheRefinesAlwaysWriting(s: Fans, t: Fans, fanCount: nat, commands: seq<Command>)
    requires Valid(s) && Valid(t) && ValidRun(commands, fanCount) && Agree(s, t, fanCount)
    ensures Agree(ObeyAll(s, fanCount, commands, true), ObeyAll(t, fanCount, commands, false), fanCount)
    ensures commands != [] ==>
              var n := |commands| - 1;
              NoNewFailure(Obey(ObeyAll(s, fanCount, commands[..n], true), fanCount, commands[n], true).1,
                           Obey(ObeyAll(t, fanCount, commands[..n], false), fanCount, commands[n], false).1)
  {
    if commands != [] {
      var n := |commands| - 1;
      CacheRefinesAlwaysWriting(s, t, fanCount, commands[..n]);
      StepRefines(ObeyAll(s, fanCount, commands[..n], true), ObeyAll(t, fanCount, commands[..n], false),
                  fanCount, commands[n]);
    }
  }

  predicate AcceptsNoSet(s: Fans, fanCount: nat, commands: seq<Command>)
    requires Valid(s) && ValidRun(commands, fanCount)
  {
    forall n :: 0 <= n < |commands| && commands[n].Set? ==>
      Obey(ObeyAll(s, fanCount, commands[..n], true), fanCount, commands[n], true).1.Rejected?
  }

  lemma {:induction false} StaysInvalid(s: Fans, fanCount: nat, commands: seq<Command>)
    requires Valid(s) && ValidRun(commands, fanCount) && s.lastWrite == None && AcceptsNoSet(s, fanCount, commands)
    ensures ObeyAll(s, fanCount, commands, true).lastWrite == None
  {
    if commands != [] {
      var n := |commands| - 1;
      assert forall k :: 0 <= k < n ==> commands[..n][..k] == commands[..k];
      StaysInvalid(s, fanCount, commands[..n]);
    }
  }

  /** After auto mode or a forced write, the first accepted set writes, whatever failed or drifted in between. */
  lemma FirstAcceptedSetWrites(s: Fans, fanCount: nat, commands: seq<Command>, set_: Command)
    requires Valid(s) && ValidRun(commands, fanCount) && ValidCommand(set_, fanCount) && set_.Set?
    requires s.lastWrite == None && AcceptsNoSet(s, fanCount, commands)
    ensures var o := Obey(ObeyAll(s, fanCount, commands, true), fanCount, set_, true).1;
            o.Accepted? ==> o.wrote
  {
    StaysInvalid(s, fanCount, commands);
  }

  /** Dropping the cache forgets every commanded speed and the last write, and moves no fan. */
  lemma InvalidatedForgets(s: Fans)
    ensures Invalidated(s) == s.(commanded := [0, 0, 0], lastWrite := None)
  {}

  predicate AcceptsNoSetOf(s: Fans, fanCount: nat, commands: seq<Command>, fan: nat)
    requires Valid(s) && ValidRun(commands, fanCount)
  {
    forall n :: 0 <= n < |commands| && commands[n].Set? && commands[n].fan == fan ==>
      Obey(ObeyAll(s, fanCount, commands[..n], true), fanCount, commands[n], true).1.Rejected?
  }

  lemma {:induction false} StaysForgotten(s: Fans, fanCount: nat, commands: seq<Command>, fan: nat)
    requires Valid(s) && ValidRun(commands, fanCount) && fan < MAX_FANS && s.commanded[fan] == 0
    requires AcceptsNoSetOf(s, fanCount, commands, fan)
    ensures ObeyAll(s, fanCount, commands, true).commanded[fan] == 0
  {
    if commands != [] {
      var n := |commands| - 1;
      assert forall k :: 0 <= k < n ==> commands[..n][..k] == commands[..k];
      StaysForgotten(s, fanCount, commands[..n], fan);
    }
  }

  /** So each fan's own first accepted set above zero writes, even when other fans were written in between. */
  lemma ForgottenFanWrites(s: Fans, fanCount: nat, commands: seq<Command>, set_: Command)
    requires Valid(s) && ValidRun(commands, fanCount) && ValidCommand(set_, fanCount) && set_.Set?
    requires set_.fan < MAX_FANS && set_.percent > 0
    requires s.commanded[set_.fan] == 0 && AcceptsNoSetOf(s, fanCount, commands, set_.fan)
    ensures var o := Obey(ObeyAll(s, fanCount, commands, true), fanCount, set_, true).1;
            o.Accepted? ==> o.wrote
  {
    StaysForgotten(s, fanCount, commands, set_.fan);
  }
}
