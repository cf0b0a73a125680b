/**
 The deferred-step slot at lock granularity. Any number of threads share the slot:
 a consumer attempts the value it finds and clears it when the attempt was final, a
 restore stores a new value, and a profile apply attempts its own value and stores
 it or nothing. All work inside one mutex, one atomic step at a time. The slot is
 shown to be linearizable: it behaves as if attempts, restores and applies happened
 one after the other, in the order of the log.
 */
module PendingSlot {
  import opened Wrappers

  type Value = int

  /** An apply of `v` leaves nothing waiting when its attempt was final, and `v` otherwise. */
  datatype Event = Replaced(v: Value) | Attempted(v: Value, final: bool) | Applied(v: Value, final: bool)

  datatype Pc =
    | Outside
    | Consuming                         // lock taken, slot not looked at
    | Settling(v: Value, final: bool)   // operations ran, slot not yet settled
    | Replacing(v: Value)               // lock taken, nothing stored yet
    | Applying(v: Value)                // lock taken, gate not looked at
    | Storing(v: Value, final: bool)   // operations ran or were refused, nothing stored yet
    | Leaving                           // about to release the lock

  datatype State = State(slot: Option<Value>, holder: Option<nat>, threads: seq<Pc>, log: seq<Event>)

  datatype Action =
    | EnterConsume
    | EnterReplace(v: Value)
    | EnterApply(v: Value)
    | GiveUp                 // nothing pending, or the gate refused the pre-check
    | Attempt(final: bool)
    | Settle
    | Store
    | Refuse                 // the apply's pre-check
    | AttemptOwn(final: bool)
    | StoreOwn
    | Exit

  predicate Initial(s: State) {
    s.slot == None && s.holder == None && s.log == []
    && forall i :: 0 <= i < |s.threads| ==> s.threads[i] == Outside
  }

  predicate Enabled(s: State, i: nat, a: Action) {
    i < |s.threads| &&
    var pc := s.threads[i];
    match a
    case EnterConsume => pc == Outside && s.holder == None
    case EnterReplace(_) => pc == Outside && s.holder == None
    case EnterApply(_) => pc == Outside && s.holder == None
    case GiveUp => pc == Consuming
    case Attempt(_) => pc == Consuming && s.slot.Some?
    case Settle => pc.Settling?
    case Store => pc.Replacing?
    case Refuse => pc.Applying?
    case AttemptOwn(_) => pc.Applying?
    case StoreOwn => pc.Storing?
    case Exit => pc == Leaving
  }

  function Step(s: State, i: nat, a: Action): State
    requires Enabled(s, i, a)
  {
    var pc := s.threads[i];
    match a
    case EnterConsume => s.(holder := Some(i), threads := s.threads[i := Consuming])
    case EnterReplace(v) => s.(holder := Some(i), threads := s.threads[i := Replacing(v)])
    case EnterApply(v) => s.(holder := Some(i), threads := s.threads[i := Applying(v)])
    case GiveUp => s.(threads := s.threads[i := Leaving])
    case Attempt(final) =>
      s.(threads := s.threads[i := Settling(s.slot.value, final)], log := s.log + [Attempted(s.slot.value, final)])
    case Settle => s.(slot := if pc.final then None else s.slot, threads := s.threads[i := Leaving])
    case Store => s.(slot := Some(pc.v), threads := s.threads[i := Leaving], log := s.log + [Replaced(pc.v)])
    case Refuse => s.(threads := s.threads[i := Storing(pc.v, false)])
    case AttemptOwn(final) => s.(threads := s.threads[i := Storing(pc.v, final)])
    case StoreOwn =>
      s.(slot := if pc.final then None else Some(pc.v), threads := s.threads[i := Leaving],
         log := s.log + [Applied(pc.v, pc.final)])
    case Exit => s.(holder := None, threads := s.threads[i := Outside])
  }

  /** Which thread takes which action. */
  datatype Move = Move(thread: nat, action: Action)

  /** States, and the moves between them. */
  datatype Run = Run(states: seq<State>, moves: seq<Move>)

  ghost predicate IsRun(r: Run) {
    && |r.states| == |r.moves| + 1 && Initial(r.states[0])
    && forall k :: 0 <= k < |r.moves| ==> MovesAt(r, k)
  }

  predicate MovesAt(r: Run, k: int)
    requires 0 <= k < |r.moves| && |r.states| == |r.moves| + 1
  {
    var move := r.moves[k];
    Enabled(r.states[k], move.thread, move.action) && r.states[k + 1] == Step(r.states[k], move.thread, move.action)
  }

  /** The slot of the sequential specification after a log. */
  function Replay(log: seq<Event>): Option<Value> {
    if log == [] then None else
    match log[|log| - 1]
    case Replaced(v) => Some(v)
    case Attempted(_, final) => if final then None else Replay(log[..|log| - 1])
    case Applied(v, final) => if final then None else Some(v)
  }

  /** Every attempt was made on what the specification held at that moment. */
  predicate Legal(log: seq<Event>) {
    forall n :: 0 <= n < |log| && log[n].Attempted? ==> Replay(log[..n]) == Some(log[n].v)
  }

  /** The one thread that owes the slot an update, if the holder is between its attempt and settling it. */
  predicate Inv(s: State) {
    && (forall i :: 0 <= i < |s.threads| ==> (s.threads[i] != Outside <==> s.holder == Some(i)))
    && (s.holder.Some? ==> s.holder.value < |s.threads|)
    && Legal(s.log)
    && if s.holder.Some? && s.threads[s.holder.value].Settling?
       then var pc := s.threads[s.holder.value];
            s.slot == Some(pc.v) && Replay(s.log) == (if pc.final then None else s.slot)
       else s.slot == Replay(s.log)
  }

  lemma LogGrows(log: seq<Event>, e: Event)
    requires Legal(log) && (e.Attempted? ==> Replay(log) == Some(e.v))
    ensures Legal(log + [e])
    ensures Replay(log + [e]) ==
            match e
            case Replaced(v) => Some(v)
            case Attempted(_, final) => if final then None else Replay(log)
            case Applied(v, final) => if final then None else Some(v)
  {
    assert (log + [e])[..|log|] == log;
    forall n | 0 <= n < |log| && log[n].Attempted?
      ensures Replay((log + [e])[..n]) == Some(log[n].v)
    {
      assert (log + [e])[..n] == log[..n];
    }
  }

  lemma StepKeepsInv(s: State, i: nat, a: Action)
    requires Inv(s) && Enabled(s, i, a)
    ensures Inv(Step(s, i, a))
  {
    match a
    case Attempt(final) => LogGrows(s.log, Attempted(s.slot.value, final));
    case Store => LogGrows(s.log, Replaced(s.threads[i].v));
    case StoreOwn => LogGrows(s.log, Applied(s.threads[i].v, s.threads[i].final));
    case _ =>
  }

  /** Linearizability: whenever the lock is free the slot is what the log replays to, and the log is legal. */
  lemma {:induction false} SlotIsLinearizable(r: Run, k: nat)
    requires IsRun(r) && k < |r.states|
    ensures Inv(r.states[k])
    ensures Legal(r.states[k].log)
    ensures r.states[k].holder == None ==> r.states[k].slot == Replay(r.states[k].log)
  {
    if k > 0 {
      SlotIsLinearizable(r, k - 1);
      assert MovesAt(r, k - 1);
      StepKeepsInv(r.states[k - 1], r.moves[k - 1].thread, r.moves[k - 1].action);
    }
  }

  /** A consumer that clears the slot clears exactly the value it attempted, however the others interleave. */
  lemma ClearsWhatItAttempted(r: Run, k: nat)
    requires IsRun(r) && k < |r.moves| && r.moves[k].action == Settle
    ensures var i, s := r.moves[k].thread, r.states[k];
            && i < |s.threads| && s.threads[i].Settling? && s.slot == Some(s.threads[i].v)
            && r.states[k + 1].slot == if s.threads[i].final then None else s.slot
  {
    SlotIsLinearizable(r, k);
    assert MovesAt(r, k);
  }

  // ----- what threads may do next -----

  predicate IsEntry(a: Action) {
    a == EnterConsume || a.EnterReplace? || a.EnterApply?
  }

  predicate IsDone(a: Action) {
    a == GiveUp || a == Settle || a == Store || a == StoreOwn
  }

  /** The actions that may come next, by the last one alone: whole sections, one thread at a time. */
  predicate Follows(moves: seq<Move>, next: Move) {
    if moves == [] then IsEntry(next.action) else
    var i, last := moves[|moves| - 1].thread, moves[|moves| - 1].action;
    if last == Exit then IsEntry(next.action)
    else
      && next.thread == i
      && (last == EnterConsume ==> next.action == GiveUp || next.action.Attempt?)
      && (last.Attempt? ==> next.action == Settle)
      && (last.EnterReplace? ==> next.action == Store)
      && (last.EnterApply? ==> next.action == Refuse || next.action.AttemptOwn?)
      && (last == Refuse || last.AttemptOwn? ==> next.action == StoreOwn)
      && (IsDone(last) ==> next.action == Exit)
  }

  /** Where the thread that moved last stands. */
  predicate StandsAfter(s: State, moves: seq<Move>) {
    if moves == [] || moves[|moves| - 1].action == Exit then s.holder == None
    else
      var i, last := moves[|moves| - 1].thread, moves[|moves| - 1].action;
      && s.holder == Some(i) && i < |s.threads|
      && var pc := s.threads[i];
         && (last == EnterConsume ==> pc == Consuming)
         && (last.Attempt? ==> pc.Settling?)
         && (last.EnterReplace? ==> pc.Replacing?)
         && (last.EnterApply? ==> pc.Applying?)
         && (last == Refuse || last.AttemptOwn? ==> pc.Storing?)
         && (IsDone(last) ==> pc == Leaving)
  }

  lemma {:induction false} ThreadsStand(r: Run, k: nat)
    requires IsRun(r) && k < |r.states|
    ensures StandsAfter(r.states[k], r.moves[..k])
  {
    if k > 0 {
      ThreadsStand(r, k - 1);
      SlotIsLinearizable(r, k - 1);
      assert MovesAt(r, k - 1);
      assert r.moves[..k][|r.moves[..k]| - 1] == r.moves[k - 1];
    }
  }

  /** At every moment an action can be taken exactly when it comes next, and an attempt only on a waiting value. */
  lemma NextActionIff(r: Run, k: nat, i: nat, a: Action)
    requires IsRun(r) && k < |r.states| && i < |r.states[k].threads|
    ensures Enabled(r.states[k], i, a) <==>
            Follows(r.moves[..k], Move(i, a)) && (a.Attempt? ==> r.states[k].slot.Some?)
  {
    ThreadsStand(r, k);
    SlotIsLinearizable(r, k);
  }

  // ----- the slot without threads -----

  /**
   The slot as one sequential program sees it: the value last handed in, how the
   latest attempt ended, and what the slot holds and has logged. Only the actions
   matter, not who took them nor what any thread kept.
   */
  datatype Ledger = Ledger(slot: Option<Value>, argument: Value, verdict: bool, log: seq<Event>)

  function Enter(l: Ledger, a: Action): Ledger {
    match a
    case EnterReplace(v) => l.(argument := v)
    case EnterApply(v) => l.(argument := v)
    case Refuse => l.(verdict := false)
    case AttemptOwn(final) => l.(verdict := final)
    case Attempt(final) =>
      if l.slot.Some? then l.(verdict := final, log := l.log + [Attempted(l.slot.value, final)]) else l
    case Settle => if l.verdict then l.(slot := None) else l
    case Store => l.(slot := Some(l.argument), log := l.log + [Replaced(l.argument)])
    case StoreOwn =>
      l.(slot := if l.verdict then None else Some(l.argument), log := l.log + [Applied(l.argument, l.verdict)])
    case EnterConsume => l
    case GiveUp => l
    case Exit => l
  }

  function LedgerOf(moves: seq<Move>): Ledger {
    if moves == [] then Ledger(None, 0, false, [])
    else Enter(LedgerOf(moves[..|moves| - 1]), moves[|moves| - 1].action)
  }

  /** The thread in its section remembers what the ledger says. */
  predicate InStep(s: State, l: Ledger) {
    && s.slot == l.slot && s.log == l.log
    && forall i :: 0 <= i < |s.threads| ==>
         var pc := s.threads[i];
         && (pc.Replacing? || pc.Applying? || pc.Storing? ==> pc.v == l.argument)
         && (pc.Storing? || pc.Settling? ==> pc.final == l.verdict)
  }

  lemma StepKeepsInStep(s: State, l: Ledger, i: nat, a: Action)
    requires Inv(s) && InStep(s, l) && Enabled(s, i, a)
    ensures InStep(Step(s, i, a), Enter(l, a))
  {
    var t := Step(s, i, a);
    forall j | 0 <= j < |t.threads| && j != i
      ensures t.threads[j] == s.threads[j] == Outside
    {
      assert s.threads[i] != Outside || s.holder == None;
    }
  }

  /** At every moment of every run the slot and its log are what the actions alone make of them. */
  lemma {:induction false} SlotIsTheLedgers(r: Run, k: nat)
    requires IsRun(r) && k < |r.states|
    ensures InStep(r.states[k], LedgerOf(r.moves[..k]))
  {
    if k > 0 {
      SlotIsTheLedgers(r, k - 1);
      SlotIsLinearizable(r, k - 1);
      assert MovesAt(r, k - 1);
      assert r.moves[..k][..k - 1] == r.moves[..k - 1];
      StepKeepsInStep(r.states[k - 1], LedgerOf(r.moves[..k - 1]), r.moves[k - 1].thread, r.moves[k - 1].action);
    }
  }

  /** From any ledger: a refused apply leaves its value waiting, an attempted one exactly when it was not final. */
  lemma RefusedApplyKeepsItsValue(l: Ledger, v: Value, final: bool)
    ensures Enter(Enter(Enter(l, EnterApply(v)), Refuse), StoreOwn).slot == Some(v)
    ensures Enter(Enter(Enter(l, EnterApply(v)), AttemptOwn(final)), StoreOwn).slot == if final then None else Some(v)
  {}

  /** An event that leaves its value waiting. */
  predicate Leaves(e: Event, v: Value) {
    e == Replaced(v) || e == Applied(v, false)
  }

  /** An event that stores over whatever waits. */
  predicate Supersedes(e: Event) {
    e.Replaced? || e.Applied?
  }

  /** A value left waiting, by a restore or an apply, is finally attempted, superseded, or still what the slot holds. */
  lemma {:induction false} StoredValueIsNeverLost(log: seq<Event>, n: nat, v: Value)
    requires Legal(log) && n < |log| && Leaves(log[n], v)
    ensures || Replay(log) == Some(v)
            || (exists m :: n < m < |log| && log[m] == Attempted(v, true))
            || (exists m :: n < m < |log| && Supersedes(log[m]))
  {
    var last := |log| - 1;
    if n < last {
      var before := log[..last];
      assert forall m :: 0 <= m < last ==> before[..m] == log[..m];
      StoredValueIsNeverLost(before, n, v);
      if Replay(before) == Some(v) {
        assert Supersedes(log[last]) || log[last].v == v;
      } else if m :| n < m < last && before[m] == Attempted(v, true) {
        assert log[m] == Attempted(v, true);
      } else {
        var m :| n < m < last && Supersedes(before[m]);
        assert Supersedes(log[m]);
      }
    }
  }

  /** Conversely, what waits was left by the latest event that stores, and no final attempt came after it. */
  lemma {:induction false} WaitingValueWasStored(log: seq<Event>) returns (n: nat)
    requires Legal(log) && Replay(log).Some?
    ensures n < |log| && Leaves(log[n], Replay(log).value)
    ensures forall m :: n < m < |log| ==> log[m] == Attempted(Replay(log).value, false)
  {
    var last := |log| - 1;
    if log[last].Attempted? {
      assert forall m :: 0 <= m < last ==> log[..last][..m] == log[..m];
      n := WaitingValueWasStored(log[..last]);
      assert log[last].v == Replay(log).value;
      forall m | n < m < |log|
        ensures log[m] == Attempted(Replay(log).value, false)
      {
        assert m < last ==> log[..last][m] == log[m];
      }
    } else {
      n := last;
    }
  }
}
