/**
 The GUI's repaint latch and bounded update channel. Any number of senders push an
 update, swap the latch and, when they won the swap, ask for a frame. The UI starts
 a frame, clears the latch, drains the channel and ends the frame. Each of these
 is one atomic step of an interleaving transition system.
 */
module RepaintLatch {
  const CAPACITY := 100

  type Update = int

  datatype Sender = Idle | Pushed | Won

  datatype Ui = Sleeping | Started | Draining | Drawing

  /**
   `requested` is an outstanding frame request. The rest is history: every update
   received, and the numbers of dropped updates, won swaps, issued requests and
   latch clears.
   */
  datatype State = State(
    queue: seq<Update>, latch: bool, requested: bool, ui: Ui, senders: seq<Sender>,
    received: seq<Update>, dropped: nat,
    wins: nat, requests: nat, clears: nat)

  datatype Action =
    | Push(i: nat, u: Update)       // send_update, or try_send with room
    | Drop(i: nat, u: Update)       // try_send on a full channel
    | Swap(i: nat)
    | Request(i: nat)
    | StartFrame                    // a request or a timer
    | ClearLatch
    | Pop
    | FindEmpty                     // try_recv on an empty channel ends the drain
    | EndFrame

  predicate Initial(s: State) {
    && s.queue == [] && !s.latch && !s.requested && s.ui == Sleeping
    && (forall i :: 0 <= i < |s.senders| ==> s.senders[i] == Idle)
    && s.received == [] && s.dropped == s.wins == s.requests == s.clears == 0
  }

  predicate Enabled(s: State, a: Action) {
    match a
    case Push(i, _) => i < |s.senders| && s.senders[i] == Idle && |s.queue| < CAPACITY
    case Drop(i, _) => i < |s.senders| && s.senders[i] == Idle && |s.queue| == CAPACITY
    case Swap(i) => i < |s.senders| && s.senders[i] == Pushed
    case Request(i) => i < |s.senders| && s.senders[i] == Won
    case StartFrame => s.ui == Sleeping
    case ClearLatch => s.ui == Started
    case Pop => s.ui == Draining && s.queue != []
    case FindEmpty => s.ui == Draining && s.queue == []
    case EndFrame => s.ui == Drawing
  }

  function Step(s: State, a: Action): State
    requires Enabled(s, a)
  {
    match a
    case Push(i, u) =>
      s.(queue := s.queue + [u], senders := s.senders[i := Pushed])
    case Drop(_, _) => s.(dropped := s.dropped + 1)
    case Swap(i) =>
      if s.latch then s.(senders := s.senders[i := Idle])
      else s.(latch := true, wins := s.wins + 1, senders := s.senders[i := Won])
    case Request(i) => s.(requested := true, requests := s.requests + 1, senders := s.senders[i := Idle])
    case StartFrame => s.(requested := false, ui := Started)
    case ClearLatch => s.(latch := false, clears := s.clears + 1, ui := Draining)
    case Pop => s.(queue := s.queue[1..], received := s.received + [s.queue[0]])
    case FindEmpty => s.(ui := Drawing)
    case EndFrame => s.(ui := Sleeping)
  }

  /** A schedule of actions, each enabled where it is taken. */
  predicate Runs(s: State, schedule: seq<Action>)
    decreases |schedule|
  {
    schedule == [] || (Enabled(s, schedule[0]) && Runs(Step(s, schedule[0]), schedule[1..]))
  }

  function After(s: State, schedule: seq<Action>): State
    requires Runs(s, schedule)
    decreases |schedule|
  {
    if schedule == [] then s else After(Step(s, schedule[0]), schedule[1..])
  }

  // ----- the invariant -----

  predicate SomeSender(s: State, pc: Sender) {
    exists i :: 0 <= i < |s.senders| && s.senders[i] == pc
  }

  /** A set latch is backed by a frame that is coming: asked for, about to be asked for, or just begun. */
  predicate LatchIsBacked(s: State) {
    s.latch ==> s.requested || SomeSender(s, Won) || s.ui == Started
  }

  /** A waiting update will be seen: by the current drain, by a requested frame, or through a sender still at work. */
  predicate NoLostWakeup(s: State) {
    s.queue != [] ==>
      || s.ui == Started || s.ui == Draining
      || s.requested
      || SomeSender(s, Pushed) || SomeSender(s, Won)
  }

  function Count(senders: seq<Sender>, pc: Sender): nat {
    if senders == [] then 0 else Count(senders[1..], pc) + if senders[0] == pc then 1 else 0
  }

  predicate Inv(s: State) {
    && LatchIsBacked(s)
    && NoLostWakeup(s)
    && |s.queue| <= CAPACITY
    && s.wins <= s.clears + (if s.latch then 1 else 0)
    && s.requests + Count(s.senders, Won) == s.wins
  }

  lemma {:induction false} CountUpdate(senders: seq<Sender>, i: nat, to: Sender, pc: Sender)
    requires i < |senders|
    ensures Count(senders[i := to], pc) + (if senders[i] == pc then 1 else 0)
         == Count(senders, pc) + (if to == pc then 1 else 0)
  {
    var after := senders[i := to];
    if i == 0 {
      assert after[1..] == senders[1..];
    } else {
      assert after[1..] == senders[1..][i - 1 := to];
      CountUpdate(senders[1..], i - 1, to, pc);
    }
  }

  lemma {:induction false} CountOfNone(senders: seq<Sender>, pc: Sender)
    requires forall i :: 0 <= i < |senders| ==> senders[i] != pc
    ensures Count(senders, pc) == 0
  {
    if senders != [] {
      assert forall i :: 0 <= i < |senders[1..]| ==> senders[1..][i] == senders[i + 1];
      CountOfNone(senders[1..], pc);
    }
  }

  /** A sender other than `i` keeps its place when `i` moves. */
  lemma OthersStay(s: State, i: nat, to: Sender, pc: Sender)
    requires i < |s.senders| && SomeSender(s, pc) && s.senders[i] != pc
    ensures SomeSender(s.(senders := s.senders[i := to]), pc)
  {
    var k :| 0 <= k < |s.senders| && s.senders[k] == pc;
    assert s.senders[i := to][k] == pc;
  }

  lemma SenderStepKeepsWakeups(s: State, a: Action)
    requires LatchIsBacked(s) && NoLostWakeup(s) && Enabled(s, a)
    requires a.Push? || a.Swap? || a.Request?
    ensures LatchIsBacked(Step(s, a)) && NoLostWakeup(Step(s, a))
  {
    var t := Step(s, a);
    assert t.senders[a.i] == if a.Push? then Pushed else if a.Swap? && !s.latch then Won else Idle;
    if SomeSender(s, Won) && s.senders[a.i] != Won {
      OthersStay(s, a.i, t.senders[a.i], Won);
    }
    if SomeSender(s, Pushed) && s.senders[a.i] != Pushed {
      OthersStay(s, a.i, t.senders[a.i], Pushed);
    }
  }

  lemma StepKeepsInv(s: State, a: Action)
    requires Inv(s) && Enabled(s, a)
    ensures Inv(Step(s, a))
  {
    if a.Push? || a.Swap? || a.Request? {
      SenderStepKeepsWakeups(s, a);
      CountUpdate(s.senders, a.i, Step(s, a).senders[a.i], Won);
    }
  }

  lemma {:induction false} InvHolds(s: State, schedule: seq<Action>)
    requires Inv(s) && Runs(s, schedule)
    ensures Inv(After(s, schedule))
    decreases |schedule|
  {
    if schedule != [] {
      StepKeepsInv(s, schedule[0]);
      InvHolds(Step(s, schedule[0]), schedule[1..]);
    }
  }

  lemma InvInitially(s: State)
    requires Initial(s)
    ensures Inv(s)
  {
    CountOfNone(s.senders, Won);
  }

  // ----- theorems over every schedule -----

  /** No lost wakeup, for any number of senders and any interleaving. */
  lemma WakeupIsNeverLost(s: State, schedule: seq<Action>)
    requires Initial(s) && Runs(s, schedule)
    ensures NoLostWakeup(After(s, schedule))
  {
    InvInitially(s);
    InvHolds(s, schedule);
  }

  function SentBy(a: Action): seq<Update> {
    if a.Push? then [a.u] else []
  }

  /** The updates a schedule puts into the channel, in order: what its pushes carry. */
  function Sent(schedule: seq<Action>): seq<Update>
    decreases |schedule|
  {
    if schedule == [] then [] else SentBy(schedule[0]) + Sent(schedule[1..])
  }

  function Drops(schedule: seq<Action>): nat
    decreases |schedule|
  {
    if schedule == [] then 0 else (if schedule[0].Drop? then 1 else 0) + Drops(schedule[1..])
  }

  function Requests(schedule: seq<Action>): nat
    decreases |schedule|
  {
    if schedule == [] then 0 else (if schedule[0].Request? then 1 else 0) + Requests(schedule[1..])
  }

  function Clears(schedule: seq<Action>): nat
    decreases |schedule|
  {
    if schedule == [] then 0 else (if schedule[0] == ClearLatch then 1 else 0) + Clears(schedule[1..])
  }

  lemma StepConserves(s: State, a: Action)
    requires Enabled(s, a)
    ensures var t := Step(s, a);
            && t.received + t.queue == s.received + s.queue + SentBy(a)
            && t.dropped == s.dropped + (if a.Drop? then 1 else 0)
            && t.requests == s.requests + (if a.Request? then 1 else 0)
            && t.clears == s.clears + (if a == ClearLatch then 1 else 0)
  {}

  /** Conservation, from any state: what was received or waits is what was there and what was sent since, in order. */
  lemma {:induction false} UpdatesAreConserved(s: State, schedule: seq<Action>)
    requires Runs(s, schedule)
    ensures After(s, schedule).received + After(s, schedule).queue == s.received + s.queue + Sent(schedule)
    decreases |schedule|
  {
    if schedule == [] {
      assert s.received + s.queue + [] == s.received + s.queue;
    } else {
      var t, rest := Step(s, schedule[0]), schedule[1..];
      StepConserves(s, schedule[0]);
      UpdatesAreConserved(t, rest);
      Together(s.received + s.queue, SentBy(schedule[0]), Sent(rest));
    }
  }

  lemma Together(a: seq<Update>, b: seq<Update>, c: seq<Update>)
    ensures a + b + c == a + (b + c)
  {}

  /** And every drop, request and clear is counted. */
  lemma {:induction false} ActionsAreCounted(s: State, schedule: seq<Action>)
    requires Runs(s, schedule)
    ensures var t := After(s, schedule);
            && t.dropped == s.dropped + Drops(schedule)
            && t.requests == s.requests + Requests(schedule)
            && t.clears == s.clears + Clears(schedule)
    decreases |schedule|
  {
    if schedule != [] {
      StepConserves(s, schedule[0]);
      ActionsAreCounted(Step(s, schedule[0]), schedule[1..]);
    }
  }

  /** Updates sent arrive exactly once and in order, the dropped ones are counted, and the channel stays bounded. */
  lemma UpdatesArriveInOrder(s: State, schedule: seq<Action>)
    requires Initial(s) && Runs(s, schedule)
    ensures var t := After(s, schedule);
            && t.received + t.queue == Sent(schedule) && t.dropped == Drops(schedule) && |t.queue| <= CAPACITY
  {
    InvInitially(s);
    InvHolds(s, schedule);
    UpdatesAreConserved(s, schedule);
    ActionsAreCounted(s, schedule);
  }

  /** At rest, with nobody mid-send and no frame asked for, everything sent was received and the latch is free. */
  lemma QuiescenceMeansDrained(s: State, schedule: seq<Action>)
    requires Initial(s) && Runs(s, schedule)
    requires var t := After(s, schedule);
             t.ui == Sleeping && !t.requested && forall i :: 0 <= i < |t.senders| ==> t.senders[i] == Idle
    ensures var t := After(s, schedule); t.queue == [] && t.received == Sent(schedule) && !t.latch
  {
    InvInitially(s);
    InvHolds(s, schedule);
    UpdatesAreConserved(s, schedule);
    assert [] + [] + Sent(schedule) == Sent(schedule);
    assert After(s, schedule).received + [] == After(s, schedule).received;
  }

  predicate ClearsIn(schedule: seq<Action>) {
    exists k :: 0 <= k < |schedule| && schedule[k] == ClearLatch
  }

  /** Between two clears at most one sender wins the swap. */
  lemma {:induction false} OneWinBetweenClears(s: State, schedule: seq<Action>)
    requires Runs(s, schedule) && !ClearsIn(schedule)
    ensures After(s, schedule).wins <= s.wins + (if s.latch then 0 else 1)
    ensures s.latch ==> After(s, schedule).latch
    ensures !s.latch && After(s, schedule).wins > s.wins ==> After(s, schedule).latch
    decreases |schedule|
  {
    if schedule != [] {
      assert schedule[0] != ClearLatch;
      var rest := schedule[1..];
      assert forall k :: 0 <= k < |rest| ==> rest[k] == schedule[k + 1];
      OneWinBetweenClears(Step(s, schedule[0]), rest);
    }
  }

  /** Over any run the frames asked for never outnumber the latch clears by more than one. */
  lemma RequestsAreCoalesced(s: State, schedule: seq<Action>)
    requires Initial(s) && Runs(s, schedule)
    ensures Requests(schedule) <= Clears(schedule) + 1
  {
    InvInitially(s);
    InvHolds(s, schedule);
    UpdatesAreConserved(s, schedule);
    ActionsAreCounted(s, schedule);
  }

  /** Between two clears: at most one new winner, and one request for each winner that got as far, old or new. */
  lemma RequestsBetweenClears(s: State, schedule: seq<Action>)
    requires Inv(s) && Runs(s, schedule) && !ClearsIn(schedule)
    ensures var t := After(s, schedule);
            && t.requests - s.requests == t.wins - s.wins + Count(s.senders, Won) - Count(t.senders, Won)
            && t.wins - s.wins <= (if s.latch then 0 else 1)
  {
    InvHolds(s, schedule);
    OneWinBetweenClears(s, schedule);
  }

  /** Whatever happens before the next clear, at most one request is issued. */
  ghost predicate OneRequestPerFrame(s: State) {
    forall schedule :: Runs(s, schedule) && !ClearsIn(schedule) ==> After(s, schedule).requests <= s.requests + 1
  }

  /**
   The exact condition, checked right after a clear: one request per frame is
   guaranteed if and only if no winner of an earlier swap has yet to ask for its frame.
   */
  lemma OneRequestPerFrameIff(s: State)
    requires Inv(s) && s.ui == Draining && !s.latch
    ensures OneRequestPerFrame(s) <==> Count(s.senders, Won) == 0
  {
    if Count(s.senders, Won) == 0 {
      forall schedule | Runs(s, schedule) && !ClearsIn(schedule)
        ensures After(s, schedule).requests <= s.requests + 1
      {
        RequestsBetweenClears(s, schedule);
      }
    } else {
      var schedule := DelayedWinnerAsksTwice(s);
      assert After(s, schedule).requests == s.requests + 2;
    }
  }

  /** The delayed winner asks, makes room if need be, sends again, wins the cleared latch and asks again. */
  lemma DelayedWinnerAsksTwice(s: State) returns (schedule: seq<Action>)
    requires s.ui == Draining && !s.latch && |s.queue| <= CAPACITY && Count(s.senders, Won) > 0
    ensures Runs(s, schedule) && !ClearsIn(schedule) && After(s, schedule).requests == s.requests + 2
  {
    if forall i :: 0 <= i < |s.senders| ==> s.senders[i] != Won {
      CountOfNone(s.senders, Won);
    }
    var i: nat :| i < |s.senders| && s.senders[i] == Won;
    if |s.queue| < CAPACITY {
      schedule := [Request(i), Push(i, 0), Swap(i), Request(i)];
      RunsFour(s, Request(i), Push(i, 0), Swap(i), Request(i));
    } else {
      var popped := Step(s, Pop);
      var tail := [Request(i), Push(i, 0), Swap(i), Request(i)];
      RunsFour(popped, Request(i), Push(i, 0), Swap(i), Request(i));
      schedule := [Pop, Request(i), Push(i, 0), Swap(i), Request(i)];
      assert schedule[1..] == tail;
    }
  }

  lemma RunsOne(s: State, a: Action)
    requires Enabled(s, a)
    ensures Runs(s, [a]) && After(s, [a]) == Step(s, a)
  {}

  lemma RunsTwo(s: State, a: Action, b: Action)
    requires Enabled(s, a) && Enabled(Step(s, a), b)
    ensures Runs(s, [a, b]) && After(s, [a, b]) == Step(Step(s, a), b)
  {
    RunsOne(Step(s, a), b);
    assert [a, b][1..] == [b];
  }

  lemma RunsFour(s: State, a: Action, b: Action, c: Action, d: Action)
    requires Enabled(s, a) && Enabled(Step(s, a), b)
    requires var t := Step(Step(s, a), b); Enabled(t, c) && Enabled(Step(t, c), d)
    ensures Runs(s, [a, b, c, d]) && After(s, [a, b, c, d]) == Step(Step(Step(Step(s, a), b), c), d)
  {
    var s1 := Step(s, a);
    var s2 := Step(s1, b);
    RunsTwo(s2, c, d);
    assert [b, c, d][1..] == [c, d];
    assert [a, b, c, d][1..] == [b, c, d];
  }

  /** Requests themselves are not one per frame: a winner delayed across a clear makes two before the next clear. */
  lemma TwoRequestsBetweenClears(s: State, u: Update)
    requires Initial(s) && |s.senders| == 2
    ensures var first := [Push(0, u), Swap(0), StartFrame, ClearLatch];
            var second := [Request(0), Push(1, u), Swap(1), Request(1)];
            && Runs(s, first) && Runs(After(s, first), second) && !ClearsIn(second)
            && After(After(s, first), second).requests == After(s, first).requests + 2
  {
    assert s.senders == [Idle, Idle];
    RunsFour(s, Push(0, u), Swap(0), StartFrame, ClearLatch);
    var t := After(s, [Push(0, u), Swap(0), StartFrame, ClearLatch]);
    assert t == s.(queue := [u], ui := Draining, senders := [Won, Idle], wins := 1, clears := 1);
    RunsFour(t, Request(0), Push(1, u), Swap(1), Request(1));
  }

  // ----- the state by its history -----

  lemma {:induction false} RunsSnoc(s: State, schedule: seq<Action>)
    requires Runs(s, schedule) && schedule != []
    ensures var n := |schedule| - 1;
            && Runs(s, schedule[..n]) && Enabled(After(s, schedule[..n]), schedule[n])
            && After(s, schedule) == Step(After(s, schedule[..n]), schedule[n])
    decreases |schedule|
  {
    var n := |schedule| - 1;
    if n > 0 {
      RunsSnoc(Step(s, schedule[0]), schedule[1..]);
      assert schedule[..n][1..] == schedule[1..][..n - 1];
    }
  }

  /** Where the UI is, by what it did last. */
  function UiPhase(schedule: seq<Action>): Ui {
    if schedule == [] then Sleeping else
    match schedule[|schedule| - 1]
    case StartFrame => Started
    case ClearLatch => Draining
    case FindEmpty => Drawing
    case EndFrame => Sleeping
    case _ => UiPhase(schedule[..|schedule| - 1])
  }

  /** Was the latch swapped since it was last cleared? */
  predicate SwappedSinceClear(schedule: seq<Action>) {
    schedule != [] &&
    match schedule[|schedule| - 1]
    case Swap(_) => true
    case ClearLatch => false
    case _ => SwappedSinceClear(schedule[..|schedule| - 1])
  }

  /** Is a frame asked for that has not started? */
  predicate RequestStands(schedule: seq<Action>) {
    schedule != [] &&
    match schedule[|schedule| - 1]
    case Request(_) => true
    case StartFrame => false
    case _ => RequestStands(schedule[..|schedule| - 1])
  }

  /** Where a sender is, by its own last action; only the first swap after a clear is won. */
  function SenderPhase(schedule: seq<Action>, i: nat): Sender {
    if schedule == [] then Idle else
    var before := schedule[..|schedule| - 1];
    match schedule[|schedule| - 1]
    case Push(j, _) => if j == i then Pushed else SenderPhase(before, i)
    case Swap(j) =>
      if j != i then SenderPhase(before, i) else if SwappedSinceClear(before) then Idle else Won
    case Request(j) => if j == i then Idle else SenderPhase(before, i)
    case _ => SenderPhase(before, i)
  }

  predicate StateIs(t: State, schedule: seq<Action>) {
    && t.ui == UiPhase(schedule) && t.latch == SwappedSinceClear(schedule) && t.requested == RequestStands(schedule)
    && forall i :: 0 <= i < |t.senders| ==> t.senders[i] == SenderPhase(schedule, i)
  }

  lemma {:induction false} StateByHistory(s: State, schedule: seq<Action>)
    requires Initial(s) && Runs(s, schedule)
    ensures StateIs(After(s, schedule), schedule) && |After(s, schedule).senders| == |s.senders|
    decreases |schedule|
  {
    if schedule != [] {
      RunsSnoc(s, schedule);
      StateByHistory(s, schedule[..|schedule| - 1]);
    }
  }

  function Pops(schedule: seq<Action>): nat
    decreases |schedule|
  {
    if schedule == [] then 0 else (if schedule[0] == Pop then 1 else 0) + Pops(schedule[1..])
  }

  lemma {:induction false} PopsAreReceived(s: State, schedule: seq<Action>)
    requires Runs(s, schedule)
    ensures |After(s, schedule).received| == |s.received| + Pops(schedule)
    decreases |schedule|
  {
    if schedule != [] {
      PopsAreReceived(Step(s, schedule[0]), schedule[1..]);
    }
  }

  /**
   What may come next by what came before: a sender sends, swaps and asks in turn, a
   send going in with fewer than 100 updates waiting and being dropped with 100; the UI
   starts, clears, pops while something waits, and ends its frame.
   */
  predicate MayCome(schedule: seq<Action>, senders: nat, a: Action) {
    var waiting := |Sent(schedule)| - Pops(schedule);
    match a
    case Push(i, _) => i < senders && SenderPhase(schedule, i) == Idle && waiting < 100
    case Drop(i, _) => i < senders && SenderPhase(schedule, i) == Idle && waiting == 100
    case Swap(i) => i < senders && SenderPhase(schedule, i) == Pushed
    case Request(i) => i < senders && SenderPhase(schedule, i) == Won
    case StartFrame => UiPhase(schedule) == Sleeping
    case ClearLatch => UiPhase(schedule) == Started
    case Pop => UiPhase(schedule) == Draining && waiting > 0
    case FindEmpty => UiPhase(schedule) == Draining && waiting == 0
    case EndFrame => UiPhase(schedule) == Drawing
  }

  lemma NextStepIff(s: State, schedule: seq<Action>, a: Action)
    requires Initial(s) && Runs(s, schedule)
    ensures Enabled(After(s, schedule), a) <==> MayCome(schedule, |s.senders|, a)
  {
    StateByHistory(s, schedule);
    UpdatesArriveInOrder(s, schedule);
    PopsAreReceived(s, schedule);
    var t := After(s, schedule);
    assert |t.received + t.queue| == |t.received| + |t.queue|;
  }

  // ----- progress without the fallback timer -----

  /** Nothing new is sent, and frames start only because one was asked for. */
  predicate TimerFree(s: State, schedule: seq<Action>)
    requires Runs(s, schedule)
    decreases |schedule|
  {
    schedule != [] ==>
      && !schedule[0].Push? && !schedule[0].Drop?
      && (schedule[0] == StartFrame ==> s.requested)
      && TimerFree(Step(s, schedule[0]), schedule[1..])
  }

  /** Nothing that is not a new send or the timer can move. */
  ghost predicate Quiet(s: State) {
    forall a :: Enabled(s, a) && !a.Push? && !a.Drop? ==> a == StartFrame && !s.requested
  }

  /** A bound on the steps left: a swap may lead to a request, a request to a frame of four steps. */
  function Work(s: State): nat {
    6 * Count(s.senders, Pushed) + 5 * Count(s.senders, Won) + (if s.requested then 4 else 0) + |s.queue|
    + match s.ui case Started => 3 case Draining => 2 case Drawing => 1 case Sleeping => 0
  }

  lemma TimerFreeStepWorks(s: State, a: Action)
    requires Enabled(s, a) && !a.Push? && !a.Drop? && (a == StartFrame ==> s.requested)
    ensures Work(Step(s, a)) < Work(s)
  {
    if a.Swap? || a.Request? {
      var to := Step(s, a).senders[a.i];
      CountUpdate(s.senders, a.i, to, Pushed);
      CountUpdate(s.senders, a.i, to, Won);
    }
  }

  /** What moves next while an update waits. */
  ghost function Prompted(s: State): (a: Action)
    requires Inv(s) && s.queue != []
    ensures Enabled(s, a) && !a.Push? && !a.Drop? && (a == StartFrame ==> s.requested)
  {
    match s.ui
    case Drawing => EndFrame
    case Started => ClearLatch
    case Draining => Pop
    case Sleeping =>
      if s.requested then StartFrame
      else if SomeSender(s, Won) then
        var i :| 0 <= i < |s.senders| && s.senders[i] == Won;
        Request(i)
      else
        var i :| 0 <= i < |s.senders| && s.senders[i] == Pushed;
        Swap(i)
  }

  /**
   Progress: from every reachable state, whatever order senders and UI move in, the
   requests under way run out after boundedly many steps without the timer.
   */
  lemma {:induction false} TimerFreeRunsEnd(s: State, schedule: seq<Action>)
    requires Inv(s) && Runs(s, schedule) && TimerFree(s, schedule)
    ensures |schedule| + Work(After(s, schedule)) <= Work(s) && Sent(schedule) == []
    ensures Quiet(After(s, schedule)) ==> After(s, schedule).queue == []
    decreases |schedule|
  {
    if schedule == [] {
      assert s.queue != [] ==> Enabled(s, Prompted(s));
    } else {
      StepKeepsInv(s, schedule[0]);
      TimerFreeStepWorks(s, schedule[0]);
      TimerFreeRunsEnd(Step(s, schedule[0]), schedule[1..]);
    }
  }

  /** And when they have run out, the UI has received everything that was ever sent. */
  lemma DrainsWithoutTimer(s: State, before: seq<Action>, schedule: seq<Action>)
    requires Initial(s) && Runs(s, before)
    requires Runs(After(s, before), schedule) && TimerFree(After(s, before), schedule)
    ensures |schedule| <= Work(After(s, before))
    ensures Quiet(After(After(s, before), schedule)) ==> After(After(s, before), schedule).received == Sent(before)
  {
    var t := After(s, before);
    InvInitially(s);
    InvHolds(s, before);
    TimerFreeRunsEnd(t, schedule);
    UpdatesAreConserved(s, before);
    UpdatesAreConserved(t, schedule);
    assert [] + [] + Sent(before) == Sent(before);
    assert After(t, schedule).received + [] == After(t, schedule).received;
    assert t.received + t.queue + [] == t.received + t.queue;
  }
}
